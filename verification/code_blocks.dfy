/** `parser_to_writer` (src/injest/generate.rs:260-318): the Markdown event stream on its way
    to the HTML writer. The text of a fenced code block is collected while its events pass
    through, and the block's end event is replaced by the block rendered as highlighted
    HTML. Markdown parsing and the HTML writer are not modelled: the model maps the event
    stream to the stream the writer receives. */
module CodeBlocks {
  import opened Wrappers
  import opened Strings
  import opened Languages
  import opened Highlight

  datatype CodeBlockKind = Indented | Fenced(info: string)

  /** The tags of `pulldown_cmark::Tag` that matter here. */
  datatype MdTag = CodeBlock(kind: CodeBlockKind) | OtherTag(name: string)

  /** `pulldown_cmark::Event`, with the events that are only passed through collapsed. */
  datatype MdEvent =
    | Start(tag: MdTag)
    | End(tag: MdTag)
    | Text(text: string)
    | Html(html: string)
    | OtherEvent(name: string)

  /** `struct Code`: the language of the open fenced block and its text so far. */
  datatype Code = Code(language: string, code: string)

  predicate IsFencedStart(e: MdEvent)
  {
    e.Start? && e.tag.CodeBlock? && e.tag.kind.Fenced?
  }

  predicate IsFencedEnd(e: MdEvent)
  {
    e.End? && e.tag.CodeBlock? && e.tag.kind.Fenced?
  }

  /** The accumulator after one event: a fenced start opens an empty block, a fenced end
      takes it, text inside a block is appended to it. */
  function Step(code: Option<Code>, e: MdEvent): Option<Code>
  {
    if IsFencedStart(e) then Some(Code(e.tag.kind.info, ""))
    else if IsFencedEnd(e) then None
    else if e.Text? && code.Some? then Some(Code(code.value.language, code.value.code + e.text))
    else code
  }

  /** The accumulator after a run of events. */
  function Pending(es: seq<MdEvent>): Option<Code>
  {
    if es == [] then None else Step(Pending(es[..|es| - 1]), es[|es| - 1])
  }

  const CodeOpen: string := "<div class=\"code-block\"><code>"
  const CodeClose: string := "</div></code></pre>"

  /** `<div class="lang-tag">LANG</div>` for a non-empty language; the language is not escaped. */
  function LangTag(language: string): string
  {
    if language != "" then "<div class=\"lang-tag\">" + language + "</div>" else ""
  }

  /** The HTML that replaces a fenced block's end: `<pre>`, the language tag, the code
      wrapper, the highlighted code or, when highlighting returns an error, the escaped
      code, and the closing tags. A highlighter panic aborts. */
  function BlockHtml(code: Code, highlighter: Highlighter): Result<string, HighlightError>
  {
    match HighlightedCode(code.code, Some(code.language), highlighter)
    case Ok(body) => Ok("<pre>" + LangTag(code.language) + CodeOpen + body + CodeClose)
    case Err(e) =>
      if IsPanic(e) then Err(e)
      else Ok("<pre>" + LangTag(code.language) + CodeOpen + EncodeSafe(code.code) + CodeClose)
  }

  /** What the writer receives for one event, given the accumulator before it. */
  function OutEvent(code: Option<Code>, e: MdEvent, highlighter: Highlighter): Result<MdEvent, HighlightError>
  {
    if IsFencedEnd(e) && code.Some? then
      match BlockHtml(code.value, highlighter)
      case Ok(html) => Ok(Html(html))
      case Err(err) => Err(err)
    else Ok(e)
  }

  /** The stream the writer receives, or the panic that stops it. */
  function Translate(es: seq<MdEvent>, highlighter: Highlighter): Result<seq<MdEvent>, HighlightError>
  {
    if es == [] then Ok([])
    else
      match Translate(es[..|es| - 1], highlighter)
      case Err(e) => Err(e)
      case Ok(out) =>
        match OutEvent(Pending(es[..|es| - 1]), es[|es| - 1], highlighter)
        case Err(e) => Err(e)
        case Ok(e) => Ok(out + [e])
  }

  /** The stream keeps its length and every event except the end of a fenced block with a
      pending block, which becomes the block's HTML. */
  lemma {:induction false} TranslateShape(es: seq<MdEvent>, highlighter: Highlighter)
    requires Translate(es, highlighter).Ok?
    ensures |Translate(es, highlighter).value| == |es|
    ensures forall i :: 0 <= i < |es| ==>
      && OutEvent(Pending(es[..i]), es[i], highlighter).Ok?
      && Translate(es, highlighter).value[i] == OutEvent(Pending(es[..i]), es[i], highlighter).value
  {
    if es != [] {
      var init := es[..|es| - 1];
      TranslateShape(init, highlighter);
      var out := Translate(init, highlighter).value;
      var last := OutEvent(Pending(init), es[|es| - 1], highlighter).value;
      assert Translate(es, highlighter).value == out + [last];
      forall i | 0 <= i < |es|
        ensures OutEvent(Pending(es[..i]), es[i], highlighter).Ok?
        ensures Translate(es, highlighter).value[i] == OutEvent(Pending(es[..i]), es[i], highlighter).value
      {
        if i < |init| {
          assert es[..i] == init[..i];
          assert es[i] == init[i];
        } else {
          assert es[..i] == init;
        }
      }
    }
  }

  /** What the writer receives for an event: the event itself, except for the end of a
      fenced block with a pending block. */
  lemma OutEventShape(code: Option<Code>, e: MdEvent, highlighter: Highlighter)
    requires OutEvent(code, e, highlighter).Ok?
    ensures !(IsFencedEnd(e) && code.Some?) ==> OutEvent(code, e, highlighter).value == e
    ensures IsFencedEnd(e) && code.Some? ==>
      BlockHtml(code.value, highlighter).Ok? &&
      OutEvent(code, e, highlighter).value == Html(BlockHtml(code.value, highlighter).value)
  {
  }

  /** A block in a language the highlighter does not know, including a block with no
      language, is written as its escaped code. */
  lemma UnknownLanguageEscaped(code: Code, highlighter: Highlighter)
    requires LanguageKey(code.language).None?
    ensures BlockHtml(code, highlighter) ==
      Ok("<pre>" + LangTag(code.language) + CodeOpen + EncodeSafe(code.code) + CodeClose)
  {
  }

  lemma NoLanguageNoTag(code: string, highlighter: Highlighter)
    ensures BlockHtml(Code("", code), highlighter) ==
      Ok("<pre>" + CodeOpen + EncodeSafe(code) + CodeClose)
  {
    assert LanguageKey("").None? by {
      assert AsciiLower("") == "";
    }
    assert LangTag("") == "";
    assert "<pre>" + "" == "<pre>";
  }

  /** The text a fenced block collects is exactly the concatenation of its text events. */
  lemma {:induction false} PendingCollectsText(es: seq<MdEvent>, lang: string, texts: seq<string>)
    requires |es| == |texts| + 1 && es[0] == Start(CodeBlock(Fenced(lang)))
    requires forall i :: 1 <= i < |es| ==> es[i] == Text(texts[i - 1])
    ensures Pending(es) == Some(Code(lang, Concat(texts)))
  {
    if |texts| > 0 {
      var init := es[..|es| - 1];
      PendingCollectsText(init, lang, texts[..|texts| - 1]);
    }
  }

  function Concat(ts: seq<string>): string
  {
    if ts == [] then "" else Concat(ts[..|ts| - 1]) + ts[|ts| - 1]
  }

  /** The rendered block in order (generate.rs:287-300). */
  method WriteBlock(code: Code, highlighter: Highlighter) returns (r: Result<string, HighlightError>)
    ensures r == BlockHtml(code, highlighter)
  {
    var out := new StringWriter();
    out.Write("<pre>");
    if code.language != "" {
      out.Write("<div class=\"lang-tag\">" + code.language + "</div>");
    }
    out.Write(CodeOpen);
    ghost var prefix := "<pre>" + LangTag(code.language) + CodeOpen;
    assert out.text == prefix;
    var written := ParseHighlightWriteCode(out, code.code, Some(code.language), highlighter);
    if written.Err? {
      if IsPanic(written.error) {
        return Err(written.error);
      }
      EscapeToWriter(out, code.code);
    }
    out.Write(CodeClose);
    r := Ok(out.text);
  }

  /** `parser_to_writer`'s event map, run over the whole stream. */
  method ParserToWriter(events: seq<MdEvent>, highlighter: Highlighter) returns (r: Result<seq<MdEvent>, HighlightError>)
    ensures r == Translate(events, highlighter)
  {
    var code: Option<Code> := None;
    var out: seq<MdEvent> := [];
    var i := 0;
    while i < |events|
      invariant 0 <= i <= |events|
      invariant code == Pending(events[..i])
      invariant Translate(events[..i], highlighter) == Ok(out)
    {
      var event := events[i];
      assert events[..i + 1][..i] == events[..i];
      var emitted := event;
      if IsFencedStart(event) {
        code := Some(Code(event.tag.kind.info, ""));
      } else if IsFencedEnd(event) {
        if code.Some? {
          var block := WriteBlock(code.value, highlighter);
          if block.Err? {
            TranslateFirstError(events, highlighter, i + 1);
            return Err(block.error);
          }
          emitted := Html(block.value);
        }
        code := None;
      } else if event.Text? && code.Some? {
        code := Some(Code(code.value.language, code.value.code + event.text));
      }
      out := out + [emitted];
      i := i + 1;
    }
    assert events[..|events|] == events;
    r := Ok(out);
  }

  /** Once the stream has panicked, later events do not change that. */
  lemma {:induction false} TranslateFirstError(es: seq<MdEvent>, highlighter: Highlighter, n: nat)
    requires n <= |es| && Translate(es[..n], highlighter).Err?
    ensures Translate(es, highlighter) == Translate(es[..n], highlighter)
    decreases |es| - n
  {
    if n < |es| {
      assert es[..n + 1][..n] == es[..n];
      TranslateFirstError(es, highlighter, n + 1);
    } else {
      assert es[..n] == es;
    }
  }
}
