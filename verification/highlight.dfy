/** Highlighted code (src/injest/generate.rs:320-359): the events of the syntax highlighter
    written as HTML, with source text escaped by `html_escape::encode_safe`. */
module Highlight {
  import opened Wrappers
  import opened Strings
  import opened Languages

  // ---------------------------------------------------------------------------------------
  // `html_escape::encode_safe`.

  /** The characters `encode_safe` replaces. */
  predicate IsEscaped(c: char)
  {
    c == '&' || c == '<' || c == '>' || c == '"' || c == '\'' || c == '/'
  }

  /** The characters that can open, close or delimit markup. */
  predicate IsMarkup(c: char)
  {
    c == '<' || c == '>' || c == '"' || c == '\'' || c == '/'
  }

  function EscapeChar(c: char): (r: string)
    ensures |r| > 0 && (r[0] == '&' <==> IsEscaped(c))
    ensures forall i :: 0 <= i < |r| ==> !IsMarkup(r[i])
  {
    match c
    case '&' => "&amp;"
    case '<' => "&lt;"
    case '>' => "&gt;"
    case '"' => "&quot;"
    case '\'' => "&#x27;"
    case '/' => "&#x2F;"
    case _ => [c]
  }

  /** The escaped text: each character in turn, the six special ones as entities. */
  function EncodeSafe(s: string): (r: string)
    ensures forall i :: 0 <= i < |r| ==> !IsMarkup(r[i])
    ensures |r| >= |s|
  {
    if s == [] then [] else EscapeChar(s[0]) + EncodeSafe(s[1..])
  }

  predicate StartsWith(s: string, p: string)
  {
    |p| <= |s| && s[..|p|] == p
  }

  /** The character an entity at the start of `s` stands for, and the entity's length. */
  function EntityPrefix(s: string): Option<(char, nat)>
  {
    if |s| < 4 || s[0] != '&' then None
    else if s[1] == 'a' then (if StartsWith(s, "&amp;") then Some(('&', 5)) else None)
    else if s[1] == 'l' then (if StartsWith(s, "&lt;") then Some(('<', 4)) else None)
    else if s[1] == 'g' then (if StartsWith(s, "&gt;") then Some(('>', 4)) else None)
    else if s[1] == 'q' then (if StartsWith(s, "&quot;") then Some(('"', 6)) else None)
    else if StartsWith(s, "&#x27;") then Some(('\'', 6))
    else if StartsWith(s, "&#x2F;") then Some(('/', 6))
    else None
  }

  /** The inverse of `EncodeSafe`: the six entities back to their characters. */
  function Unescape(s: string): string
    decreases |s|
  {
    if s == [] then []
    else
      match EntityPrefix(s)
      case Some((c, n)) => if 0 < n <= |s| then [c] + Unescape(s[n..]) else [s[0]] + Unescape(s[1..])
      case None => [s[0]] + Unescape(s[1..])
  }

  lemma EntityPrefixPlain(c: char, rest: string)
    requires !IsEscaped(c)
    ensures EntityPrefix([c] + rest) == None
  {
    assert ([c] + rest)[0] == c;
  }

  lemma EntityPrefixEntity(c: char, rest: string)
    requires IsEscaped(c)
    ensures EntityPrefix(EscapeChar(c) + rest) == Some((c, |EscapeChar(c)|))
  {
    var e := EscapeChar(c);
    var s := e + rest;
    assert s[..|e|] == e;
    assert forall i :: 0 <= i < |e| ==> s[i] == e[i];
    if c == '\'' {
      assert s[1] == '#' && s[4] == '7';
      assert !StartsWith(s, "&#x2F;") ==> s[..6] != "&#x2F;";
    } else if c == '/' {
      assert s[1] == '#' && s[4] == 'F';
      assert s[..6][4] == 'F';
    }
  }

  lemma UnescapeEscapeChar(c: char, rest: string)
    ensures Unescape(EscapeChar(c) + rest) == [c] + Unescape(rest)
  {
    var s := EscapeChar(c) + rest;
    assert s[|EscapeChar(c)|..] == rest;
    if IsEscaped(c) {
      EntityPrefixEntity(c, rest);
    } else {
      EntityPrefixPlain(c, rest);
      assert s[1..] == rest;
    }
  }

  /** Escaping loses nothing: unescaping gives the original text back. */
  lemma {:induction false} UnescapeEncodeSafe(s: string)
    ensures Unescape(EncodeSafe(s)) == s
  {
    if s != [] {
      UnescapeEncodeSafe(s[1..]);
      UnescapeEscapeChar(s[0], EncodeSafe(s[1..]));
      assert s == [s[0]] + s[1..];
    }
  }

  // ---------------------------------------------------------------------------------------
  // Highlight events.

  /** `tree_sitter_highlight::HighlightEvent`; spans are positions in the source. */
  datatype HighlightEvent =
    | Source(start: nat, end: nat)
    | HighlightStart(highlight: nat)
    | HighlightEnd

  /** The highlighter run on a language key and a source: nothing when it fails to start,
      otherwise its events, each of which may itself fail. Not modelled. */
  type Highlighter = (string, string) -> Option<seq<Option<HighlightEvent>>>

  datatype HighlightError =
    | NoLanguage          // "Lang cannot be None"
    | UnknownLanguage     // "unknown lang"
    | HighlighterFailed   // `highlighter.highlight(..)?`
    | EventFailed         // `highlight.unwrap()` panics
    | SpanOutOfBounds     // `&source[start..end]` panics

  /** The failures that are panics in the source rather than returned errors. */
  predicate IsPanic(e: HighlightError)
  {
    e == EventFailed || e == SpanOutOfBounds
  }

  /** The HTML for one event. */
  function RenderEvent(source: string, e: HighlightEvent): (r: Result<string, HighlightError>)
    ensures r.Err? <==> e.Source? && !(e.start <= e.end <= |source|)
    ensures r.Err? ==> r.error == SpanOutOfBounds
  {
    match e
    case Source(start, end) =>
      if start <= end <= |source| then Ok(EncodeSafe(source[start..end])) else Err(SpanOutOfBounds)
    case HighlightStart(n) => Ok("<i class=chl-" + NatToDecimal(n) + ">")
    case HighlightEnd => Ok("</i>")
  }

  /** The HTML for a run of events, or the first failure. */
  function RenderEvents(source: string, es: seq<Option<HighlightEvent>>): Result<string, HighlightError>
  {
    if es == [] then Ok("")
    else
      match RenderEvents(source, es[..|es| - 1])
      case Err(e) => Err(e)
      case Ok(prefix) =>
        match es[|es| - 1]
        case None => Err(EventFailed)
        case Some(e) =>
          match RenderEvent(source, e)
          case Err(err) => Err(err)
          case Ok(html) => Ok(prefix + html)
  }

  /** One more event after a run that has not failed. */
  lemma RenderEventsStep(source: string, es: seq<Option<HighlightEvent>>, i: nat)
    requires i < |es| && RenderEvents(source, es[..i]).Ok?
    ensures RenderEvents(source, es[..i + 1]) ==
      match es[i]
      case None => Err(EventFailed)
      case Some(e) =>
        match RenderEvent(source, e)
        case Err(err) => Err(err)
        case Ok(html) => Ok(RenderEvents(source, es[..i]).value + html)
  {
    assert es[..i + 1][..i] == es[..i];
  }

  /** Once a run has failed, later events do not change the failure. */
  lemma {:induction false} RenderEventsFirstError(source: string, es: seq<Option<HighlightEvent>>, n: nat)
    requires n <= |es| && RenderEvents(source, es[..n]).Err?
    ensures RenderEvents(source, es) == RenderEvents(source, es[..n])
    decreases |es| - n
  {
    if n < |es| {
      assert es[..n + 1][..n] == es[..n];
      RenderEventsFirstError(source, es, n + 1);
    } else {
      assert es[..n] == es;
    }
  }

  /** What `parse_highlight_write_code` writes, or why it fails. */
  function HighlightedCode(source: string, lang: Option<string>, highlighter: Highlighter)
    : Result<string, HighlightError>
  {
    match lang
    case None => Err(NoLanguage)
    case Some(name) =>
      match LanguageKey(name)
      case None => Err(UnknownLanguage)
      case Some(key) =>
        match highlighter(key, source)
        case None => Err(HighlighterFailed)
        case Some(events) => RenderEvents(source, events)
  }

  /** The errors that are returned rather than panics all happen before anything is written. */
  lemma HighlightedCodeErrors(source: string, lang: Option<string>, highlighter: Highlighter)
    ensures HighlightedCode(source, lang, highlighter) == Err(NoLanguage) <==> lang.None?
    ensures HighlightedCode(source, lang, highlighter) == Err(UnknownLanguage) <==>
      lang.Some? && LanguageKey(lang.value).None?
    ensures HighlightedCode(source, lang, highlighter) == Err(HighlighterFailed) <==>
      lang.Some? && LanguageKey(lang.value).Some? && highlighter(LanguageKey(lang.value).value, source).None?
  {
    if lang.Some? && LanguageKey(lang.value).Some? {
      var events := highlighter(LanguageKey(lang.value).value, source);
      if events.Some? {
        RenderEventsPanicOnly(source, events.value);
      }
    }
  }

  lemma {:induction false} RenderEventsPanicOnly(source: string, es: seq<Option<HighlightEvent>>)
    ensures RenderEvents(source, es).Err? ==> IsPanic(RenderEvents(source, es).error)
  {
    if es != [] {
      RenderEventsPanicOnly(source, es[..|es| - 1]);
    }
  }

  // ---------------------------------------------------------------------------------------
  // Tag balance.

  function Count(s: string, c: char): nat
  {
    if s == [] then 0 else Count(s[..|s| - 1], c) + (if s[|s| - 1] == c then 1 else 0)
  }

  lemma {:induction false} CountConcat(a: string, b: string, c: char)
    ensures Count(a + b, c) == Count(a, c) + Count(b, c)
    decreases |b|
  {
    if b != [] {
      CountConcat(a, b[..|b| - 1], c);
      assert (a + b)[..|a + b| - 1] == a + b[..|b| - 1];
      assert (a + b)[|a + b| - 1] == b[|b| - 1];
    } else {
      assert a + b == a;
    }
  }

  lemma {:induction false} CountNone(s: string, c: char)
    requires forall i :: 0 <= i < |s| ==> s[i] != c
    ensures Count(s, c) == 0
  {
    if s != [] {
      CountNone(s[..|s| - 1], c);
    }
  }

  lemma CountChar(x: char, c: char)
    ensures Count([x], c) == if x == c then 1 else 0
  {
    assert [x][..0] == [];
  }

  /** How many events of a run open and close a highlight. */
  function Starts(es: seq<Option<HighlightEvent>>): nat
  {
    if es == [] then 0
    else Starts(es[..|es| - 1]) + (if es[|es| - 1].Some? && es[|es| - 1].value.HighlightStart? then 1 else 0)
  }

  function Ends(es: seq<Option<HighlightEvent>>): nat
  {
    if es == [] then 0
    else Ends(es[..|es| - 1]) + (if es[|es| - 1] == Some(HighlightEnd) then 1 else 0)
  }

  /** The counts of `<` and `/` in a text made only of other characters. */
  lemma CountNoneBoth(s: string)
    requires forall i :: 0 <= i < |s| ==> s[i] != '<' && s[i] != '/'
    ensures Count(s, '<') == 0 && Count(s, '/') == 0
  {
    CountNone(s, '<');
    CountNone(s, '/');
  }

  /** A start tag holds one `<` and no `/`, for any class number. */
  lemma StartTagCounts(n: nat)
    ensures Count("<i class=chl-" + NatToDecimal(n) + ">", '<') == 1
    ensures Count("<i class=chl-" + NatToDecimal(n) + ">", '/') == 0
  {
    var digits := NatToDecimal(n);
    var word := "i class=chl-";
    assert "<i class=chl-" == "<" + word;
    CountNoneBoth(word);
    CountNoneBoth(digits);
    CountNoneBoth(">");
    StartTagCount(word, digits, '<');
    StartTagCount(word, digits, '/');
  }

  lemma StartTagCount(word: string, digits: string, c: char)
    ensures Count("<" + word + digits + ">", c) ==
      Count("<", c) + Count(word, c) + Count(digits, c) + Count(">", c)
  {
    CountConcat("<", word, c);
    CountConcat("<" + word, digits, c);
    CountConcat("<" + word + digits, ">", c);
  }

  lemma EndTagCounts()
    ensures Count("</i>", '<') == 1
    ensures Count("</i>", '/') == 1
  {
    CountChar('<', '<');
    CountChar('<', '/');
    CountNone("/i>", '<');
    CountChar('/', '/');
    CountNone("i>", '/');
    CountConcat("/", "i>", '/');
    CountConcat("<", "/i>", '<');
    CountConcat("<", "/i>", '/');
    assert "</i>" == "<" + "/i>";
    assert "/i>" == "/" + "i>";
  }

  lemma RenderEventCounts(source: string, e: HighlightEvent)
    requires RenderEvent(source, e).Ok?
    ensures Count(RenderEvent(source, e).value, '<') == (if e.Source? then 0 else 1)
    ensures Count(RenderEvent(source, e).value, '/') == (if e.HighlightEnd? then 1 else 0)
  {
    match e
    case Source(start, end) =>
      var text := EncodeSafe(source[start..end]);
      CountNone(text, '<');
      CountNone(text, '/');
    case HighlightStart(n) =>
      StartTagCounts(n);
    case HighlightEnd =>
      EndTagCounts();
  }

  /** Source text never produces markup: every `<` of the output opens or closes a highlight
      and every `/` closes one, so balanced events give balanced `<i>` tags. */
  lemma {:induction false} RenderEventsCounts(source: string, es: seq<Option<HighlightEvent>>)
    requires RenderEvents(source, es).Ok?
    ensures Count(RenderEvents(source, es).value, '<') == Starts(es) + Ends(es)
    ensures Count(RenderEvents(source, es).value, '/') == Ends(es)
  {
    if es != [] {
      var init := es[..|es| - 1];
      RenderEventsCounts(source, init);
      var e := es[|es| - 1].value;
      RenderEventCounts(source, e);
      CountConcat(RenderEvents(source, init).value, RenderEvent(source, e).value, '<');
      CountConcat(RenderEvents(source, init).value, RenderEvent(source, e).value, '/');
    }
  }

  // ---------------------------------------------------------------------------------------
  // The writer.

  /** A `std::fmt::Write` sink that collects what is written. */
  class StringWriter {
    var text: string

    constructor ()
      ensures text == ""
    {
      text := "";
    }

    method Write(s: string)
      modifies this
      ensures text == old(text) + s
    {
      text := text + s;
    }
  }

  /** `escape_to_writer`. */
  method EscapeToWriter(w: StringWriter, code: string)
    modifies w
    ensures w.text == old(w.text) + EncodeSafe(code)
  {
    w.Write(EncodeSafe(code));
  }

  lemma AppendAssoc(a: string, b: string, c: string)
    ensures a + b + c == a + (b + c)
  {
  }

  /** The event loop of `parse_highlight_write_code` (generate.rs:336-349). */
  method WriteEvents(w: StringWriter, source: string, events: seq<Option<HighlightEvent>>)
    returns (r: Result<(), HighlightError>)
    modifies w
    ensures r.Ok? <==> RenderEvents(source, events).Ok?
    ensures r.Ok? ==> w.text == old(w.text) + RenderEvents(source, events).value
    ensures r.Err? ==> r.error == RenderEvents(source, events).error
  {
    ghost var start := w.text;
    var i := 0;
    while i < |events|
      invariant 0 <= i <= |events|
      invariant RenderEvents(source, events[..i]).Ok?
      invariant w.text == start + RenderEvents(source, events[..i]).value
    {
      RenderEventsStep(source, events, i);
      ghost var prefix := RenderEvents(source, events[..i]).value;
      if events[i].None? {
        RenderEventsFirstError(source, events, i + 1);
        return Err(EventFailed);
      }
      var e := events[i].value;
      ghost var html: string;
      match e {
        case Source(s, t) =>
          if !(s <= t <= |source|) {
            RenderEventsFirstError(source, events, i + 1);
            return Err(SpanOutOfBounds);
          }
          EscapeToWriter(w, source[s..t]);
          html := EncodeSafe(source[s..t]);
        case HighlightStart(n) =>
          w.Write("<i class=chl-" + NatToDecimal(n) + ">");
          html := "<i class=chl-" + NatToDecimal(n) + ">";
        case HighlightEnd =>
          w.Write("</i>");
          html := "</i>";
      }
      assert RenderEvent(source, e) == Ok(html);
      assert RenderEvents(source, events[..i + 1]) == Ok(prefix + html);
      AppendAssoc(start, prefix, html);
      i := i + 1;
    }
    assert events[..|events|] == events;
    r := Ok(());
  }

  /** `parse_highlight_write_code`: on success the highlighted HTML has been written; a
      returned error leaves the writer untouched (a panic may leave part of the output). */
  method ParseHighlightWriteCode(w: StringWriter, source: string, lang: Option<string>, highlighter: Highlighter)
    returns (r: Result<(), HighlightError>)
    modifies w
    ensures r.Ok? <==> HighlightedCode(source, lang, highlighter).Ok?
    ensures r.Ok? ==> w.text == old(w.text) + HighlightedCode(source, lang, highlighter).value
    ensures r.Err? ==> r.error == HighlightedCode(source, lang, highlighter).error
    ensures r.Err? && !IsPanic(r.error) ==> w.text == old(w.text)
  {
    if lang.None? {
      return Err(NoLanguage);
    }
    var key := LanguageKey(lang.value);
    if key.None? {
      return Err(UnknownLanguage);
    }
    var highlights := highlighter(key.value, source);
    if highlights.None? {
      return Err(HighlighterFailed);
    }
    RenderEventsPanicOnly(source, highlights.value);
    r := WriteEvents(w, source, highlights.value);
  }
}
