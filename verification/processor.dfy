/** The HTML post-processing of src/injest/processor.rs. A document is its stream of start
    tags and text chunks as the streaming rewriter sees them; serialisation is not modelled.
    Handlers act on one element at a time through `HtmlElement`, whose attributes they
    update in place. */
module Processor {
  import opened Wrappers

  /** `lol_html::html_content::TextType`. */
  datatype TextType = PlainText | RCData | RawText | ScriptData | Data | CDataSection

  /** A start tag (its lower-case name and attributes) or a chunk of text. */
  datatype Token =
    | StartTag(tag: string, attrs: map<string, string>)
    | Text(text: string, kind: TextType)

  /** The static-file table: original path to the hashed file name. */
  type FileTable = map<string, string>

  /** `url::Url::parse(..).is_ok()`: whether a link is an absolute URL. Not modelled. */
  type UrlTest = string -> bool

  // ---------------------------------------------------------------------------------------
  // Static-file link rewriting (processor.rs:36-65).

  /** The link an element carries and the attribute it is in: `href` or `src` when exactly
      one of them is present. */
  function LinkAttribute(attrs: map<string, string>): (r: Option<(string, string)>)
    ensures r.Some? <==> (("href" in attrs) != ("src" in attrs))
    ensures r.Some? ==> r.value.0 in attrs && r.value.1 == attrs[r.value.0]
    ensures r.Some? ==> (r.value.0 == "href" <==> "href" in attrs)
    ensures r.Some? ==> (r.value.0 == "src" <==> "src" in attrs)
  {
    match ("href" in attrs, "src" in attrs)
    case (true, false) => Some(("href", attrs["href"]))
    case (false, true) => Some(("src", attrs["src"]))
    case _ => None
  }

  predicate StartsWithSlash(s: string)
  {
    |s| > 0 && s[0] == '/'
  }

  predicate EndsWithSlash(s: string)
  {
    |s| > 0 && s[|s| - 1] == '/'
  }

  /** The table key of a link found on the page at `path`: a link starting with `/` loses
      that one slash; any other link is joined to the page path with exactly one `/`. */
  function LookupKey(path: string, link: string): string
  {
    if StartsWithSlash(link) then link[1..]
    else if EndsWithSlash(path) then path + link
    else path + "/" + link
  }

  lemma AbsoluteLinkKey(path: string, key: string)
    ensures LookupKey(path, "/" + key) == key
  {
    assert ("/" + key)[1..] == key;
  }

  /** A page path with or without its trailing slash gives the same key for a relative link. */
  lemma RelativeLinkKey(path: string, link: string)
    requires !StartsWithSlash(link) && !EndsWithSlash(path)
    ensures LookupKey(path, link) == path + "/" + link
    ensures LookupKey(path + "/", link) == path + "/" + link
  {
    assert EndsWithSlash(path + "/");
  }

  /** The attributes after the static-file rewrite: when the element has exactly one of
      `href` / `src`, its link is not a URL and its key is in the table, that attribute is
      set to the hashed name; every other attribute, and every other element, is left
      alone. */
  function RewrittenAttributes(path: string, files: FileTable, isUrl: UrlTest, attrs: map<string, string>)
    : (r: map<string, string>)
    ensures r.Keys == attrs.Keys
    ensures forall k :: k in attrs && k != "href" && k != "src" ==> r[k] == attrs[k]
    ensures r != attrs ==> LinkAttribute(attrs).Some?
    ensures LinkAttribute(attrs).None? ==> r == attrs
    ensures LinkAttribute(attrs).Some? ==>
      var (name, link) := LinkAttribute(attrs).value;
      r == if !isUrl(link) && LookupKey(path, link) in files then attrs[name := files[LookupKey(path, link)]] else attrs
  {
    match LinkAttribute(attrs)
    case None => attrs
    case Some((name, link)) =>
      if isUrl(link) then attrs
      else
        var key := LookupKey(path, link);
        if key in files then attrs[name := files[key]] else attrs
  }

  /** URLs are never rewritten. */
  lemma UrlsUntouched(path: string, files: FileTable, isUrl: UrlTest, attrs: map<string, string>)
    requires LinkAttribute(attrs).Some? && isUrl(LinkAttribute(attrs).value.1)
    ensures RewrittenAttributes(path, files, isUrl, attrs) == attrs
  {
  }

  /** A root-relative link to a known file becomes that file's hashed name. */
  lemma RootLinkRewritten(path: string, files: FileTable, isUrl: UrlTest, key: string)
    requires key in files && !isUrl("/" + key)
    ensures RewrittenAttributes(path, files, isUrl, map["href" := "/" + key]) == map["href" := files[key]]
  {
    AbsoluteLinkKey(path, key);
    assert LinkAttribute(map["href" := "/" + key]) == Some(("href", "/" + key));
  }

  // ---------------------------------------------------------------------------------------
  // Media attributes (processor.rs:108-111).

  predicate IsMedia(tag: string)
  {
    tag == "img" || tag == "iframe" || tag == "audio" || tag == "video"
  }

  /** `loading="lazy"` on images, frames, audio and video, then `preload="metadata"` on
      video. */
  function MediaAttributes(tag: string, attrs: map<string, string>): (r: map<string, string>)
    ensures r.Keys == attrs.Keys + (if IsMedia(tag) then {"loading"} else {}) + (if tag == "video" then {"preload"} else {})
    ensures IsMedia(tag) ==> r["loading"] == "lazy"
    ensures tag == "video" ==> r["preload"] == "metadata"
    ensures forall k :: k in attrs && k != "loading" && k != "preload" ==> r[k] == attrs[k]
    ensures !IsMedia(tag) ==> r == attrs
  {
    var lazy := if IsMedia(tag) then attrs["loading" := "lazy"] else attrs;
    if tag == "video" then lazy["preload" := "metadata"] else lazy
  }

  // ---------------------------------------------------------------------------------------
  // The element under the rewriter.

  /** `lol_html::html_content::Element`: a start tag whose attributes handlers change. */
  class HtmlElement {
    const tag: string
    var attrs: map<string, string>

    constructor (tag: string, attrs: map<string, string>)
      ensures this.tag == tag && this.attrs == attrs
    {
      this.tag := tag;
      this.attrs := attrs;
    }

    function GetAttribute(name: string): (r: Option<string>)
      reads this
      ensures r.Some? <==> name in attrs
      ensures r.Some? ==> r.value == attrs[name]
    {
      if name in attrs then Some(attrs[name]) else None
    }

    method SetAttribute(name: string, value: string)
      modifies this
      ensures attrs == old(attrs)[name := value]
    {
      attrs := attrs[name := value];
    }

    /** `static_file_rewrite_element`. */
    method StaticFileRewrite(path: string, files: FileTable, isUrl: UrlTest)
      modifies this
      ensures attrs == RewrittenAttributes(path, files, isUrl, old(attrs))
    {
      var link: string;
      var attr: string;
      match (GetAttribute("href"), GetAttribute("src")) {
        case (Some(l), None) =>
          link, attr := l, "href";
        case (None, Some(l)) =>
          link, attr := l, "src";
        case _ =>
          return;
      }
      if isUrl(link) {
        return;
      }
      var key: string;
      if StartsWithSlash(link) {
        key := link[1..];
      } else if EndsWithSlash(path) {
        key := path + link;
      } else {
        key := path + "/" + link;
      }
      if key !in files {
        return;
      }
      SetAttribute(attr, files[key]);
    }
  }

  // ---------------------------------------------------------------------------------------
  // Whole documents.

  /** The `[href]` selector of `static_file_rewriter`. */
  function LinkRewrittenToken(path: string, files: FileTable, isUrl: UrlTest, t: Token): Token
  {
    match t
    case StartTag(tag, attrs) =>
      StartTag(tag, if "href" in attrs then RewrittenAttributes(path, files, isUrl, attrs) else attrs)
    case Text(_, _) => t
  }

  /** The handlers of `html_post_processor`, in order: `a[href]` and `img[src]` get the
      static-file rewrite, then the media attributes. */
  function PostProcessedToken(path: string, files: FileTable, isUrl: UrlTest, t: Token): Token
  {
    match t
    case StartTag(tag, attrs) =>
      var linked := if (tag == "a" && "href" in attrs) || (tag == "img" && "src" in attrs)
        then RewrittenAttributes(path, files, isUrl, attrs) else attrs;
      StartTag(tag, MediaAttributes(tag, linked))
    case Text(_, _) => t
  }

  /** Post-processing changes nothing but attributes: tags, text and their order are kept,
      elements other than links and media are untouched, and a link keeps all attributes
      except `href` / `src`. */
  lemma PostProcessedTokenShape(path: string, files: FileTable, isUrl: UrlTest, t: Token)
    ensures var u := PostProcessedToken(path, files, isUrl, t);
      && u.StartTag? == t.StartTag?
      && (t.Text? ==> u == t)
      && (t.StartTag? ==> u.tag == t.tag)
      && (t.StartTag? && t.tag != "a" && !IsMedia(t.tag) ==> u == t)
      && (t.StartTag? && t.tag == "a" ==> u.attrs.Keys == t.attrs.Keys)
      && (t.StartTag? && t.tag == "a" ==>
            forall k :: k in t.attrs && k != "href" && k != "src" ==> u.attrs[k] == t.attrs[k])
  {
  }

  /** `static_file_rewriter`: runs the link rewrite on every element with an `href`. */
  method StaticFileRewriter(path: string, files: FileTable, isUrl: UrlTest, data: seq<Token>)
    returns (out: seq<Token>)
    ensures |out| == |data|
    ensures forall i :: 0 <= i < |data| ==> out[i] == LinkRewrittenToken(path, files, isUrl, data[i])
  {
    out := [];
    for i := 0 to |data|
      invariant |out| == i
      invariant forall k :: 0 <= k < i ==> out[k] == LinkRewrittenToken(path, files, isUrl, data[k])
    {
      match data[i]
      case Text(_, _) =>
        out := out + [data[i]];
      case StartTag(tag, attrs) =>
        var el := new HtmlElement(tag, attrs);
        if el.GetAttribute("href").Some? {
          el.StaticFileRewrite(path, files, isUrl);
        }
        out := out + [StartTag(el.tag, el.attrs)];
    }
  }

  /** The document half of `html_post_processor`. */
  method RewriteDocument(path: string, files: FileTable, isUrl: UrlTest, data: seq<Token>)
    returns (out: seq<Token>)
    ensures |out| == |data|
    ensures forall i :: 0 <= i < |data| ==> out[i] == PostProcessedToken(path, files, isUrl, data[i])
  {
    out := [];
    for i := 0 to |data|
      invariant |out| == i
      invariant forall k :: 0 <= k < i ==> out[k] == PostProcessedToken(path, files, isUrl, data[k])
    {
      match data[i]
      case Text(_, _) =>
        out := out + [data[i]];
      case StartTag(tag, attrs) =>
        var el := new HtmlElement(tag, attrs);
        if (el.tag == "a" && el.GetAttribute("href").Some?) || (el.tag == "img" && el.GetAttribute("src").Some?) {
          el.StaticFileRewrite(path, files, isUrl);
        }
        if IsMedia(el.tag) {
          el.SetAttribute("loading", "lazy");
        }
        if el.tag == "video" {
          el.SetAttribute("preload", "metadata");
        }
        out := out + [StartTag(el.tag, el.attrs)];
    }
  }

  // ---------------------------------------------------------------------------------------
  // The summary (processor.rs:77-100).

  /** The length in bytes of a character's UTF-8 encoding. */
  function Utf8CharLength(c: char): nat
  {
    var v := c as int;
    if v < 0x80 then 1 else if v < 0x800 then 2 else if v < 0x10000 then 3 else 4
  }

  /** `str::len`: the UTF-8 length of a text. */
  function Utf8Length(s: string): nat
  {
    if s == [] then 0 else Utf8Length(s[..|s| - 1]) + Utf8CharLength(s[|s| - 1])
  }

  /** What a token adds to the character count: the length of a `Data` text chunk. */
  function TokenLength(t: Token): nat
  {
    if t.Text? && t.kind == Data then Utf8Length(t.text) else 0
  }

  /** The character count after the given tokens. */
  function DataLength(s: seq<Token>): nat
  {
    if s == [] then 0 else DataLength(s[..|s| - 1]) + TokenLength(s[|s| - 1])
  }

  /** The `j`-th token is a paragraph that starts after more than 200 characters. */
  ghost predicate CutsAt(s: seq<Token>, j: int)
  {
    0 <= j < |s| && s[j].StartTag? && s[j].tag == "p" && DataLength(s[..j]) > 200
  }

  /** Whether the `i`-th token is an element the summary removes: once a paragraph starts
      after more than 200 characters, it and every later element are removed. */
  ghost predicate Removed(s: seq<Token>, i: int)
  {
    0 <= i < |s| && s[i].StartTag? && exists j :: 0 <= j <= i && CutsAt(s, j)
  }

  /** The summary pass: which elements it removes, and the final character count. */
  method GenerateSummary(data: seq<Token>) returns (removed: seq<bool>, count: nat)
    ensures |removed| == |data|
    ensures forall i :: 0 <= i < |data| ==> (removed[i] <==> Removed(data, i))
    ensures count == DataLength(data)
  {
    count := 0;
    var skip := false;
    removed := [];
    for i := 0 to |data|
      invariant |removed| == i
      invariant count == DataLength(data[..i])
      invariant skip <==> exists j :: 0 <= j < i && CutsAt(data, j)
      invariant forall k :: 0 <= k < i ==> (removed[k] <==> Removed(data, k))
    {
      assert data[..i + 1][..i] == data[..i];
      match data[i]
      case StartTag(tag, _) =>
        if count > 200 && tag == "p" {
          skip := true;
          assert CutsAt(data, i);
        }
        assert skip <==> exists j :: 0 <= j <= i && CutsAt(data, j);
        removed := removed + [skip];
      case Text(text, kind) =>
        if kind == Data {
          count := count + Utf8Length(text);
        }
        assert !CutsAt(data, i);
        removed := removed + [false];
    }
    assert data[..|data|] == data;
  }

  /** The number of tokens that the flags keep. */
  function Kept(removed: seq<bool>): (n: nat)
    ensures n <= |removed|
  {
    if removed == [] then 0 else (if removed[0] then 0 else 1) + Kept(removed[1..])
  }

  /** The summary drops the removed elements and keeps every other token, in order. The
      content of a removed element is not dropped with it: elements are not matched with
      their end tags here. */
  function SummaryOf(data: seq<Token>, removed: seq<bool>): (r: seq<Token>)
    requires |removed| == |data|
    ensures |r| == Kept(removed)
    ensures forall i :: 0 <= i < |data| && !removed[i] ==>
      Kept(removed[..i]) < |r| && r[Kept(removed[..i])] == data[i]
  {
    if data == [] then []
    else
      var rest := SummaryOf(data[1..], removed[1..]);
      assert forall i :: 1 <= i <= |data| ==> removed[..i][1..] == removed[1..][..i - 1];
      (if removed[0] then [] else [data[0]]) + rest
  }

  /** When nothing is removed the summary is the whole document. */
  lemma {:induction false} SummaryWithoutRemoval(data: seq<Token>, removed: seq<bool>)
    requires |removed| == |data| && forall i :: 0 <= i < |removed| ==> !removed[i]
    ensures SummaryOf(data, removed) == data
  {
    if data != [] {
      SummaryWithoutRemoval(data[1..], removed[1..]);
      assert data == [data[0]] + data[1..];
    }
  }

  /** The character count never decreases along the document. */
  lemma {:induction false} DataLengthMonotone(s: seq<Token>, i: nat, j: nat)
    requires i <= j <= |s|
    ensures DataLength(s[..i]) <= DataLength(s[..j])
    decreases j - i
  {
    if i < j {
      DataLengthMonotone(s, i, j - 1);
      assert s[..j][..j - 1] == s[..j - 1];
    }
  }

  /** Nothing is removed while the count is at most 200. */
  lemma NothingRemovedEarly(s: seq<Token>, i: nat)
    requires i < |s| && DataLength(s[..i]) <= 200
    ensures !Removed(s, i)
  {
    forall j | 0 <= j <= i ensures !CutsAt(s, j) {
      DataLengthMonotone(s, j, i);
    }
  }

  /** Removal is permanent: every element after a removed one is removed. */
  lemma RemovalSticky(s: seq<Token>, i: nat, k: nat)
    requires Removed(s, i) && i <= k < |s| && s[k].StartTag?
    ensures Removed(s, k)
  {
  }

  /** A document with no paragraph keeps every element. */
  lemma NoParagraphNoCut(s: seq<Token>, i: nat)
    requires forall k :: 0 <= k < |s| && s[k].StartTag? ==> s[k].tag != "p"
    ensures !Removed(s, i)
  {
  }

  /** The summary of a document without a paragraph is the whole document. */
  lemma NoParagraphWholeSummary(data: seq<Token>, removed: seq<bool>)
    requires forall k :: 0 <= k < |data| && data[k].StartTag? ==> data[k].tag != "p"
    requires |removed| == |data| && forall i :: 0 <= i < |data| ==> (removed[i] <==> Removed(data, i))
    ensures SummaryOf(data, removed) == data
  {
    forall i | 0 <= i < |removed| ensures !removed[i] {
      NoParagraphNoCut(data, i);
    }
    SummaryWithoutRemoval(data, removed);
  }

  /** `ProcessedDocument`. */
  datatype ProcessedDocument = ProcessedDocument(document: seq<Token>, summary: seq<Token>)

  /** `html_post_processor`: the rewritten document and the summary, both from the same
      input. */
  method HtmlPostProcessor(path: string, files: FileTable, isUrl: UrlTest, data: seq<Token>)
    returns (r: ProcessedDocument)
    ensures |r.document| == |data|
    ensures forall i :: 0 <= i < |data| ==> r.document[i] == PostProcessedToken(path, files, isUrl, data[i])
    ensures exists removed: seq<bool> ::
      && |removed| == |data|
      && r.summary == SummaryOf(data, removed)
      && forall i :: 0 <= i < |data| ==> (removed[i] <==> Removed(data, i))
  {
    var document := RewriteDocument(path, files, isUrl, data);
    var removed, _ := GenerateSummary(data);
    r := ProcessedDocument(document, SummaryOf(data, removed));
  }
}
