# moklog ingester — a Dafny model

This project models the ingestion core of moklog, a static-site generator. It covers five areas:

- **Asset names.** A static asset `stem.ext` is published as `stem.<hash>.ext`. The `<hash>` is the standard padded base 64 (section 4 of RFC 4648) of the eight little-endian bytes of the file's 64-bit content hash. Such a name can be parsed back into the hash.
- **Site walk.** Walk entries are relativised against the site root and processed in depth order. Each `index.md` / `index.html` is split at its first `===` into a TOML front matter and a body. The front matter is parsed and classified as a category, subcategory, series, redirect or plain page. The document's directories are inserted into a directory graph.
- **Template hooks.** Rhai filters, testers and functions, and shortcodes each keep a 64-bit execution counter. The counter is passed to every call and bumped only after a call succeeds.
- **HTML post-processing.** Links to static files are rewritten to their hashed names, and media elements get `loading="lazy"` (and, for video, `preload="metadata"`). A summary pass removes every element from the first paragraph that starts after more than 200 characters of text.
- **Rendering helpers.**
  - the case-insensitive highlighter language table with its aliases;
  - syntax-highlight events written as HTML with escaped source text;
  - the wrapper that replaces a fenced code block;
  - the TOML→JSON conversion;
  - the `page.*` entries of the template context.

Foreign engines appear only as function-typed parameters, never as code:
- `seahash::hash`: `Hasher`;
- TOML deserialisation: `ConfigParser`;
- Rhai scripts and the shortcode template: the `script` / `render` fields;
- `url::Url::parse`: `UrlTest`;
- the tree-sitter highlighter: `Highlighter`.

`html_escape::encode_safe` and base 64 are defined concretely, so that facts about escaped text and about hash segments can be proved.

Module layout, following the source:
- `static_file.dfy`, `base64.dfy`, `bytes.dfy`: src/injest/static_file.rs;
- `paths.dfy`: src/injest/mod.rs;
- `meta.dfy`, `build_config.dfy`, `build_walk.dfy`, `hooks.dfy`: src/injest/build.rs;
- `processor.dfy`: src/injest/processor.rs;
- `languages.dfy`, `toml_json.dfy`, `highlight.dfy`, `code_blocks.dfy`, `context.dfy`: src/injest/generate.rs;
- `strings.dfy`, `values.dfy`, `wrappers.dfy`: shared helpers.

Several source lines do not compile as written. The model follows their evident intent:
- processor.rs:55 and :57 use an undefined `href`; the model uses the chosen link.
- processor.rs:64 reads `.file_name` of a `String` value; the table's value is the hashed name.
- build.rs:217 matches a 5-tuple against a 4-tuple; the model uses four `None`s.
- build.rs:220 builds an error and does not return it; the model returns `BadConfiguration`.
- build.rs:159-173: the `None` arm of the file-name match has no value when the path is empty; the model skips such an entry.
- static_file.rs:46 converts a `Vec` into an array; any length other than 8 is a failure.
- static_file.rs:47 calls an empty `format!()`; it is read as the name without the hash segment.
- generate.rs:307 moves the accumulator; text is appended to the open block.
- generate.rs:131 moves out of a borrowed page meta.
- build.rs:68, :88 and :108 wrap the script error in `Err`; the hook returns the message.
- build.rs:82-91 returns a script `Value` as `bool`; the tester's script returns a boolean.
- build.rs:128 passes the template's name to `render_str`, which renders its argument as template text, so as written every shortcode call returns the word `shortcode` and ignores the registered template (build.rs:273) and the arguments. The model's `render` stands for rendering the template registered as `shortcode` with the call's context; `Hooks.RenderStrAsWritten` shows the behaviour as written.
- generate.rs:184-186 passes the collected translation list to `insert` by value, and the element type of `collect` is not given. The model reads it as a list of one-element tuples.
- lol_html has no `|` selector combinator; `a[href]|img[src]` and `img|iframe|audio|video` (processor.rs:105, :108) are read as selector lists.

Two behaviours are modelled as written, although they may be unintended:
- The code-block wrapper closes `</div></code></pre>` after opening `<div class="code-block"><code>`, so its tags are not properly nested (generate.rs:292, :300). The language tag is not escaped.
- The start event and text events of a fenced code block are passed on to the HTML writer as well as replaced at the block's end (generate.rs:313), so a block's text reaches the writer twice.

## Model

| member | source | states |
|---|---|---|
| StaticFile.HashSegment | src/injest/static_file.rs:33 | the base 64 segment of a hash is 12 characters long, ends in one `=`, has only alphabet characters before it, and has no `.` |
| StaticFile.HashSegmentDecodes | src/injest/static_file.rs:33 | decoding the segment gives exactly `hash.to_le_bytes()`, and `from_le_bytes` of that gives the hash back |
| StaticFile.HashSegmentInjective | src/injest/static_file.rs:32-33 | different hashes give different segments |
| StaticFile.NewFilenameOf | src/injest/static_file.rs:31-39 | `new_filename` is `None` exactly when the name has no `.`; the hash it returns is `hash_file(file)` |
| StaticFile.NewFilenameShape | src/injest/static_file.rs:34-36 | at the first `.` (position k) the new name is `name[..k] + "." + segment + "." + name[k+1..]`, so `a.tar.gz` becomes `a.<seg>.tar.gz` |
| StaticFile.NewFilenameDependsOnlyOnHash | src/injest/static_file.rs:27-36 | files with equal hashes (in particular identical bytes) given the same name get the same new name |
| StaticFile.NewFilenameSeparatesHashes | src/injest/static_file.rs:31-36 | files with different hashes never get the same new name |
| StaticFile.DecodeHash | src/injest/static_file.rs:44-46 | a segment gives a hash exactly when it is valid base 64 of exactly eight bytes |
| StaticFile.ParseFilenameNeedsTwoDots | src/injest/static_file.rs:42-43 | a name that parses has at least two dots |
| StaticFile.ParseFilenameParts | src/injest/static_file.rs:41-55 | `stem.seg.ext`, with no dot in stem or seg, parses to the hash of `seg` and to `stem.ext`, or to `None` when `seg` is not eight bytes of base 64 |
| StaticFile.ParseFilenameRejectsSegment | src/injest/static_file.rs:44-49 | a middle segment that is not base 64, or not eight bytes of it, is rejected |
| StaticFile.DecodeHashSegment | src/injest/static_file.rs:33-46 | the segment of a hash decodes to that hash |
| StaticFile.ParseNewFilename | src/injest/static_file.rs:31-55 | round trip: parsing the output of `new_filename` gives the content hash and the original name |
| Base64.Encode | src/injest/static_file.rs:33 | the encoding of n bytes has 4·⌈n/3⌉ characters |
| Base64.DecodeEncode | src/injest/static_file.rs:44 | decoding an encoding gives the bytes back |
| Base64.EncodeDecode | src/injest/static_file.rs:44 | the decoder accepts only canonical text: re-encoding what it decodes gives the same text |
| Base64.EncodeAlphabet | src/injest/static_file.rs:33 | an encoding uses only the alphabet and `=`, so it never holds a `.` |
| Base64.EncodeEightBytes | src/injest/static_file.rs:33 | eight bytes encode to 12 characters: 11 alphabet characters, then one `=` |
| Base64.DecodeGroupOfEncode | src/injest/static_file.rs:44 | a full group of four characters decodes to its three bytes |
| Base64.DecodeLastOfTail | src/injest/static_file.rs:44 | a padded last group decodes to its one or two bytes |
| Bytes.U64ToLeBytes | src/injest/static_file.rs:33 | `to_le_bytes` gives eight bytes |
| Bytes.U64LeRoundTrip | src/injest/static_file.rs:46 | `from_le_bytes` and `to_le_bytes` are inverse on `u64` and on eight-byte arrays |
| Bytes.FromToLeBytes | src/injest/static_file.rs:46 | reading back n little-endian bytes gives any value below 256^n |
| Bytes.ToFromLeBytes | src/injest/static_file.rs:46 | writing back the value of n bytes gives the same bytes |
| Paths.ComponentsJoin | src/injest/mod.rs:14-15 | the components of a path joined from components are those components |
| Paths.PathRelativize | src/injest/mod.rs:13-18 | succeeds exactly when the base's components are a prefix of the item's; then base components + result components = item components |
| Paths.RelativizeSelf | src/injest/mod.rs:16-17 | a path relative to itself is the empty path |
| Paths.RelativizeByComponents | src/injest/mod.rs:14-16 | prefixing is by components: `ab` is not a prefix of `abc/d` |
| Paths.RelativizeJoined | src/injest/mod.rs:13-17 | relativising `base/rest` against `base` gives `rest` |
| Strings.SplitOnce | src/injest/static_file.rs:34 | `split_once`: `None` exactly when the pattern does not occur; otherwise the text is `before + pat + after`, with the first occurrence at the end of `before` |
| Strings.AsciiLowerIgnoresCase | src/injest/generate.rs:590 | ASCII lower-casing forgets case and is idempotent |
| Strings.NatToDecimal | src/injest/generate.rs:343 | a number is written as decimal digits with the right value and no leading zero |
| BuildConfig.SplitFrontMatter | src/injest/build.rs:184-187 | no body exactly when there is no `===`, and then the whole text is configuration; otherwise the text is `config + "===" + body`, split at the first `===` |
| BuildConfig.NoDelimiterNoBody | src/injest/build.rs:186 | a document without `=` is all configuration |
| BuildConfig.SplitFrontMatterParts | src/injest/build.rs:184-185 | `cfg === body` with no `=` in `cfg` splits into exactly `cfg` and `body` |
| BuildConfig.Classify | src/injest/build.rs:204-221 | exactly one of series / subcategory / category / redirect gives that configuration; none gives `Page`; two or more give `BadConfiguration` |
| BuildWalk.SortByDepthSorted | src/injest/build.rs:144 | the sorted walk is in non-decreasing depth and is a permutation of the walk |
| BuildWalk.SortByDepthStable | src/injest/build.rs:144 | the sort is stable: the entries of each depth keep their walk order |
| BuildWalk.IndexEntryAction | src/injest/build.rs:151-190 | an index document below the root with a parsable front matter is recorded under its relative path, with its page meta, the body after the first `===`, its directories and its classification |
| BuildWalk.OtherFilesSkipped | src/injest/build.rs:182 | files that are not `index.md` / `index.html` change nothing |
| BuildWalk.SiteBuilder.constructor | src/injest/build.rs:146-148 | the maps and the graph start empty |
| BuildWalk.SiteBuilder.InsertComponents | src/injest/build.rs:192-202 | the nodes become the old nodes plus the components; the edges become the old edges plus exactly previous→current for each component that was newly added and has a previous component; `pages` and `sc_backing` are unchanged |
| BuildWalk.SiteBuilder.Ingest | src/injest/build.rs:151-221 | one walk entry: it fails exactly when its action fails, with that action's error, and the new `pages`, `sc_backing` and graph are `Step` of the old ones, including the partial update a bad configuration leaves |
| BuildWalk.SiteBuilder.IngestAll | src/injest/build.rs:150-222 | the loop over the sorted entries from an empty build succeeds exactly when no action fails, and then the build is `Walk` of all actions in order; otherwise the error is that of the first failing action and the build is `Walk` up to and including it |
| BuildWalk.BuildSite | src/injest/build.rs:140-226 | the entries are sorted by depth and walked in that order: on success the build is `Walk` of the sorted entries' actions; on failure it is the error of the first failing entry in depth order, with the build up to that entry |
| BuildWalk.EntriesSucceed | src/injest/build.rs:144-151 | the sorted walk's actions all succeed exactly when every walked entry's action does |
| BuildWalk.WalkRecords | src/injest/build.rs:187-219 | after a walk without failures every index document's key is in `pages` and `sc_backing` and its directories are graph nodes |
| BuildWalk.BuildRecordsEntries | src/injest/build.rs:144-219 | when no entry fails, every index document among the walked entries is recorded in the built site |
| BuildWalk.WalkContents | src/injest/build.rs:187-201 | `pages` holds exactly the keys of the walk's index documents and the graph's nodes are exactly their directories: nothing else is recorded |
| BuildWalk.WalkKeepsLast | src/injest/build.rs:187-217 | an index document that no later document replaces keeps its page meta and body in `pages`, and its classification in `sc_backing` when that succeeded |
| BuildWalk.EdgesFollowOrder | src/injest/build.rs:192-202 | walking `b/index.md` before `a/b/index.md` adds no edge, the opposite order adds `a -> b`: the depth order decides the graph |
| Hooks.CounterIsSuccessesMod | src/injest/build.rs:69 | after n successful calls the counter is n mod 2^64 |
| Hooks.CounterExact | src/injest/build.rs:69 | below 2^64 calls the counter is exactly the number of successful calls |
| Hooks.RhaiFilter.constructor | src/injest/build.rs:237-241 | a filter is registered with its counter at 0 |
| Hooks.RhaiFilter.Filter | src/injest/build.rs:61-72 | the script gets the counter's value before the call; the counter counts successful calls only; the result is the script's |
| Hooks.RhaiTester.constructor | src/injest/build.rs:250-254 | a tester is registered with its counter at 0 |
| Hooks.RhaiTester.Test | src/injest/build.rs:81-92 | as for filters, for the script's `test` |
| Hooks.RhaiFunction.constructor | src/injest/build.rs:263-267 | a function is registered with its counter at 0 |
| Hooks.RhaiFunction.Call | src/injest/build.rs:101-112 | as for filters, for the script's `main` |
| Hooks.ShortcodeContext | src/injest/build.rs:122-126 | the render context holds every argument and `times`, and `times` overrides an argument of that name |
| Hooks.Shortcode.constructor | src/injest/build.rs:276-279 | a shortcode is registered with its counter at 0 |
| Hooks.Shortcode.Call | src/injest/build.rs:121-131 | renders with that context and the counter before the call, returns the output as a string value, and counts only successful renders |
| Hooks.RenderStrAsWritten | src/injest/build.rs:128 | with `render_str` rendering the literal text `shortcode`, a call returns `String("shortcode")` whatever its arguments |
| Processor.LinkAttribute | src/injest/processor.rs:41-45 | the link is `href` when only `href` is present and `src` when only `src` is; with both or neither there is none |
| Processor.AbsoluteLinkKey | src/injest/processor.rs:51-52 | a link `/k` is looked up as `k` |
| Processor.RelativeLinkKey | src/injest/processor.rs:53-58 | a relative link is looked up as `path/link`, whether or not `path` already ends in `/` |
| Processor.RewrittenAttributes | src/injest/processor.rs:36-65 | only the chosen attribute can change, and only when the link is not a URL and its key is in the table; then it becomes the hashed name; every other attribute is kept |
| Processor.UrlsUntouched | src/injest/processor.rs:47-49 | a link that parses as a URL is not rewritten |
| Processor.RootLinkRewritten | src/injest/processor.rs:51-64 | `href="/k"` for a known `k` becomes the hashed name of `k` |
| Processor.MediaAttributes | src/injest/processor.rs:108-111 | `img`, `iframe`, `audio` and `video` gain `loading="lazy"`, video also `preload="metadata"`; other attributes are kept; no other element changes |
| Processor.HtmlElement.GetAttribute | src/injest/processor.rs:41 | an attribute is present exactly when it is set, with its value |
| Processor.HtmlElement.SetAttribute | src/injest/processor.rs:64 | sets one attribute in place |
| Processor.HtmlElement.StaticFileRewrite | src/injest/processor.rs:36-65 | the element's attributes become `RewrittenAttributes` of the old ones |
| Processor.PostProcessedTokenShape | src/injest/processor.rs:104-112 | post-processing keeps every tag and text; elements other than links and media are untouched; a link keeps all attributes except `href` / `src` |
| Processor.StaticFileRewriter | src/injest/processor.rs:15-34 | every element with an `href` is rewritten, token for token |
| Processor.RewriteDocument | src/injest/processor.rs:103-117 | the document is rewritten token for token: links, then lazy loading, then video preload |
| Processor.GenerateSummary | src/injest/processor.rs:77-100 | an element is removed exactly when some paragraph at or before it started after more than 200 bytes of data text; the count is the UTF-8 length of all data text |
| Processor.SummaryOf | src/injest/processor.rs:89-91 | the summary has one token per unremoved token, and the token kept from position `i` is at the position counting the tokens kept before it: every unremoved token is kept, in order, and nothing else |
| Processor.SummaryWithoutRemoval | src/injest/processor.rs:89-91 | when nothing is removed the summary is the whole document |
| Processor.NoParagraphWholeSummary | src/injest/processor.rs:83-91 | the summary of a document without a paragraph is the whole document |
| Processor.DataLengthMonotone | src/injest/processor.rs:93-96 | the running character count never decreases |
| Processor.NothingRemovedEarly | src/injest/processor.rs:83-91 | no element is removed while the count is at most 200 |
| Processor.RemovalSticky | src/injest/processor.rs:85-91 | once an element is removed, every later element is removed |
| Processor.NoParagraphNoCut | src/injest/processor.rs:84-86 | a document without a paragraph loses no element |
| Processor.HtmlPostProcessor | src/injest/processor.rs:72-122 | the document is the input post-processed token by token, and the summary is the input without exactly the elements `Removed` marks |
| Languages.LanguageKey | src/injest/generate.rs:590-607 | the result is always a table key; a lower-cased name that is a key maps to itself; an alias maps to its target when that is a key |
| Languages.LanguageKeyIgnoresCase | src/injest/generate.rs:590 | upper-, lower- and mixed-case names give the same result |
| Languages.DirectKeysResolve | src/injest/generate.rs:562-592 | each of the 25 keys resolves to itself |
| Languages.AliasResolves | src/injest/generate.rs:593-605 | each alias that is not itself a key resolves to its target, or to nothing when the target is not a key |
| Languages.CppAlias | src/injest/generate.rs:594 | `c++` resolves to `cpp` |
| Languages.RustIsDirect | src/injest/generate.rs:575 | `rust` resolves by its own key, so the `rust` → `rs` alias arm never applies |
| Languages.RsUnknown | src/injest/generate.rs:598 | `rs` resolves to nothing |
| TomlJson.ToJson | src/injest/generate.rs:48-77 | strings, integers and booleans map to the same JSON scalar, a date-time to its text, arrays element by element in order, and tables key by key with the same key set |
| TomlJson.ToJsonNullFree | src/injest/generate.rs:48-77 | no converted value holds a JSON `null` |
| TomlJson.ToJsonKeepsLeaves | src/injest/generate.rs:65-70 | arrays convert element for element at every depth: the number of scalars is kept |
| Highlight.EscapeChar | src/injest/generate.rs:358 | the escape of a character holds no markup character, and starts with `&` exactly for the six escaped characters |
| Highlight.EncodeSafe | src/injest/generate.rs:354-359 | escaped text holds no `<`, `>`, `"`, `'` or `/` |
| Highlight.UnescapeEncodeSafe | src/injest/generate.rs:358 | escaping loses nothing: unescaping gives the text back |
| Highlight.RenderEvent | src/injest/generate.rs:338-348 | an event fails to render exactly when it is a source span outside the source |
| Highlight.RenderEventsFirstError | src/injest/generate.rs:336-340 | once an event fails, later events do not change the failure |
| Highlight.HighlightedCodeErrors | src/injest/generate.rs:325-334 | the three returned errors: no language, unknown language, highlighter failure, each exactly in its own case |
| Highlight.RenderEventsPanicOnly | src/injest/generate.rs:336-341 | failures in the event loop are always panics |
| Highlight.RenderEventsCounts | src/injest/generate.rs:336-349 | every `<` in the output opens or closes a highlight and every `/` closes one, so source text adds no markup |
| Highlight.StringWriter.Write | src/injest/generate.rs:343 | writing appends |
| Highlight.EscapeToWriter | src/injest/generate.rs:354-359 | appends the escaped code |
| Highlight.WriteEvents | src/injest/generate.rs:336-349 | writes the rendered events, or stops at the first failing one |
| Highlight.ParseHighlightWriteCode | src/injest/generate.rs:320-352 | on success writes the highlighted HTML; a returned error leaves the writer unchanged |
| CodeBlocks.TranslateShape | src/injest/generate.rs:271-314 | the writer gets one event per input event: each event itself, except the end of a fenced block with a pending block |
| CodeBlocks.OutEventShape | src/injest/generate.rs:282-313 | that end event becomes the block's HTML; every other event is passed on unchanged |
| CodeBlocks.UnknownLanguageEscaped | src/injest/generate.rs:294-299 | for an unknown language the block body is exactly the escaped code |
| CodeBlocks.NoLanguageNoTag | src/injest/generate.rs:287-300 | a block without a language has no language tag and an escaped body |
| CodeBlocks.PendingCollectsText | src/injest/generate.rs:273-310 | an open fenced block collects exactly the concatenation of its text events |
| CodeBlocks.WriteBlock | src/injest/generate.rs:284-301 | writes `<pre>`, the language tag, the code wrapper, the highlighted or escaped code and the closing tags, in that order |
| CodeBlocks.ParserToWriter | src/injest/generate.rs:265-318 | the event map over the whole stream, stopping at a highlighter panic |
| CodeBlocks.TranslateFirstError | src/injest/generate.rs:337-340 | a panic stops the whole stream |
| TemplateContext.Context.Insert | src/injest/generate.rs:131 | inserting sets one name |
| TemplateContext.PageGroupDefault | src/injest/generate.rs:131 | `page.group` is the page's group, or `default` when it has none |
| TemplateContext.PageMetaKeys | src/injest/generate.rs:130-141 | the page meta fills exactly nine names; the translations are written in order; `page.redirect_to` is null exactly when it is absent |
| TemplateContext.InsertedPageMeta | src/injest/generate.rs:131-140 | inserting the entries one by one, `page.display` twice, equals adding them all |
| TemplateContext.PopulatePageMeta | src/injest/generate.rs:130-141 | the context gains exactly the page-meta entries |
| TemplateContext.TranslationLinkBare | src/injest/generate.rs:189-193 | the current translation's path is the bare path exactly when the language is the default one, and otherwise starts with `/<lang>` |
| TemplateContext.TranslationList | src/injest/generate.rs:184-186 | the listed languages are exactly those equal to both the current and the default language |
| TemplateContext.TranslationListFilters | src/injest/generate.rs:184 | on a page not in the default language the list is empty; on one that is, it has one entry per occurrence of that language |
| TemplateContext.TranslationLangsOfJson | src/injest/generate.rs:185-186 | the serialised translation list reads back as the list |
| TemplateContext.TranslationListJsonOfLangs | src/injest/generate.rs:185-186 | whatever reads back as a list of languages is that list's serialisation |
| TemplateContext.PopulateTranslations | src/injest/generate.rs:183-194 | sets the translation list, the default translation to (default language, path) and the current one to (language, its path) |
| Values.StringsOfStringArray | src/injest/generate.rs:132 | the JSON array of a list of strings reads back as that list |
| Values.StringArrayOfStrings | src/injest/generate.rs:132 | whatever reads back as a list of strings is that list's JSON array |

## Left out

- File I/O, memory mapping and the directory walker (`WalkBuilder`) are replaced by a list of walk entries with their depth and contents. A failing map is modelled as empty contents (build.rs:176-180).
- Concurrency: `AtomicU64` and `SeqCst` become plain fields, and the `Arc`/`DashMap`/`RefCell` sharing is not modelled.
- Floating point is not modelled: `Value::Float` (generate.rs:56) and the reading time (generate.rs:147).
- `populate_counts`, `populate_autos`, `populate_categories_subcategories` and `populate_core_build_stuffs` are not modelled. They depend on `words_count`, a table-of-contents library and build information.
- These unfinished functions and branches are not modelled:
  - `optimize_file` (static_file.rs:57-61);
  - `build` and `build_generic` (generate.rs:231-258);
  - the `.gumilgi` branch (build.rs:222-224);
  - the trailing walk loop (build.rs:283-285).
- Hook registration into Tera (build.rs:229-281) is not modelled, and neither is script compilation and its errors. Each hook is modelled from its constructor on.
- The Markdown parser, the HTML writer (`html::write_html`), the HTML tokeniser and serialiser, and the highlighter are not modelled. The model works on their event and token streams.
- Source spans of highlight events count characters here, where the source counts UTF-8 bytes. A span that splits a character is not modelled.
- Language tags are compared as strings (generate.rs:189).
- stylesheet.rs, templates.rs, config.rs, injest.rs, main.rs, util.rs and src/models are not part of this model.
- The "non utf8 filename" errors (build.rs:157, :170) cannot arise, because names are strings of characters here.
- Paths.PathRelativize: the result is the remaining components joined by `/`, which is the normal form of the path `strip_prefix` returns, not its exact text. Leading, trailing and repeated `/` are not kept.
- The `StaticFile` record (static_file.rs) and the records `new_filename` and `parse_filename` return are not modelled as records: the operations return a hash and a name as a pair.
- `PageMeta.translations` is a `BTreeSet` in the source and a sequence here; its ascending order and the absence of duplicates are not modelled.
- Base64.Decode: strict canonical decoding, so non-zero trailing bits and missing padding are rejected. The `base64` crate's decoder may accept more.
- Processor.SummaryOf: drops a removed element's start tag but not its content. End tags are not modelled, so elements are not matched with their content.
- Processor.GenerateSummary: the count is unbounded. The wrap-around of the 64-bit counter after 2^64 bytes of text is not modelled.
- Processor.StaticFileRewriter: the errors of lol_html's `write` (processor.rs:31), from the output sink or the rewriter, are not modelled, and the model emits every token although the source never calls `rewriter.end()` (processor.rs:31-32), so the source does not promise that the end of the document is flushed.
- Processor.HtmlPostProcessor: the `RewritingError` that either `rewrite_str(...)?` can return (processor.rs:117-118) is not modelled; the model always produces both the document and the summary.
