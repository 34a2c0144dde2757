/** `config_by_language_name` (src/injest/generate.rs:361-608): the highlighter configuration
    of a code-block language, found by its canonical key. The configurations themselves are
    not modelled; the lookup returns the key. */
module Languages {
  import opened Wrappers
  import opened Strings

  /** The keys of the `LANGUAGES` table. */
  const DirectKeys: set<string> := {
    "c", "r", "go", "cpp", "lua", "ts", "tsx", "js", "jsx", "java", "css", "html", "toml",
    "rust", "json", "kt", "swift", "vue", "svelte", "vue3", "cs", "py", "scad", "el", "rb"}

  /** The fallback names and the key each is looked up under. */
  const Aliases: map<string, string> := map[
    "c_plus_plus" := "cpp", "c++" := "cpp",
    "luau" := "lua", "luajit" := "lua",
    "typescript" := "ts",
    "javascript" := "js", "ecmascript" := "js",
    "rust" := "rs",
    "kotlin" := "kt",
    "c#" := "cs",
    "python" := "py", "python3" := "py", "py3" := "py", "pyw" := "py",
    "openscad" := "scad",
    "lisp" := "el", "clojure" := "el", "scheme" := "el", "elisp" := "el", "clj" := "el",
    "ruby" := "rb"]

  /** The canonical key for a language name: the ASCII-lower-cased name when it is a key,
      otherwise its alias target when that is a key, otherwise nothing. */
  function LanguageKey(lang: string): (r: Option<string>)
    ensures r.Some? ==> r.value in DirectKeys
    ensures r.Some? ==> AsciiLower(lang) in DirectKeys || AsciiLower(lang) in Aliases
    ensures AsciiLower(lang) in DirectKeys ==> r == Some(AsciiLower(lang))
    ensures AsciiLower(lang) !in DirectKeys && AsciiLower(lang) in Aliases ==>
      r == if Aliases[AsciiLower(lang)] in DirectKeys then Some(Aliases[AsciiLower(lang)]) else None
  {
    var l := AsciiLower(lang);
    if l in DirectKeys then Some(l)
    else if l in Aliases && Aliases[l] in DirectKeys then Some(Aliases[l])
    else None
  }

  /** The lookup ignores ASCII case. */
  lemma LanguageKeyIgnoresCase(lang: string)
    ensures LanguageKey(AsciiUpper(lang)) == LanguageKey(lang)
    ensures LanguageKey(AsciiLower(lang)) == LanguageKey(lang)
  {
    AsciiLowerIgnoresCase(lang);
  }

  lemma KeysNoUpper0()
    ensures NoUpper("c") && NoUpper("r") && NoUpper("go") && NoUpper("cpp") && NoUpper("lua") && NoUpper("ts") && NoUpper("tsx")
  {
  }

  lemma KeysNoUpper1()
    ensures NoUpper("js") && NoUpper("jsx") && NoUpper("java") && NoUpper("css") && NoUpper("html") && NoUpper("toml") && NoUpper("rust")
  {
  }

  lemma KeysNoUpper2()
    ensures NoUpper("json") && NoUpper("kt") && NoUpper("swift") && NoUpper("vue") && NoUpper("svelte") && NoUpper("vue3") && NoUpper("cs")
  {
  }

  lemma KeysNoUpper3()
    ensures NoUpper("py") && NoUpper("scad") && NoUpper("el") && NoUpper("rb")
  {
  }

  lemma AliasesNoUpper0()
    ensures NoUpper("c_plus_plus") && NoUpper("c++") && NoUpper("luau") && NoUpper("luajit") && NoUpper("typescript") && NoUpper("javascript")
  {
  }

  lemma AliasesNoUpper1()
    ensures NoUpper("ecmascript") && NoUpper("rust") && NoUpper("kotlin") && NoUpper("c#") && NoUpper("python") && NoUpper("python3")
  {
  }

  lemma AliasesNoUpper2()
    ensures NoUpper("py3") && NoUpper("pyw") && NoUpper("openscad") && NoUpper("lisp") && NoUpper("clojure") && NoUpper("scheme")
  {
  }

  lemma AliasesNoUpper3()
    ensures NoUpper("elisp") && NoUpper("clj") && NoUpper("ruby")
  {
  }

  /** The keys are written in lower case. */
  lemma KeysHaveNoUpper()
    ensures forall k :: k in DirectKeys ==> NoUpper(k)
  {
    KeysNoUpper0();
    KeysNoUpper1();
    KeysNoUpper2();
    KeysNoUpper3();
  }

  /** The aliases are written in lower case. */
  lemma AliasesHaveNoUpper()
    ensures forall k :: k in Aliases ==> NoUpper(k)
  {
    AliasesNoUpper0();
    AliasesNoUpper1();
    AliasesNoUpper2();
    AliasesNoUpper3();
    assert Aliases.Keys == {"c_plus_plus", "c++", "luau", "luajit", "typescript", "javascript", "ecmascript", "rust", "kotlin", "c#", "python", "python3", "py3", "pyw", "openscad", "lisp", "clojure", "scheme", "elisp", "clj", "ruby"};
  }

  /** Every key of the table resolves to itself. */
  lemma DirectKeysResolve(k: string)
    requires k in DirectKeys
    ensures LanguageKey(k) == Some(k)
  {
    KeysHaveNoUpper();
    AsciiLowerOfLower(k);
  }

  /** An alias that is not itself a key resolves to its target when the target is a key. */
  lemma AliasResolves(a: string)
    requires a in Aliases && a !in DirectKeys
    ensures LanguageKey(a) == if Aliases[a] in DirectKeys then Some(Aliases[a]) else None
  {
    AliasesHaveNoUpper();
    AsciiLowerOfLower(a);
  }

  /** `c++` is looked up as `cpp`. */
  lemma CppAlias()
    ensures LanguageKey("c++") == Some("cpp")
  {
    AliasResolves("c++");
  }

  /** `rust` is a key, so its alias to `rs`, which is not a key, never applies. */
  lemma RustIsDirect()
    ensures LanguageKey("rust") == Some("rust")
  {
    DirectKeysResolve("rust");
  }

  /** `rs` is neither a key nor an alias. */
  lemma RsUnknown()
    ensures LanguageKey("rs") == None
  {
    AsciiLowerOfLower("rs");
  }
}
