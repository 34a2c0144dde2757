/** Filling the template context (src/injest/generate.rs:130-141, 183-194). A context is a
    map from dotted names to template values that the `populate_*` functions insert into. */
module TemplateContext {
  import opened Wrappers
  import opened Values
  import opened Meta

  /** `tera::Context`. */
  class Context {
    var entries: map<string, Json>

    constructor ()
      ensures entries == map[]
    {
      entries := map[];
    }

    method Insert(key: string, value: Json)
      modifies this
      ensures entries == old(entries)[key := value]
    {
      entries := entries[key := value];
    }
  }

  /** The group a page is listed under: its own, or `default`. */
  function GroupName(page: PageMeta): string
  {
    match page.group
    case Some(g) => g
    case None => "default"
  }

  /** The entries `populate_page_meta` inserts. */
  function PageMetaEntries(page: PageMeta): map<string, Json>
  {
    map[
      "page.group" := String(GroupName(page)),
      "page.translations" := StringArray(page.translations),
      "page.rss_enabled" := Bool(page.rss),
      "page.index_enabled" := Bool(page.index),
      "page.template" := OptString(page.template),
      "page.children_template" := OptString(page.childrenTemplate),
      "page.display" := String(page.display),
      "page.redirect_from" := StringArray(page.redirectFrom),
      "page.redirect_to" := OptString(page.redirectTo)]
  }

  /** A page without a group is in the group `default`; a page with one keeps it. */
  lemma PageGroupDefault(page: PageMeta)
    ensures page.group.None? ==> PageMetaEntries(page)["page.group"] == String("default")
    ensures page.group.Some? ==> PageMetaEntries(page)["page.group"] == String(page.group.value)
  {
  }

  /** The page meta fills exactly nine names, each from its own field. */
  lemma PageMetaKeys(page: PageMeta)
    ensures PageMetaEntries(page).Keys == {"page.group", "page.translations", "page.rss_enabled",
      "page.index_enabled", "page.template", "page.children_template", "page.display",
      "page.redirect_from", "page.redirect_to"}
    ensures PageMetaEntries(page)["page.translations"].items == seq(|page.translations|, i requires 0 <= i < |page.translations| => String(page.translations[i]))
    ensures PageMetaEntries(page)["page.redirect_to"].Null? <==> page.redirectTo.None?
  {
    var t := PageMetaEntries(page)["page.translations"];
    assert t == StringArray(page.translations);
  }

  /** Inserting the entries one by one, `page.display` twice, is the same as adding them all. */
  lemma InsertedPageMeta(e: map<string, Json>, page: PageMeta)
    ensures e["page.group" := String(GroupName(page))]
             ["page.translations" := StringArray(page.translations)]
             ["page.rss_enabled" := Bool(page.rss)]
             ["page.index_enabled" := Bool(page.index)]
             ["page.template" := OptString(page.template)]
             ["page.children_template" := OptString(page.childrenTemplate)]
             ["page.display" := String(page.display)]
             ["page.redirect_from" := StringArray(page.redirectFrom)]
             ["page.redirect_to" := OptString(page.redirectTo)]
             ["page.display" := String(page.display)]
            == e + PageMetaEntries(page)
  {
    var m := PageMetaEntries(page);
    var lhs := e["page.group" := String(GroupName(page))]
             ["page.translations" := StringArray(page.translations)]
             ["page.rss_enabled" := Bool(page.rss)]
             ["page.index_enabled" := Bool(page.index)]
             ["page.template" := OptString(page.template)]
             ["page.children_template" := OptString(page.childrenTemplate)]
             ["page.display" := String(page.display)]
             ["page.redirect_from" := StringArray(page.redirectFrom)]
             ["page.redirect_to" := OptString(page.redirectTo)]
             ["page.display" := String(page.display)];
    assert lhs.Keys == (e + m).Keys;
    forall k | k in lhs ensures lhs[k] == (e + m)[k] {
      if k in m {
      } else {
      }
    }
  }

  /** `populate_page_meta`. */
  method PopulatePageMeta(context: Context, page: PageMeta)
    modifies context
    ensures context.entries == old(context.entries) + PageMetaEntries(page)
  {
    context.Insert("page.group", String(GroupName(page)));
    context.Insert("page.translations", StringArray(page.translations));
    context.Insert("page.rss_enabled", Bool(page.rss));
    context.Insert("page.index_enabled", Bool(page.index));
    context.Insert("page.template", OptString(page.template));
    context.Insert("page.children_template", OptString(page.childrenTemplate));
    context.Insert("page.display", String(page.display));
    context.Insert("page.redirect_from", StringArray(page.redirectFrom));
    context.Insert("page.redirect_to", OptString(page.redirectTo));
    context.Insert("page.display", String(page.display));
    InsertedPageMeta(old(context.entries), page);
  }

  /** The path of the page in the language `thisLang`: the page path itself in the default
      language, otherwise the path below `/<language>`. */
  function TranslationLink(thisLang: string, defaultLang: string, path: string): string
  {
    if thisLang == defaultLang then path else "/" + thisLang + path
  }

  /** The link is the bare path exactly when the page is in the default language, and is
      prefixed with its language otherwise. */
  lemma TranslationLinkBare(thisLang: string, defaultLang: string, path: string)
    ensures TranslationLink(thisLang, defaultLang, path) == path <==> thisLang == defaultLang
    ensures thisLang != defaultLang ==>
      TranslationLink(thisLang, defaultLang, path)[..|thisLang| + 1] == "/" + thisLang
  {
    if thisLang != defaultLang {
      assert |TranslationLink(thisLang, defaultLang, path)| == |path| + |thisLang| + 1;
      assert ("/" + thisLang + path)[..|thisLang| + 1] == "/" + thisLang;
    }
  }

  /** A (language, path) pair as the context serialises it. */
  function Translation(lang: string, path: string): Json
  {
    Array([String(lang), String(path)])
  }

  /** The languages `populate_translations` lists: those equal to the page's language and
      also to the default language, in order. */
  function TranslationList(languages: seq<string>, thisLang: string, defaultLang: string): (r: seq<string>)
    ensures |r| <= |languages|
    ensures forall x :: x in r <==> x in languages && x == thisLang && x == defaultLang
  {
    if languages == [] then []
    else
      var rest := TranslationList(languages[1..], thisLang, defaultLang);
      assert forall x :: x in languages <==> x == languages[0] || x in languages[1..];
      if languages[0] == thisLang && languages[0] == defaultLang then [languages[0]] + rest else rest
  }

  /** The two filters together keep nothing on a page that is not in the default language,
      and keep every listed default language on a page that is. */
  lemma {:induction false} TranslationListFilters(languages: seq<string>, thisLang: string, defaultLang: string)
    ensures thisLang != defaultLang ==> TranslationList(languages, thisLang, defaultLang) == []
    ensures thisLang == defaultLang ==>
      |TranslationList(languages, thisLang, defaultLang)| == multiset(languages)[thisLang]
  {
    if languages != [] {
      TranslationListFilters(languages[1..], thisLang, defaultLang);
      assert languages == [languages[0]] + languages[1..];
      assert multiset(languages) == multiset{languages[0]} + multiset(languages[1..]);
    }
  }

  /** The list as the context serialises it: an array of one-element tuples. */
  function TranslationListJson(langs: seq<string>): (j: Json)
    ensures j.Array? && |j.items| == |langs|
    ensures forall i :: 0 <= i < |langs| ==> j.items[i] == Array([String(langs[i])])
  {
    Array(seq(|langs|, i requires 0 <= i < |langs| => Array([String(langs[i])])))
  }

  /** Reading the serialised list back: the languages of an array of one-element tuples. */
  function TranslationLangsOf(j: Json): (r: Option<seq<string>>)
    ensures r.Some? ==> j.Array? && |r.value| == |j.items|
  {
    if j.Array? && forall i :: 0 <= i < |j.items| ==> IsLangTuple(j.items[i]) then
      Some(seq(|j.items|, i requires 0 <= i < |j.items| && IsLangTuple(j.items[i]) => j.items[i].items[0].s))
    else None
  }

  predicate IsLangTuple(t: Json)
  {
    t.Array? && |t.items| == 1 && t.items[0].String?
  }

  /** The serialised list reads back as the list. */
  lemma TranslationLangsOfJson(langs: seq<string>)
    ensures TranslationLangsOf(TranslationListJson(langs)) == Some(langs)
  {
    var j := TranslationListJson(langs);
    assert forall i :: 0 <= i < |j.items| ==> IsLangTuple(j.items[i]);
    assert TranslationLangsOf(j).value == langs;
  }

  /** Whatever reads back as a list of languages is that list's serialisation. */
  lemma TranslationListJsonOfLangs(j: Json)
    requires TranslationLangsOf(j).Some?
    ensures TranslationListJson(TranslationLangsOf(j).value) == j
  {
    var langs := TranslationLangsOf(j).value;
    assert forall i :: 0 <= i < |j.items| ==> j.items[i] == Array([String(langs[i])]) by {
      forall i | 0 <= i < |j.items| ensures j.items[i] == Array([String(langs[i])]) {
        assert IsLangTuple(j.items[i]);
        assert j.items[i].items == [String(langs[i])];
      }
    }
    assert TranslationListJson(langs).items == j.items;
  }

  /** `populate_translations`. */
  method PopulateTranslations(context: Context, languages: seq<string>, thisLang: string, defaultLang: string,
                              path: string)
    modifies context
    ensures context.entries == old(context.entries)[
      "page.translations" := TranslationListJson(TranslationList(languages, thisLang, defaultLang))][
      "page.default_translation" := Translation(defaultLang, path)][
      "page.this_translation" := Translation(thisLang, TranslationLink(thisLang, defaultLang, path))]
  {
    context.Insert("page.translations", TranslationListJson(TranslationList(languages, thisLang, defaultLang)));
    context.Insert("page.default_translation", Translation(defaultLang, path));
    if thisLang == defaultLang {
      context.Insert("page.this_translation", Translation(thisLang, path));
    } else {
      context.Insert("page.this_translation", Translation(thisLang, "/" + thisLang + path));
    }
  }
}
