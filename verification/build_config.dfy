/** Front-matter handling of `build_site` (src/injest/build.rs): splitting an index document
    at its `===` delimiter and classifying the parsed `ConfigMeta`. */
module BuildConfig {
  import opened Wrappers
  import opened Strings
  import opened Meta

  const DELIMITER: string := "==="

  /** The error `build_site` raises for a front matter with more than one of
      category / subcategory / series / redirect. */
  datatype ConfigError = BadConfiguration

  /** The configuration text and the body of an index document: the text before the first
      `===` and the text after it, or the whole document and no body when there is no `===`. */
  function SplitFrontMatter(text: string): (r: (string, Option<string>))
    ensures r.1.None? <==> forall i :: !OccursAt(text, i, DELIMITER)
    ensures r.1.None? ==> r.0 == text
    ensures r.1.Some? ==> text == r.0 + DELIMITER + r.1.value
    ensures r.1.Some? ==> forall j :: 0 <= j < |r.0| ==> !OccursAt(text, j, DELIMITER)
  {
    match SplitOnce(text, DELIMITER)
    case Some((cfg, body)) => (cfg, Some(body))
    case None => (text, None)
  }

  /** How many of the four mutually exclusive parts a front matter has. */
  function PartCount(meta: ConfigMeta): nat
  {
    (if meta.series.Some? then 1 else 0) + (if meta.subcategory.Some? then 1 else 0)
    + (if meta.category.Some? then 1 else 0) + (if meta.redirect.Some? then 1 else 0)
  }

  /** The `ConfigurationType` of a front matter: the one part it has, `Page` when it has
      none, and `BadConfiguration` when it has two or more. */
  function Classify(meta: ConfigMeta): (r: Result<ConfigurationType, ConfigError>)
    ensures r.Err? <==> PartCount(meta) >= 2
    ensures r == Ok(Page) <==> PartCount(meta) == 0
    ensures PartCount(meta) == 1 && meta.series.Some? ==> r == Ok(Series(meta.series.value))
    ensures PartCount(meta) == 1 && meta.subcategory.Some? ==> r == Ok(SubCategory(meta.subcategory.value))
    ensures PartCount(meta) == 1 && meta.category.Some? ==> r == Ok(Category(meta.category.value))
    ensures PartCount(meta) == 1 && meta.redirect.Some? ==> r == Ok(Redirect(meta.redirect.value))
  {
    match (meta.series, meta.subcategory, meta.category, meta.redirect)
    case (Some(series), None, None, None) => Ok(Series(series))
    case (None, Some(subcat), None, None) => Ok(SubCategory(subcat))
    case (None, None, Some(cat), None) => Ok(Category(cat))
    case (None, None, None, Some(redirect)) => Ok(Redirect(redirect))
    case (None, None, None, None) => Ok(Page)
    case _ => Err(BadConfiguration)
  }

  /** A document without a delimiter is all configuration. */
  lemma NoDelimiterNoBody(text: string)
    requires '=' !in text
    ensures SplitFrontMatter(text) == (text, None)
  {
    forall i ensures !OccursAt(text, i, DELIMITER) {
      assert 0 <= i && i + 3 <= |text| ==> text[i..i + 3][0] == text[i] != '=';
    }
  }

  /** A configuration without `=` followed by the delimiter and any body splits back into
      exactly those two parts. */
  lemma SplitFrontMatterParts(cfg: string, body: string)
    requires '=' !in cfg
    ensures SplitFrontMatter(cfg + DELIMITER + body) == (cfg, Some(body))
  {
    var text := cfg + DELIMITER + body;
    forall j | 0 <= j < |cfg| ensures !OccursAt(text, j, DELIMITER) {
      assert text[j] == cfg[j] != '=';
      assert j + 3 <= |text| ==> text[j..j + 3][0] == text[j];
    }
    SplitOnceAt(text, DELIMITER, cfg, body);
  }
}
