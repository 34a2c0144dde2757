/** The front-matter records of src/injest/generate.rs and src/injest/build.rs.
    Dates (`chrono::Date<Utc>`) are kept as their text. */
module Meta {
  import opened Wrappers

  datatype Date = Date(text: string)

  /** `PageMeta`: the page part of a front matter. `translations` is a `BTreeSet` in the
      source and a sequence here: the set's ascending order and uniqueness are not modelled. */
  datatype PageMeta = PageMeta(
    group: Option<string>,
    translations: seq<string>,
    rss: bool,
    index: bool,
    redirectFrom: seq<string>,
    redirectTo: Option<string>,
    display: string,
    childrenTemplate: Option<string>,
    template: Option<string>)

  datatype CategoryMeta = CategoryMeta(title: string, pinnedPosts: seq<string>)

  /** `SubCategoryMeta` is declared outside the files of this model; its fields are
      represented by a title only. */
  datatype SubCategoryMeta = SubCategoryMeta(title: string)

  datatype SeriesMeta = SeriesMeta(
    onGoing: bool,
    dateStarted: Date,
    dateCompleted: Option<Date>,
    editedDates: seq<Date>,
    title: string,
    authors: seq<string>,
    tags: seq<string>)

  datatype RedirectMeta = RedirectMeta(to: seq<string>)

  /** `ConfigMeta`: a parsed front matter, with at most one of the four
      category / subcategory / series / redirect parts expected. */
  datatype ConfigMeta = ConfigMeta(
    external: bool,
    page: PageMeta,
    category: Option<CategoryMeta>,
    subcategory: Option<SubCategoryMeta>,
    series: Option<SeriesMeta>,
    redirect: Option<RedirectMeta>)

  /** What an index document configures. */
  datatype ConfigurationType =
    | Category(category: CategoryMeta)
    | SubCategory(subcategory: SubCategoryMeta)
    | Redirect(redirect: RedirectMeta)
    | Series(series: SeriesMeta)
    | Page
}
