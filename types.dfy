/** The records the site reads from its showcase table and the filter object the
    listing pages pass to the query functions. A nullable column is an `Option`;
    `created_at` and `updated_at` may also be absent, which reads the same as
    null. */
module Types {
  import opened Wrappers

  datatype ShowcaseRecord = ShowcaseRecord(
    id: string,
    penUser: string,
    penSlug: string,
    authorName: Option<string>,
    authorUrl: Option<string>,
    thumbnailUrl: Option<string>,
    oembedHtml: Option<string>,
    stack: Option<string>,
    tags: Option<seq<string>>,
    difficulty: Option<string>,
    titleZh: Option<string>,
    titleEn: Option<string>,
    summaryZh: Option<string>,
    summaryEn: Option<string>,
    headlineZh: Option<string>,
    headlineEn: Option<string>,
    keyPointsZh: Option<seq<string>>,
    keyPointsEn: Option<seq<string>>,
    bodyMdZh: Option<string>,
    bodyMdEn: Option<string>,
    reuseStepsZh: Option<seq<string>>,
    reuseStepsEn: Option<seq<string>>,
    perfNotesZh: Option<string>,
    perfNotesEn: Option<string>,
    createdAt: Option<string>,
    updatedAt: Option<string>
  )

  /** The listing order; `Latest` is the default wherever it is absent. */
  datatype Order = Latest | Oldest

  /** The optional filters of a listing query. `order` is the field from the
      side of the conflicting definition that carries it; the query functions
      read it. */
  datatype ShowcaseFilters = ShowcaseFilters(
    query: Option<string>,
    tags: Option<seq<string>>,
    stack: Option<string>,
    difficulty: Option<string>,
    order: Option<Order>,
    limit: Option<int>,
    offset: Option<int>
  )

  /** The two languages of the site. */
  datatype Locale = Zh | En
}
