/** The server-rendered listings of app/showcases/page.tsx and
    app/search/page.tsx, which share their reading of the URL: the tags, the
    page number, the query asking for one record more than a page, and the
    page cut from the answer. The query itself (`fetchShowcases`) and the
    filter options are not part of this module. */
module ListingPage {
  import opened Wrappers
  import opened Strings
  import opened Seqs
  import opened Types
  import opened SearchParams
  import opened ShowcaseFiltersForm
  import opened ShowcaseExplorer

  /** A search parameter as the page receives it: missing, one value, or the
      values of a repeated key. */
  datatype ParamValue = Missing | One(value: string) | Many(values: seq<string>)

  /** How the framework hands a key of the query string to the page. */
  function ParamOf(ps: Params, key: string): (v: ParamValue)
    ensures v.Missing? <==> GetAll(ps, key) == []
    ensures v.One? ==> GetAll(ps, key) == [v.value]
    ensures v.Many? ==> GetAll(ps, key) == v.values && |v.values| >= 2
  {
    var all := GetAll(ps, key);
    if |all| == 0 then Missing else if |all| == 1 then One(all[0]) else Many(all)
  }

  /** `parseTags` (and `normalizeTags`, the same code): nothing for a missing
      or empty value, the value alone for one, the array as it is for a
      repeated key. */
  function ParseTags(tags: ParamValue): (r: seq<string>)
    ensures tags.Many? ==> r == tags.values
    ensures tags.One? && tags.value != "" ==> r == [tags.value]
    ensures tags.Missing? || tags == One("") ==> r == []
  {
    match tags
    case Missing => []
    case One(s) => if s == "" then [] else [s]
    case Many(ts) => ts
  }

  /** The server reads the same tags as the client's `getAll('tags')`, except
      that a lone empty `tags=` is dropped. */
  lemma ServerTagsMatchClient(ps: Params)
    ensures ParseTags(ParamOf(ps, "tags")) == if GetAll(ps, "tags") == [""] then [] else GetAll(ps, "tags")
  {
  }

  /** `Number.parseInt(page ?? '1', 10) || 1` as written: `NaN` and 0 read
      as 1, every other number as itself, negative ones included. */
  function PageNumberAsWritten(page: Option<string>): (r: int)
    ensures r != 0
    ensures ParseInt(page.GetOr("1")).None? ==> r == 1
    ensures ParseInt(page.GetOr("1")).Some? && ParseInt(page.GetOr("1")).value != 0 ==> r == ParseInt(page.GetOr("1")).value
  {
    match ParseInt(page.GetOr("1"))
    case None => 1
    case Some(n) => if n == 0 then 1 else n
  }

  /** `?page=-1` reads as page -1: the offset is 24 records before the
      start, which `slice` counts from the end of the list, whereas the
      client's `usePagination` reads the same URL as page 1. */
  lemma NegativePageAsWritten(kept: seq<ShowcaseRecord>)
    requires |kept| >= 24
    ensures PageNumberAsWritten(Some("-1")) == -1
    ensures UsePagination([("page", "-1")]) == 1
    ensures var o := ListingFilters(None, Missing, None, None, PageNumberAsWritten(Some("-1"))).offset.value;
            o == -24 && Window(kept, o, PageSize + 1) == kept[|kept| - 24..|kept| - 11]
  {
    ParseIntOfIntToString(-1);
    assert IntToString(-1) == "-1";
    assert Get([("page", "-1")], "page") == Some("-1");
  }

  /** The page number the listing is meant to read, as the client reads it:
      `NaN` and anything below 1 read as 1. */
  function PageNumber(page: Option<string>): (r: int)
    ensures r >= 1
  {
    NormalizePage(ParseInt(page.GetOr("1")))
  }

  /** Read from the same URL, the server's page number is the client's. */
  lemma PageNumberMatchesClient(ps: Params)
    ensures PageNumber(Get(ps, "page")) == UsePagination(ps)
  {
  }

  /** Both readings agree on every page number of at least 1 (and on `NaN`,
      which both read as 1). */
  lemma PageNumberAgrees(page: Option<string>)
    ensures ParseInt(page.GetOr("1")).None? || ParseInt(page.GetOr("1")).value >= 1 ==>
              PageNumber(page) == PageNumberAsWritten(page)
  {
  }

  /** The query of the listing for page number `page`: the URL's filters as
      they are, the tags as parsed, `PAGE_SIZE + 1` records from
      `(page - 1) * PAGE_SIZE` on. */
  function ListingFilters(q: Option<string>, tags: ParamValue, stack: Option<string>, difficulty: Option<string>,
                          page: int): (f: ShowcaseFilters)
    ensures f.query == q && f.stack == stack && f.difficulty == difficulty && f.order.None?
    ensures f.tags == Some(ParseTags(tags))
    ensures f.limit == Some(PageSize + 1) && f.offset.Some?
    ensures page >= 1 ==> f.offset.value >= 0 && f.offset.value % PageSize == 0
    ensures f.offset.value + PageSize == (page * PageSize)
  {
    ShowcaseFilters(q, Some(ParseTags(tags)), stack, difficulty, None, Some(PageSize + 1),
                    Some((page - 1) * PageSize))
  }

  /** On the same page number, the server asks for the window the client
      explorer asks for. */
  lemma {:induction false} ListingWindowOf(q: Option<string>, tags: ParamValue, stack: Option<string>, difficulty: Option<string>,
                                           page: int)
    requires page >= 1
    ensures var f := ListingFilters(q, tags, stack, difficulty, page);
            f.offset == Some(PagesBefore(page - 1, PageSize)) && f.limit == Some(PageSize + 1)
  {
    PagesBeforeIsProduct(page - 1, PageSize);
  }

  /** Read from the same URL with the corrected page number, the server asks
      for the same window as the client explorer. */
  lemma ListingWindowMatchesClient(q: Option<string>, tags: ParamValue, stack: Option<string>, difficulty: Option<string>,
                                   ps: Params)
    ensures var f := ListingFilters(q, tags, stack, difficulty, PageNumber(Get(ps, "page")));
            var g := ParseSearchParams(ps, PageSize);
            f.offset == g.offset && f.limit == g.limit
  {
    var c := UsePagination(ps);
    PageNumberMatchesClient(ps);
    ListingWindowOf(q, tags, stack, difficulty, c);
  }

  /** The page shown: `slice(0, PAGE_SIZE)` of what came back, and whether
      more came back. */
  function ListingPage(fetched: seq<ShowcaseRecord>): (r: Listing)
    ensures |r.records| == if |fetched| <= PageSize then |fetched| else PageSize
    ensures r.records <= fetched
    ensures r.hasNext <==> |fetched| > PageSize
  {
    Page(fetched, PageSize)
  }
}
