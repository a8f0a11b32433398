/** The client-side listing of components/ShowcaseExplorer.tsx: the URL
    parameters read as listing filters that ask for one record more than a
    page, the page cut from what comes back, and the state the effect keeps
    (records, whether a next page exists, loading). */
module ShowcaseExplorer {
  import opened Wrappers
  import opened Seqs
  import opened Strings
  import opened Types
  import opened ShowcaseData
  import opened SearchParams
  import opened ShowcaseFiltersForm
  import opened PaginationControls
  import opened SupabaseBrowser

  /** The offset of the first record of a page: `pages * pageSize`, summed
      page by page. */
  function PagesBefore(pages: nat, pageSize: nat): nat {
    if pages == 0 then 0 else PagesBefore(pages - 1, pageSize) + pageSize
  }

  /** The sum is the product `(page - 1) * pageSize` of the source. */
  lemma {:induction false} PagesBeforeIsProduct(pages: nat, pageSize: nat)
    ensures PagesBefore(pages, pageSize) == pages * pageSize
  {
    if pages > 0 {
      PagesBeforeIsProduct(pages - 1, pageSize);
      assert pages * pageSize == (pages - 1) * pageSize + pageSize;
    }
  }

  /** `value || undefined` for an optional string: absent when missing or
      empty. */
  function Truthy(s: Option<string>): (r: Option<string>)
    ensures r.None? <==> s.None? || s.value == ""
    ensures r.Some? ==> r == s
  {
    match s
    case None => None
    case Some(v) => if v == "" then None else s
  }

  /** The filters asking for page `page` (counted from 1) of `pageSize`
      records and one more. */
  function FiltersFor(query: Option<string>, tags: seq<string>, stack: Option<string>, difficulty: Option<string>,
                      page: int, pageSize: nat): (f: ShowcaseFilters)
    requires page >= 1
    ensures f.query == query && f.tags == Some(tags) && f.order.None?
    ensures f.stack == Truthy(stack) && f.difficulty == Truthy(difficulty)
    ensures f.limit == Some(pageSize + 1)
    ensures f.offset == Some(PagesBefore(page - 1, pageSize))
  {
    ShowcaseFilters(query, Some(tags), Truthy(stack), Truthy(difficulty), None, Some(pageSize + 1),
                    Some(PagesBefore(page - 1, pageSize)))
  }

  /** The same filters with the window `delta` records further on. */
  function Shifted(f: ShowcaseFilters, delta: int): ShowcaseFilters {
    f.(offset := Some(f.offset.GetOr(0) + delta))
  }

  /** One page on, the window starts one page size further; one page back,
      one page size earlier. */
  lemma FiltersForNeighbours(query: Option<string>, tags: seq<string>, stack: Option<string>, difficulty: Option<string>,
                             page: int, pageSize: nat)
    requires page >= 1
    ensures FiltersFor(query, tags, stack, difficulty, page + 1, pageSize) ==
            Shifted(FiltersFor(query, tags, stack, difficulty, page, pageSize), pageSize)
    ensures page > 1 ==>
              FiltersFor(query, tags, stack, difficulty, page - 1, pageSize) ==
              Shifted(FiltersFor(query, tags, stack, difficulty, page, pageSize), -(pageSize as int))
  {
  }

  /** `parseSearchParams(searchParams, pageSize)`. The page is read as
      `usePagination` reads it (the explorer's own `page` memo is the same
      code); `q` is taken untrimmed; an empty `stack` or `difficulty` reads as
      absent; one record more than a page is asked for, from the first record
      of the page. */
  function ParseSearchParams(ps: Params, pageSize: nat): (f: ShowcaseFilters)
    ensures f.query == Get(ps, "q") && f.tags == Some(GetAll(ps, "tags")) && f.order.None?
    ensures f.stack == Truthy(Get(ps, "stack")) && f.difficulty == Truthy(Get(ps, "difficulty"))
    ensures f.limit == Some(pageSize + 1) && f.offset == Some(PagesBefore(UsePagination(ps) - 1, pageSize))
  {
    FiltersFor(Get(ps, "q"), GetAll(ps, "tags"), Get(ps, "stack"), Get(ps, "difficulty"), UsePagination(ps), pageSize)
  }

  /** A submission of the filter form reads back as the form's filters, from
      the first page: the trimmed keyword when not blank, the non-empty
      selected tags, the stack and difficulty when chosen. */
  lemma SubmissionReadsBack(query: string, stack: string, difficulty: string, tags: seq<string>, pageSize: nat)
    ensures var f := ParseSearchParams(SubmitParams(query, stack, difficulty, tags), pageSize);
            && f.query == (if Trim(query) != "" then Some(Trim(query)) else None)
            && f.tags == Some(Filter(tags, NonEmpty))
            && f.stack == (if stack != "" then Some(stack) else None)
            && f.difficulty == (if difficulty != "" then Some(difficulty) else None)
            && f.offset == Some(0)
  {
    var ps := SubmitParams(query, stack, difficulty, tags);
    SubmitParamsRead(query, stack, difficulty, tags, "q");
    SubmitParamsRead(query, stack, difficulty, tags, "stack");
    SubmitParamsRead(query, stack, difficulty, tags, "difficulty");
    SubmitParamsRead(query, stack, difficulty, tags, "tags");
    SubmitParamsRead(query, stack, difficulty, tags, "page");
    ReadsBackAs(ps, Trim(query), stack, difficulty, Filter(tags, NonEmpty), pageSize);
  }

  /** Parameters holding at most one non-empty value per filter key and no
      page read back as those values, from the first page. */
  lemma ReadsBackAs(ps: Params, q: string, stack: string, difficulty: string, tags: seq<string>, pageSize: nat)
    requires GetAll(ps, "q") == (if q != "" then [q] else [])
    requires GetAll(ps, "stack") == (if stack != "" then [stack] else [])
    requires GetAll(ps, "difficulty") == (if difficulty != "" then [difficulty] else [])
    requires GetAll(ps, "tags") == tags && GetAll(ps, "page") == []
    ensures var f := ParseSearchParams(ps, pageSize);
            && f.query == (if q != "" then Some(q) else None)
            && f.tags == Some(tags)
            && f.stack == (if stack != "" then Some(stack) else None)
            && f.difficulty == (if difficulty != "" then Some(difficulty) else None)
            && f.offset == Some(0)
  {
    MissingPageIsFirst(ps);
  }

  /** The next link keeps the filters and moves the window on by one page. */
  lemma NextPageFilters(ps: Params, pageSize: nat)
    ensures ParseSearchParams(NextParams(ps, UsePagination(ps)), pageSize) == Shifted(ParseSearchParams(ps, pageSize), pageSize)
  {
    var c := UsePagination(ps);
    var next := NextParams(ps, c);
    NextReadsBack(ps, c);
    LinksKeepKey(ps, c, "q");
    LinksKeepKey(ps, c, "stack");
    LinksKeepKey(ps, c, "difficulty");
    LinksKeepKey(ps, c, "tags");
    GetAgrees(next, ps, "q");
    GetAgrees(next, ps, "stack");
    GetAgrees(next, ps, "difficulty");
    FiltersForNeighbours(Get(ps, "q"), GetAll(ps, "tags"), Get(ps, "stack"), Get(ps, "difficulty"), c, pageSize);
  }

  /** Away from the first page, the previous link keeps the filters and moves
      the window back by one page. */
  lemma PrevPageFilters(ps: Params, pageSize: nat)
    requires UsePagination(ps) > 1
    ensures ParseSearchParams(PrevParams(ps, UsePagination(ps)), pageSize) == Shifted(ParseSearchParams(ps, pageSize), -(pageSize as int))
  {
    var c := UsePagination(ps);
    var prev := PrevParams(ps, c);
    PrevReadsBack(ps, c);
    LinksKeepKey(ps, c, "q");
    LinksKeepKey(ps, c, "stack");
    LinksKeepKey(ps, c, "difficulty");
    LinksKeepKey(ps, c, "tags");
    GetAgrees(prev, ps, "q");
    GetAgrees(prev, ps, "stack");
    GetAgrees(prev, ps, "difficulty");
    FiltersForNeighbours(Get(ps, "q"), GetAll(ps, "tags"), Get(ps, "stack"), Get(ps, "difficulty"), c, pageSize);
  }

  /** The page the explorer shows and whether a next page exists. */
  datatype Listing = Listing(records: seq<ShowcaseRecord>, hasNext: bool)

  /** `data.slice(0, pageSize)` and `data.length > pageSize`: the records are
      the first `pageSize` of those fetched (all of them when fewer), and a
      next page exists exactly when more came back. */
  function Page(fetched: seq<ShowcaseRecord>, pageSize: nat): (r: Listing)
    ensures |r.records| == if |fetched| <= pageSize then |fetched| else pageSize
    ensures r.records <= fetched
    ensures r.hasNext <==> |fetched| > pageSize
  {
    var records := JsSlice(fetched, 0, pageSize);
    Listing(records, |fetched| > pageSize)
  }

  /** Asking for one record more than a page from offset `o` shows exactly
      the page at `o`, and `hasNext` holds exactly when a record follows
      it. */
  lemma LookAhead(all: seq<ShowcaseRecord>, o: nat, pageSize: nat)
    ensures Page(Window(all, o, pageSize + 1), pageSize) == Listing(Window(all, o, pageSize), |all| > o + pageSize)
  {
    var w := Window(all, o, pageSize + 1);
    WindowExact(all, o, pageSize + 1);
    WindowExact(all, o, pageSize);
    var p := Page(w, pageSize);
    assert p.records == w[..|p.records|];
  }

  /** Once nothing is loading, the next link of a page fetched with one
      record of look-ahead is enabled exactly when a record follows the
      page. */
  lemma NextEnabledIffMore(all: seq<ShowcaseRecord>, o: nat, pageSize: nat)
    ensures var l := Page(Window(all, o, pageSize + 1), pageSize);
            !DisableNext(l.hasNext, false) <==> |all| > o + pageSize
  {
    LookAhead(all, o, pageSize);
  }

  /** Without a database client the explorer shows, for the parameters of
      the URL, exactly that page of the newest-first matching built-in
      records, and offers a next page exactly when one exists. */
  lemma ExplorerFallbackPage(parse: string -> Option<int>, mock: seq<ShowcaseRecord>, ps: Params, pageSize: nat)
    ensures var f := ParseSearchParams(ps, pageSize);
            var kept := Matching(parse, SortShowcasesByRecency(parse, mock, Latest), Latest, CriteriaOf(f));
            var o := f.offset.value;
            Page(BrowserFallback(parse, mock, f), pageSize) == Listing(Window(kept, o, pageSize), |kept| > o + pageSize)
  {
    var f := ParseSearchParams(ps, pageSize);
    var kept := Matching(parse, SortShowcasesByRecency(parse, mock, Latest), Latest, CriteriaOf(f));
    LookAhead(kept, f.offset.value, pageSize);
  }

  /** The state the explorer keeps, and the props it falls back to. */
  class ExplorerState {
    var records: seq<ShowcaseRecord>
    var hasNext: bool
    var loading: bool
    const initialRecords: seq<ShowcaseRecord>
    const initialHasNext: bool

    /** The first render: the records and flag the server rendered, not
        loading. */
    constructor (initialRecords: seq<ShowcaseRecord>, initialHasNext: bool)
      ensures this.initialRecords == initialRecords && this.initialHasNext == initialHasNext
      ensures records == initialRecords && hasNext == initialHasNext && !loading
    {
      this.initialRecords := initialRecords;
      this.initialHasNext := initialHasNext;
      records := initialRecords;
      hasNext := initialHasNext;
      loading := false;
    }

    /** The effect starts a fetch: `loading` is set, the rest is kept. */
    method BeginFetch()
      modifies this
      ensures loading && records == old(records) && hasNext == old(hasNext)
    {
      loading := true;
    }

    /** The fetch resolved with `data`: unless the effect was cleaned up
        meanwhile, the page cut from it is shown and loading ends. */
    method Settle(cancelled: bool, data: seq<ShowcaseRecord>, pageSize: nat)
      modifies this
      ensures cancelled ==> records == old(records) && hasNext == old(hasNext) && loading == old(loading)
      ensures !cancelled ==> Listing(records, hasNext) == Page(data, pageSize) && !loading
    {
      if cancelled {
        return;
      }
      var page := Page(data, pageSize);
      records, hasNext, loading := page.records, page.hasNext, false;
    }

    /** The fetch was rejected: unless the effect was cleaned up meanwhile,
        the server-rendered records and flag come back and loading ends. */
    method Fail(cancelled: bool)
      modifies this
      ensures cancelled ==> records == old(records) && hasNext == old(hasNext) && loading == old(loading)
      ensures !cancelled ==> records == initialRecords && hasNext == initialHasNext && !loading
    {
      if cancelled {
        return;
      }
      records, hasNext, loading := initialRecords, initialHasNext, false;
    }
  }
}
