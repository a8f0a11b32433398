/** The in-memory query engine of lib/showcase-data.ts: the recency order, the
    filter predicate shared with lib/supabase.ts, the offset/limit window, and
    the list of candidate table names. `Date.parse` is the parameter `parse`;
    `None` stands for `NaN`. */
module ShowcaseData {
  import opened Wrappers
  import opened Seqs
  import opened Strings
  import opened Sorting
  import opened Types

  /** `value ? Date.parse(value) : 0`: an absent or empty timestamp counts as 0. */
  function FieldTime(parse: string -> Option<int>, value: Option<string>): Option<int> {
    match value
    case None => Some(0)
    case Some(s) => if s == "" then Some(0) else parse(s)
  }

  /** `getRecencyTimestamp`: the later of creation and update. `Math.max`
      propagates `NaN`, so one unparsable field makes the whole key `NaN`. */
  function RecencyTimestamp(parse: string -> Option<int>, r: ShowcaseRecord): (t: Option<int>)
    ensures var c, u := FieldTime(parse, r.createdAt), FieldTime(parse, r.updatedAt);
            && (t.Some? <==> c.Some? && u.Some?)
            && (t.Some? ==> t.value >= c.value && t.value >= u.value)
            && (t.Some? ==> t.value == c.value || t.value == u.value)
  {
    var c, u := FieldTime(parse, r.createdAt), FieldTime(parse, r.updatedAt);
    if c.None? || u.None? then None
    else Some(if c.value >= u.value then c.value else u.value)
  }

  /** A missing update time never lowers the creation time: the key is the
      creation time, or 0 when that is earlier than the epoch. */
  lemma AbsentUpdateKeepsCreation(parse: string -> Option<int>, r: ShowcaseRecord)
    requires r.updatedAt.None? || r.updatedAt == Some("")
    ensures FieldTime(parse, r.createdAt).Some? ==>
      RecencyTimestamp(parse, r) == Some(if FieldTime(parse, r.createdAt).value >= 0 then FieldTime(parse, r.createdAt).value else 0)
    ensures FieldTime(parse, r.createdAt).None? ==> RecencyTimestamp(parse, r).None?
  {
  }

  /** The comparator of `sortShowcasesByRecency`:
      `(key(a) - key(b)) * factor` with `factor` 1 for `'oldest'` and -1
      otherwise, written as the difference in the right direction; `NaN` is
      read as 0. */
  function RecencyComparator(parse: string -> Option<int>, order: Order): (ShowcaseRecord, ShowcaseRecord) -> int {
    (a: ShowcaseRecord, b: ShowcaseRecord) =>
      var ka, kb := RecencyTimestamp(parse, a), RecencyTimestamp(parse, b);
      if ka.Some? && kb.Some? then (if order == Oldest then ka.value - kb.value else kb.value - ka.value) else 0
  }

  /** `sortShowcasesByRecency(records, order)`: a sorted copy. */
  function SortShowcasesByRecency(parse: string -> Option<int>, records: seq<ShowcaseRecord>, order: Order): (r: seq<ShowcaseRecord>)
    ensures multiset(r) == multiset(records)
    ensures |r| == |records|
  {
    SortBy(records, RecencyComparator(parse, order))
  }

  /** Every record has a numeric recency key. */
  predicate AllTimed(parse: string -> Option<int>, records: seq<ShowcaseRecord>) {
    forall i :: 0 <= i < |records| ==> RecencyTimestamp(parse, records[i]).Some?
  }

  lemma RecencyPreorder(parse: string -> Option<int>, records: seq<ShowcaseRecord>, order: Order)
    requires AllTimed(parse, records)
    ensures PreorderOn(RecencyComparator(parse, order), records)
  {
    var cmp := RecencyComparator(parse, order);
    forall a | a in records ensures RecencyTimestamp(parse, a).Some? {
      var i :| 0 <= i < |records| && records[i] == a;
    }
  }

  /** With numeric keys, `'latest'` lists newer records first and `'oldest'`
      older records first. */
  lemma {:induction false} SortedByRecency(parse: string -> Option<int>, records: seq<ShowcaseRecord>, order: Order)
    requires AllTimed(parse, records)
    ensures var r := SortShowcasesByRecency(parse, records, order);
            forall i, j :: 0 <= i < j < |r| ==>
              RecencyTimestamp(parse, r[i]).Some? && RecencyTimestamp(parse, r[j]).Some? &&
              (if order == Latest
               then RecencyTimestamp(parse, r[i]).value >= RecencyTimestamp(parse, r[j]).value
               else RecencyTimestamp(parse, r[i]).value <= RecencyTimestamp(parse, r[j]).value)
  {
    var cmp := RecencyComparator(parse, order);
    RecencyPreorder(parse, records, order);
    SortBySorted(records, cmp);
    var r := SortShowcasesByRecency(parse, records, order);
    forall i | 0 <= i < |r| ensures RecencyTimestamp(parse, r[i]).Some? {
      assert r[i] in multiset(records);
      var k :| 0 <= k < |records| && records[k] == r[i];
    }
    forall i, j | 0 <= i < j < |r| ensures Le(cmp, r[i], r[j]) {
    }
  }

  /** The records whose recency key equals `k`. */
  function WithRecency(parse: string -> Option<int>, k: int): ShowcaseRecord -> bool {
    x => RecencyTimestamp(parse, x) == Some(k)
  }

  /** The sort is stable: records with the same recency keep their input order. */
  lemma SortByRecencyStable(parse: string -> Option<int>, records: seq<ShowcaseRecord>, order: Order, k: int)
    requires AllTimed(parse, records)
    ensures Filter(SortShowcasesByRecency(parse, records, order), WithRecency(parse, k)) ==
            Filter(records, WithRecency(parse, k))
  {
    var cmp := RecencyComparator(parse, order);
    if i :| 0 <= i < |records| && RecencyTimestamp(parse, records[i]) == Some(k) {
      var e := records[i];
      var ext := records + [e];
      forall j | 0 <= j < |ext| ensures RecencyTimestamp(parse, ext[j]).Some? {
        if j < |records| {
          assert ext[j] == records[j];
        }
      }
      RecencyPreorder(parse, ext, order);
      SortByStable(records, cmp, e);
      var r := SortShowcasesByRecency(parse, records, order);
      forall x | x in r ensures ClassOf(cmp, e)(x) == WithRecency(parse, k)(x) {
        assert x in multiset(records);
        var j :| 0 <= j < |records| && records[j] == x;
        SameClass(parse, order, e, k, x);
      }
      forall x | x in records ensures ClassOf(cmp, e)(x) == WithRecency(parse, k)(x) {
        var j :| 0 <= j < |records| && records[j] == x;
        SameClass(parse, order, e, k, x);
      }
      FilterCongruence(r, ClassOf(cmp, e), WithRecency(parse, k));
      FilterCongruence(records, ClassOf(cmp, e), WithRecency(parse, k));
    } else {
      var r := SortShowcasesByRecency(parse, records, order);
      FilterNone(records, WithRecency(parse, k));
      forall x | x in r ensures !WithRecency(parse, k)(x) {
        assert x in multiset(records);
        var j :| 0 <= j < |records| && records[j] == x;
      }
      FilterNone(r, WithRecency(parse, k));
    }
  }

  /** Among records with numeric keys, comparing equal to `e` means having
      `e`'s key. */
  lemma SameClass(parse: string -> Option<int>, order: Order, e: ShowcaseRecord, k: int, x: ShowcaseRecord)
    requires RecencyTimestamp(parse, e) == Some(k) && RecencyTimestamp(parse, x).Some?
    ensures ClassOf(RecencyComparator(parse, order), e)(x) == WithRecency(parse, k)(x)
  {
  }

  /** `filter(Boolean)` over the text fields, joined with spaces and lowered:
      the text a query is searched in. */
  function SearchBucket(item: ShowcaseRecord): string {
    var fields := [item.titleEn, item.titleZh, item.summaryEn, item.summaryZh, item.bodyMdEn, item.bodyMdZh];
    Lower(Join(PresentWhere(fields, t => t != ""), " "))
  }

  /** Every string lowered. */
  function LowerAll(ts: seq<string>): (r: seq<string>)
    ensures |r| == |ts|
    ensures forall i :: 0 <= i < |ts| ==> r[i] == Lower(ts[i])
  {
    seq(|ts|, i requires 0 <= i < |ts| => Lower(ts[i]))
  }

  /** `wanted.some((tag) => have.includes(tag))`. */
  predicate AnyShared(wanted: seq<string>, have: seq<string>) {
    exists i :: 0 <= i < |wanted| && wanted[i] in have
  }

  /** The prepared filters: the query trimmed and lowered, the tags lowered. */
  datatype Criteria = Criteria(query: Option<string>, tags: Option<seq<string>>, stack: Option<string>, difficulty: Option<string>)

  function CriteriaOf(filters: ShowcaseFilters): Criteria {
    Criteria(
      match filters.query case Some(q) => Some(Lower(Trim(q))) case None => None,
      match filters.tags case Some(ts) => Some(LowerAll(ts)) case None => None,
      filters.stack,
      filters.difficulty)
  }

  /** The predicate passed to `filter`: every active criterion holds. A criterion
      is active when it is present and non-empty. */
  predicate Matches(c: Criteria, item: ShowcaseRecord) {
    && (c.query.None? || c.query.value == "" || Contains(SearchBucket(item), c.query.value))
    && (c.tags.None? || |c.tags.value| == 0 || AnyShared(c.tags.value, LowerAll(item.tags.GetOr([]))))
    && (c.stack.None? || c.stack.value == "" || Lower(item.stack.GetOr("")) == Lower(c.stack.value))
    && (c.difficulty.None? || c.difficulty.value == "" || Lower(item.difficulty.GetOr("")) == Lower(c.difficulty.value))
  }

  function MatchesAll(c: Criteria): ShowcaseRecord -> bool {
    item => Matches(c, item)
  }

  /** The records sorted in the requested order and narrowed to the ones that
      match: what the window of `applyFallbackFilters` is taken from. */
  function Matching(parse: string -> Option<int>, data: seq<ShowcaseRecord>, order: Order, c: Criteria): (r: seq<ShowcaseRecord>)
    ensures multiset(r) <= multiset(data)
    ensures |r| <= |data|
  {
    Filter(SortShowcasesByRecency(parse, data, order), MatchesAll(c))
  }

  /** `applyFallbackFilters` of lib/showcase-data.ts: sort by recency in the
      requested order, keep the matching records, then take the window
      `slice(offset ?? 0, (offset ?? 0) + (limit ?? data.length))`. */
  function ApplyFallbackFilters(parse: string -> Option<int>, data: seq<ShowcaseRecord>, filters: ShowcaseFilters): (r: seq<ShowcaseRecord>)
    ensures multiset(r) <= multiset(data)
    ensures filters.limit.Some? && filters.limit.value >= 0 ==> |r| <= filters.limit.value
    ensures |r| <= |data|
  {
    var kept := Matching(parse, data, filters.order.GetOr(Latest), CriteriaOf(filters));
    var r := Window(kept, filters.offset.GetOr(0), filters.limit.GetOr(|data|));
    assert multiset(r) <= multiset(kept) <= multiset(data);
    r
  }

  /** Every record returned matches every active filter. */
  lemma FallbackMatches(parse: string -> Option<int>, data: seq<ShowcaseRecord>, filters: ShowcaseFilters)
    ensures var r := ApplyFallbackFilters(parse, data, filters);
            forall i :: 0 <= i < |r| ==> Matches(CriteriaOf(filters), r[i])
  {
    var kept := Matching(parse, data, filters.order.GetOr(Latest), CriteriaOf(filters));
    var offset := filters.offset.GetOr(0);
    SliceKeeps(kept, offset, offset + filters.limit.GetOr(|data|), MatchesAll(CriteriaOf(filters)));
  }

  /** The result is one contiguous run of the sorted, filtered records, starting
      where the offset points. */
  lemma FallbackIsWindow(parse: string -> Option<int>, data: seq<ShowcaseRecord>, filters: ShowcaseFilters,
                         kept: seq<ShowcaseRecord>, r: seq<ShowcaseRecord>)
    requires kept == Matching(parse, data, filters.order.GetOr(Latest), CriteriaOf(filters))
    requires r == ApplyFallbackFilters(parse, data, filters)
    ensures var from := RelativeIndex(filters.offset.GetOr(0), |kept|);
            from + |r| <= |kept| && r == kept[from..from + |r|]
  {
    var o, m := filters.offset.GetOr(0), filters.limit.GetOr(|data|);
    FallbackIs(parse, data, filters, kept, o, m);
    RunOf(kept, o, m, r);
  }

  /** For a non-negative offset and limit the result is exactly the
      positions `[offset, offset + limit)` of the sorted, filtered records
      that exist. */
  lemma FallbackPositions(parse: string -> Option<int>, data: seq<ShowcaseRecord>, filters: ShowcaseFilters,
                          kept: seq<ShowcaseRecord>, o: int, m: int)
    requires kept == Matching(parse, data, filters.order.GetOr(Latest), CriteriaOf(filters))
    requires o == filters.offset.GetOr(0) && m == filters.limit.GetOr(|data|) && o >= 0 && m >= 0
    ensures ApplyFallbackFilters(parse, data, filters) ==
              kept[(if o <= |kept| then o else |kept|)..(if o + m <= |kept| then o + m else |kept|)]
  {
    FallbackIs(parse, data, filters, kept, o, m);
    PositionsOf(kept, o, m, ApplyFallbackFilters(parse, data, filters));
  }

  /** `WindowIsRun`, for a page already known to be the window. */
  lemma RunOf(kept: seq<ShowcaseRecord>, o: int, m: int, r: seq<ShowcaseRecord>)
    requires r == Window(kept, o, m)
    ensures var from := RelativeIndex(o, |kept|); from + |r| <= |kept| && r == kept[from..from + |r|]
  {
    WindowIsRun(kept, o, m);
  }

  /** `WindowExact`, for a page already known to be the window. */
  lemma PositionsOf(kept: seq<ShowcaseRecord>, o: int, m: int, r: seq<ShowcaseRecord>)
    requires r == Window(kept, o, m) && o >= 0 && m >= 0
    ensures r == kept[(if o <= |kept| then o else |kept|)..(if o + m <= |kept| then o + m else |kept|)]
  {
    WindowExact(kept, o, m);
  }

  /** Consecutive pages of the same size cover consecutive runs: the page at
      offset `o` and the page at `o + m`, both of size `m`, together make the
      page at `o` of size `2 * m`. */
  lemma FallbackPagesAdjoin(parse: string -> Option<int>, data: seq<ShowcaseRecord>,
                            first: ShowcaseFilters, second: ShowcaseFilters, both: ShowcaseFilters, o: nat, m: nat)
    requires first.offset == Some(o) && first.limit == Some(m)
    requires second == first.(offset := Some(o + m))
    requires both == first.(limit := Some(2 * m))
    ensures ApplyFallbackFilters(parse, data, first) + ApplyFallbackFilters(parse, data, second) ==
            ApplyFallbackFilters(parse, data, both)
  {
    var kept := Matching(parse, data, first.order.GetOr(Latest), CriteriaOf(first));
    SameQuery(second, first);
    SameQuery(both, first);
    FallbackIs(parse, data, second, kept, o + m, m);
    FallbackIs(parse, data, first, kept, o, m);
    FallbackIs(parse, data, both, kept, o, 2 * m);
    WindowPagesAdjoin(kept, o, m);
  }

  /** A page is the window its offset and limit name over the matching
      records, which depend only on the order and the criteria. */
  lemma FallbackIs(parse: string -> Option<int>, data: seq<ShowcaseRecord>, page: ShowcaseFilters,
                   kept: seq<ShowcaseRecord>, from: int, count: int)
    requires kept == Matching(parse, data, page.order.GetOr(Latest), CriteriaOf(page))
    requires page.offset.GetOr(0) == from && page.limit.GetOr(|data|) == count
    ensures ApplyFallbackFilters(parse, data, page) == Window(kept, from, count)
  {
  }

  /** Filters that differ only in their window select the same records. */
  lemma SameQuery(f: ShowcaseFilters, g: ShowcaseFilters)
    requires f.query == g.query && f.tags == g.tags && f.stack == g.stack && f.difficulty == g.difficulty
    ensures CriteriaOf(f) == CriteriaOf(g)
  {
  }

  /** `a` may be listed before `b` in the given order: both have numeric keys
      and they are newest first for `Latest`, oldest first for `Oldest`. */
  predicate InRecencyOrder(parse: string -> Option<int>, order: Order, a: ShowcaseRecord, b: ShowcaseRecord) {
    RecencyTimestamp(parse, a).Some? && RecencyTimestamp(parse, b).Some? &&
    (if order == Latest
     then RecencyTimestamp(parse, a).value >= RecencyTimestamp(parse, b).value
     else RecencyTimestamp(parse, a).value <= RecencyTimestamp(parse, b).value)
  }

  /** With numeric keys the result lists records in the requested order. */
  lemma FallbackOrdered(parse: string -> Option<int>, data: seq<ShowcaseRecord>, filters: ShowcaseFilters)
    requires AllTimed(parse, data)
    ensures var r := ApplyFallbackFilters(parse, data, filters);
            forall i, j :: 0 <= i < j < |r| ==> InRecencyOrder(parse, filters.order.GetOr(Latest), r[i], r[j])
  {
    var order := filters.order.GetOr(Latest);
    var sorted := SortShowcasesByRecency(parse, data, order);
    var p := MatchesAll(CriteriaOf(filters));
    var kept := Matching(parse, data, order, CriteriaOf(filters));
    var before := (a, b) => InRecencyOrder(parse, order, a, b);
    SortedByRecency(parse, data, order);
    FilterKeepsPairs(sorted, p, before);
    var offset := filters.offset.GetOr(0);
    SliceKeepsPairs(kept, offset, offset + filters.limit.GetOr(|data|), before);
  }

  /** `SHOWCASE_TABLE_CANDIDATES`: the configured table, then the two built-in
      names, keeping the ones that are not blank, without repetitions. */
  function TableCandidates(configured: Option<string>): (r: seq<string>)
    ensures Distinct(r)
    ensures forall i :: 0 <= i < |r| ==> !IsBlank(r[i])
  {
    Dedup(PresentWhere([configured, Some("frontend_showcase"), Some("codepen_showcases")], Visible))
  }

  predicate Visible(t: string) {
    !IsBlank(t)
  }

  /** Both built-in tables are always candidates; a configured, non-blank table
      is tried first; without one the list is exactly the two built-in names. */
  lemma TableCandidatesOrder(configured: Option<string>)
    ensures var r := TableCandidates(configured);
            && "frontend_showcase" in r && "codepen_showcases" in r
            && (configured.Some? && !IsBlank(configured.value) ==> |r| > 0 && r[0] == configured.value)
            && (configured.None? || IsBlank(configured.value) ==> r == ["frontend_showcase", "codepen_showcases"])
  {
    var named := [configured, Some("frontend_showcase"), Some("codepen_showcases")];
    assert !IsWhitespace('f') && !IsWhitespace('c');
    assert named[1].value[0] == 'f' && named[2].value[0] == 'c';
    BuiltInKept(named, 1);
    BuiltInKept(named, 2);
    if configured.None? || IsBlank(configured.value) {
      BuiltInCandidates(named);
    }
  }

  lemma BuiltInKept(named: seq<Option<string>>, i: nat)
    requires i < |named| && named[i].Some? && named[i].value != [] && !IsWhitespace(named[i].value[0])
    ensures named[i].value in Dedup(PresentWhere(named, Visible))
  {
    NotBlank(named[i].value);
    var present := PresentWhere(named, Visible);
    var k :| 0 <= k < |present| && present[k] == named[i].value;
  }

  lemma BuiltInCandidates(named: seq<Option<string>>)
    requires |named| == 3 && (named[0].None? || IsBlank(named[0].value))
    requires named[1] == Some("frontend_showcase") && named[2] == Some("codepen_showcases")
    ensures Dedup(PresentWhere(named, Visible)) == ["frontend_showcase", "codepen_showcases"]
  {
    BuiltInPresent(named);
    DedupOfTwo("frontend_showcase", "codepen_showcases");
  }

  lemma BuiltInPresent(named: seq<Option<string>>)
    requires |named| == 3 && (named[0].None? || IsBlank(named[0].value))
    requires named[1] == Some("frontend_showcase") && named[2] == Some("codepen_showcases")
    ensures PresentWhere(named, Visible) == ["frontend_showcase", "codepen_showcases"]
  {
    NotBlank("frontend_showcase");
    NotBlank("codepen_showcases");
    assert PresentWhere(named[2..][1..], Visible) == [];
    assert PresentWhere(named[2..], Visible) == ["codepen_showcases"];
    assert PresentWhere(named[1..], Visible) == ["frontend_showcase", "codepen_showcases"];
  }

  /** `normalizeDifficulty`: trimmed and lowered, `''` when absent. */
  function NormalizeDifficulty(value: Option<string>): (r: string)
    ensures value.None? ==> r == ""
    ensures value.Some? ==> |r| <= |value.value| && (r == "" <==> IsBlank(value.value))
  {
    match value
    case None => ""
    case Some(s) => Lower(Trim(s))
  }

  /** A value normalises to a lower-case, non-empty tier exactly when it is
      present and, trimmed, spells the tier up to ASCII case. */
  lemma NormalizedAs(value: Option<string>, tier: string)
    requires tier != "" && IsLowerCase(tier)
    ensures NormalizeDifficulty(value) == tier <==> value.Some? && EqualsIgnoringCase(Trim(value.value), tier)
  {
    if value.Some? {
      LowerEquals(Trim(value.value), tier);
    }
  }
}
