/** The server-side query helpers of lib/supabase.ts that do not talk to the
    database: the older in-memory filter (it does not sort), the order of the
    built-in records when no database is configured, and the distinct filter
    options listed from the built-in records. The built-in records are the
    parameter `mock`; `Date.parse` is the parameter `parse`. */
module Supabase {
  import opened Wrappers
  import opened Seqs
  import opened Strings
  import opened Sorting
  import opened Types
  import opened ShowcaseData

  /** `applyFallbackFilters` of lib/supabase.ts: the records that match, in
      their given order, then the window
      `slice(offset ?? 0, (offset ?? 0) + (limit ?? data.length))`. */
  function LegacyFallbackFilters(data: seq<ShowcaseRecord>, filters: ShowcaseFilters): (r: seq<ShowcaseRecord>)
    ensures multiset(r) <= multiset(data)
    ensures filters.limit.Some? && filters.limit.value >= 0 ==> |r| <= filters.limit.value
  {
    var kept := Filter(data, MatchesAll(CriteriaOf(filters)));
    var r := Window(kept, filters.offset.GetOr(0), filters.limit.GetOr(|data|));
    assert multiset(r) <= multiset(kept) <= multiset(data);
    r
  }

  /** Nothing is reordered: the result is one contiguous run of the matching
      records in their input order, starting where the offset points; with a
      non-negative offset and limit it is exactly positions
      `[offset, offset + limit)` of them that exist. */
  lemma LegacyIsWindow(data: seq<ShowcaseRecord>, filters: ShowcaseFilters)
    ensures var kept := Filter(data, MatchesAll(CriteriaOf(filters)));
            var r := LegacyFallbackFilters(data, filters);
            var from := RelativeIndex(filters.offset.GetOr(0), |kept|);
            from + |r| <= |kept| && r == kept[from..from + |r|]
    ensures var kept := Filter(data, MatchesAll(CriteriaOf(filters)));
            var o, m := filters.offset.GetOr(0), filters.limit.GetOr(|data|);
            o >= 0 && m >= 0 ==>
              LegacyFallbackFilters(data, filters) ==
                kept[(if o <= |kept| then o else |kept|)..(if o + m <= |kept| then o + m else |kept|)]
  {
    var kept := Filter(data, MatchesAll(CriteriaOf(filters)));
    var o, m := filters.offset.GetOr(0), filters.limit.GetOr(|data|);
    WindowIsRun(kept, o, m);
    if o >= 0 && m >= 0 {
      WindowExact(kept, o, m);
    }
  }

  /** Every record returned matches every active filter. */
  lemma LegacyMatches(data: seq<ShowcaseRecord>, filters: ShowcaseFilters)
    ensures var r := LegacyFallbackFilters(data, filters);
            forall i :: 0 <= i < |r| ==> Matches(CriteriaOf(filters), r[i])
  {
    var kept := Filter(data, MatchesAll(CriteriaOf(filters)));
    var o := filters.offset.GetOr(0);
    SliceKeeps(kept, o, o + filters.limit.GetOr(|data|), MatchesAll(CriteriaOf(filters)));
  }

  /** The newer filter of lib/showcase-data.ts is this one applied to the
      records sorted by recency in the requested order. */
  lemma SortedThenLegacy(parse: string -> Option<int>, data: seq<ShowcaseRecord>, filters: ShowcaseFilters)
    ensures ApplyFallbackFilters(parse, data, filters) ==
            LegacyFallbackFilters(SortShowcasesByRecency(parse, data, filters.order.GetOr(Latest)), filters)
  {
  }

  /** A blank query imposes nothing: it selects what no query selects. */
  lemma BlankQueryIgnored(filters: ShowcaseFilters, item: ShowcaseRecord)
    requires filters.query.Some? && IsBlank(filters.query.value)
    ensures Matches(CriteriaOf(filters), item) == Matches(CriteriaOf(filters.(query := None)), item)
  {
  }

  /** A record without tags fails a non-empty tag filter, and a record without
      a stack or difficulty fails a non-empty stack or difficulty filter: the
      missing value reads as `''`. */
  lemma MissingFieldsFail(filters: ShowcaseFilters, item: ShowcaseRecord)
    ensures filters.tags.Some? && |filters.tags.value| > 0 && item.tags.None? ==> !Matches(CriteriaOf(filters), item)
    ensures filters.stack.Some? && filters.stack.value != "" && item.stack.None? ==> !Matches(CriteriaOf(filters), item)
    ensures filters.difficulty.Some? && filters.difficulty.value != "" && item.difficulty.None? ==>
              !Matches(CriteriaOf(filters), item)
  {
  }

  /** `Date.parse(created_at ?? '') || 0`: `NaN` (also from a missing or empty
      value) reads as 0. */
  function CreatedKey(parse: string -> Option<int>, r: ShowcaseRecord): (k: int)
    ensures k != 0 ==> r.createdAt.Some? && r.createdAt.value != "" && parse(r.createdAt.value) == Some(k)
    ensures r.createdAt.Some? && r.createdAt.value != "" && parse(r.createdAt.value).Some? ==>
              k == parse(r.createdAt.value).value
  {
    match r.createdAt
    case None => 0
    case Some(s) => if s == "" then 0 else parse(s).GetOr(0)
  }

  /** The comparator `(a, b) => key(b) - key(a)`: newest first. */
  function CreatedDescending(parse: string -> Option<int>): (ShowcaseRecord, ShowcaseRecord) -> int {
    (a: ShowcaseRecord, b: ShowcaseRecord) => CreatedKey(parse, b) - CreatedKey(parse, a)
  }

  /** `[...mockShowcases].sort(...)` in the branch without a database. */
  function MockByCreation(parse: string -> Option<int>, mock: seq<ShowcaseRecord>): (r: seq<ShowcaseRecord>)
    ensures multiset(r) == multiset(mock)
  {
    SortBy(mock, CreatedDescending(parse))
  }

  /** Without a database the built-in records are listed newest first by
      creation time, with an unparsable or missing time counted as 0. */
  lemma MockByCreationOrdered(parse: string -> Option<int>, mock: seq<ShowcaseRecord>)
    ensures var r := MockByCreation(parse, mock);
            forall i, j :: 0 <= i < j < |r| ==> CreatedKey(parse, r[i]) >= CreatedKey(parse, r[j])
  {
    var cmp := CreatedDescending(parse);
    SortBySorted(mock, cmp);
  }

  /** `fetchShowcases(filters)` when no database is configured. */
  function FetchShowcasesOffline(parse: string -> Option<int>, mock: seq<ShowcaseRecord>, filters: ShowcaseFilters): (r: seq<ShowcaseRecord>)
    ensures multiset(r) <= multiset(mock)
  {
    LegacyFallbackFilters(MockByCreation(parse, mock), filters)
  }

  /** The offline listing is newest first by creation time, whatever order the
      filters ask for. */
  lemma OfflineNewestFirst(parse: string -> Option<int>, mock: seq<ShowcaseRecord>, filters: ShowcaseFilters)
    ensures var r := FetchShowcasesOffline(parse, mock, filters);
            forall i, j :: 0 <= i < j < |r| ==> CreatedKey(parse, r[i]) >= CreatedKey(parse, r[j])
  {
    var sorted := MockByCreation(parse, mock);
    var p := MatchesAll(CriteriaOf(filters));
    var kept := Filter(sorted, p);
    var before := (a, b) => CreatedKey(parse, a) >= CreatedKey(parse, b);
    MockByCreationOrdered(parse, mock);
    FilterKeepsPairs(sorted, p, before);
    var o := filters.offset.GetOr(0);
    SliceKeepsPairs(kept, o, o + filters.limit.GetOr(|sorted|), before);
  }

  /** `Array.from(new Set(values)).sort()`: each value once, in code-unit
      order. */
  function DistinctSorted(values: seq<string>): (r: seq<string>)
    ensures Distinct(r) && Sorted(CompareStrings, r)
    ensures forall x :: x in r <==> x in values
  {
    var d := Dedup(values);
    CompareStringsPreorder(d);
    SortBySorted(d, CompareStrings);
    var r := SortBy(d, CompareStrings);
    DistinctSubMultiset(r, d);
    assert forall x :: x in r <==> x in multiset(d);
    r
  }

  /** `t` is one of the record's tags (a record without tags has none). */
  predicate HasTag(item: ShowcaseRecord, t: string) {
    t in item.tags.GetOr([])
  }

  /** `items.flatMap((item) => item.tags ?? [])`. */
  function AllTags(items: seq<ShowcaseRecord>): (r: seq<string>)
    ensures forall t :: t in r <==> exists i :: 0 <= i < |items| && HasTag(items[i], t)
  {
    if items == [] then []
    else
      var rest := AllTags(items[1..]);
      AllTagsStep(items, rest);
      items[0].tags.GetOr([]) + rest
  }

  /** One record in front of the rest: its tags join those of the rest. */
  lemma AllTagsStep(items: seq<ShowcaseRecord>, rest: seq<string>)
    requires items != []
    requires forall t :: t in rest <==> exists i :: 0 <= i < |items[1..]| && HasTag(items[1..][i], t)
    ensures forall t :: t in items[0].tags.GetOr([]) + rest <==> exists i :: 0 <= i < |items| && HasTag(items[i], t)
  {
    forall t ensures t in items[0].tags.GetOr([]) + rest <==> exists i :: 0 <= i < |items| && HasTag(items[i], t) {
      if i :| 1 <= i < |items| && HasTag(items[i], t) {
        assert HasTag(items[1..][i - 1], t);
      }
      if i :| 0 <= i < |items[1..]| && HasTag(items[1..][i], t) {
        assert HasTag(items[i + 1], t);
      }
    }
  }

  /** `items.map(field).filter(Boolean)`: the present, non-empty values. */
  function PresentValues(values: seq<Option<string>>): (r: seq<string>)
    ensures forall x :: x in r <==> x != "" && Some(x) in values
  {
    var r := PresentWhere(values, s => s != "");
    assert forall x :: Some(x) in values ==> exists i :: 0 <= i < |values| && values[i] == Some(x);
    r
  }

  function Stacks(items: seq<ShowcaseRecord>): seq<Option<string>> {
    seq(|items|, i requires 0 <= i < |items| => items[i].stack)
  }

  function Difficulties(items: seq<ShowcaseRecord>): seq<Option<string>> {
    seq(|items|, i requires 0 <= i < |items| => items[i].difficulty)
  }

  datatype FilterOptions = FilterOptions(tags: seq<string>, stacks: seq<string>, difficulties: seq<string>)

  /** `fetchDistinctFilters()` when no database is configured: every tag,
      stack and difficulty of the built-in records once, sorted; missing or
      empty stacks and difficulties are left out (empty tags are kept). */
  function MockDistinctFilters(mock: seq<ShowcaseRecord>): (r: FilterOptions)
    ensures Distinct(r.tags) && Sorted(CompareStrings, r.tags)
    ensures Distinct(r.stacks) && Sorted(CompareStrings, r.stacks)
    ensures Distinct(r.difficulties) && Sorted(CompareStrings, r.difficulties)
    ensures forall t :: t in r.tags <==> exists i :: 0 <= i < |mock| && HasTag(mock[i], t)
    ensures forall s :: s in r.stacks <==> s != "" && exists i :: 0 <= i < |mock| && mock[i].stack == Some(s)
    ensures forall d :: d in r.difficulties <==> d != "" && exists i :: 0 <= i < |mock| && mock[i].difficulty == Some(d)
  {
    var stacks, difficulties := Stacks(mock), Difficulties(mock);
    assert forall s :: Some(s) in stacks <==> exists i :: 0 <= i < |mock| && mock[i].stack == Some(s) by {
      forall s ensures Some(s) in stacks <==> exists i :: 0 <= i < |mock| && mock[i].stack == Some(s) {
        if i :| 0 <= i < |mock| && mock[i].stack == Some(s) {
          assert stacks[i] == Some(s);
        }
      }
    }
    assert forall d :: Some(d) in difficulties <==> exists i :: 0 <= i < |mock| && mock[i].difficulty == Some(d) by {
      forall d ensures Some(d) in difficulties <==> exists i :: 0 <= i < |mock| && mock[i].difficulty == Some(d) {
        if i :| 0 <= i < |mock| && mock[i].difficulty == Some(d) {
          assert difficulties[i] == Some(d);
        }
      }
    }
    FilterOptions(DistinctSorted(AllTags(mock)), DistinctSorted(PresentValues(stacks)), DistinctSorted(PresentValues(difficulties)))
  }
}
