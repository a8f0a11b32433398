/** The filter form of components/ShowcaseFilters.tsx: its state (keyword,
    stack, difficulty and the selected tags), tag toggling, the query string
    a submission navigates to, the reset, and `usePagination`. The current
    path (`usePathname()`, which may be `null`) is the parameter `pathname`;
    navigation is the returned target. */
module ShowcaseFiltersForm {
  import opened Wrappers
  import opened Strings
  import opened Seqs
  import opened SearchParams
  import SiteFooter

  /** `PAGE_SIZE`. */
  const PageSize: nat := 12

  /** `Number.isNaN(page) || page < 1 ? 1 : page`. */
  function NormalizePage(page: Option<int>): (r: int)
    ensures r >= 1
    ensures page.Some? && page.value >= 1 ==> r == page.value
    ensures page.None? || page.value < 1 ==> r == 1
  {
    if page.None? || page.value < 1 then 1 else page.value
  }

  /** `usePagination()`: the `page` parameter read with `parseInt`, and 1 when
      it is missing, not a number or below 1. */
  function UsePagination(ps: Params): (r: int)
    ensures r >= 1
  {
    NormalizePage(ParseInt(Get(ps, "page").GetOr("1")))
  }

  /** Without a `page` parameter the first page is shown. */
  lemma MissingPageIsFirst(ps: Params)
    requires Get(ps, "page").None?
    ensures UsePagination(ps) == 1
  {
    ParseIntOfIntToString(1);
  }

  /** A page number written with `toString()` reads back as itself. */
  lemma PageReadsBack(ps: Params, page: int)
    requires page >= 1 && Get(ps, "page") == Some(IntToString(page))
    ensures UsePagination(ps) == page
  {
    ParseIntOfIntToString(page);
  }

  /** `tags` without `tag`, the others in their order. */
  function Removed(tags: seq<string>, tag: string): (r: seq<string>)
    ensures tag !in r
    ensures forall x :: x != tag ==> (x in r <==> x in tags)
    ensures Distinct(tags) ==> Distinct(r)
    ensures |r| <= |tags|
  {
    if tags == [] then []
    else
      var rest := Removed(tags[1..], tag);
      assert forall x :: x in tags <==> x == tags[0] || x in tags[1..] by {
        assert tags == [tags[0]] + tags[1..];
      }
      if tags[0] == tag then rest
      else
        assert Distinct(tags) ==> tags[0] !in tags[1..] && tags[0] !in rest;
        [tags[0]] + rest
  }

  /** The selection after `toggleTag(tag)`: `tag` deleted when selected,
      added at the end otherwise (a `Set` keeps insertion order). */
  function Toggled(tags: seq<string>, tag: string): (r: seq<string>)
    ensures tag in r <==> tag !in tags
    ensures forall x :: x != tag ==> (x in r <==> x in tags)
    ensures Distinct(tags) ==> Distinct(r)
  {
    if tag in tags then Removed(tags, tag) else tags + [tag]
  }

  /** Toggling twice selects the same tags again; a tag that was not selected
      leaves the selection exactly as it was. */
  lemma ToggleTwice(tags: seq<string>, tag: string)
    ensures forall x :: x in Toggled(Toggled(tags, tag), tag) <==> x in tags
    ensures tag !in tags ==> Toggled(Toggled(tags, tag), tag) == tags
  {
    if tag !in tags {
      RemovedLast(tags, tag);
    }
  }

  /** Removing a tag just added to a selection without it gives the selection
      back. */
  lemma {:induction false} RemovedLast(tags: seq<string>, tag: string)
    requires tag !in tags
    ensures Removed(tags + [tag], tag) == tags
  {
    if tags != [] {
      assert (tags + [tag])[1..] == tags[1..] + [tag];
      RemovedLast(tags[1..], tag);
    }
  }

  predicate NonEmpty(s: string) {
    s != ""
  }

  /** One `tags` entry per tag, in order. */
  function TagEntries(tags: seq<string>): (r: Params)
    ensures |r| == |tags|
    ensures forall i :: 0 <= i < |tags| ==> r[i] == ("tags", tags[i])
  {
    seq(|tags|, i requires 0 <= i < |tags| => ("tags", tags[i]))
  }

  /** Read back, the entries hold the tags under `tags` and nothing else. */
  lemma {:induction false} TagEntriesRead(tags: seq<string>, k: string)
    ensures GetAll(TagEntries(tags), k) == if k == "tags" then tags else []
  {
    if tags != [] {
      TagEntriesRead(tags[1..], k);
      assert TagEntries(tags)[1..] == TagEntries(tags[1..]);
    }
  }

  /** The entry `key=value` when `value` is not empty, nothing otherwise. */
  function Entry(key: string, value: string): Params {
    if value != "" then [(key, value)] else []
  }

  /** The entry holds `value` under `key` and nothing else. */
  lemma EntryRead(key: string, value: string, k: string)
    ensures GetAll(Entry(key, value), k) == if k == key && value != "" then [value] else []
  {
  }

  /** The entries set before the tags: `q` with the trimmed keyword when it is
      not blank, then `stack` and `difficulty` when not empty. */
  function LeadingEntries(query: string, stack: string, difficulty: string): Params {
    Entry("q", Trim(query)) + Entry("stack", stack) + Entry("difficulty", difficulty)
  }

  /** Every entry is a non-empty value under one of the form's four keys. */
  predicate FormEntries(ps: Params) {
    forall i :: 0 <= i < |ps| ==> ps[i].1 != "" && ps[i].0 in ["q", "stack", "difficulty", "tags"]
  }

  lemma FormEntriesConcat(a: Params, b: Params)
    requires FormEntries(a) && FormEntries(b)
    ensures FormEntries(a + b)
  {
    forall i | 0 <= i < |a + b|
      ensures (a + b)[i].1 != "" && (a + b)[i].0 in ["q", "stack", "difficulty", "tags"]
    {
      if i >= |a| {
        assert (a + b)[i] == b[i - |a|];
      }
    }
  }

  /** The parameters `handleSubmit` builds. */
  function SubmitParams(query: string, stack: string, difficulty: string, tags: seq<string>): (r: Params)
    ensures FormEntries(r)
  {
    var lead := LeadingEntries(query, stack, difficulty);
    var kept := Filter(tags, NonEmpty);
    var tagged := TagEntries(kept);
    assert FormEntries(tagged) by {
      forall i | 0 <= i < |tagged|
        ensures tagged[i].1 != "" && tagged[i].0 in ["q", "stack", "difficulty", "tags"]
      {
        assert NonEmpty(kept[i]);
      }
    }
    FormEntriesConcat(Entry("q", Trim(query)), Entry("stack", stack));
    FormEntriesConcat(Entry("q", Trim(query)) + Entry("stack", stack), Entry("difficulty", difficulty));
    FormEntriesConcat(lead, tagged);
    lead + tagged
  }

  /** Reading one key of the entries reads it in each part in turn. */
  lemma ReadEntries(q: string, stack: string, difficulty: string, tags: seq<string>, k: string)
    ensures GetAll(Entry("q", q) + Entry("stack", stack) + Entry("difficulty", difficulty) + TagEntries(tags), k) ==
            if k == "q" then (if q != "" then [q] else [])
            else if k == "stack" then (if stack != "" then [stack] else [])
            else if k == "difficulty" then (if difficulty != "" then [difficulty] else [])
            else if k == "tags" then tags
            else []
  {
    var a, b, c := Entry("q", q), Entry("stack", stack), Entry("difficulty", difficulty);
    GetAllConcat(a, b);
    GetAllConcat(a + b, c);
    GetAllConcat(a + b + c, TagEntries(tags));
    EntryRead("q", q, k);
    EntryRead("stack", stack, k);
    EntryRead("difficulty", difficulty, k);
    TagEntriesRead(tags, k);
  }

  /** What the submission reads as: `q` is there exactly when the trimmed
      keyword is not empty and holds it; `stack` and `difficulty` exactly when
      not empty; `tags` holds every non-empty selected tag once, in order; no
      other key is set. */
  lemma SubmitParamsRead(query: string, stack: string, difficulty: string, tags: seq<string>, k: string)
    ensures GetAll(SubmitParams(query, stack, difficulty, tags), k) ==
            if k == "q" then (if Trim(query) != "" then [Trim(query)] else [])
            else if k == "stack" then (if stack != "" then [stack] else [])
            else if k == "difficulty" then (if difficulty != "" then [difficulty] else [])
            else if k == "tags" then Filter(tags, NonEmpty)
            else []
  {
    ReadEntries(Trim(query), stack, difficulty, Filter(tags, NonEmpty), k);
  }

  /** One more selected tag adds one `tags` entry when it is not empty. */
  lemma TagStep(base: Params, tags: seq<string>, i: nat, params: Params)
    requires i < |tags|
    requires params == base + TagEntries(Filter(tags[..i], NonEmpty))
    ensures base + TagEntries(Filter(tags[..i + 1], NonEmpty)) ==
            if tags[i] != "" then Append(params, "tags", tags[i]) else params
  {
    FilterAppend(tags[..i], [tags[i]], NonEmpty);
    assert tags[..i + 1] == tags[..i] + [tags[i]];
    assert Filter([tags[i]], NonEmpty) == if tags[i] != "" then [tags[i]] else [] by {
      FilterCons(tags[i], [], NonEmpty);
    }
  }

  /** The loop of `handleSubmit` over the selected tags: one `tags` entry
      appended per non-empty tag, in order. */
  method AppendTags(base: Params, tags: seq<string>) returns (params: Params)
    ensures params == base + TagEntries(Filter(tags, NonEmpty))
  {
    params := base;
    var i := 0;
    while i < |tags|
      invariant 0 <= i <= |tags|
      invariant params == base + TagEntries(Filter(tags[..i], NonEmpty))
    {
      TagStep(base, tags, i, params);
      if tags[i] != "" {
        params := Append(params, "tags", tags[i]);
      }
      i := i + 1;
    }
    assert tags[..i] == tags;
  }

  /** `set` of a key no entry has yet appends one entry. */
  lemma SetNewKey(ps: Params, key: string, value: string)
    requires forall i :: 0 <= i < |ps| ==> ps[i].0 != key
    ensures SetValue(ps, key, value) == ps + [(key, value)]
  {
  }

  /** Where a submission navigates: the path and the query string, or the
      bare path (`/showcases` when there is none) without parameters. A
      `null` path in a template string reads `null`. */
  function SubmitTarget(pathname: Option<string>, ps: Params): (r: string)
    ensures (pathname.Some? ==> '?' !in pathname.value) ==> ('?' in r <==> ps != [])
  {
    var qs := Serialize(ps);
    if qs != "" then pathname.GetOr("null") + "?" + qs else pathname.GetOr("/showcases")
  }

  /** Without parameters the target is the bare path; with parameters the
      part before the first `?` is the path and the rest is the query
      string. */
  lemma SubmitTargetShape(pathname: Option<string>, ps: Params)
    requires pathname.Some? ==> '?' !in pathname.value
    ensures ps == [] ==> SubmitTarget(pathname, ps) == pathname.GetOr("/showcases")
    ensures ps != [] ==>
              && SiteFooter.PathPart(SubmitTarget(pathname, ps)) == pathname.GetOr("null")
              && SubmitTarget(pathname, ps)[|pathname.GetOr("null")| + 1..] == Serialize(ps)
  {
    if ps != [] {
      var p, qs := pathname.GetOr("null"), Serialize(ps);
      IndexOfAfter(p, '?', qs);
      var t := p + ['?'] + qs;
      assert t[..|p|] == p;
      assert t[|p| + 1..] == qs;
    }
  }

  /** The state of the form. `selectedTags` is the `Set` of selected tags in
      insertion order. */
  class FilterForm {
    var query: string
    var stack: string
    var difficulty: string
    var selectedTags: seq<string>

    /** A `Set` holds each tag once. */
    ghost predicate Valid()
      reads this
    {
      Distinct(selectedTags)
    }

    /** The initial state read from the URL (also what the effect restores
      whenever the URL changes). */
    constructor (ps: Params)
      ensures Valid()
      ensures query == Get(ps, "q").GetOr("") && stack == Get(ps, "stack").GetOr("")
      ensures difficulty == Get(ps, "difficulty").GetOr("")
      ensures selectedTags == Dedup(GetAll(ps, "tags"))
    {
      query := Get(ps, "q").GetOr("");
      stack := Get(ps, "stack").GetOr("");
      difficulty := Get(ps, "difficulty").GetOr("");
      selectedTags := Dedup(GetAll(ps, "tags"));
    }

    /** `toggleTag(tag)`. */
    method ToggleTag(tag: string)
      requires Valid()
      modifies this
      ensures Valid()
      ensures selectedTags == Toggled(old(selectedTags), tag)
      ensures query == old(query) && stack == old(stack) && difficulty == old(difficulty)
    {
      selectedTags := Toggled(selectedTags, tag);
    }

    /** `handleSubmit`: builds the parameters step by step and returns where
      the router is sent. */
    method Submit(pathname: Option<string>) returns (target: string)
      ensures target == SubmitTarget(pathname, SubmitParams(query, stack, difficulty, selectedTags))
    {
      var params: Params := [];
      var trimmed := Trim(query);
      if trimmed != "" {
        SetNewKey(params, "q", trimmed);
        params := SetValue(params, "q", trimmed);
      }
      assert params == Entry("q", trimmed);
      if stack != "" {
        SetNewKey(params, "stack", stack);
        params := SetValue(params, "stack", stack);
      }
      assert params == Entry("q", trimmed) + Entry("stack", stack);
      if difficulty != "" {
        SetNewKey(params, "difficulty", difficulty);
        params := SetValue(params, "difficulty", difficulty);
      }
      assert params == LeadingEntries(query, stack, difficulty);
      params := AppendTags(params, selectedTags);
      var queryString := Serialize(params);
      target := if queryString != "" then pathname.GetOr("null") + "?" + queryString else pathname.GetOr("/showcases");
    }

    /** `handleReset`: every field cleared and the bare path. */
    method Reset(pathname: Option<string>) returns (target: string)
      modifies this
      ensures Valid()
      ensures query == "" && stack == "" && difficulty == "" && selectedTags == []
      ensures target == pathname.GetOr("/showcases")
    {
      query := "";
      stack := "";
      difficulty := "";
      selectedTags := [];
      target := pathname.GetOr("/showcases");
    }
  }
}
