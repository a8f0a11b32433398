/** Sequence operations the site performs on arrays of records and strings:
    `Array.prototype.filter`, `Array.prototype.slice` with JavaScript's index
    rules, and `Array.from(new Set(xs))`, with the facts the other modules use. */
module Seqs {

  /** `n` copies of `x`. */
  function Repeat<T>(x: T, n: nat): (r: seq<T>)
    ensures |r| == n
    ensures forall i :: 0 <= i < n ==> r[i] == x
  {
    if n == 0 then [] else Repeat(x, n - 1) + [x]
  }

  /** No value occurs twice. */
  predicate Distinct<T(==)>(s: seq<T>) {
    forall i, j :: 0 <= i < j < |s| ==> s[i] != s[j]
  }

  /** `s.filter(p)`: the elements satisfying `p`, in their original order. */
  function Filter<T>(s: seq<T>, p: T -> bool): (r: seq<T>)
    ensures |r| <= |s|
    ensures forall i :: 0 <= i < |r| ==> p(r[i])
    ensures multiset(r) <= multiset(s)
  {
    if s == [] then []
    else
      assert s == [s[0]] + s[1..];
      (if p(s[0]) then [s[0]] else []) + Filter(s[1..], p)
  }

  lemma FilterCons<T>(a: T, t: seq<T>, p: T -> bool)
    ensures Filter([a] + t, p) == (if p(a) then [a] else []) + Filter(t, p)
  {
    assert ([a] + t)[0] == a && ([a] + t)[1..] == t;
  }

  /** Filters by predicates that agree on the elements are equal. */
  lemma {:induction false} FilterCongruence<T>(s: seq<T>, p: T -> bool, q: T -> bool)
    requires forall x :: x in s ==> p(x) == q(x)
    ensures Filter(s, p) == Filter(s, q)
  {
    if s != [] {
      assert forall x :: x in s[1..] ==> x in s;
      FilterCongruence(s[1..], p, q);
      assert s[0] in s;
    }
  }

  lemma {:induction false} FilterNone<T>(s: seq<T>, p: T -> bool)
    requires forall x :: x in s ==> !p(x)
    ensures Filter(s, p) == []
  {
    if s != [] {
      assert forall x :: x in s[1..] ==> x in s;
      FilterNone(s[1..], p);
      assert s[0] in s;
    }
  }

  /** A relation that holds between every earlier and later element still holds
      after filtering. */
  lemma {:induction false} FilterKeepsPairs<T>(s: seq<T>, p: T -> bool, before: (T, T) -> bool)
    requires forall i, j :: 0 <= i < j < |s| ==> before(s[i], s[j])
    ensures forall i, j :: 0 <= i < j < |Filter(s, p)| ==> before(Filter(s, p)[i], Filter(s, p)[j])
  {
    if s != [] {
      var rest := Filter(s[1..], p);
      forall i, j | 0 <= i < j < |s[1..]| ensures before(s[1..][i], s[1..][j]) {
        assert s[1..][i] == s[i + 1] && s[1..][j] == s[j + 1];
      }
      FilterKeepsPairs(s[1..], p, before);
      var f := Filter(s, p);
      if p(s[0]) {
        assert f == [s[0]] + rest;
        forall i, j | 0 <= i < j < |f| ensures before(f[i], f[j]) {
          assert f[j] == rest[j - 1];
          if i == 0 {
            assert rest[j - 1] in multiset(s[1..]);
            var k :| 0 <= k < |s[1..]| && s[1..][k] == rest[j - 1];
            assert s[k + 1] == f[j];
            assert before(s[0], s[k + 1]);
          } else {
            assert f[i] == rest[i - 1];
            assert before(rest[i - 1], rest[j - 1]);
          }
        }
      } else {
        assert f == rest;
      }
    }
  }

  lemma {:induction false} FilterMultiplicity<T>(s: seq<T>, p: T -> bool, x: T)
    ensures multiset(Filter(s, p))[x] == if p(x) then multiset(s)[x] else 0
  {
    if s != [] {
      assert s == [s[0]] + s[1..];
      FilterMultiplicity(s[1..], p, x);
    }
  }

  lemma {:induction false} FilterAppend<T>(a: seq<T>, b: seq<T>, p: T -> bool)
    ensures Filter(a + b, p) == Filter(a, p) + Filter(b, p)
  {
    if a == [] {
      assert a + b == b;
    } else {
      var x, t := a[0], a[1..];
      assert a == [x] + t;
      assert a + b == [x] + (t + b);
      FilterCons(x, t + b, p);
      FilterCons(x, t, p);
      FilterAppend(t, b, p);
    }
  }

  /** Filtering commutes with permutation. */
  lemma FilterPermutation<T>(a: seq<T>, b: seq<T>, p: T -> bool)
    requires multiset(a) == multiset(b)
    ensures multiset(Filter(a, p)) == multiset(Filter(b, p))
    ensures |Filter(a, p)| == |Filter(b, p)|
  {
    forall x ensures multiset(Filter(a, p))[x] == multiset(Filter(b, p))[x] {
      FilterMultiplicity(a, p, x);
      FilterMultiplicity(b, p, x);
    }
    assert multiset(Filter(a, p)) == multiset(Filter(b, p));
    assert |multiset(Filter(a, p))| == |Filter(a, p)|;
  }

  /** Filtering twice is filtering once by the conjunction. */
  lemma {:induction false} FilterFilter<T>(s: seq<T>, p: T -> bool, q: T -> bool, pq: T -> bool)
    requires forall x :: pq(x) == (p(x) && q(x))
    ensures Filter(Filter(s, p), q) == Filter(s, pq)
  {
    if s != [] {
      FilterFilter(s[1..], p, q, pq);
      var fp := Filter(s, p);
      if p(s[0]) {
        assert fp == [s[0]] + Filter(s[1..], p);
        assert fp[0] == s[0] && fp[1..] == Filter(s[1..], p);
        assert Filter(fp, q) == (if q(s[0]) then [s[0]] else []) + Filter(fp[1..], q);
      } else {
        assert fp == Filter(s[1..], p);
      }
    }
  }

  /** A predicate and its negation split a sequence. */
  lemma {:induction false} FilterSplitLength<T>(s: seq<T>, p: T -> bool, notP: T -> bool)
    requires forall x :: notP(x) == !p(x)
    ensures |Filter(s, p)| + |Filter(s, notP)| == |s|
  {
    if s != [] {
      FilterSplitLength(s[1..], p, notP);
    }
  }

  /** Two filters by exclusive predicates take disjoint parts of a sequence. */
  lemma FilterDisjointSum<T>(s: seq<T>, p: T -> bool, q: T -> bool)
    requires forall x :: !(p(x) && q(x))
    ensures multiset(Filter(s, p)) + multiset(Filter(s, q)) <= multiset(s)
  {
    forall x ensures (multiset(Filter(s, p)) + multiset(Filter(s, q)))[x] <= multiset(s)[x] {
      FilterMultiplicity(s, p, x);
      FilterMultiplicity(s, q, x);
    }
  }

  /** Two filters by exclusive predicates keep at most `|s|` elements
      between them. */
  lemma {:induction false} FilterDisjointLength<T>(s: seq<T>, p: T -> bool, q: T -> bool)
    requires forall x :: !(p(x) && q(x))
    ensures |Filter(s, p)| + |Filter(s, q)| <= |s|
  {
    if s != [] {
      FilterDisjointLength(s[1..], p, q);
    }
  }

  /** A sub-multiset whose elements all satisfy `p` lies within `s.filter(p)`. */
  lemma SubMultisetOfFilter<T>(a: seq<T>, s: seq<T>, p: T -> bool)
    requires multiset(a) <= multiset(s)
    requires forall i :: 0 <= i < |a| ==> p(a[i])
    ensures multiset(a) <= multiset(Filter(s, p))
  {
    forall x | x in a ensures p(x) {
      var i :| 0 <= i < |a| && a[i] == x;
    }
    forall x ensures multiset(a)[x] <= multiset(Filter(s, p))[x] {
      FilterMultiplicity(s, p, x);
    }
  }

  lemma {:induction false} DistinctMultiplicity<T>(s: seq<T>, x: T)
    requires Distinct(s)
    ensures multiset(s)[x] <= 1
  {
    if s != [] {
      assert s == [s[0]] + s[1..];
      DistinctMultiplicity(s[1..], x);
      if x == s[0] {
        assert x !in s[1..];
      }
    }
  }

  /** A sub-multiset of a sequence without repetitions has none either. */
  lemma DistinctSubMultiset<T>(a: seq<T>, b: seq<T>)
    requires multiset(a) <= multiset(b) && Distinct(b)
    ensures Distinct(a)
  {
    forall i, j | 0 <= i < j < |a| ensures a[i] != a[j] {
      if a[i] == a[j] {
        assert a == a[..j] + a[j..];
        assert a[i] in a[..j] && a[j] in a[j..];
        assert multiset(a)[a[i]] == multiset(a[..j])[a[i]] + multiset(a[j..])[a[i]];
        DistinctMultiplicity(b, a[i]);
        assert false;
      }
    }
  }

  /** `s.splice(i, 1)`: removing the element at `i` leaves the others. */
  lemma RemoveAt<T>(s: seq<T>, i: nat)
    requires i < |s|
    ensures |s[..i] + s[i + 1..]| == |s| - 1
    ensures multiset(s[..i] + s[i + 1..]) + multiset{s[i]} == multiset(s)
  {
    assert s == s[..i] + [s[i]] + s[i + 1..];
  }

  /** Filtering by a predicate every element satisfies keeps the sequence. */
  lemma {:induction false} FilterAll<T>(s: seq<T>, p: T -> bool)
    requires forall i :: 0 <= i < |s| ==> p(s[i])
    ensures Filter(s, p) == s
  {
    if s != [] {
      FilterAll(s[1..], p);
    }
  }

  /** Filtering a block that satisfies `p` followed by one that does not
      keeps the first block. */
  lemma FilterFirstBlock<T>(a: seq<T>, b: seq<T>, p: T -> bool)
    requires forall i :: 0 <= i < |a| ==> p(a[i])
    requires forall i :: 0 <= i < |b| ==> !p(b[i])
    ensures Filter(a + b, p) == a
  {
    FilterAppend(a, b, p);
    FilterAll(a, p);
    NoneSatisfy(b, p);
  }

  /** Filtering a block that does not satisfy `p` followed by one that does
      keeps the second block. */
  lemma FilterSecondBlock<T>(a: seq<T>, b: seq<T>, p: T -> bool)
    requires forall i :: 0 <= i < |a| ==> !p(a[i])
    requires forall i :: 0 <= i < |b| ==> p(b[i])
    ensures Filter(a + b, p) == b
  {
    FilterAppend(a, b, p);
    FilterAll(b, p);
    NoneSatisfy(a, p);
    assert [] + b == b;
  }

  lemma NoneSatisfy<T>(s: seq<T>, p: T -> bool)
    requires forall i :: 0 <= i < |s| ==> !p(s[i])
    ensures Filter(s, p) == []
  {
    forall x | x in s ensures !p(x) {
      var i :| 0 <= i < |s| && s[i] == x;
    }
    FilterNone(s, p);
  }

  /** Two sequences without a common value, each within `m`, are within `m`
      together. */
  lemma DisjointWithin<T>(a: seq<T>, b: seq<T>, m: multiset<T>)
    requires multiset(a) <= m && multiset(b) <= m
    requires forall i, j :: 0 <= i < |a| && 0 <= j < |b| ==> a[i] != b[j]
    ensures multiset(a) + multiset(b) <= m
  {
    forall x ensures (multiset(a) + multiset(b))[x] <= m[x] {
      assert !(x in a && x in b);
    }
  }

  /** `Array.prototype.slice`'s reading of an index: negative counts from the end,
      and the result is clamped to `[0, len]`. */
  function RelativeIndex(k: int, len: nat): (r: nat)
    ensures r <= len
    ensures 0 <= k ==> r == if k <= len then k else len
    ensures k < 0 ==> r == if len + k >= 0 then len + k else 0
  {
    if k < 0 then (if len + k < 0 then 0 else len + k) else if k > len then len else k
  }

  /** `s.slice(start, end)`: a contiguous run of `s` beginning where `start`
      points. */
  function JsSlice<T>(s: seq<T>, start: int, end: int): (r: seq<T>)
    ensures RelativeIndex(start, |s|) + |r| <= |s|
    ensures r == s[RelativeIndex(start, |s|)..RelativeIndex(start, |s|) + |r|]
    ensures multiset(r) <= multiset(s)
  {
    var from := RelativeIndex(start, |s|);
    var to := RelativeIndex(end, |s|);
    if from < to then
      assert s == s[..from] + s[from..to] + s[to..];
      s[from..to]
    else []
  }

  /** Every element of a slice satisfies what every element of `s` satisfies. */
  lemma SliceKeeps<T>(s: seq<T>, start: int, end: int, p: T -> bool)
    requires forall i :: 0 <= i < |s| ==> p(s[i])
    ensures forall i :: 0 <= i < |JsSlice(s, start, end)| ==> p(JsSlice(s, start, end)[i])
  {
    var from := RelativeIndex(start, |s|);
    var r := JsSlice(s, start, end);
    forall i | 0 <= i < |r| ensures p(r[i]) {
      assert r[i] == s[from + i];
    }
  }

  /** A relation that holds between every earlier and later element of `s`
      holds so in every slice of it. */
  lemma SliceKeepsPairs<T>(s: seq<T>, start: int, end: int, before: (T, T) -> bool)
    requires forall i, j :: 0 <= i < j < |s| ==> before(s[i], s[j])
    ensures forall i, j :: 0 <= i < j < |JsSlice(s, start, end)| ==> before(JsSlice(s, start, end)[i], JsSlice(s, start, end)[j])
  {
    var from := RelativeIndex(start, |s|);
    var r := JsSlice(s, start, end);
    forall i, j | 0 <= i < j < |r| ensures before(r[i], r[j]) {
      assert r[i] == s[from + i] && r[j] == s[from + j];
    }
  }

  /** A window `slice(offset, offset + limit)` with a non-negative limit never
      holds more than `limit` elements. */
  lemma WindowBounds<T>(s: seq<T>, offset: int, limit: nat)
    ensures |JsSlice(s, offset, offset + limit)| <= limit
  {
    var from := RelativeIndex(offset, |s|);
    var to := RelativeIndex(offset + limit, |s|);
    if from < to {
      if offset >= 0 {
        assert from == offset && to <= offset + limit;
      } else if offset + limit >= 0 {
        assert to <= offset + limit;
      } else {
        assert from >= |s| + offset && to == |s| + offset + limit;
      }
    }
  }

  /** With a non-negative offset and limit the window is exactly the positions
      `[offset, offset + limit)` that exist. */
  lemma WindowExact<T>(s: seq<T>, offset: nat, limit: nat)
    ensures var from := if offset <= |s| then offset else |s|;
            var to := if offset + limit <= |s| then offset + limit else |s|;
            JsSlice(s, offset, offset + limit) == s[from..to]
  {
  }

  /** A slice from 0 that reaches past the end is the whole sequence. */
  lemma SliceWhole<T>(s: seq<T>, end: nat)
    requires |s| <= end
    ensures JsSlice(s, 0, end) == s
  {
    WindowExact(s, 0, end);
    assert s[0..|s|] == s;
  }

  /** Two adjacent windows of the same size make up the window of twice the size. */
  lemma WindowConcat<T>(s: seq<T>, o: nat, m: nat)
    ensures JsSlice(s, o, o + m) + JsSlice(s, o + m, o + m + m) == JsSlice(s, o, o + 2 * m)
  {
    var a := if o <= |s| then o else |s|;
    var b := if o + m <= |s| then o + m else |s|;
    var c := if o + 2 * m <= |s| then o + 2 * m else |s|;
    WindowExact(s, o, m);
    WindowExact(s, o + m, m);
    assert o + m + m == o + 2 * m;
    WindowExact(s, o, 2 * m);
    SliceConcat(s, a, b, c);
  }

  /** `WindowConcat` for windows known by other names. */
  lemma WindowsAdjoin<T>(s: seq<T>, first: seq<T>, second: seq<T>, both: seq<T>, o: nat, m: nat)
    requires first == JsSlice(s, o, o + m)
    requires second == JsSlice(s, o + m, o + m + m)
    requires both == JsSlice(s, o, o + 2 * m)
    ensures first + second == both
  {
    WindowConcat(s, o, m);
  }

  /** `slice(from, from + count)`. */
  function Window<T>(kept: seq<T>, from: int, count: int): (r: seq<T>)
    ensures count >= 0 ==> |r| <= count
    ensures |r| <= |kept|
  {
    var r := JsSlice(kept, from, from + count);
    assert count >= 0 ==> |r| <= count by {
      if count >= 0 {
        WindowBounds(kept, from, count);
      }
    }
    r
  }

  /** Two windows of size `m` at `o` and `o + m` make the window of size
      `2 * m` at `o`. */
  lemma WindowPagesAdjoin<T>(kept: seq<T>, o: nat, m: nat)
    ensures Window(kept, o, m) + Window(kept, o + m, m) == Window(kept, o, 2 * m)
  {
    var first, second, both := JsSlice(kept, o, o + m), JsSlice(kept, o + m, o + m + m), JsSlice(kept, o, o + 2 * m);
    WindowConcat(kept, o, m);
    assert first + second == both;
    assert Window(kept, o, m) == first;
    assert Window(kept, o + m, m) == second;
    assert Window(kept, o, 2 * m) == both;
  }

  /** A window is a contiguous run starting where `from` points. */
  lemma WindowIsRun<T>(kept: seq<T>, from: int, count: int)
    ensures var r := Window(kept, from, count);
            var start := RelativeIndex(from, |kept|);
            start + |r| <= |kept| && r == kept[start..start + |r|]
  {
  }

  lemma SliceConcat<T>(s: seq<T>, a: nat, b: nat, c: nat)
    requires a <= b <= c <= |s|
    ensures s[a..b] + s[b..c] == s[a..c]
  {
  }

  /** `Array.from(new Set(s))`: the distinct values, in order of first occurrence. */
  function Dedup<T(==)>(s: seq<T>): (r: seq<T>)
    ensures Distinct(r)
    ensures forall i :: 0 <= i < |r| ==> r[i] in s
    ensures forall i :: 0 <= i < |s| ==> s[i] in r
    ensures s != [] ==> |r| > 0 && r[0] == s[0]
  {
    if s == [] then []
    else
      var rest := Dedup(s[..|s| - 1]);
      assert forall i :: 0 <= i < |s| - 1 ==> s[i] == s[..|s| - 1][i];
      if s[|s| - 1] in rest then rest else rest + [s[|s| - 1]]
  }

  lemma DedupOfTwo<T>(a: T, b: T)
    requires a != b
    ensures Dedup([a, b]) == [a, b]
  {
    assert [a, b][..1] == [a];
    assert [a][..0] == [];
  }

  /** The set of values in a sequence has at most as many members as the
      sequence has positions, and exactly as many when no value repeats. */
  lemma {:induction false} SeqToSetSize<T>(s: seq<T>)
    ensures |set x | x in s| <= |s|
    ensures Distinct(s) ==> |set x | x in s| == |s|
  {
    if s != [] {
      var init := s[..|s| - 1];
      SeqToSetSize(init);
      var last := s[|s| - 1];
      assert (set x | x in s) == (set x | x in init) + {last};
      if Distinct(s) {
        assert Distinct(init);
        assert last !in init;
      }
    }
  }
}
