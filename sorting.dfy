/** `Array.prototype.sort` with a comparator. The ECMAScript sort is stable, and
    for a comparator that is a total preorder on the elements every stable sort
    gives the same result, so the sort is modelled as a stable insertion sort.
    A comparator answers a negative number, zero or a positive number; `NaN` is
    read as zero before it reaches this module. */
module Sorting {
  import opened Seqs
  import opened Strings

  /** `a` may come before `b`. */
  predicate Le<T>(cmp: (T, T) -> int, a: T, b: T) {
    cmp(a, b) <= 0
  }

  /** `a` and `b` compare as equal. */
  predicate Equiv<T>(cmp: (T, T) -> int, a: T, b: T) {
    Le(cmp, a, b) && Le(cmp, b, a)
  }

  /** The class of elements that compare equal to `e`. */
  function ClassOf<T>(cmp: (T, T) -> int, e: T): T -> bool {
    y => Equiv(cmp, y, e)
  }

  /** The comparator is a total preorder on the values in `s`: any two are
      comparable and `Le` is transitive. */
  ghost predicate PreorderOn<T>(cmp: (T, T) -> int, s: seq<T>) {
    && (forall a, b :: a in s && b in s ==> Le(cmp, a, b) || Le(cmp, b, a))
    && (forall a, b, c :: a in s && b in s && c in s && Le(cmp, a, b) && Le(cmp, b, c) ==> Le(cmp, a, c))
  }

  predicate Sorted<T>(cmp: (T, T) -> int, s: seq<T>) {
    forall i, j :: 0 <= i < j < |s| ==> Le(cmp, s[i], s[j])
  }

  /** Puts `x` before the first element it may precede. */
  function Insert<T>(x: T, s: seq<T>, cmp: (T, T) -> int): (r: seq<T>)
    ensures |r| == |s| + 1
    ensures multiset(r) == multiset(s) + multiset{x}
  {
    if s == [] then [x]
    else if Le(cmp, x, s[0]) then [x] + s
    else
      assert s == [s[0]] + s[1..];
      [s[0]] + Insert(x, s[1..], cmp)
  }

  /** `[...s].sort(cmp)`: a stable sort of a copy. */
  function SortBy<T>(s: seq<T>, cmp: (T, T) -> int): (r: seq<T>)
    ensures |r| == |s|
    ensures multiset(r) == multiset(s)
  {
    if s == [] then []
    else
      assert s == [s[0]] + s[1..];
      Insert(s[0], SortBy(s[1..], cmp), cmp)
  }

  lemma PreorderOnSub<T>(cmp: (T, T) -> int, s: seq<T>, t: seq<T>)
    requires PreorderOn(cmp, s)
    requires forall y :: y in t ==> y in s
    ensures PreorderOn(cmp, t)
  {
  }

  lemma {:induction false} InsertSorted<T>(x: T, s: seq<T>, cmp: (T, T) -> int)
    requires PreorderOn(cmp, [x] + s)
    requires Sorted(cmp, s)
    ensures Sorted(cmp, Insert(x, s, cmp))
  {
    assert x in [x] + s;
    assert forall y :: y in s ==> y in [x] + s;
    if s != [] && !Le(cmp, x, s[0]) {
      var rest := s[1..];
      assert forall y :: y in [x] + rest ==> y in [x] + s;
      InsertSorted(x, rest, cmp);
      var ins := Insert(x, rest, cmp);
      assert Le(cmp, s[0], x);
      forall j | 0 <= j < |ins| ensures Le(cmp, s[0], ins[j]) {
        assert ins[j] in multiset(ins);
        if ins[j] != x {
          assert ins[j] in multiset(rest);
          var k :| 0 <= k < |rest| && rest[k] == ins[j];
          assert s[k + 1] == ins[j];
        }
      }
    } else if s != [] {
      forall y | y in s ensures Le(cmp, x, y) {
        var k :| 0 <= k < |s| && s[k] == y;
        if k > 0 {
          assert Le(cmp, s[0], s[k]);
        }
      }
    }
  }

  /** The sort orders the elements when the comparator is a total preorder on
      them. */
  lemma {:induction false} SortBySorted<T>(s: seq<T>, cmp: (T, T) -> int)
    requires PreorderOn(cmp, s)
    ensures Sorted(cmp, SortBy(s, cmp))
  {
    if s != [] {
      var rest := s[1..];
      assert s == [s[0]] + rest;
      assert forall y :: y in rest ==> y in s;
      SortBySorted(rest, cmp);
      var t := SortBy(rest, cmp);
      forall y | y in [s[0]] + t ensures y in s {
        if y in t {
          assert y in multiset(t);
        }
      }
      InsertSorted(s[0], t, cmp);
    }
  }

  /** Inserting `x` keeps, within each class of equal elements, the order of
      `s`, with `x` first in its class; this needs only that `x`, `e` and each
      element are transitive. */
  lemma {:induction false} InsertStable<T>(x: T, s: seq<T>, cmp: (T, T) -> int, e: T)
    requires forall y :: y in s && Le(cmp, x, e) && Le(cmp, e, y) ==> Le(cmp, x, y)
    ensures Filter(Insert(x, s, cmp), ClassOf(cmp, e)) ==
            (if Equiv(cmp, x, e) then [x] else []) + Filter(s, ClassOf(cmp, e))
  {
    var p := ClassOf(cmp, e);
    if s == [] {
      assert Insert(x, s, cmp) == [x] + s;
      FilterAppend([x], s, p);
    } else if Le(cmp, x, s[0]) {
      assert Insert(x, s, cmp) == [x] + s;
      FilterAppend([x], s, p);
    } else {
      var rest := s[1..];
      var ins := Insert(x, rest, cmp);
      var pre := if Equiv(cmp, x, e) then [x] else [];
      InsertStable(x, rest, cmp, e);
      if Equiv(cmp, x, e) {
        // s[0] sorts strictly before x, so it is not in x's class.
        assert s[0] in s;
      }
      FilterPastHead(s[0], ins, rest, pre, p);
      assert Insert(x, s, cmp) == [s[0]] + ins;
      assert s == [s[0]] + rest;
    }
  }

  lemma FilterPastHead<T>(a: T, t: seq<T>, rest: seq<T>, pre: seq<T>, p: T -> bool)
    requires Filter(t, p) == pre + Filter(rest, p)
    requires p(a) ==> pre == []
    ensures Filter([a] + t, p) == pre + Filter([a] + rest, p)
  {
    if p(a) {
      FilterPastKept(a, t, rest, p);
    } else {
      FilterPastDropped(a, t, rest, pre, p);
    }
  }

  lemma FilterPastKept<T>(a: T, t: seq<T>, rest: seq<T>, p: T -> bool)
    requires Filter(t, p) == Filter(rest, p) && p(a)
    ensures Filter([a] + t, p) == Filter([a] + rest, p)
  {
    FilterCons(a, t, p);
    FilterCons(a, rest, p);
  }

  lemma FilterPastDropped<T>(a: T, t: seq<T>, rest: seq<T>, pre: seq<T>, p: T -> bool)
    requires Filter(t, p) == pre + Filter(rest, p) && !p(a)
    ensures Filter([a] + t, p) == pre + Filter([a] + rest, p)
  {
    FilterCons(a, t, p);
    FilterCons(a, rest, p);
    assert [] + Filter(t, p) == Filter(t, p);
    assert [] + Filter(rest, p) == Filter(rest, p);
  }

  /** The sort is stable: for every class of equal elements, the elements of
      that class appear in the output in the order they had in the input. */
  lemma {:induction false} SortByStable<T>(s: seq<T>, cmp: (T, T) -> int, e: T)
    requires PreorderOn(cmp, s + [e])
    ensures Filter(SortBy(s, cmp), ClassOf(cmp, e)) == Filter(s, ClassOf(cmp, e))
  {
    var p := ClassOf(cmp, e);
    if s != [] {
      var rest := s[1..];
      assert s == [s[0]] + rest;
      assert forall y :: y in rest + [e] ==> y in s + [e];
      SortByStable(rest, cmp, e);
      var t := SortBy(rest, cmp);
      assert s[0] in s + [e] && e in s + [e];
      forall y | y in t ensures y in s + [e] {
        assert y in multiset(t);
      }
      InsertStable(s[0], t, cmp, e);
      FilterAppend([s[0]], rest, p);
    }
  }

  /** Lexicographic comparison of code-unit sequences: -1, 0 or 1. */
  function CompareUnits(a: seq<int>, b: seq<int>): (r: int)
    ensures -1 <= r <= 1
    ensures r == 0 <==> a == b
  {
    if a == [] && b == [] then 0
    else if a == [] then -1
    else if b == [] then 1
    else if a[0] < b[0] then -1
    else if a[0] > b[0] then 1
    else
      assert a == [a[0]] + a[1..] && b == [b[0]] + b[1..];
      CompareUnits(a[1..], b[1..])
  }

  /** The comparator `sort()` uses without an argument: strings ordered by
      their UTF-16 code units. */
  function CompareStrings(a: string, b: string): int {
    CompareUnits(Utf16(a), Utf16(b))
  }

  lemma {:induction false} CompareUnitsFlip(a: seq<int>, b: seq<int>)
    ensures CompareUnits(b, a) == -CompareUnits(a, b)
  {
    if a != [] && b != [] && a[0] == b[0] {
      CompareUnitsFlip(a[1..], b[1..]);
    }
  }

  lemma {:induction false} CompareUnitsTransitive(a: seq<int>, b: seq<int>, c: seq<int>)
    requires CompareUnits(a, b) <= 0 && CompareUnits(b, c) <= 0
    ensures CompareUnits(a, c) <= 0
  {
    if a != [] && b != [] && c != [] && a[0] == b[0] && b[0] == c[0] {
      CompareUnitsTransitive(a[1..], b[1..], c[1..]);
    }
  }

  /** The default string order is a total preorder on any list of strings. */
  lemma CompareStringsPreorder(s: seq<string>)
    ensures PreorderOn(CompareStrings, s)
  {
    forall a, b ensures Le(CompareStrings, a, b) || Le(CompareStrings, b, a) {
      CompareUnitsFlip(Utf16(a), Utf16(b));
    }
    forall a, b, c | Le(CompareStrings, a, b) && Le(CompareStrings, b, c)
      ensures Le(CompareStrings, a, c)
    {
      CompareUnitsTransitive(Utf16(a), Utf16(b), Utf16(c));
    }
  }
}
