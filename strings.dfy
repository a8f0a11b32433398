/** Models of the JavaScript string primitives the site relies on: white-space
    trimming, case folding, substring search, joining, decimal printing and
    `Number.parseInt(s, 10)`. A string is a sequence of Unicode scalar values, so
    its length is its number of code points (what `Array.from(s).length` counts). */
module Strings {
  import opened Wrappers
  import opened Seqs

  /** The ECMAScript WhiteSpace and LineTerminator code points: the set that
      `String.prototype.trim`, the regular-expression class `\s` and `parseInt`
      all skip. */
  predicate IsWhitespace(c: char) {
    || c == '\t' || c == '\n' || c == '\U{000B}' || c == '\U{000C}' || c == '\r'
    || c == ' ' || c == '\U{00A0}' || c == '\U{1680}' || ('\U{2000}' <= c <= '\U{200A}')
    || c == '\U{2028}' || c == '\U{2029}' || c == '\U{202F}' || c == '\U{205F}'
    || c == '\U{3000}' || c == '\U{FEFF}'
  }

  /** Drops leading white space. */
  function TrimStart(s: string): (r: string)
    ensures |r| <= |s| && r == s[|s| - |r|..]
    ensures r == [] || !IsWhitespace(r[0])
    ensures forall i :: 0 <= i < |s| - |r| ==> IsWhitespace(s[i])
  {
    if s != [] && IsWhitespace(s[0]) then TrimStart(s[1..]) else s
  }

  /** Drops trailing white space. */
  function TrimEnd(s: string): (r: string)
    ensures |r| <= |s| && r == s[..|r|]
    ensures r == [] || !IsWhitespace(r[|r| - 1])
    ensures forall i :: |r| <= i < |s| ==> IsWhitespace(s[i])
  {
    if s != [] && IsWhitespace(s[|s| - 1]) then TrimEnd(s[..|s| - 1]) else s
  }

  /** `s.trim()`. */
  function Trim(s: string): (r: string)
    ensures |r| <= |s|
    ensures r != [] ==> !IsWhitespace(r[0]) && !IsWhitespace(r[|r| - 1])
  {
    TrimEnd(TrimStart(s))
  }

  /** `trim` removes white space at both ends and nothing else: what is left is
      a slice of `s`, and everything around it is white space. */
  lemma TrimIsSlice(s: string)
    ensures exists i, j :: 0 <= i <= j <= |s| && Trim(s) == s[i..j] &&
              forall k :: 0 <= k < i || j <= k < |s| ==> IsWhitespace(s[k])
  {
    TrimmedSlice(s, TrimStart(s), Trim(s));
  }

  /** A suffix of `s` after white space, cut before white space, is a slice
      of `s` with only white space around it. */
  lemma TrimmedSlice(s: string, t: string, r: string)
    requires |t| <= |s| && t == s[|s| - |t|..] && forall k :: 0 <= k < |s| - |t| ==> IsWhitespace(s[k])
    requires |r| <= |t| && r == t[..|r|] && forall k :: |r| <= k < |t| ==> IsWhitespace(t[k])
    ensures exists i, j :: 0 <= i <= j <= |s| && r == s[i..j] &&
              forall k :: 0 <= k < i || j <= k < |s| ==> IsWhitespace(s[k])
  {
    var i, j := |s| - |t|, |s| - |t| + |r|;
    assert r == s[i..j];
    forall k | 0 <= k < i || j <= k < |s| ensures IsWhitespace(s[k]) {
      if j <= k {
        assert s[k] == t[k - i];
      }
    }
  }

  /** `!s.trim()`: the string is empty or white space only. */
  predicate IsBlank(s: string) {
    Trim(s) == []
  }

  /** A string is blank exactly when every character in it is white space. */
  lemma BlankIffAllWhitespace(s: string)
    ensures IsBlank(s) <==> forall i :: 0 <= i < |s| ==> IsWhitespace(s[i])
  {
    var t := TrimStart(s);
    if IsBlank(s) {
      // Nothing visible is left after the leading white space.
      assert t == [];
    }
  }

  /** A string that starts with a visible character is not blank. */
  lemma NotBlank(s: string)
    requires s != [] && !IsWhitespace(s[0])
    ensures !IsBlank(s)
  {
    BlankIffAllWhitespace(s);
  }

  /** Case folding of one character, restricted to ASCII letters. */
  function LowerChar(c: char): char {
    if 'A' <= c <= 'Z' then (c as int + 32) as char else c
  }

  /** `s.toLowerCase()` on ASCII letters; other characters are kept. */
  function Lower(s: string): (r: string)
    ensures |r| == |s|
    ensures forall i :: 0 <= i < |s| ==> r[i] == LowerChar(s[i])
  {
    seq(|s|, i requires 0 <= i < |s| => LowerChar(s[i]))
  }

  /** `s` has no upper-case ASCII letter. */
  predicate IsLowerCase(s: string) {
    forall i :: 0 <= i < |s| ==> LowerChar(s[i]) == s[i]
  }

  /** `a` and `b` spell the same text up to ASCII case. */
  predicate EqualsIgnoringCase(a: string, b: string) {
    |a| == |b| && forall i :: 0 <= i < |a| ==> LowerChar(a[i]) == LowerChar(b[i])
  }

  /** `s.toLowerCase() === t` for a lower-case `t` says that `s` is `t` up to
      case. */
  lemma LowerEquals(s: string, t: string)
    requires IsLowerCase(t)
    ensures Lower(s) == t <==> EqualsIgnoringCase(s, t)
  {
    if EqualsIgnoringCase(s, t) {
      assert forall i :: 0 <= i < |t| ==> Lower(s)[i] == t[i];
    }
  }

  /** `s.startsWith(p)`. */
  predicate StartsWith(s: string, p: string) {
    |p| <= |s| && s[..|p|] == p
  }

  /** `s.toLowerCase().startsWith(p)` read character by character: the first
      `|p|` characters of `s`, folded, spell `p`. */
  lemma LowerStartsWith(s: string, p: string)
    ensures StartsWith(Lower(s), p) <==> |p| <= |s| && forall i :: 0 <= i < |p| ==> LowerChar(s[i]) == p[i]
  {
    if |p| <= |s| && forall i :: 0 <= i < |p| ==> LowerChar(s[i]) == p[i] {
      assert Lower(s)[..|p|] == p;
    }
    if StartsWith(Lower(s), p) {
      forall i | 0 <= i < |p| ensures LowerChar(s[i]) == p[i] {
        assert Lower(s)[..|p|][i] == p[i];
      }
    }
  }

  /** `s.indexOf(c)`, with `|s|` standing for "not found". */
  function IndexOf(s: string, c: char): (i: nat)
    ensures i <= |s|
    ensures i < |s| ==> s[i] == c
    ensures forall j :: 0 <= j < i ==> s[j] != c
    ensures i == |s| <==> c !in s
  {
    if s == [] then 0
    else if s[0] == c then 0
    else
      assert forall j :: 1 <= j < |s| ==> s[j] == s[1..][j - 1];
      1 + IndexOf(s[1..], c)
  }

  /** `s.endsWith(p)`. */
  predicate EndsWith(s: string, p: string) {
    |p| <= |s| && s[|s| - |p|..] == p
  }

  /** A concatenation starts with its first part and ends with its second. */
  lemma ConcatEnds(a: string, b: string)
    ensures StartsWith(a + b, a) && EndsWith(a + b, b)
  {
    assert (a + b)[..|a|] == a;
    assert (a + b)[|a + b| - |b|..] == b;
  }

  /** `s.includes(sub)`. */
  predicate Contains(s: string, sub: string)
    decreases |s|
  {
    StartsWith(s, sub) || (s != [] && Contains(s[1..], sub))
  }

  /** `sub` occurs in `s` starting at position `k`. */
  predicate OccursAt(s: string, sub: string, k: int) {
    0 <= k && k + |sub| <= |s| && s[k..k + |sub|] == sub
  }

  /** `s.includes(sub)` holds exactly when `sub` occurs at some position. */
  lemma {:induction false} ContainsAt(s: string, sub: string)
    ensures Contains(s, sub) <==> exists k :: OccursAt(s, sub, k)
  {
    if s != [] {
      ContainsAt(s[1..], sub);
      if Contains(s[1..], sub) {
        var k :| OccursAt(s[1..], sub, k);
        assert s[k + 1..k + 1 + |sub|] == s[1..][k..k + |sub|];
        assert OccursAt(s, sub, k + 1);
      }
      if k :| OccursAt(s, sub, k) {
        if k > 0 {
          assert s[1..][k - 1..k - 1 + |sub|] == s[k..k + |sub|];
          assert OccursAt(s[1..], sub, k - 1);
        } else {
          assert StartsWith(s, sub);
        }
      }
    }
    if StartsWith(s, sub) {
      assert OccursAt(s, sub, 0);
    }
  }

  /** `parts.join(sep)`. */
  function Join(parts: seq<string>, sep: string): string {
    if parts == [] then ""
    else if |parts| == 1 then parts[0]
    else parts[0] + sep + Join(parts[1..], sep)
  }

  /** `s.replace(/\s+/g, ' ')`: every maximal run of white space becomes one space. */
  function CollapseWhitespace(s: string): (r: string)
    ensures |r| <= |s|
    ensures s != [] ==> r != [] && (IsWhitespace(r[0]) <==> IsWhitespace(s[0]))
    ensures forall i :: 0 <= i < |r| && IsWhitespace(r[i]) ==> r[i] == ' '
    ensures forall i, j :: 0 <= i < j < |r| && j == i + 1 && IsWhitespace(r[i]) ==> !IsWhitespace(r[j])
    decreases |s|
  {
    if s == [] then []
    else if IsWhitespace(s[0]) then [' '] + CollapseWhitespace(TrimStart(s))
    else [s[0]] + CollapseWhitespace(s[1..])
  }

  /** Anything but white space. */
  predicate Visible(c: char) {
    !IsWhitespace(c)
  }

  /** Dropping the leading white space of `a + b` drops that of `a`, and goes
      on into `b` only when `a` is all white space. */
  lemma {:induction false} TrimStartAppend(a: string, b: string)
    ensures TrimStart(a) != [] ==> TrimStart(a + b) == TrimStart(a) + b
    ensures TrimStart(a) == [] ==> TrimStart(a + b) == TrimStart(b)
    decreases |a|
  {
    if a == [] {
      assert a + b == b;
    } else if IsWhitespace(a[0]) {
      assert (a + b)[1..] == a[1..] + b;
      TrimStartAppend(a[1..], b);
    } else {
      assert (a + b)[0] == a[0];
    }
  }

  /** Collapsing keeps every visible character, in order. */
  lemma {:induction false} CollapseKeepsVisible(s: string)
    ensures Filter(CollapseWhitespace(s), Visible) == Filter(s, Visible)
    decreases |s|
  {
    if s != [] && IsWhitespace(s[0]) {
      var t := TrimStart(s);
      calc {
        Filter(CollapseWhitespace(s), Visible);
        { FilterCons(' ', CollapseWhitespace(t), Visible); }
        Filter(CollapseWhitespace(t), Visible);
        { CollapseKeepsVisible(t); }
        Filter(t, Visible);
        { DropInvisible(s, t); }
        Filter(s, Visible);
      }
    } else if s != [] {
      calc {
        Filter(CollapseWhitespace(s), Visible);
        { FilterCons(s[0], CollapseWhitespace(s[1..]), Visible); }
        [s[0]] + Filter(CollapseWhitespace(s[1..]), Visible);
        { CollapseKeepsVisible(s[1..]); }
        [s[0]] + Filter(s[1..], Visible);
        { FilterCons(s[0], s[1..], Visible); assert s == [s[0]] + s[1..]; }
        Filter(s, Visible);
      }
    }
  }

  /** Leading white space holds no visible character. */
  lemma DropInvisible(s: string, t: string)
    requires |t| <= |s| && t == s[|s| - |t|..] && forall k :: 0 <= k < |s| - |t| ==> IsWhitespace(s[k])
    ensures Filter(t, Visible) == Filter(s, Visible)
  {
    var lead := s[..|s| - |t|];
    assert s == lead + t;
    FilterAppend(lead, t, Visible);
    NoneSatisfy(lead, Visible);
  }

  /** A run of white space becomes exactly one space. */
  lemma CollapseRun(w: string)
    requires w != [] && forall i :: 0 <= i < |w| ==> IsWhitespace(w[i])
    ensures CollapseWhitespace(w) == " "
  {
    assert TrimStart(w) == [];
  }

  /** Text without white space is kept as it is. */
  lemma {:induction false} CollapseVisibleText(v: string)
    requires forall i :: 0 <= i < |v| ==> !IsWhitespace(v[i])
    ensures CollapseWhitespace(v) == v
  {
    if v != [] {
      CollapseVisibleText(v[1..]);
      assert v == [v[0]] + v[1..];
    }
  }

  /** Collapsing works piece by piece when no run of white space crosses the
      joint: with `CollapseRun` and `CollapseVisibleText` this fixes the result
      for every text, cut into its runs. */
  lemma {:induction false} CollapseAppend(a: string, b: string)
    requires a == [] || b == [] || !IsWhitespace(a[|a| - 1]) || !IsWhitespace(b[0])
    ensures CollapseWhitespace(a + b) == CollapseWhitespace(a) + CollapseWhitespace(b)
    decreases |a|
  {
    if a == [] {
      assert a + b == b;
    } else if b == [] {
      assert a + b == a;
    } else if IsWhitespace(a[0]) {
      CollapseAppendRun(a, b);
    } else {
      var ab := a + b;
      assert ab[0] == a[0] && ab[1..] == a[1..] + b;
      assert CollapseWhitespace(ab) == [a[0]] + CollapseWhitespace(a[1..] + b);
      if a[1..] != [] {
        assert a[1..][|a[1..]| - 1] == a[|a| - 1];
      }
      CollapseAppend(a[1..], b);
      assert CollapseWhitespace(a) == [a[0]] + CollapseWhitespace(a[1..]);
    }
  }

  /** The case of `CollapseAppend` where `a` starts with white space. */
  lemma {:induction false} CollapseAppendRun(a: string, b: string)
    requires a != [] && b != [] && IsWhitespace(a[0])
    requires !IsWhitespace(a[|a| - 1]) || !IsWhitespace(b[0])
    ensures CollapseWhitespace(a + b) == CollapseWhitespace(a) + CollapseWhitespace(b)
    decreases |a|, 0
  {
    var t := TrimStart(a);
    if t == [] {
      TrimStartAppend(a, b);
      CollapseBlankAppend(a, b);
    } else {
      calc {
        CollapseWhitespace(a + b);
        { assert (a + b)[0] == a[0]; TrimStartAppend(a, b); }
        [' '] + CollapseWhitespace(t + b);
        { assert t[|t| - 1] == a[|a| - 1]; CollapseAppend(t, b); }
        [' '] + (CollapseWhitespace(t) + CollapseWhitespace(b));
        ([' '] + CollapseWhitespace(t)) + CollapseWhitespace(b);
        { assert CollapseWhitespace(a) == [' '] + CollapseWhitespace(t); }
        CollapseWhitespace(a) + CollapseWhitespace(b);
      }
    }
  }

  /** White space only, then a visible character: one space, then the rest. */
  lemma CollapseBlankAppend(a: string, b: string)
    requires a != [] && b != [] && IsWhitespace(a[0]) && !IsWhitespace(b[0])
    requires TrimStart(a) == [] && TrimStart(a + b) == TrimStart(b)
    ensures CollapseWhitespace(a + b) == CollapseWhitespace(a) + CollapseWhitespace(b)
  {
    assert (a + b)[0] == a[0];
    assert TrimStart(b) == b;
  }

  predicate IsDigit(c: char) {
    '0' <= c <= '9'
  }

  predicate AllDigits(s: string) {
    forall i :: 0 <= i < |s| ==> IsDigit(s[i])
  }

  function DigitChar(d: nat): (c: char)
    requires d < 10
    ensures IsDigit(c)
  {
    ('0' as int + d) as char
  }

  function DigitValue(c: char): (d: nat)
    requires IsDigit(c)
    ensures d < 10 && DigitChar(d) == c
  {
    c as int - '0' as int
  }

  /** The decimal representation of `n` without leading zeros. */
  function NatToString(n: nat): (r: string)
    ensures r != [] && AllDigits(r)
    ensures n >= 10 ==> r[0] != '0'
  {
    if n < 10 then [DigitChar(n)] else NatToString(n / 10) + [DigitChar(n % 10)]
  }

  /** `i.toString()` for an integral number. */
  function IntToString(i: int): string {
    if i < 0 then "-" + NatToString(-i) else NatToString(i)
  }

  /** `s.padStart(width, fill)` with a one-character filler. */
  function PadStart(s: string, width: nat, fill: char): (r: string)
    ensures |r| == if |s| >= width then |s| else width
    ensures r[|r| - |s|..] == s
    ensures forall i :: 0 <= i < |r| - |s| ==> r[i] == fill
  {
    if |s| >= width then s else Repeat(fill, width - |s|) + s
  }

  /** The value of a run of decimal digits. */
  function DigitsValue(ds: string): nat
    requires AllDigits(ds)
  {
    if ds == [] then 0 else DigitsValue(ds[..|ds| - 1]) * 10 + DigitValue(ds[|ds| - 1])
  }

  /** The longest prefix made of decimal digits. */
  function LeadingDigits(s: string): (r: string)
    ensures |r| <= |s| && r == s[..|r|] && AllDigits(r)
    ensures |r| == |s| || !IsDigit(s[|r|])
  {
    if s != [] && IsDigit(s[0]) then [s[0]] + LeadingDigits(s[1..]) else []
  }

  /** `Number.parseInt(s, 10)`, with `None` for `NaN`: leading white space is
      skipped, one optional sign is read, then the longest run of decimal digits;
      without a digit the result is `NaN`. */
  function ParseInt(s: string): Option<int> {
    ParseSigned(TrimStart(s))
  }

  /** `parseInt` is `NaN` exactly when, after the white space and one optional
      sign, no decimal digit follows; a negative value needs a minus sign. */
  lemma ParseIntNaN(s: string)
    ensures var t := TrimStart(s);
            var u := if t != [] && (t[0] == '-' || t[0] == '+') then t[1..] else t;
            ParseInt(s).None? <==> u == [] || !IsDigit(u[0])
    ensures var t := TrimStart(s); ParseInt(s).Some? && ParseInt(s).value < 0 ==> t[0] == '-'
  {
  }

  /** The sign-and-digits part of `parseInt`. */
  function ParseSigned(t: string): Option<int> {
    if t != [] && t[0] == '-' then
      match ParseDigits(t[1..])
      case None => None
      case Some(v) => Some(-v)
    else if t != [] && t[0] == '+' then ParseDigits(t[1..])
    else ParseDigits(t)
  }

  /** The value of the leading run of digits, or `NaN` when there is none. */
  function ParseDigits(u: string): Option<int> {
    var ds := LeadingDigits(u);
    if ds == [] then None else Some(DigitsValue(ds))
  }

  lemma {:induction false} DigitsValueOfNatToString(n: nat)
    ensures DigitsValue(NatToString(n)) == n
  {
    if n >= 10 {
      var r := NatToString(n);
      assert r[..|r| - 1] == NatToString(n / 10);
      DigitsValueOfNatToString(n / 10);
    }
  }

  lemma {:induction false} DigitsValueOfZeros(k: nat)
    ensures AllDigits(Repeat('0', k)) && DigitsValue(Repeat('0', k)) == 0
  {
    if k > 0 {
      var zs := Repeat('0', k);
      assert zs[..k - 1] == Repeat('0', k - 1);
      DigitsValueOfZeros(k - 1);
    }
  }

  /** Leading zeros do not change the value of a run of digits. */
  lemma {:induction false} DigitsValueLeadingZeros(zs: string, ds: string)
    requires AllDigits(zs) && DigitsValue(zs) == 0 && AllDigits(ds)
    ensures AllDigits(zs + ds) && DigitsValue(zs + ds) == DigitsValue(ds)
    decreases |ds|
  {
    if ds == [] {
      assert zs + ds == zs;
    } else {
      var all := zs + ds;
      var init := ds[..|ds| - 1];
      assert all[..|all| - 1] == zs + init;
      assert all[|all| - 1] == ds[|ds| - 1];
      DigitsValueLeadingZeros(zs, init);
    }
  }

  lemma TrimStartNoop(s: string)
    requires s != [] && (s[0] == '-' || IsDigit(s[0]))
    ensures TrimStart(s) == s
  {
    assert !IsWhitespace(s[0]);
  }

  /** A string made only of digits is read whole. */
  lemma ParseDigitsOfDigits(ds: string)
    requires ds != [] && AllDigits(ds)
    ensures ParseDigits(ds) == Some(DigitsValue(ds))
  {
    assert LeadingDigits(ds) == ds;
  }

  /** Printing then parsing gives the number back: `parseInt(String(n), 10) == n`. */
  lemma ParseIntOfIntToString(i: int)
    ensures ParseInt(IntToString(i)) == Some(i)
  {
    var n: nat := if i < 0 then -i else i;
    var ds := NatToString(n);
    DigitsValueOfNatToString(n);
    ParseDigitsOfDigits(ds);
    var s := IntToString(i);
    TrimStartNoop(s);
    if i < 0 {
      assert s[1..] == ds;
    }
  }

  /** A zero-padded decimal, as date formatters print months and days, parses
      back to its number. */
  lemma ParseIntOfPadded(n: nat, width: nat)
    ensures AllDigits(PadStart(NatToString(n), width, '0'))
    ensures ParseInt(PadStart(NatToString(n), width, '0')) == Some(n)
  {
    PaddedValue(n, width);
    ParseIntOfDigits(PadStart(NatToString(n), width, '0'));
  }

  /** A run of digits parses to its value. */
  lemma ParseIntOfDigits(ds: string)
    requires ds != [] && AllDigits(ds)
    ensures ParseInt(ds) == Some(DigitsValue(ds))
  {
    ParseDigitsOfDigits(ds);
    TrimStartNoop(ds);
  }

  /** Zero padding keeps the digits' value. */
  lemma PaddedValue(n: nat, width: nat)
    ensures var padded := PadStart(NatToString(n), width, '0');
            padded != [] && AllDigits(padded) && DigitsValue(padded) == n
  {
    var ds := NatToString(n);
    DigitsValueOfNatToString(n);
    if |ds| < width {
      DigitsValueOfZeros(width - |ds|);
      DigitsValueLeadingZeros(Repeat('0', width - |ds|), ds);
    }
  }

  /** The UTF-16 code units of one character: what `charCodeAt` reads. */
  function CodeUnits(c: char): (r: seq<int>)
    ensures |r| == 1 || |r| == 2
    ensures forall i :: 0 <= i < |r| ==> 0 <= r[i] < 0x10000
  {
    var v := c as int;
    if v < 0x10000 then [v]
    else
      var w := v - 0x10000;
      [0xD800 + w / 0x400, 0xDC00 + w % 0x400]
  }

  /** The UTF-16 code units of a string; their count is `s.length`. */
  function Utf16(s: string): (r: seq<int>)
    ensures |r| >= |s|
    ensures forall i :: 0 <= i < |r| ==> 0 <= r[i] < 0x10000
  {
    if s == [] then [] else CodeUnits(s[0]) + Utf16(s[1..])
  }

  /** A string of characters below U+10000 has one code unit per character,
      equal to the character's code point. */
  lemma {:induction false} Utf16OfBmp(s: string)
    requires forall i :: 0 <= i < |s| ==> (s[i] as int) < 0x10000
    ensures |Utf16(s)| == |s|
    ensures forall i :: 0 <= i < |s| ==> Utf16(s)[i] == s[i] as int
  {
    if s != [] {
      Utf16OfBmp(s[1..]);
    }
  }
}
