/** `URLSearchParams` as the site uses it: an ordered list of key/value
    entries in which a key may repeat, read with `get`/`getAll`, changed with
    `set`/`append`, and written out with `toString()` in the
    application/x-www-form-urlencoded serialisation of the WHATWG URL
    Standard (section 5.2, "application/x-www-form-urlencoded serializing"). */
module SearchParams {
  import opened Wrappers
  import opened Strings

  /** The entries of a query string, in order. */
  type Params = seq<(string, string)>

  /** `params.getAll(key)`: every value stored under `key`, in order. */
  function GetAll(ps: Params, key: string): (r: seq<string>)
    ensures |r| <= |ps|
  {
    if ps == [] then []
    else (if ps[0].0 == key then [ps[0].1] else []) + GetAll(ps[1..], key)
  }

  /** `getAll` finds exactly the values stored under the key. */
  lemma {:induction false} GetAllMembers(ps: Params, key: string)
    ensures forall v :: v in GetAll(ps, key) <==> (key, v) in ps
  {
    if ps != [] {
      GetAllMembers(ps[1..], key);
      assert ps == [ps[0]] + ps[1..];
    }
  }

  /** `params.get(key)`: the first value stored under `key`, `null` when there
      is none. */
  function Get(ps: Params, key: string): (r: Option<string>)
    ensures r.None? <==> GetAll(ps, key) == []
    ensures r.Some? ==> r.value == GetAll(ps, key)[0]
  {
    if ps == [] then None
    else if ps[0].0 == key then Some(ps[0].1)
    else Get(ps[1..], key)
  }

  /** `get` reads only what `getAll` reads. */
  lemma GetAgrees(a: Params, b: Params, key: string)
    requires GetAll(a, key) == GetAll(b, key)
    ensures Get(a, key) == Get(b, key)
  {
  }

  /** `getAll` of a concatenation reads the two parts in turn. */
  lemma {:induction false} GetAllConcat(a: Params, b: Params)
    ensures forall k :: GetAll(a + b, k) == GetAll(a, k) + GetAll(b, k)
  {
    if a != [] {
      GetAllConcat(a[1..], b);
      assert (a + b)[0] == a[0] && (a + b)[1..] == a[1..] + b;
      forall k ensures GetAll(a + b, k) == GetAll(a, k) + GetAll(b, k) {
        var head := if a[0].0 == k then [a[0].1] else [];
        calc {
          GetAll(a + b, k);
          head + GetAll(a[1..] + b, k);
          head + (GetAll(a[1..], k) + GetAll(b, k));
          (head + GetAll(a[1..], k)) + GetAll(b, k);
        }
      }
    } else {
      assert a + b == b;
    }
  }

  /** The entries under other keys, in order. */
  function Without(ps: Params, key: string): (r: Params)
    ensures GetAll(r, key) == []
    ensures forall k :: k != key ==> GetAll(r, k) == GetAll(ps, k)
  {
    if ps == [] then []
    else if ps[0].0 == key then Without(ps[1..], key)
    else [ps[0]] + Without(ps[1..], key)
  }

  /** Some entry has the key `key`. */
  predicate HasKey(ps: Params, key: string) {
    exists i :: 0 <= i < |ps| && ps[i].0 == key
  }

  /** Without an entry under `key` there is no value under it. */
  lemma {:induction false} NoKeyNoValues(ps: Params, key: string)
    requires !HasKey(ps, key)
    ensures GetAll(ps, key) == []
  {
    if ps != [] {
      assert ps[0].0 != key;
      assert !HasKey(ps[1..], key);
      NoKeyNoValues(ps[1..], key);
    }
  }

  /** The first entry under `key` takes the new value, in its place; the later
      entries under `key` are removed. */
  function ReplaceFirst(ps: Params, key: string, value: string): (r: Params)
    ensures GetAll(r, key) == (if HasKey(ps, key) then [value] else [])
    ensures forall k :: k != key ==> GetAll(r, k) == GetAll(ps, k)
  {
    if ps == [] then []
    else if ps[0].0 == key then [(key, value)] + Without(ps[1..], key)
    else
      var rest := ReplaceFirst(ps[1..], key, value);
      assert HasKey(ps, key) <==> HasKey(ps[1..], key) by {
        if i :| 0 <= i < |ps| && ps[i].0 == key {
          assert ps[1..][i - 1].0 == key;
        }
        if i :| 0 <= i < |ps[1..]| && ps[1..][i].0 == key {
          assert ps[i + 1].0 == key;
        }
      }
      [ps[0]] + rest
  }

  /** `params.set(key, value)`: afterwards `key` holds exactly `value`, at the
      place of its first entry or at the end; every other key reads as
      before. */
  function SetValue(ps: Params, key: string, value: string): (r: Params)
    ensures GetAll(r, key) == [value]
    ensures forall k :: k != key ==> GetAll(r, k) == GetAll(ps, k)
  {
    if HasKey(ps, key) then ReplaceFirst(ps, key, value)
    else
      GetAllConcat(ps, [(key, value)]);
      NoKeyNoValues(ps, key);
      ps + [(key, value)]
  }

  /** After `set`, `get` reads the value that was set. */
  lemma GetAfterSet(ps: Params, key: string, value: string)
    ensures Get(SetValue(ps, key, value), key) == Some(value)
  {
  }

  /** `params.append(key, value)`: one more entry at the end. */
  function Append(ps: Params, key: string, value: string): (r: Params)
    ensures GetAll(r, key) == GetAll(ps, key) + [value]
    ensures forall k :: k != key ==> GetAll(r, k) == GetAll(ps, k)
  {
    GetAllConcat(ps, [(key, value)]);
    ps + [(key, value)]
  }

  /** The characters the serialiser writes as they are. */
  predicate Unreserved(c: char) {
    'a' <= c <= 'z' || 'A' <= c <= 'Z' || '0' <= c <= '9' || c == '*' || c == '-' || c == '.' || c == '_'
  }

  /** What an encoded text is made of: unreserved characters, `+` and `%`. */
  predicate EncodedChar(c: char) {
    Unreserved(c) || c == '+' || c == '%'
  }

  /** An upper-case hexadecimal digit. */
  function HexDigit(n: nat): (c: char)
    requires n < 16
    ensures Unreserved(c)
  {
    if n < 10 then ('0' as int + n) as char else ('A' as int + n - 10) as char
  }

  /** The UTF-8 encoding of one character (a Unicode scalar value). */
  function Utf8(c: char): (bytes: seq<nat>)
    ensures 1 <= |bytes| <= 4
    ensures forall i :: 0 <= i < |bytes| ==> bytes[i] < 256
    ensures (c as int < 0x80) <==> |bytes| == 1
  {
    var n := c as int;
    if n < 0x80 then [n]
    else if n < 0x800 then [0xC0 + n / 64, 0x80 + n % 64]
    else if n < 0x10000 then [0xE0 + n / 4096, 0x80 + (n / 64) % 64, 0x80 + n % 64]
    else [0xF0 + n / 262144, 0x80 + (n / 4096) % 64, 0x80 + (n / 64) % 64, 0x80 + n % 64]
  }

  /** Each byte as `%` and two upper-case hexadecimal digits. */
  function PercentBytes(bytes: seq<nat>): (r: string)
    requires forall i :: 0 <= i < |bytes| ==> bytes[i] < 256
    ensures |r| == 3 * |bytes|
    ensures forall i :: 0 <= i < |r| ==> EncodedChar(r[i])
  {
    if bytes == [] then ""
    else ['%', HexDigit(bytes[0] / 16), HexDigit(bytes[0] % 16)] + PercentBytes(bytes[1..])
  }

  /** One character of a key or value: kept when unreserved, `+` for a space,
      the percent-encoded UTF-8 bytes otherwise. */
  function EncodeChar(c: char): (r: string)
    ensures r != [] && forall i :: 0 <= i < |r| ==> EncodedChar(r[i])
    ensures Unreserved(c) <==> r == [c]
  {
    if Unreserved(c) then [c]
    else if c == ' ' then "+"
    else
      var r := PercentBytes(Utf8(c));
      assert r[0] == '%';
      r
  }

  /** A key or value as the serialiser writes it. */
  function Encode(s: string): (r: string)
    ensures forall i :: 0 <= i < |r| ==> EncodedChar(r[i])
    ensures |r| >= |s|
  {
    if s == [] then ""
    else EncodeChar(s[0]) + Encode(s[1..])
  }

  /** Text made of unreserved characters is written as it is. */
  lemma {:induction false} EncodePlain(s: string)
    requires forall i :: 0 <= i < |s| ==> Unreserved(s[i])
    ensures Encode(s) == s
  {
    if s != [] {
      EncodePlain(s[1..]);
      assert s == [s[0]] + s[1..];
    }
  }

  /** In `a + [c] + b` with no `c` in `a`, the first `c` is the one after `a`. */
  lemma IndexOfAfter(a: string, c: char, b: string)
    requires c !in a
    ensures IndexOf(a + [c] + b, c) == |a|
  {
    var r := a + [c] + b;
    assert r[|a|] == c;
    assert forall j :: 0 <= j < |a| ==> r[j] == a[j];
  }

  /** Two encoded texts around a separator hold no character but encoded
      ones and the separator. */
  lemma Around(k: string, sep: char, v: string)
    requires forall i :: 0 <= i < |k| ==> EncodedChar(k[i])
    requires forall i :: 0 <= i < |v| ==> EncodedChar(v[i])
    ensures forall c :: c in k + [sep] + v ==> c == sep || EncodedChar(c)
  {
    var r := k + [sep] + v;
    forall c | c in r ensures c == sep || EncodedChar(c) {
      var i :| 0 <= i < |r| && r[i] == c;
      if i < |k| {
        assert r[i] == k[i];
      } else if i > |k| {
        assert r[i] == v[i - |k| - 1];
      }
    }
  }

  /** One entry as `key=value`. */
  function EncodePair(p: (string, string)): (r: string)
    ensures '=' in r && '&' !in r && '?' !in r
    ensures IndexOf(r, '=') == |Encode(p.0)|
  {
    var k, v := Encode(p.0), Encode(p.1);
    var r := k + ['='] + v;
    Around(k, '=', v);
    assert '=' !in k;
    IndexOfAfter(k, '=', v);
    assert r[|k|] == '=';
    assert !EncodedChar('&') && !EncodedChar('?');
    r
  }

  /** `params.toString()`: the entries written as `key=value`, joined by `&`. */
  function Serialize(ps: Params): (r: string)
    ensures r == "" <==> ps == []
    ensures '?' !in r
  {
    if ps == [] then ""
    else if |ps| == 1 then EncodePair(ps[0])
    else EncodePair(ps[0]) + "&" + Serialize(ps[1..])
  }

  /** `s.split(c)`. */
  function Split(s: string, c: char): (parts: seq<string>)
    ensures parts != []
    decreases |s|
  {
    var i := IndexOf(s, c);
    if i == |s| then [s] else [s[..i]] + Split(s[i + 1..], c)
  }

  /** Each entry written as `key=value`, in order. */
  function EncodedPairs(ps: Params): (r: seq<string>)
    ensures |r| == |ps|
    ensures forall i :: 0 <= i < |ps| ==> r[i] == EncodePair(ps[i])
  {
    if ps == [] then [] else [EncodePair(ps[0])] + EncodedPairs(ps[1..])
  }

  /** The written query string splits at `&` into the written entries, and
      each entry's first `=` ends its key: the serialisation can be read back
      entry by entry. */
  lemma {:induction false} SplitSerialize(ps: Params)
    requires ps != []
    ensures Split(Serialize(ps), '&') == EncodedPairs(ps)
  {
    var first := EncodePair(ps[0]);
    if |ps| > 1 {
      var rest := Serialize(ps[1..]);
      var s := first + ['&'] + rest;
      IndexOfAfter(first, '&', rest);
      assert s[..|first|] == first;
      assert s[|first| + 1..] == rest;
      SplitSerialize(ps[1..]);
    }
  }
}
