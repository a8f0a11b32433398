/** The daily featured selection of lib/showcase-data.ts: the cycle key is
    hashed with the 31-polynomial of `String.hashCode`, the hash seeds a
    Park–Miller generator, up to three advanced and three intermediate records
    are drawn, the rest is filled from any unused record, and the picks are
    shuffled with Fisher–Yates. */
module DailyFeatured {
  import opened Wrappers
  import opened Seqs
  import opened Strings
  import opened Types
  import opened ShowcaseData
  import opened CycleKey

  const TwoTo31 := 0x8000_0000
  const TwoTo32 := 0x1_0000_0000

  /** `x | 0`: the 32-bit two's-complement reading of an integer. */
  function ToInt32(x: int): (r: int)
    ensures -TwoTo31 <= r < TwoTo31
    ensures (r - x) % TwoTo32 == 0
  {
    (x + TwoTo31) % TwoTo32 - TwoTo31
  }

  /** Integers that differ by whole multiples of `2^32` read the same. */
  lemma ToInt32Periodic(x: int, k: int)
    ensures ToInt32(x + k * TwoTo32) == ToInt32(x)
  {
    assert (x + k * TwoTo32 + TwoTo31) % TwoTo32 == (x + TwoTo31) % TwoTo32;
  }

  /** The 31-polynomial of a sequence of code units, without wrap-around:
      `u[0] * 31^(n-1) + … + u[n-1]`. */
  function Horner(units: seq<int>): int {
    if units == [] then 0 else Horner(units[..|units| - 1]) * 31 + units[|units| - 1]
  }

  /** One round of the loop of `hashString`, `(hash << 5) - hash + code` and
      then `| 0`, is one Horner step on the wrapped value. */
  lemma HashStep(hash: int, x: int, code: int)
    requires hash == ToInt32(x)
    ensures ToInt32(ToInt32(hash * 32) - hash + code) == ToInt32(x * 31 + code)
  {
    var k1 := (ToInt32(hash * 32) - hash * 32) / TwoTo32;
    var k2 := (hash - x) / TwoTo32;
    assert ToInt32(hash * 32) == hash * 32 + k1 * TwoTo32;
    assert hash == x + k2 * TwoTo32;
    assert ToInt32(hash * 32) - hash + code == x * 31 + code + (31 * k2 + k1) * TwoTo32;
    ToInt32Periodic(x * 31 + code, 31 * k2 + k1);
  }

  /** `hashString(input)`: `Math.abs` of the wrapped 31-polynomial of the
      UTF-16 code units, plus one. */
  function HashOf(input: string): (r: int)
    ensures 1 <= r <= TwoTo31 + 1
  {
    var h := ToInt32(Horner(Utf16(input)));
    (if h < 0 then -h else h) + 1
  }

  /** `hashString`, loop by loop: the hash is kept as a 32-bit integer after
      every code unit. */
  method HashString(input: string) returns (result: int)
    ensures result == HashOf(input)
  {
    var units := Utf16(input);
    var hash := 0;
    for index := 0 to |units|
      invariant hash == ToInt32(Horner(units[..index]))
    {
      assert units[..index + 1][..index] == units[..index];
      HashStep(hash, Horner(units[..index]), units[index]);
      hash := ToInt32(ToInt32(hash * 32) - hash + units[index]);
    }
    assert units[..|units|] == units;
    result := (if hash < 0 then -hash else hash) + 1;
  }

  const Modulus := 2147483647
  const Multiplier := 16807
  /** The inverse of `Multiplier` modulo `Modulus`. */
  const Inverse := 1407677000

  /** JavaScript's `%`: the remainder takes the sign of the dividend. */
  function JsRemainder(a: int, m: int): (r: int)
    requires m > 0
    ensures -m < r < m
    ensures a >= 0 ==> r >= 0
    ensures a <= 0 ==> r <= 0
  {
    if a >= 0 then a % m else -((-a) % m)
  }

  /** The first state of `createSeededRandom(seed)`. */
  function InitialState(seed: int): (v: int)
    ensures 0 <= v < Modulus
  {
    var value := JsRemainder(seed, Modulus);
    if value <= 0 then value + 2147483646 else value
  }

  /** One step of the generator, `value * 16807 % 2147483647`; the product
      stays below `2^53`, so it is exact. */
  function Step(v: int): (r: int)
    ensures 0 <= r < Modulus
    ensures Live(v) ==> Live(r)
  {
    (v * Multiplier) % Modulus
  }

  /** `Math.floor(random() * n)` once the state is `v`:
      `random()` is `(v - 1) / 2147483646`. */
  function Scale(v: int, n: int): (r: int)
    ensures Live(v) && n >= 1 ==> 0 <= r < n
  {
    QuotientBelow(v, n);
    ((v - 1) * n) / 2147483646
  }

  /** A state the generator can run on: `[1, 2147483646]`. */
  predicate Live(v: int) {
    1 <= v < Modulus
  }

  /** The generator starts live from every seed except those whose remainder is
      `-2147483646`. */
  lemma InitialStateLive(seed: int)
    ensures Live(InitialState(seed)) <==> !(seed < 0 && (-seed) % Modulus == Modulus - 1)
  {
  }

  /** On a live state the scaled draw is an index below `n`. */
  lemma QuotientBelow(v: int, n: int)
    ensures Live(v) && n >= 1 ==> 0 <= ((v - 1) * n) / 2147483646 < n
  {
    if Live(v) && n >= 1 {
      ProductBelow(v - 1, n, 2147483646);
      DivBelow((v - 1) * n, n, 2147483646);
    }
  }

  lemma ProductBelow(a: int, n: int, d: int)
    requires 0 <= a < d && n >= 1
    ensures 0 <= a * n < d * n
  {
    assert d * n - a * n == (d - a) * n;
  }

  lemma DivBelow(p: int, n: int, d: int)
    requires d > 0 && 0 <= p < d * n
    ensures 0 <= p / d < n
  {
    var q := p / d;
    assert q * d <= p;
    assert (n - q) * d == n * d - q * d;
  }

  /** From the seed `-2147483646` the generator is stuck at 0 and every draw
      is `-1`; `hashString` never yields such a seed. */
  lemma NegativeSeedStuck(n: int)
    requires 1 <= n <= 2147483646
    ensures InitialState(-2147483646) == 0 && Step(0) == 0 && Scale(0, n) == -1
  {
  }

  /** The generator returned by `createSeededRandom`: its captured `value`. */
  class SeededRandom {
    var value: int

    constructor (seed: int)
      ensures value == InitialState(seed)
    {
      value := InitialState(seed);
    }

    /** `Math.floor(random() * n)`: step the state, then scale it. */
    method NextIndex(n: int) returns (index: int)
      modifies this
      ensures value == Step(old(value))
      ensures index == Scale(value, n)
      ensures Live(old(value)) && n >= 1 ==> Live(value) && 0 <= index < n
    {
      value := Step(value);
      index := Scale(value, n);
    }
  }

  /** `FEATURED_COUNT_PER_TIER` and the size of the whole selection. */
  const PerTier := 3
  const Total := PerTier * 2

  /** What the sampler has drawn so far: the `selections` array, the `used`
      set of ids and the generator's state. */
  datatype Draw = Draw(selections: seq<ShowcaseRecord>, used: set<string>, state: int)

  /** `normalizeDifficulty(record.difficulty) === tier`. */
  function OfTier(tier: string): ShowcaseRecord -> bool {
    (x: ShowcaseRecord) => NormalizeDifficulty(x.difficulty) == tier
  }

  /** `!used.has(item.id)`. */
  function NotUsed(used: set<string>): ShowcaseRecord -> bool {
    (x: ShowcaseRecord) => x.id !in used
  }

  /** The records of one normalised difficulty, in input order. */
  function TierPool(records: seq<ShowcaseRecord>, tier: string): (r: seq<ShowcaseRecord>)
    ensures forall i :: 0 <= i < |r| ==> NormalizeDifficulty(r[i].difficulty) == tier
  {
    Filter(records, OfTier(tier))
  }

  /** A record is in a tier's pool exactly when it is one of the records and
      its difficulty, trimmed, spells the tier up to ASCII case. */
  lemma TierPoolMembers(records: seq<ShowcaseRecord>, tier: string)
    requires tier != "" && IsLowerCase(tier)
    ensures forall x :: x in TierPool(records, tier) <==>
              x in records && x.difficulty.Some? && EqualsIgnoringCase(Trim(x.difficulty.value), tier)
  {
    forall x ensures x in TierPool(records, tier) <==> x in records && OfTier(tier)(x) {
      FilterMultiplicity(records, OfTier(tier), x);
    }
    forall x ensures OfTier(tier)(x) <==> x.difficulty.Some? && EqualsIgnoringCase(Trim(x.difficulty.value), tier) {
      NormalizedAs(x.difficulty, tier);
    }
  }

  /** `pool.filter((item) => !used.has(item.id))`. */
  function Unused(pool: seq<ShowcaseRecord>, used: set<string>): (r: seq<ShowcaseRecord>)
    ensures forall i :: 0 <= i < |r| ==> r[i].id !in used
  {
    Filter(pool, NotUsed(used))
  }

  /** The drawing loop: while candidates remain, the selection is short of
      six and the count lasts, splice a random candidate out and select it.
      The index is always in range, so the loop's `break` never fires. */
  function Take(candidates: seq<ShowcaseRecord>, d: Draw, count: int): (r: Draw)
    requires Live(d.state)
    ensures Live(r.state)
    decreases |candidates|
  {
    if |candidates| > 0 && |d.selections| < Total && count > 0 then
      var next := Step(d.state);
      var index := Scale(next, |candidates|);
      var chosen := candidates[index];
      Take(candidates[..index] + candidates[index + 1..], Draw(d.selections + [chosen], d.used + {chosen.id}, next), count - 1)
    else d
  }

  /** `pickFromPool(pool, count)`. */
  function Pick(pool: seq<ShowcaseRecord>, count: int, d: Draw): (r: Draw)
    requires Live(d.state)
    ensures Live(r.state)
  {
    Take(Unused(pool, d.used), d, count)
  }

  /** The backfill: when fewer than six are selected, draw from the unused
      records with no count; a count of `|records|` never runs out first. */
  function Backfill(records: seq<ShowcaseRecord>, d: Draw): (r: Draw)
    requires Live(d.state)
    ensures Live(r.state)
  {
    if |d.selections| < Total then Take(Unused(records, d.used), d, |records|) else d
  }

  /** The Fisher–Yates pass from position `i` down to 1: swap each position
      with a random one at or before it. */
  function Shuffle<T>(s: seq<T>, state: int, i: int): (r: (seq<T>, int))
    requires Live(state) && i < |s|
    ensures |r.0| == |s| && Live(r.1)
    decreases i
  {
    if i <= 0 then (s, state)
    else
      var next := Step(state);
      var j := Scale(next, i + 1);
      Shuffle(s[i := s[j]][j := s[i]], next, i - 1)
  }

  /** The shuffle only rearranges: its result is a permutation. */
  lemma {:induction false} ShufflePermutes<T>(s: seq<T>, state: int, i: int)
    requires Live(state) && i < |s|
    ensures multiset(Shuffle(s, state, i).0) == multiset(s)
    decreases i
  {
    if i > 0 {
      var next := Step(state);
      var j := Scale(next, i + 1);
      var swapped := s[i := s[j]][j := s[i]];
      assert multiset(swapped) == multiset(s);
      ShufflePermutes(swapped, next, i - 1);
    }
  }

  /** The selections made for a cycle key before the shuffle. */
  function Selections(records: seq<ShowcaseRecord>, key: string): (d: Draw)
    ensures Live(d.state)
  {
    var seed := HashOf(key);
    InitialStateLive(seed);
    var start := Draw([], {}, InitialState(seed));
    var advanced := Pick(TierPool(records, "advanced"), PerTier, start);
    var intermediate := Pick(TierPool(records, "intermediate"), PerTier, advanced);
    Backfill(records, intermediate)
  }

  /** `selectDailyFeatured(records)` on the day whose cycle key is `key`. */
  function DailyFeatured(records: seq<ShowcaseRecord>, key: string): (r: seq<ShowcaseRecord>)
    ensures |r| <= Total
  {
    if |records| <= Total then
      WindowBounds(records, 0, Total);
      JsSlice(records, 0, Total)
    else
      Shuffled(Selections(records, key))
  }

  /** `shuffled.slice(0, 6)` after the Fisher–Yates pass over the picks. */
  function Shuffled(d: Draw): (r: seq<ShowcaseRecord>)
    requires Live(d.state)
    ensures |r| <= Total
  {
    var shuffled := Shuffle(d.selections, d.state, |d.selections| - 1).0;
    WindowBounds(shuffled, 0, Total);
    JsSlice(shuffled, 0, Total)
  }

  /** `pickFromPool(pool, count)`: draws into `selections` and `used`. */
  method PickFromPool(pool: seq<ShowcaseRecord>, count: int, random: SeededRandom,
                      selections: seq<ShowcaseRecord>, used: set<string>)
    returns (picked: seq<ShowcaseRecord>, taken: set<string>)
    requires Live(random.value)
    modifies random
    ensures Draw(picked, taken, random.value) == Pick(pool, count, Draw(selections, used, old(random.value)))
  {
    var candidates := Unused(pool, used);
    picked, taken := selections, used;
    var remaining := count;
    while |candidates| > 0 && |picked| < Total && remaining > 0
      invariant Live(random.value)
      invariant Take(candidates, Draw(picked, taken, random.value), remaining)
             == Pick(pool, count, Draw(selections, used, old(random.value)))
      decreases |candidates|
    {
      var index := random.NextIndex(|candidates|);
      var chosen := candidates[index];
      candidates := candidates[..index] + candidates[index + 1..];
      taken := taken + {chosen.id};
      picked := picked + [chosen];
      remaining := remaining - 1;
    }
  }

  /** The backfill of `selectDailyFeatured`: while fewer than six are
      selected, draw from the records whose id is unused. */
  method FillFromRecords(records: seq<ShowcaseRecord>, random: SeededRandom,
                         selections: seq<ShowcaseRecord>, used: set<string>)
    returns (picked: seq<ShowcaseRecord>, taken: set<string>)
    requires Live(random.value)
    modifies random
    ensures Draw(picked, taken, random.value) == Backfill(records, Draw(selections, used, old(random.value)))
  {
    picked, taken := selections, used;
    if |picked| < Total {
      var fallbackPool := Unused(records, used);
      ghost var budget := |records|;
      while |fallbackPool| > 0 && |picked| < Total
        invariant Live(random.value)
        invariant budget >= |fallbackPool|
        invariant Take(fallbackPool, Draw(picked, taken, random.value), budget)
               == Backfill(records, Draw(selections, used, old(random.value)))
        decreases |fallbackPool|
      {
        var index := random.NextIndex(|fallbackPool|);
        var chosen := fallbackPool[index];
        fallbackPool := fallbackPool[..index] + fallbackPool[index + 1..];
        taken := taken + {chosen.id};
        picked := picked + [chosen];
        budget := budget - 1;
      }
    }
  }

  /** `const shuffled = [...selections]` and the Fisher–Yates loop of
      `selectDailyFeatured`, which swaps in place in the copy. */
  method ShuffleCopy(selections: seq<ShowcaseRecord>, random: SeededRandom) returns (shuffled: array<ShowcaseRecord>)
    requires Live(random.value)
    modifies random
    ensures fresh(shuffled)
    ensures shuffled[..] == Shuffle(selections, old(random.value), |selections| - 1).0
    ensures random.value == Shuffle(selections, old(random.value), |selections| - 1).1
  {
    shuffled := new ShowcaseRecord[|selections|](k requires 0 <= k < |selections| => selections[k]);
    assert shuffled[..] == selections;
    var i := shuffled.Length - 1;
    while i > 0
      invariant -1 <= i < shuffled.Length
      invariant Live(random.value)
      invariant Shuffle(shuffled[..], random.value, i) == Shuffle(selections, old(random.value), |selections| - 1)
    {
      var j := random.NextIndex(i + 1);
      shuffled[i], shuffled[j] := shuffled[j], shuffled[i];
      i := i - 1;
    }
  }

  /** `selectDailyFeatured(records, referenceDate)` for the instant `t`. */
  method SelectDailyFeatured(records: seq<ShowcaseRecord>, t: int) returns (featured: seq<ShowcaseRecord>)
    ensures featured == DailyFeatured(records, BeijingCycleKey(t))
  {
    if |records| <= Total {
      return JsSlice(records, 0, Total);
    }
    var cycleKey := BeijingCycleKey(t);
    featured := SelectForKey(records, cycleKey);
  }

  /** The part of `selectDailyFeatured` after the cycle key is known: seed the
      generator, draw, shuffle and keep six. */
  method SelectForKey(records: seq<ShowcaseRecord>, cycleKey: string) returns (featured: seq<ShowcaseRecord>)
    requires |records| > Total
    ensures featured == DailyFeatured(records, cycleKey)
  {
    var seed := HashString(cycleKey);
    var random := new SeededRandom(seed);
    InitialStateLive(seed);
    var selections := DrawSelections(records, random);
    ghost var d := Selections(records, cycleKey);
    assert selections == d.selections && random.value == d.state;
    var shuffled := ShuffleCopy(selections, random);
    featured := JsSlice(shuffled[..], 0, Total);
  }

  /** The three drawing rounds of `selectDailyFeatured`: three advanced,
      three intermediate, then the backfill, sharing one `used` set. */
  method DrawSelections(records: seq<ShowcaseRecord>, random: SeededRandom) returns (selections: seq<ShowcaseRecord>)
    requires Live(random.value)
    modifies random
    ensures var d := Backfill(records, Pick(TierPool(records, "intermediate"), PerTier,
                                             Pick(TierPool(records, "advanced"), PerTier, Draw([], {}, old(random.value)))));
            selections == d.selections && random.value == d.state
  {
    var used: set<string> := {};
    selections := [];
    var advancedPool := TierPool(records, "advanced");
    var intermediatePool := TierPool(records, "intermediate");
    selections, used := PickFromPool(advancedPool, PerTier, random, selections, used);
    selections, used := PickFromPool(intermediatePool, PerTier, random, selections, used);
    selections, used := FillFromRecords(records, random, selections, used);
  }

  // Facts about one drawing loop.

  /** Drawing only appends to the selections, and never past six. */
  lemma {:induction false} TakeExtends(candidates: seq<ShowcaseRecord>, d: Draw, count: int)
    requires Live(d.state)
    ensures var r := Take(candidates, d, count);
            |d.selections| <= |r.selections| && r.selections[..|d.selections|] == d.selections
            && (|d.selections| <= Total ==> |r.selections| <= Total)
    decreases |candidates|
  {
    if |candidates| > 0 && |d.selections| < Total && count > 0 {
      var next := Step(d.state);
      var index := Scale(next, |candidates|);
      var chosen := candidates[index];
      var e := Draw(d.selections + [chosen], d.used + {chosen.id}, next);
      TakeExtends(candidates[..index] + candidates[index + 1..], e, count - 1);
      var r := Take(candidates, d, count);
      assert r.selections[..|d.selections|] == r.selections[..|e.selections|][..|d.selections|];
    }
  }

  function Min(a: int, b: int): int {
    if a <= b then a else b
  }

  /** How many a drawing loop selects: as many as the candidates, the room
      left below six and the count allow. */
  lemma {:induction false} TakeCount(candidates: seq<ShowcaseRecord>, d: Draw, count: int)
    requires Live(d.state) && |d.selections| <= Total
    ensures |Take(candidates, d, count).selections|
         == |d.selections| + Min(|candidates|, Min(Total - |d.selections|, if count > 0 then count else 0))
    decreases |candidates|
  {
    if |candidates| > 0 && |d.selections| < Total && count > 0 {
      var next := Step(d.state);
      var index := Scale(next, |candidates|);
      var chosen := candidates[index];
      var e := Draw(d.selections + [chosen], d.used + {chosen.id}, next);
      TakeCount(candidates[..index] + candidates[index + 1..], e, count - 1);
    }
  }

  /** Every selected record's id has been marked used. */
  predicate IdsUsed(d: Draw) {
    forall i :: 0 <= i < |d.selections| ==> d.selections[i].id in d.used
  }

  /** A drawing loop moves candidates into the selections: what the two held
      together bounds what is selected afterwards, and every selected id is
      marked used. */
  lemma {:induction false} TakeWithin(candidates: seq<ShowcaseRecord>, d: Draw, count: int, m: multiset<ShowcaseRecord>)
    requires Live(d.state) && IdsUsed(d)
    requires multiset(d.selections) + multiset(candidates) <= m
    ensures IdsUsed(Take(candidates, d, count))
    ensures multiset(Take(candidates, d, count).selections) <= m
    decreases |candidates|
  {
    if |candidates| > 0 && |d.selections| < Total && count > 0 {
      var next := Step(d.state);
      var index := Scale(next, |candidates|);
      var chosen := candidates[index];
      var rest := candidates[..index] + candidates[index + 1..];
      var e := Draw(d.selections + [chosen], d.used + {chosen.id}, next);
      RemoveAt(candidates, index);
      assert multiset(e.selections) + multiset(rest) == multiset(d.selections) + multiset(candidates);
      TakeWithin(rest, e, count - 1, m);
    }
  }

  /** What every candidate satisfies, every newly selected record satisfies. */
  lemma {:induction false} TakeFrom(candidates: seq<ShowcaseRecord>, d: Draw, count: int, p: ShowcaseRecord -> bool)
    requires Live(d.state)
    requires forall i :: 0 <= i < |candidates| ==> p(candidates[i])
    ensures var r := Take(candidates, d, count);
            forall i :: |d.selections| <= i < |r.selections| ==> p(r.selections[i])
    decreases |candidates|
  {
    if |candidates| > 0 && |d.selections| < Total && count > 0 {
      var next := Step(d.state);
      var index := Scale(next, |candidates|);
      var chosen := candidates[index];
      var rest := candidates[..index] + candidates[index + 1..];
      var e := Draw(d.selections + [chosen], d.used + {chosen.id}, next);
      assert forall i :: 0 <= i < |rest| ==> p(rest[i]) by {
        forall i | 0 <= i < |rest| ensures p(rest[i]) {
          if i < index {
            assert rest[i] == candidates[i];
          } else {
            assert rest[i] == candidates[i + 1];
          }
        }
      }
      TakeFrom(rest, e, count - 1, p);
      TakeExtends(rest, e, count - 1);
      var r := Take(rest, e, count - 1);
      assert r.selections[|d.selections|] == r.selections[..|e.selections|][|d.selections|];
    }
  }

  /** Each draw marks at most one new id, and every newly marked id is that of
      a newly selected record. */
  lemma {:induction false} TakeUsed(candidates: seq<ShowcaseRecord>, d: Draw, count: int)
    requires Live(d.state)
    ensures var r := Take(candidates, d, count);
            && |r.used| <= |d.used| + |r.selections| - |d.selections|
            && forall id :: id in r.used ==> id in d.used || exists i :: |d.selections| <= i < |r.selections| && r.selections[i].id == id
    decreases |candidates|
  {
    if |candidates| > 0 && |d.selections| < Total && count > 0 {
      var next := Step(d.state);
      var index := Scale(next, |candidates|);
      var chosen := candidates[index];
      var rest := candidates[..index] + candidates[index + 1..];
      var e := Draw(d.selections + [chosen], d.used + {chosen.id}, next);
      TakeUsed(rest, e, count - 1);
      TakeExtends(rest, e, count - 1);
      var r := Take(rest, e, count - 1);
      assert r.selections[|d.selections|] == r.selections[..|e.selections|][|d.selections|];
    }
  }

  // Facts about the three rounds.

  /** One round draws only records of `m` that are not selected yet. */
  lemma PickWithin(pool: seq<ShowcaseRecord>, count: int, d: Draw, m: multiset<ShowcaseRecord>)
    requires Live(d.state) && IdsUsed(d)
    requires multiset(d.selections) <= m && multiset(pool) <= m
    ensures IdsUsed(Pick(pool, count, d)) && multiset(Pick(pool, count, d).selections) <= m
  {
    var candidates := Unused(pool, d.used);
    DisjointWithin(d.selections, candidates, m);
    TakeWithin(candidates, d, count, m);
  }

  /** The backfill, like a round, draws only unselected records of `m`. */
  lemma BackfillWithin(records: seq<ShowcaseRecord>, d: Draw)
    requires Live(d.state) && IdsUsed(d)
    requires multiset(d.selections) <= multiset(records)
    ensures IdsUsed(Backfill(records, d)) && multiset(Backfill(records, d).selections) <= multiset(records)
  {
    if |d.selections| < Total {
      PickWithin(records, |records|, d, multiset(records));
    }
  }

  /** The selections are records of the input, no record more often than it
      occurs there, and there are at most six of them. */
  lemma SelectionsWithin(records: seq<ShowcaseRecord>, key: string)
    ensures multiset(Selections(records, key).selections) <= multiset(records)
    ensures |Selections(records, key).selections| <= Total
  {
    var seed := HashOf(key);
    InitialStateLive(seed);
    var start := Draw([], {}, InitialState(seed));
    var m := multiset(records);
    var advanced := Pick(TierPool(records, "advanced"), PerTier, start);
    PickWithin(TierPool(records, "advanced"), PerTier, start, m);
    TakeExtends(Unused(TierPool(records, "advanced"), {}), start, PerTier);
    var intermediate := Pick(TierPool(records, "intermediate"), PerTier, advanced);
    PickWithin(TierPool(records, "intermediate"), PerTier, advanced, m);
    TakeExtends(Unused(TierPool(records, "intermediate"), advanced.used), advanced, PerTier);
    BackfillWithin(records, intermediate);
    TakeExtends(Unused(records, intermediate.used), intermediate, |records|);
  }

  /** No two records share an id. */
  predicate DistinctIds(records: seq<ShowcaseRecord>) {
    forall i, j :: 0 <= i < j < |records| ==> records[i].id != records[j].id
  }

  /** Records with distinct ids, all of them in `used`, are no more than
      `used` holds. */
  lemma {:induction false} IdsWithin(s: seq<ShowcaseRecord>, used: set<string>)
    requires DistinctIds(s)
    requires forall i :: 0 <= i < |s| ==> s[i].id in used
    ensures |s| <= |used|
  {
    if s != [] {
      var rest := s[1..];
      assert forall i :: 0 <= i < |rest| ==> rest[i].id in used - {s[0].id} by {
        forall i | 0 <= i < |rest| ensures rest[i].id in used - {s[0].id} {
          assert rest[i] == s[i + 1];
        }
      }
      IdsWithin(rest, used - {s[0].id});
    }
  }

  /** With distinct ids, at most `|used|` records are excluded by `used`. */
  lemma UnusedAtLeast(records: seq<ShowcaseRecord>, used: set<string>)
    requires DistinctIds(records)
    ensures |Unused(records, used)| >= |records| - |used|
  {
    var isUsed := (x: ShowcaseRecord) => x.id in used;
    var distinctId := (a: ShowcaseRecord, b: ShowcaseRecord) => a.id != b.id;
    FilterSplitLength(records, NotUsed(used), isUsed);
    FilterKeepsPairs(records, isUsed, distinctId);
    var excluded := Filter(records, isUsed);
    assert DistinctIds(excluded) by {
      forall i, j | 0 <= i < j < |excluded| ensures excluded[i].id != excluded[j].id {
        assert distinctId(excluded[i], excluded[j]);
      }
    }
    IdsWithin(excluded, used);
  }

  /** No round marks more ids than it selects records. */
  lemma PickUsed(pool: seq<ShowcaseRecord>, count: int, d: Draw)
    requires Live(d.state) && |d.used| <= |d.selections| <= Total
    ensures |Pick(pool, count, d).used| <= |Pick(pool, count, d).selections| <= Total
  {
    TakeUsed(Unused(pool, d.used), d, count);
    TakeExtends(Unused(pool, d.used), d, count);
  }

  /** With more than six records of distinct ids, the backfill always reaches
      six: fewer than six ids are used, so enough records are left. */
  lemma SelectionsFull(records: seq<ShowcaseRecord>, key: string)
    requires DistinctIds(records) && |records| > Total
    ensures |Selections(records, key).selections| == Total
  {
    var seed := HashOf(key);
    InitialStateLive(seed);
    var start := Draw([], {}, InitialState(seed));
    var advanced := Pick(TierPool(records, "advanced"), PerTier, start);
    PickUsed(TierPool(records, "advanced"), PerTier, start);
    var intermediate := Pick(TierPool(records, "intermediate"), PerTier, advanced);
    PickUsed(TierPool(records, "intermediate"), PerTier, advanced);
    if |intermediate.selections| < Total {
      var rest := Unused(records, intermediate.used);
      UnusedAtLeast(records, intermediate.used);
      TakeCount(rest, intermediate, |records|);
    }
  }

  // Facts about the featured list.

  /** Six records or fewer come back as they are. */
  lemma FewRecordsKept(records: seq<ShowcaseRecord>, key: string)
    requires |records| <= Total
    ensures DailyFeatured(records, key) == records
  {
    SliceWhole(records, Total);
  }

  /** Otherwise the featured list is the selections in shuffled order. */
  lemma FeaturedPermutesSelections(records: seq<ShowcaseRecord>, key: string)
    requires |records| > Total
    ensures multiset(DailyFeatured(records, key)) == multiset(Selections(records, key).selections)
  {
    SelectionsWithin(records, key);
    ShuffledWhole(Selections(records, key));
  }

  /** Keeping the first six of a shuffle of at most six keeps all of it. */
  lemma ShuffledWhole(d: Draw)
    requires Live(d.state) && |d.selections| <= Total
    ensures multiset(Shuffled(d)) == multiset(d.selections)
  {
    ShortShuffleWhole(d.selections, d.state);
  }

  lemma ShortShuffleWhole<T>(s: seq<T>, state: int)
    requires Live(state) && |s| <= Total
    ensures multiset(JsSlice(Shuffle(s, state, |s| - 1).0, 0, Total)) == multiset(s)
  {
    ShufflePermutes(s, state, |s| - 1);
    SliceWhole(Shuffle(s, state, |s| - 1).0, Total);
  }

  /** The featured records are records of the input, none more often than it
      occurs there. */
  lemma FeaturedFromRecords(records: seq<ShowcaseRecord>, key: string)
    ensures multiset(DailyFeatured(records, key)) <= multiset(records)
  {
    if |records| > Total {
      FeaturedPermutesSelections(records, key);
      SelectionsWithin(records, key);
    }
  }

  /** With more than six records of distinct ids, exactly six distinct records
      are featured. */
  lemma FeaturedSixDistinct(records: seq<ShowcaseRecord>, key: string)
    requires DistinctIds(records) && |records| > Total
    ensures |DailyFeatured(records, key)| == Total
    ensures Distinct(DailyFeatured(records, key))
  {
    FeaturedPermutesSelections(records, key);
    SelectionsWithin(records, key);
    SelectionsFull(records, key);
    var featured := DailyFeatured(records, key);
    assert |featured| == |multiset(featured)|;
    FeaturedFromRecords(records, key);
    DistinctSubMultiset(featured, records);
  }

  /** The selection depends on the instant only through its cycle key: all
      instants of one UTC day from 1970 on feature the same records. */
  lemma SameDaySameFeatured(records: seq<ShowcaseRecord>, t1: int, t2: int)
    requires 0 <= t1 && 0 <= t2 && t1 / DayMs == t2 / DayMs
    ensures DailyFeatured(records, BeijingCycleKey(t1)) == DailyFeatured(records, BeijingCycleKey(t2))
  {
    SameUtcDaySameKey(t1, t2);
  }

  /** Records of distinct ids that share an id are the same record. */
  lemma SameIdSameRecord(records: seq<ShowcaseRecord>, x: ShowcaseRecord, y: ShowcaseRecord)
    requires DistinctIds(records) && x in records && y in records && x.id == y.id
    ensures x == y
  {
    var i :| 0 <= i < |records| && records[i] == x;
    var j :| 0 <= j < |records| && records[j] == y;
  }

  /** A round with `count` candidates or more, all satisfying `p`, and room
      for them below six, selects exactly `count` of them after what was
      there, and marks no ids but theirs. */
  lemma FullRound(pool: seq<ShowcaseRecord>, d: Draw, count: nat, p: ShowcaseRecord -> bool)
    requires Live(d.state) && |d.selections| + count <= Total && |pool| >= count
    requires forall i :: 0 <= i < |pool| ==> p(pool[i])
    ensures var r := Take(pool, d, count);
            && |r.selections| == |d.selections| + count
            && r.selections[..|d.selections|] == d.selections
            && (forall i :: |d.selections| <= i < |r.selections| ==> p(r.selections[i]))
            && (forall id :: id in r.used ==> id in d.used || exists i :: |d.selections| <= i < |r.selections| && r.selections[i].id == id)
  {
    TakeCount(pool, d, count);
    TakeExtends(pool, d, count);
    TakeFrom(pool, d, count, p);
    TakeUsed(pool, d, count);
  }

  /** Once only advanced records are selected, with distinct ids no
      intermediate record is excluded by the used ids. */
  lemma IntermediatesUnmarked(records: seq<ShowcaseRecord>, a: Draw)
    requires DistinctIds(records)
    requires forall i :: 0 <= i < |a.selections| ==> a.selections[i] in records
    requires forall i :: 0 <= i < |a.selections| ==> OfTier("advanced")(a.selections[i])
    requires forall id :: id in a.used ==> exists i :: 0 <= i < |a.selections| && a.selections[i].id == id
    ensures Unused(TierPool(records, "intermediate"), a.used) == TierPool(records, "intermediate")
  {
    var pool := TierPool(records, "intermediate");
    forall i | 0 <= i < |pool| ensures NotUsed(a.used)(pool[i]) {
      assert pool[i] in multiset(pool);
    }
    FilterAll(pool, NotUsed(a.used));
  }

  /** Every element of a sub-multiset of `records` is a record. */
  lemma InRecords(s: seq<ShowcaseRecord>, records: seq<ShowcaseRecord>)
    requires multiset(s) <= multiset(records)
    ensures forall i :: 0 <= i < |s| ==> s[i] in records
  {
    forall i | 0 <= i < |s| ensures s[i] in records {
      assert s[i] in multiset(s);
    }
  }

  /** The advanced round of a day with three advanced records: three of
      them are drawn, and only their ids are marked. */
  lemma AdvancedRound(records: seq<ShowcaseRecord>, start: Draw)
    requires Live(start.state) && start.selections == [] && start.used == {}
    requires |TierPool(records, "advanced")| >= PerTier
    ensures var a := Pick(TierPool(records, "advanced"), PerTier, start);
            && |a.selections| == PerTier
            && (forall i :: 0 <= i < PerTier ==> a.selections[i] in records)
            && (forall i :: 0 <= i < PerTier ==> OfTier("advanced")(a.selections[i]))
            && (forall id :: id in a.used ==> exists i :: 0 <= i < PerTier && a.selections[i].id == id)
  {
    var pool := TierPool(records, "advanced");
    PickFresh(pool, PerTier, start);
    FullRound(pool, start, PerTier, OfTier("advanced"));
    FirstRoundWithin(pool, start, records);
  }

  /** Before anything is drawn, a round draws from its whole pool. */
  lemma PickFresh(pool: seq<ShowcaseRecord>, count: int, start: Draw)
    requires Live(start.state) && start.used == {}
    ensures Pick(pool, count, start) == Take(pool, start, count)
  {
    FilterAll(pool, NotUsed({}));
  }

  /** A first round draws from its pool's records. */
  lemma FirstRoundWithin(pool: seq<ShowcaseRecord>, start: Draw, records: seq<ShowcaseRecord>)
    requires Live(start.state) && start.selections == [] && start.used == {}
    requires multiset(pool) <= multiset(records)
    ensures var a := Pick(pool, PerTier, start);
            forall i :: 0 <= i < |a.selections| ==> a.selections[i] in records
  {
    PickWithin(pool, PerTier, start, multiset(records));
    InRecords(Pick(pool, PerTier, start).selections, records);
  }

  /** The intermediate round after it, with three intermediate records of
      distinct ids: three of them follow the advanced ones. */
  lemma IntermediateRound(records: seq<ShowcaseRecord>, a: Draw)
    requires DistinctIds(records) && Live(a.state) && |a.selections| == PerTier
    requires forall i :: 0 <= i < PerTier ==> a.selections[i] in records
    requires forall i :: 0 <= i < PerTier ==> OfTier("advanced")(a.selections[i])
    requires forall id :: id in a.used ==> exists i :: 0 <= i < PerTier && a.selections[i].id == id
    requires |TierPool(records, "intermediate")| >= PerTier
    ensures var s := Pick(TierPool(records, "intermediate"), PerTier, a).selections;
            && |s| == Total
            && (forall i :: 0 <= i < PerTier ==> OfTier("advanced")(s[i]))
            && (forall i :: PerTier <= i < Total ==> OfTier("intermediate")(s[i]))
  {
    IntermediatesUnmarked(records, a);
    var intermediatePool := TierPool(records, "intermediate");
    FullRound(intermediatePool, a, PerTier, OfTier("intermediate"));
    var b := Pick(intermediatePool, PerTier, a);
    assert forall i :: 0 <= i < PerTier ==> b.selections[i] == a.selections[i] by {
      assert b.selections[..PerTier] == a.selections;
    }
  }

  /** On such a day the selections are three advanced records followed by
      three intermediate ones; the backfill adds nothing. */
  lemma SelectionsTiers(records: seq<ShowcaseRecord>, key: string)
    requires DistinctIds(records)
    requires |TierPool(records, "advanced")| >= PerTier && |TierPool(records, "intermediate")| >= PerTier
    ensures var s := Selections(records, key).selections;
            && |s| == Total
            && (forall i :: 0 <= i < PerTier ==> OfTier("advanced")(s[i]))
            && (forall i :: PerTier <= i < Total ==> OfTier("intermediate")(s[i]))
  {
    var seed := HashOf(key);
    InitialStateLive(seed);
    var start := Draw([], {}, InitialState(seed));
    AdvancedRound(records, start);
    IntermediateRound(records, Pick(TierPool(records, "advanced"), PerTier, start));
  }

  /** Three records of one tier followed by three of another count three of
      each. */
  lemma SplitCounts(s: seq<ShowcaseRecord>, p: ShowcaseRecord -> bool, q: ShowcaseRecord -> bool)
    requires |s| == Total && forall x :: !(p(x) && q(x))
    requires forall i :: 0 <= i < PerTier ==> p(s[i])
    requires forall i :: PerTier <= i < Total ==> q(s[i])
    ensures |Filter(s, p)| == PerTier && |Filter(s, q)| == PerTier
  {
    var first, second := s[..PerTier], s[PerTier..];
    assert s == first + second;
    FilterFirstBlock(first, second, p);
    FilterSecondBlock(first, second, q);
  }

  /** When the records hold three advanced and three intermediate records
      (of distinct ids), the featured list holds exactly three of each: with
      six records or fewer the records themselves, otherwise the two rounds'
      draws in shuffled order. */
  lemma FeaturedTierBalance(records: seq<ShowcaseRecord>, key: string)
    requires DistinctIds(records)
    requires |TierPool(records, "advanced")| >= PerTier && |TierPool(records, "intermediate")| >= PerTier
    ensures |TierPool(DailyFeatured(records, key), "advanced")| == PerTier
    ensures |TierPool(DailyFeatured(records, key), "intermediate")| == PerTier
  {
    if |records| <= Total {
      FewRecordsKept(records, key);
      BalancedFew(records, OfTier("advanced"), OfTier("intermediate"));
    } else {
      var s := Selections(records, key).selections;
      SelectionsTiers(records, key);
      SplitCounts(s, OfTier("advanced"), OfTier("intermediate"));
      FeaturedPermutesSelections(records, key);
      FilterPermutation(DailyFeatured(records, key), s, OfTier("advanced"));
      FilterPermutation(DailyFeatured(records, key), s, OfTier("intermediate"));
    }
  }

  /** Six records or fewer with three of each of two exclusive tiers hold
      exactly three of each. */
  lemma BalancedFew(records: seq<ShowcaseRecord>, p: ShowcaseRecord -> bool, q: ShowcaseRecord -> bool)
    requires |records| <= Total && forall x :: !(p(x) && q(x))
    requires |Filter(records, p)| >= PerTier && |Filter(records, q)| >= PerTier
    ensures |Filter(records, p)| == PerTier && |Filter(records, q)| == PerTier
  {
    FilterDisjointLength(records, p, q);
  }
}
