/** `getBeijingCycleKey` of lib/showcase-data.ts: the `YYYY-MM-DD` label of the
    daily featured selection. A day of the selection runs from 08:00 to 08:00
    Beijing time. An instant is an integer number of milliseconds since the
    epoch; Asia/Shanghai is eight hours ahead of UTC all year. */
module CycleKey {
  import opened Wrappers
  import opened Strings
  import opened Seqs
  import opened CivilDate

  const HourMs := 3600000
  const DayMs := 86400000
  const ShanghaiOffsetMs := 8 * HourMs
  /** The selection changes at 08:00 Beijing time. */
  const RefreshHour := 8

  /** The parts `formatToParts` gives the key function: `get(type)` is the
      part's value, or `'0'` when the part is missing. */
  datatype DateParts = DateParts(year: Option<string>, month: Option<string>, day: Option<string>, hour: Option<string>)

  function TwoDigits(n: int): string {
    PadStart(IntToString(n), 2, '0')
  }

  /** What an `en-CA` formatter for Asia/Shanghai with a numeric year and
      two-digit month, day and hour prints for instant `t`. */
  function ShanghaiParts(t: int): DateParts {
    var local := t + ShanghaiOffsetMs;
    var d := Civil(local / DayMs);
    var hour := (local % DayMs) / HourMs;
    DateParts(Some(IntToString(d.year)), Some(TwoDigits(d.month)), Some(TwoDigits(d.day)), Some(TwoDigits(hour)))
  }

  /** `` `${year.toString().padStart(4, '0')}-${month…}-${day…}` ``. */
  function FormatKey(year: int, month: int, day: int): (r: string)
    ensures |r| >= 10
  {
    PadStart(IntToString(year), 4, '0') + "-" + TwoDigits(month) + "-" + TwoDigits(day)
  }

  /** The date part of `toISOString()`: four digits for years 0 to 9999, a sign
      and six digits otherwise. */
  function IsoDate(d: Date): (r: string)
    ensures |r| >= 10
  {
    var year :=
      if 0 <= d.year <= 9999 then PadStart(IntToString(d.year), 4, '0')
      else (if d.year < 0 then "-" else "+") + PadStart(IntToString(if d.year < 0 then -d.year else d.year), 6, '0');
    year + "-" + TwoDigits(d.month) + "-" + TwoDigits(d.day)
  }

  /** `reference.toISOString().slice(0, 10)`. */
  function IsoPrefix(t: int): (r: string)
    ensures |r| == 10
  {
    var iso := IsoDate(Civil(t / DayMs));
    iso[..10]
  }

  /** The key computed from instant `t` and the formatter's parts: the ISO date
      when a date part does not parse; otherwise the parsed date, or the day
      before it when the hour parses and is before 08. */
  function CycleKeyOf(t: int, parts: DateParts): (r: string)
    ensures |r| >= 10
  {
    var year := ParseInt(parts.year.GetOr("0"));
    var month := ParseInt(parts.month.GetOr("0"));
    var day := ParseInt(parts.day.GetOr("0"));
    var hour := ParseInt(parts.hour.GetOr("0"));
    if year.None? || month.None? || day.None? then IsoPrefix(t)
    else
      var k := KeyDate(year.value, month.value, day.value, hour);
      FormatKey(k.year, k.month, k.day)
  }

  /** The date the key names once the fields have parsed: the day before the
      parsed date when the hour is before 08, the parsed date otherwise. */
  function KeyDate(year: int, month: int, day: int, hour: Option<int>): Date {
    if hour.Some? && hour.value < RefreshHour then PrevDay(UtcDate(year, month - 1, day))
    else Date(year, month, day)
  }

  /** The key of instant `t` as the site computes it. */
  function BeijingCycleKey(t: int): (r: string)
    ensures |r| >= 10
    ensures t >= 0 ==> var d := Civil(t / DayMs); r == FormatKey(d.year, d.month, d.day)
  {
    ShanghaiKeyIsUtcDate(t);
    CycleKeyOf(t, ShanghaiParts(t))
  }

  /** Reading back the parts of a real date gives that date. */
  lemma ParsePartsOf(d: Date)
    requires Valid(d)
    ensures ParseInt(IntToString(d.year)) == Some(d.year)
    ensures ParseInt(TwoDigits(d.month)) == Some(d.month)
    ensures ParseInt(TwoDigits(d.day)) == Some(d.day)
  {
    ParseIntOfIntToString(d.year);
    ParseIntOfPadded(d.month, 2);
    ParseIntOfPadded(d.day, 2);
  }

  /** Once the parts have parsed, the key is the formatted `KeyDate`. */
  lemma KeyOfParsed(t: int, parts: DateParts, y: int, m: int, d: int, hour: Option<int>)
    requires ParseInt(parts.year.GetOr("0")) == Some(y)
    requires ParseInt(parts.month.GetOr("0")) == Some(m)
    requires ParseInt(parts.day.GetOr("0")) == Some(d)
    requires ParseInt(parts.hour.GetOr("0")) == hour
    ensures var k := KeyDate(y, m, d, hour); CycleKeyOf(t, parts) == FormatKey(k.year, k.month, k.day)
  {
  }

  /** The Shanghai parts of an instant read back as the Shanghai date and
      hour. */
  lemma ShanghaiPartsParse(t: int)
    ensures var local := t + ShanghaiOffsetMs;
            var d := Civil(local / DayMs);
            var parts := ShanghaiParts(t);
            && ParseInt(parts.year.GetOr("0")) == Some(d.year)
            && ParseInt(parts.month.GetOr("0")) == Some(d.month)
            && ParseInt(parts.day.GetOr("0")) == Some(d.day)
            && ParseInt(parts.hour.GetOr("0")) == Some((local % DayMs) / HourMs)
  {
    var local := t + ShanghaiOffsetMs;
    var d := Civil(local / DayMs);
    CivilSteps(local / DayMs);
    ParsePartsOf(d);
    ParseIntOfPadded((local % DayMs) / HourMs, 2);
  }

  /** Eight hours ahead, a local hour before 08 means the UTC day before the
      local day; any later hour means the same day. */
  lemma ShanghaiDay(t: int)
    ensures var local := t + ShanghaiOffsetMs;
            t / DayMs == if (local % DayMs) / HourMs < RefreshHour then local / DayMs - 1 else local / DayMs
  {
  }

  /** From 1970 on, the date the key names is the UTC date of the instant. */
  lemma KeyDateIsUtcDate(t: int)
    requires t >= 0
    ensures var local := t + ShanghaiOffsetMs;
            var d := Civil(local / DayMs);
            KeyDate(d.year, d.month, d.day, Some((local % DayMs) / HourMs)) == Civil(t / DayMs)
  {
    var local := t + ShanghaiOffsetMs;
    var z := local / DayMs;
    var d := Civil(z);
    ShanghaiDay(t);
    CivilSteps(z);
    CivilFromEpoch(z);
    if (local % DayMs) / HourMs < RefreshHour {
      UtcDateOfValid(d);
    }
  }

  /** From 1970 on, the cycle key is the UTC calendar date of the instant: the
      eight-hour offset and the 08:00 boundary cancel out. */
  lemma ShanghaiKeyIsUtcDate(t: int)
    ensures t >= 0 ==> var d := Civil(t / DayMs); CycleKeyOf(t, ShanghaiParts(t)) == FormatKey(d.year, d.month, d.day)
  {
    if t >= 0 {
      var local := t + ShanghaiOffsetMs;
      var d := Civil(local / DayMs);
      ShanghaiPartsParse(t);
      KeyOfParsed(t, ShanghaiParts(t), d.year, d.month, d.day, Some((local % DayMs) / HourMs));
      KeyDateIsUtcDate(t);
    }
  }

  /** All instants of one UTC day share a key: the selection changes exactly at
      08:00 Beijing time. */
  lemma SameUtcDaySameKey(t1: int, t2: int)
    requires 0 <= t1 && 0 <= t2 && t1 / DayMs == t2 / DayMs
    ensures BeijingCycleKey(t1) == BeijingCycleKey(t2)
  {
  }

  /** Before 08:00 Beijing time the key names the previous Beijing calendar
      day, across month and year ends. */
  lemma EarlyHoursKeyPreviousDay(t: int)
    requires t >= 0
    requires (t + ShanghaiOffsetMs) % DayMs < RefreshHour * HourMs
    ensures var p := PrevDay(Civil((t + ShanghaiOffsetMs) / DayMs));
            BeijingCycleKey(t) == FormatKey(p.year, p.month, p.day)
  {
    var z := (t + ShanghaiOffsetMs) / DayMs;
    assert Civil(t / DayMs) == PrevDay(Civil(z)) by {
      ShanghaiDay(t);
      CivilSteps(z);
    }
  }

  /** For years 0 to 9999 the key is `YYYY-MM-DD`: ten characters, digits
      around two dashes, and each field reads back as the date's own. */
  lemma FormatKeyShape(d: Date)
    requires Valid(d) && 0 <= d.year <= 9999
    ensures var k := FormatKey(d.year, d.month, d.day);
            && |k| == 10 && k[4] == '-' && k[7] == '-'
            && AllDigits(k[..4]) && AllDigits(k[5..7]) && AllDigits(k[8..])
            && ParseInt(k[..4]) == Some(d.year) && ParseInt(k[5..7]) == Some(d.month) && ParseInt(k[8..]) == Some(d.day)
  {
    assert Pow10(2) == 100 && Pow10(4) == 10000;
    NatToStringLength(d.year, 4);
    NatToStringLength(d.month, 2);
    NatToStringLength(d.day, 2);
    ParseIntOfPadded(d.year, 4);
    ParseIntOfPadded(d.month, 2);
    ParseIntOfPadded(d.day, 2);
    KeyPieces(PadStart(IntToString(d.year), 4, '0'), TwoDigits(d.month), TwoDigits(d.day));
  }

  /** Where the three fields sit in a joined key. */
  lemma KeyPieces(y: string, m: string, d: string)
    requires |y| == 4 && |m| == 2 && |d| == 2
    ensures var k := y + "-" + m + "-" + d;
            |k| == 10 && k[4] == '-' && k[7] == '-' && k[..4] == y && k[5..7] == m && k[8..] == d
  {
    var k := y + "-" + m + "-" + d;
    assert k[..4] == y;
    assert k[5..7] == m;
    assert k[8..] == d;
  }

  function Pow10(k: nat): nat {
    if k == 0 then 1 else 10 * Pow10(k - 1)
  }

  /** A number below `10^k` has at most `k` digits. */
  lemma {:induction false} NatToStringLength(n: nat, k: nat)
    requires 1 <= k && n < Pow10(k)
    ensures |NatToString(n)| <= k
  {
    if n >= 10 {
      assert k != 1;
      NatToStringLength(n / 10, k - 1);
    }
  }
}
