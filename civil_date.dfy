/** Proleptic Gregorian calendar dates, as JavaScript's `Date` counts them:
    day 0 is 1970-01-01 and every other day is reached by stepping one day at
    a time. */
module CivilDate {

  datatype Date = Date(year: int, month: int, day: int)

  predicate IsLeapYear(y: int) {
    y % 4 == 0 && (y % 100 != 0 || y % 400 == 0)
  }

  function DaysInMonth(y: int, m: int): (n: int)
    ensures 28 <= n <= 31
  {
    if m == 2 then (if IsLeapYear(y) then 29 else 28)
    else if m == 4 || m == 6 || m == 9 || m == 11 then 30
    else 31
  }

  /** A date that names a real day: month 1..12 and a day of that month. */
  predicate Valid(d: Date) {
    1 <= d.month <= 12 && 1 <= d.day <= DaysInMonth(d.year, d.month)
  }

  const Epoch := Date(1970, 1, 1)

  function NextDay(d: Date): Date {
    if d.day < DaysInMonth(d.year, d.month) then Date(d.year, d.month, d.day + 1)
    else if d.month < 12 then Date(d.year, d.month + 1, 1)
    else Date(d.year + 1, 1, 1)
  }

  function PrevDay(d: Date): Date {
    if d.day > 1 then Date(d.year, d.month, d.day - 1)
    else if d.month > 1 then Date(d.year, d.month - 1, DaysInMonth(d.year, d.month - 1))
    else Date(d.year - 1, 12, 31)
  }

  /** Stepping one day forward and one day back are inverse to each other on
      real days, and both stay on real days; in particular the day before the
      first of a month is the last day of the month before, and the day before
      1 January is 31 December of the year before. */
  lemma StepsInverse(d: Date)
    requires Valid(d)
    ensures Valid(NextDay(d)) && Valid(PrevDay(d))
    ensures PrevDay(NextDay(d)) == d && NextDay(PrevDay(d)) == d
    ensures d.day == 1 && d.month > 1 ==> PrevDay(d) == Date(d.year, d.month - 1, DaysInMonth(d.year, d.month - 1))
    ensures d.day == 1 && d.month == 1 ==> PrevDay(d) == Date(d.year - 1, 12, 31)
  {
  }

  /** The date `k` days after `d` (before it when `k` is negative). */
  function Walk(d: Date, k: int): Date
    decreases if k >= 0 then k else -k
  {
    if k == 0 then d
    else if k > 0 then NextDay(Walk(d, k - 1))
    else PrevDay(Walk(d, k + 1))
  }

  /** The date of day number `z`: what `getUTCFullYear`, `getUTCMonth() + 1`
      and `getUTCDate` read from a time value in day `z`. */
  function Civil(z: int): Date {
    Walk(Epoch, z)
  }

  lemma {:induction false} WalkValid(d: Date, k: int)
    requires Valid(d)
    ensures Valid(Walk(d, k))
    decreases if k >= 0 then k else -k
  {
    if k > 0 {
      WalkValid(d, k - 1);
      StepsInverse(Walk(d, k - 1));
    } else if k < 0 {
      WalkValid(d, k + 1);
      StepsInverse(Walk(d, k + 1));
    }
  }

  /** One step back from the date `k` days away is the date `k - 1` days away. */
  lemma {:induction false} WalkBack(d: Date, k: int)
    requires Valid(d)
    ensures Walk(d, k - 1) == PrevDay(Walk(d, k))
  {
    if k > 0 {
      WalkValid(d, k - 1);
      StepsInverse(Walk(d, k - 1));
    }
  }

  /** Every day number names a real day, and the day before day `z` is day
      `z - 1`. */
  lemma CivilSteps(z: int)
    ensures Valid(Civil(z))
    ensures Civil(z - 1) == PrevDay(Civil(z))
  {
    WalkValid(Epoch, z);
    WalkBack(Epoch, z);
  }

  /** Within a month, walking from its first day counts days. */
  lemma {:induction false} WalkInMonth(y: int, m: int, k: nat)
    requires 1 <= m <= 12 && k < DaysInMonth(y, m)
    ensures Walk(Date(y, m, 1), k) == Date(y, m, 1 + k)
  {
    if k > 0 {
      WalkInMonth(y, m, k - 1);
    }
  }

  /** Days on or after the epoch fall in 1970 or later. */
  lemma {:induction false} CivilFromEpoch(z: nat)
    ensures Civil(z).year >= 1970
  {
    if z > 0 {
      CivilFromEpoch(z - 1);
    }
  }

  /** `Date.UTC(year, monthIndex, day)` read back as a date: a year from 0 to 99
      means 1900 + year; the month index may run past either end of the year and
      the day past either end of the month, both counted on from the first of
      the month. */
  function UtcDate(year: int, monthIndex: int, day: int): (d: Date)
    ensures Valid(d)
  {
    var y := if 0 <= year <= 99 then 1900 + year else year;
    WalkValid(Date(y + monthIndex / 12, monthIndex % 12 + 1, 1), day - 1);
    Walk(Date(y + monthIndex / 12, monthIndex % 12 + 1, 1), day - 1)
  }

  /** A real date after year 99 is its own `Date.UTC` reading. */
  lemma UtcDateOfValid(d: Date)
    requires Valid(d) && !(0 <= d.year <= 99)
    ensures UtcDate(d.year, d.month - 1, d.day) == d
  {
    WalkInMonth(d.year, d.month, d.day - 1);
  }
}
