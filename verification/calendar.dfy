/**
 * Dates as the portal's JavaScript sees them, in UTC: a timestamp is a number of
 * milliseconds since 1970-01-01T00:00Z, a date column holds a day number (days
 * since 1970-01-01), and a civil date is a proleptic Gregorian year/month/day.
 */
module Calendar {
  import opened Wrappers
  import opened Digits

  const MsPerDay: int := 86400000

  /** The day a timestamp falls on. */
  function DayOf(ms: int): int {
    ms / MsPerDay
  }

  /** The timestamp of midnight at the start of `day` (`new Date("YYYY-MM-DD")`). */
  function Midnight(day: int): (ms: int)
    ensures DayOf(ms) == day
  {
    day * MsPerDay
  }

  predicate IsLeap(y: int) {
    y % 4 == 0 && (y % 100 != 0 || y % 400 == 0)
  }

  function YearLength(y: int): int {
    if IsLeap(y) then 366 else 365
  }

  /** Days from 0001-01-01 to 1 January of year `y`. */
  function DaysBeforeYear(y: int): int {
    var x := y - 1;
    365 * x + x / 4 - x / 100 + x / 400
  }

  /** `DaysBeforeYear` stays within two days of 365.2425 days per year. */
  lemma DaysBeforeYearBounds(y: int)
    ensures 146097 * (y - 1) - 800 < 400 * DaysBeforeYear(y) < 146097 * (y - 1) + 400
  {
  }

  lemma YearStep(y: int)
    ensures DaysBeforeYear(y + 1) == DaysBeforeYear(y) + YearLength(y)
  {
    var x := y - 1;
    assert y / 4 - x / 4 == if y % 4 == 0 then 1 else 0;
    assert y / 100 - x / 100 == if y % 100 == 0 then 1 else 0;
    assert y / 400 - x / 400 == if y % 400 == 0 then 1 else 0;
  }

  lemma DaysBeforeYearIncreasing(a: int, b: int)
    requires a < b
    ensures DaysBeforeYear(a) < DaysBeforeYear(b)
  {
    DaysBeforeYearBounds(a);
    DaysBeforeYearBounds(b);
  }

  const MonthLengths: seq<int> := [31, 28, 31, 30, 31, 30, 31, 31, 30, 31, 30, 31]
  const MonthStarts: seq<int> := [0, 31, 59, 90, 120, 151, 181, 212, 243, 273, 304, 334]

  function DaysInMonth(y: int, m: int): int
    requires 1 <= m <= 12
  {
    MonthLengths[m - 1] + (if m == 2 && IsLeap(y) then 1 else 0)
  }

  /** Days from 1 January to the first of month `m` of year `y`. */
  function DaysBeforeMonth(y: int, m: int): int
    requires 1 <= m <= 12
  {
    MonthStarts[m - 1] + (if m > 2 && IsLeap(y) then 1 else 0)
  }

  lemma DaysInMonthBounds(y: int, m: int)
    requires 1 <= m <= 12
    ensures 28 <= DaysInMonth(y, m) <= 31
  {
  }

  lemma MonthStep(y: int, m: int)
    requires 1 <= m <= 12
    ensures m < 12 ==> DaysBeforeMonth(y, m + 1) == DaysBeforeMonth(y, m) + DaysInMonth(y, m)
    ensures m == 12 ==> DaysBeforeMonth(y, m) + DaysInMonth(y, m) == YearLength(y)
  {
  }

  datatype Civil = Civil(year: int, month: int, day: int)

  /** A real calendar date: month 1..12 and a day that exists in that month. */
  predicate ValidCivil(c: Civil) {
    1 <= c.month <= 12 && 1 <= c.day <= DaysInMonth(c.year, c.month)
  }

  /** `DaysBeforeYear(1970)`: the day number of 1970-01-01 counted from 0001-01-01. */
  const EpochOrdinal: int := 719162

  /**
   * The day number of a year/month/day. Like JavaScript's `MakeDay`, a day outside
   * the month simply counts on from the first of the month.
   */
  function DaysFromCivil(c: Civil): int
    requires 1 <= c.month <= 12
  {
    DaysBeforeYear(c.year) + DaysBeforeMonth(c.year, c.month) + c.day - 1 - EpochOrdinal
  }

  /** The year in which the `n`-th day counted from 0001-01-01 falls. */
  function YearOfOrdinal(n: int): (y: int)
    ensures DaysBeforeYear(y) <= n < DaysBeforeYear(y + 1)
  {
    var x0 := (400 * n) / 146097;
    DaysBeforeYearBounds(x0 + 1);
    DaysBeforeYearBounds(x0 + 3);
    if DaysBeforeYear(x0 + 2) <= n then x0 + 2 else x0 + 1
  }

  /** A day belongs to exactly one year. */
  lemma YearUnique(y1: int, y2: int, n: int)
    requires DaysBeforeYear(y1) <= n < DaysBeforeYear(y1 + 1)
    requires DaysBeforeYear(y2) <= n < DaysBeforeYear(y2 + 1)
    ensures y1 == y2
  {
    if y1 + 1 < y2 {
      DaysBeforeYearIncreasing(y1 + 1, y2);
    } else if y2 + 1 < y1 {
      DaysBeforeYearIncreasing(y2 + 1, y1);
    }
  }

  /** The month `<= m` whose days contain day-of-year `doy`. */
  function MonthSearch(y: int, doy: int, m: int): (r: int)
    requires 1 <= m <= 12
    requires 0 <= doy < DaysBeforeMonth(y, m) + DaysInMonth(y, m)
    ensures 1 <= r <= m
    ensures DaysBeforeMonth(y, r) <= doy < DaysBeforeMonth(y, r) + DaysInMonth(y, r)
    decreases m
  {
    if DaysBeforeMonth(y, m) <= doy then m
    else
      MonthStep(y, m - 1);
      MonthSearch(y, doy, m - 1)
  }

  /** A day of the year belongs to exactly one month. */
  lemma MonthUnique(y: int, doy: int, m1: int, m2: int)
    requires 1 <= m1 <= 12 && 1 <= m2 <= 12
    requires DaysBeforeMonth(y, m1) <= doy < DaysBeforeMonth(y, m1) + DaysInMonth(y, m1)
    requires DaysBeforeMonth(y, m2) <= doy < DaysBeforeMonth(y, m2) + DaysInMonth(y, m2)
    ensures m1 == m2
  {
  }

  /** The civil date of a day number; `DaysFromCivil` undoes it. */
  function CivilFromDays(n: int): (c: Civil)
    ensures ValidCivil(c)
    ensures DaysFromCivil(c) == n
  {
    var ord := n + EpochOrdinal;
    var y := YearOfOrdinal(ord);
    YearStep(y);
    MonthStep(y, 12);
    var m := MonthSearch(y, ord - DaysBeforeYear(y), 12);
    Civil(y, m, ord - DaysBeforeYear(y) - DaysBeforeMonth(y, m) + 1)
  }

  /** The ordinal of a real date lies within its year. */
  lemma OrdinalInYear(c: Civil)
    requires ValidCivil(c)
    ensures DaysBeforeYear(c.year) <= DaysFromCivil(c) + EpochOrdinal < DaysBeforeYear(c.year + 1)
  {
    YearStep(c.year);
    MonthStep(c.year, 12);
    assert DaysBeforeMonth(c.year, c.month) + DaysInMonth(c.year, c.month) <= YearLength(c.year) by {
      if c.month < 12 {
        MonthStep(c.year, c.month);
        assert DaysBeforeMonth(c.year, c.month + 1) <= DaysBeforeMonth(c.year, 12);
      }
    }
  }

  /** Every real date is the civil date of its own day number. */
  lemma CivilRoundTrip(c: Civil)
    requires ValidCivil(c)
    ensures CivilFromDays(DaysFromCivil(c)) == c
  {
    var n := DaysFromCivil(c);
    var d := CivilFromDays(n);
    var ord := n + EpochOrdinal;
    OrdinalInYear(c);
    YearUnique(c.year, YearOfOrdinal(ord), ord);
    MonthUnique(c.year, ord - DaysBeforeYear(c.year), c.month, d.month);
  }

  /** Distinct real dates have distinct day numbers. */
  lemma DaysFromCivilInjective(c1: Civil, c2: Civil)
    requires ValidCivil(c1) && ValidCivil(c2)
    ensures DaysFromCivil(c1) == DaysFromCivil(c2) ==> c1 == c2
  {
    CivilRoundTrip(c1);
    CivilRoundTrip(c2);
  }

  /** Civil dates in calendar order: by year, then month, then day. */
  predicate CivilLeq(a: Civil, b: Civil) {
    a.year < b.year || (a.year == b.year && (a.month < b.month || (a.month == b.month && a.day <= b.day)))
  }

  /** An earlier month ends no later than a later month begins. */
  lemma MonthsOrdered(y: int, m1: int, m2: int)
    requires 1 <= m1 < m2 <= 12
    ensures DaysBeforeMonth(y, m1) + DaysInMonth(y, m1) <= DaysBeforeMonth(y, m2)
  {
  }

  /** A day before another falls on an earlier civil date. */
  lemma EarlierDayEarlierDate(d1: int, d2: int)
    requires d1 < d2
    ensures CivilLeq(CivilFromDays(d1), CivilFromDays(d2))
    ensures CivilFromDays(d1) != CivilFromDays(d2)
  {
    EarlierDate(CivilFromDays(d1), CivilFromDays(d2));
  }

  /** Of two real dates, the one with the smaller day number comes first in the calendar. */
  lemma EarlierDate(c1: Civil, c2: Civil)
    requires ValidCivil(c1) && ValidCivil(c2)
    requires DaysFromCivil(c1) < DaysFromCivil(c2)
    ensures CivilLeq(c1, c2) && c1 != c2
  {
    OrdinalInYear(c1);
    OrdinalInYear(c2);
    if c2.year < c1.year {
      if c2.year + 1 < c1.year {
        DaysBeforeYearIncreasing(c2.year + 1, c1.year);
      }
      assert false;
    }
    if c1.year == c2.year && c2.month < c1.month {
      MonthsOrdered(c1.year, c2.month, c1.month);
      assert false;
    }
  }

  /** Day numbers and civil dates are in the same order. */
  lemma CivilOrder(d1: int, d2: int)
    ensures d1 <= d2 <==> CivilLeq(CivilFromDays(d1), CivilFromDays(d2))
  {
    if d1 < d2 {
      EarlierDayEarlierDate(d1, d2);
    } else if d2 < d1 {
      EarlierDayEarlierDate(d2, d1);
    }
  }

  /**
   * The civil date `k` months after `c`: the month moves by `k`, carrying into
   * the year, and the day of the month is kept even where the new month lacks it.
   */
  function ShiftMonths(c: Civil, k: int): (r: Civil)
    ensures 1 <= r.month <= 12 && r.day == c.day
    ensures 12 * r.year + r.month == 12 * c.year + c.month + k
  {
    var m0 := c.month - 1 + k;
    Civil(c.year + m0 / 12, m0 % 12 + 1, c.day)
  }

  /**
   * `date.setMonth(date.getMonth() + k)`: move the month by `k` and let a day
   * the new month lacks run on into the next month.
   */
  function AddMonths(day: int, k: int): (r: int)
    ensures k == 0 ==> r == day
    ensures CivilFromDays(day).day <= 28 ==> CivilFromDays(r) == ShiftMonths(CivilFromDays(day), k)
  {
    var c := CivilFromDays(day);
    var t := ShiftMonths(c, k);
    assert k == 0 ==> t == c;
    if c.day <= 28 then
      DaysInMonthBounds(t.year, t.month);
      CivilRoundTrip(t);
      DaysFromCivil(t)
    else
      DaysFromCivil(t)
  }

  /** Adding no months is the identity. */
  lemma AddMonthsZero(day: int)
    ensures AddMonths(day, 0) == day
  {
  }

  /** When the day of the month exists in the target month, the result is the shifted date itself. */
  lemma AddMonthsKeepsDay(day: int, k: int)
    requires CivilFromDays(day).day <= 28
    ensures CivilFromDays(AddMonths(day, k)) == ShiftMonths(CivilFromDays(day), k)
    ensures CivilFromDays(AddMonths(day, k)).day == CivilFromDays(day).day
  {
  }

  /** The year as `Date.prototype.toISOString` writes it. */
  function IsoYear(y: int): string {
    if 0 <= y <= 9999 then ZeroPad(y, 4)
    else if y < 0 then "-" + ZeroPad(-y, 6)
    else "+" + ZeroPad(y, 6)
  }

  /** `date.toISOString().split('T')[0]` for midnight of `day`: `YYYY-MM-DD`. */
  function IsoDate(day: int): string {
    var c := CivilFromDays(day);
    IsoYear(c.year) + "-" + ZeroPad(c.month, 2) + "-" + ZeroPad(c.day, 2)
  }

  /**
   * `new Date(s)` for a `YYYY-MM-DD` text, as V8 reads it: the month must be 1..12
   * and the day 1..31, and a day past the end of its month rolls over into the
   * next (`2025-02-30` is 2 March). `None` for anything else.
   */
  function ParseIsoDate(s: string): (r: Option<int>)
    ensures r.Some? <==>
      && |s| == 10 && s[4] == '-' && s[7] == '-'
      && AllDigits(s[..4]) && AllDigits(s[5..7]) && AllDigits(s[8..])
      && 1 <= DecimalValue(s[5..7]) <= 12 && 1 <= DecimalValue(s[8..]) <= 31
    ensures r.Some? ==>
      r.value == DaysFromCivil(Civil(DecimalValue(s[..4]), DecimalValue(s[5..7]), 1)) + DecimalValue(s[8..]) - 1
  {
    if |s| == 10 && s[4] == '-' && s[7] == '-'
       && AllDigits(s[..4]) && AllDigits(s[5..7]) && AllDigits(s[8..])
    then
      var c := Civil(DecimalValue(s[..4]), DecimalValue(s[5..7]), DecimalValue(s[8..]));
      if 1 <= c.month <= 12 && 1 <= c.day <= 31 then Some(DaysFromCivil(c)) else None
    else None
  }

  /** The `YYYY-MM-DD` text of a year, month and day, each zero-padded. */
  function DateText(y: nat, m: nat, d: nat): string {
    ZeroPad(y, 4) + "-" + ZeroPad(m, 2) + "-" + ZeroPad(d, 2)
  }

  /** A padded text is read with month 1..12 and day 1..31, the day counted on from the first. */
  lemma ParseDateText(y: nat, m: nat, d: nat)
    requires y <= 9999 && m <= 99 && d <= 99
    ensures ParseIsoDate(DateText(y, m, d)).Some? <==> 1 <= m <= 12 && 1 <= d <= 31
    ensures 1 <= m <= 12 && 1 <= d <= 31 ==>
      ParseIsoDate(DateText(y, m, d)) == Some(DaysFromCivil(Civil(y, m, 1)) + d - 1)
  {
    DecimalLength(y, 4);
    DecimalLength(m, 2);
    DecimalLength(d, 2);
    DateFields(ZeroPad(y, 4), ZeroPad(m, 2), ZeroPad(d, 2));
  }

  /** A day past the end of its month reads as the matching day of the next month. */
  lemma ParseIsoDateRollsOver(y: nat, m: nat, d: nat)
    requires y <= 9999 && 1 <= m <= 12 && DaysInMonth(y, m) < d <= 31
    ensures m < 12
    ensures ParseIsoDate(DateText(y, m, d)) == ParseIsoDate(DateText(y, m + 1, d - DaysInMonth(y, m)))
    ensures ParseIsoDate(DateText(y, m, d)).Some?
  {
    var e: nat := d - DaysInMonth(y, m);
    NextMonthFirst(y, m);
    ParseDateText(y, m, d);
    ParseDateText(y, m + 1, e);
  }

  /** The first of the next month is as many days on as the month is long. */
  lemma NextMonthFirst(y: int, m: int)
    requires 1 <= m < 12
    ensures DaysFromCivil(Civil(y, m + 1, 1)) == DaysFromCivil(Civil(y, m, 1)) + DaysInMonth(y, m)
  {
    MonthStep(y, m);
  }

  /** For the years 0 to 9999, `ParseIsoDate` reads back exactly the day `IsoDate` wrote. */
  lemma IsoDateRoundTrip(day: int)
    requires 0 <= CivilFromDays(day).year <= 9999
    ensures |IsoDate(day)| == 10
    ensures ParseIsoDate(IsoDate(day)) == Some(day)
  {
    var c := CivilFromDays(day);
    DecimalLength(c.year, 4);
    DecimalLength(c.month, 2);
    DaysInMonthBounds(c.year, c.month);
    DecimalLength(c.day, 2);
    var ys, ms, ds := ZeroPad(c.year, 4), ZeroPad(c.month, 2), ZeroPad(c.day, 2);
    assert IsoDate(day) == ys + "-" + ms + "-" + ds;
    DateFields(ys, ms, ds);
  }

  /** Where the three fields sit in a `YYYY-MM-DD` string. */
  lemma DateFields(ys: string, ms: string, ds: string)
    requires |ys| == 4 && |ms| == 2 && |ds| == 2
    ensures var s := ys + "-" + ms + "-" + ds;
      |s| == 10 && s[4] == '-' && s[7] == '-' && s[..4] == ys && s[5..7] == ms && s[8..] == ds
  {
    var s := ys + "-" + ms + "-" + ds;
    assert s[..4] == ys;
    assert s[5..7] == ms;
    assert s[8..] == ds;
  }
}
