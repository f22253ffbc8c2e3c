/**
 * Proleptic Gregorian calendar dates and times of day, as pandas timestamps
 * hold them, and their numbering: a date becomes the number of days since
 * 0001-01-01 and a timestamp the number of seconds since 0001-01-01 00:00:00.
 * All the day arithmetic of the pipeline (timedelta(days=1), `.days`, daily
 * buckets) is integer arithmetic on these numbers.
 */
module Calendar {

  const SecondsPerDay := 86400

  predicate IsLeapYear(y: int) {
    y % 4 == 0 && (y % 100 != 0 || y % 400 == 0)
  }

  function MonthLength(y: int, m: int): int
    requires 1 <= m <= 12
  {
    if m == 2 then (if IsLeapYear(y) then 29 else 28)
    else if m == 4 || m == 6 || m == 9 || m == 11 then 30
    else 31
  }

  function YearLength(y: int): int {
    if IsLeapYear(y) then 366 else 365
  }

  datatype Date = Date(year: int, month: int, day: int)

  /** A date Python's datetime accepts: years 1 to 9999 and the month's real length. */
  predicate ValidDate(d: Date) {
    1 <= d.year <= 9999 && 1 <= d.month <= 12 && 1 <= d.day <= MonthLength(d.year, d.month)
  }

  datatype Clock = Clock(hour: int, minute: int, second: int)

  predicate ValidClock(c: Clock) {
    0 <= c.hour < 24 && 0 <= c.minute < 60 && 0 <= c.second < 60
  }

  /** Days in the years 1 .. y-1. */
  function DaysBeforeYear(y: int): int
    requires y >= 1
  {
    365 * (y - 1) + (y - 1) / 4 - (y - 1) / 100 + (y - 1) / 400
  }

  /** Days in the months 1 .. m-1 of year y. */
  function DaysBeforeMonth(y: int, m: int): int
    requires 1 <= m <= 13
  {
    if m == 1 then 0 else DaysBeforeMonth(y, m - 1) + MonthLength(y, m - 1)
  }

  /** Days elapsed since 0001-01-01. */
  function DayNumber(d: Date): int
    requires ValidDate(d)
  {
    DaysBeforeYear(d.year) + DaysBeforeMonth(d.year, d.month) + d.day - 1
  }

  function SecondOfDay(c: Clock): int {
    3600 * c.hour + 60 * c.minute + c.second
  }

  /** Seconds elapsed since 0001-01-01 00:00:00. */
  function Seconds(d: Date, c: Clock): int
    requires ValidDate(d)
  {
    SecondsPerDay * DayNumber(d) + SecondOfDay(c)
  }

  /** The calendar successor of a date: what `+ timedelta(days=1)` gives. */
  function NextDay(d: Date): Date
    requires ValidDate(d)
  {
    if d.day < MonthLength(d.year, d.month) then Date(d.year, d.month, d.day + 1)
    else if d.month < 12 then Date(d.year, d.month + 1, 1)
    else Date(d.year + 1, 1, 1)
  }

  /** Chronological order of dates: by year, then month, then day. */
  predicate DateBefore(a: Date, b: Date) {
    a.year < b.year
    || (a.year == b.year && a.month < b.month)
    || (a.year == b.year && a.month == b.month && a.day < b.day)
  }

  /** Chronological order of timestamps made of a date and a time of day. */
  predicate TimestampBefore(d1: Date, c1: Clock, d2: Date, c2: Clock) {
    DateBefore(d1, d2)
    || (d1 == d2 && c1.hour < c2.hour)
    || (d1 == d2 && c1.hour == c2.hour && c1.minute < c2.minute)
    || (d1 == d2 && c1.hour == c2.hour && c1.minute == c2.minute && c1.second < c2.second)
  }

  /** Stepping x to x + 1 raises x / k by one exactly when k divides x + 1. */
  lemma DivStep(x: int, k: int)
    requires x >= 0 && (k == 4 || k == 100 || k == 400)
    ensures (x + 1) / k == x / k + (if (x + 1) % k == 0 then 1 else 0)
  {
    if k == 4 {
      assert (x + 1) / 4 == x / 4 + (if (x + 1) % 4 == 0 then 1 else 0);
    } else if k == 100 {
      assert (x + 1) / 100 == x / 100 + (if (x + 1) % 100 == 0 then 1 else 0);
    } else {
      assert (x + 1) / 400 == x / 400 + (if (x + 1) % 400 == 0 then 1 else 0);
    }
  }

  /** A multiple of 400 is a multiple of 100, and a multiple of 100 a multiple of 4. */
  lemma MultipleFacts(y: int)
    ensures y % 400 == 0 ==> y % 100 == 0
    ensures y % 100 == 0 ==> y % 4 == 0
  {
    if y % 400 == 0 {
      var q := y / 400;
      assert y == 400 * q;
      assert y / 100 == 4 * q;
    }
    if y % 100 == 0 {
      var q := y / 100;
      assert y == 100 * q;
      assert y / 4 == 25 * q;
    }
  }

  /** Adding one year adds 366 days in a leap year and 365 otherwise. */
  lemma YearStep(y: int)
    requires y >= 1
    ensures DaysBeforeYear(y + 1) == DaysBeforeYear(y) + YearLength(y)
  {
    var x := y - 1;
    DivStep(x, 4);
    DivStep(x, 100);
    DivStep(x, 400);
    MultipleFacts(y);
    var d4, d100, d400 := (if y % 4 == 0 then 1 else 0), (if y % 100 == 0 then 1 else 0), (if y % 400 == 0 then 1 else 0);
    assert DaysBeforeYear(y + 1) == DaysBeforeYear(y) + 365 + d4 - d100 + d400;
  }

  /** The twelve month lengths add up to the length of the year. */
  lemma MonthsFillYear(y: int)
    ensures DaysBeforeMonth(y, 13) == YearLength(y)
  {
    assert DaysBeforeMonth(y, 2) == 31;
    assert DaysBeforeMonth(y, 3) == 31 + MonthLength(y, 2);
    assert DaysBeforeMonth(y, 4) == 62 + MonthLength(y, 2);
    assert DaysBeforeMonth(y, 5) == 92 + MonthLength(y, 2);
    assert DaysBeforeMonth(y, 6) == 123 + MonthLength(y, 2);
    assert DaysBeforeMonth(y, 7) == 153 + MonthLength(y, 2);
    assert DaysBeforeMonth(y, 8) == 184 + MonthLength(y, 2);
    assert DaysBeforeMonth(y, 9) == 215 + MonthLength(y, 2);
    assert DaysBeforeMonth(y, 10) == 245 + MonthLength(y, 2);
    assert DaysBeforeMonth(y, 11) == 276 + MonthLength(y, 2);
    assert DaysBeforeMonth(y, 12) == 306 + MonthLength(y, 2);
  }

  lemma {:induction false} MonthsBefore(y: int, m: int)
    requires 1 <= m <= 12
    ensures DaysBeforeMonth(y, m) + MonthLength(y, m) <= YearLength(y)
  {
    MonthsFillYear(y);
    MonthsGrow(y, m + 1, 13);
  }

  lemma {:induction false} MonthsGrow(y: int, m1: int, m2: int)
    requires 1 <= m1 <= m2 <= 13
    ensures DaysBeforeMonth(y, m1) <= DaysBeforeMonth(y, m2)
    decreases m2 - m1
  {
    if m1 < m2 {
      MonthsGrow(y, m1, m2 - 1);
    }
  }

  lemma {:induction false} YearsGrow(y1: int, y2: int)
    requires 1 <= y1 < y2
    ensures DaysBeforeYear(y1) + YearLength(y1) <= DaysBeforeYear(y2)
    decreases y2 - y1
  {
    YearStep(y1);
    if y1 + 1 < y2 {
      YearsGrow(y1 + 1, y2);
      assert DaysBeforeYear(y1 + 1) <= DaysBeforeYear(y1 + 1) + YearLength(y1 + 1);
    }
  }

  /**
   * The day after d is a valid date and its day number is one more than d's;
   * this is what lets `+ timedelta(days=1)` be modelled as `+ 1`.
   */
  lemma NextDayNumber(d: Date)
    requires ValidDate(d) && d != Date(9999, 12, 31)
    ensures ValidDate(NextDay(d)) && DateBefore(d, NextDay(d))
    ensures DayNumber(NextDay(d)) == DayNumber(d) + 1
  {
    if d.day == MonthLength(d.year, d.month) && d.month == 12 {
      MonthsFillYear(d.year);
      YearStep(d.year);
    }
  }

  /** Day numbers follow the calendar order, so distinct dates get distinct numbers. */
  lemma DayNumberOrder(a: Date, b: Date)
    requires ValidDate(a) && ValidDate(b)
    ensures DateBefore(a, b) <==> DayNumber(a) < DayNumber(b)
    ensures a == b <==> DayNumber(a) == DayNumber(b)
  {
    forall x: Date, z: Date | ValidDate(x) && ValidDate(z) && DateBefore(x, z)
      ensures DayNumber(x) < DayNumber(z)
    {
      if x.year < z.year {
        MonthsBefore(x.year, x.month);
        YearsGrow(x.year, z.year);
        MonthsGrow(z.year, 1, z.month);
      } else if x.month < z.month {
        MonthsGrow(x.year, x.month + 1, z.month);
        assert DaysBeforeMonth(x.year, x.month + 1) == DaysBeforeMonth(x.year, x.month) + MonthLength(x.year, x.month);
      }
    }
  }

  /** The seconds count follows chronological order of (date, time of day). */
  lemma SecondsOrder(d1: Date, c1: Clock, d2: Date, c2: Clock)
    requires ValidDate(d1) && ValidClock(c1) && ValidDate(d2) && ValidClock(c2)
    ensures TimestampBefore(d1, c1, d2, c2) <==> Seconds(d1, c1) < Seconds(d2, c2)
    ensures (d1 == d2 && c1 == c2) <==> Seconds(d1, c1) == Seconds(d2, c2)
  {
    DayNumberOrder(d1, d2);
    DayNumberOrder(d2, d1);
  }

  /** Integer division by the day length recovers the day a timestamp falls on. */
  lemma SecondsDay(d: Date, c: Clock)
    requires ValidDate(d) && ValidClock(c)
    ensures 0 <= SecondOfDay(c) < SecondsPerDay
    ensures Seconds(d, c) / SecondsPerDay == DayNumber(d)
  {
  }
}
