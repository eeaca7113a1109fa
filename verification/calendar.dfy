/** The proleptic Gregorian calendar arithmetic of ECMA-262's Date
    abstract operations, used by `new Date(year, month, day)`.  Time values are counted in whole
    days from 1 January 1970 rather than in milliseconds. */
module Calendar {

  /** A calendar date with a zero-based month, as JavaScript's Date takes it. */
  datatype Date = Date(year: int, month: int, day: int)

  /** The day number of 1 January of `y` (the ECMA-262 abstract
      operation DayFromYear).  Dafny's `/` with a positive divisor rounds down, as the
      standard's `floor` does. */
  function DayFromYear(y: int): int {
    365 * (y - 1970) + (y - 1969) / 4 - (y - 1901) / 100 + (y - 1601) / 400
  }

  predicate InLeapYear(y: int) {
    y % 4 == 0 && (y % 100 != 0 || y % 400 == 0)
  }

  function DaysInYear(y: int): int {
    if InLeapYear(y) then 366 else 365
  }

  /** Days in month `m` (zero-based) of year `y`. */
  function DaysInMonth(y: int, m: int): int
    requires 0 <= m < 12
  {
    if m == 1 then (if InLeapYear(y) then 29 else 28)
    else if m == 3 || m == 5 || m == 8 || m == 10 then 30
    else 31
  }

  /** Days of year `y` before month `m` starts (the table of the ECMA-262
      abstract operation MonthFromTime). */
  function MonthStart(y: int, m: int): int
    requires 0 <= m < 12
  {
    var leap := if InLeapYear(y) && m >= 2 then 1 else 0;
    leap + (
      if m == 0 then 0 else if m == 1 then 31 else if m == 2 then 59
      else if m == 3 then 90 else if m == 4 then 120 else if m == 5 then 151
      else if m == 6 then 181 else if m == 7 then 212 else if m == 8 then 243
      else if m == 9 then 273 else if m == 10 then 304 else 334)
  }

  /** The ECMA-262 abstract operation MakeDay: the day number of the `date`-th
      day of month `month` of `year`.  Months past December roll into later
      years and days past the end of a month roll into later months, exactly
      as the standard's arithmetic does. */
  function MakeDay(year: int, month: int, date: int): int {
    var ym := year + month / 12;
    var mn := month % 12;
    DayFromYear(ym) + MonthStart(ym, mn) + date - 1
  }

  /** The day number of a date. */
  function DayNumber(d: Date): int {
    MakeDay(d.year, d.month, d.day)
  }

  /** The month and day are in range, so no rollover happens. */
  predicate Valid(d: Date) {
    0 <= d.month < 12 && 1 <= d.day <= DaysInMonth(d.year, d.month)
  }

  /** Calendar order: by year, then month, then day. */
  predicate Before(a: Date, b: Date) {
    || a.year < b.year
    || (a.year == b.year && a.month < b.month)
    || (a.year == b.year && a.month == b.month && a.day < b.day)
  }

  /** A year is as long as the distance to the next year's start. */
  lemma YearLength(y: int)
    ensures DayFromYear(y + 1) == DayFromYear(y) + DaysInYear(y)
  {
    Step4(y);
    Step100(y);
    Step400(y);
    Divisibility(y);
  }

  /** Multiples of 400 are multiples of 100, which are multiples of 4. */
  lemma Divisibility(y: int)
    ensures y % 400 == 0 ==> y % 100 == 0
    ensures y % 100 == 0 ==> y % 4 == 0
  {
    if y % 400 == 0 {
      var k := y / 400;
      assert y == 400 * k;
      assert y / 100 == 4 * k;
    }
    if y % 100 == 0 {
      var k := y / 100;
      assert y == 100 * k;
      assert y / 4 == 25 * k;
    }
  }

  /** The three terms of DayFromYear grow by one exactly at multiples of
      4, 100 and 400. */
  lemma Step4(y: int)
    ensures (y + 1 - 1969) / 4 == (y - 1969) / 4 + (if y % 4 == 0 then 1 else 0)
  {
    assert (y - 1968) % 4 == 0 <==> y % 4 == 0;
  }

  lemma Step100(y: int)
    ensures (y + 1 - 1901) / 100 == (y - 1901) / 100 + (if y % 100 == 0 then 1 else 0)
  {
    assert (y - 1900) % 100 == 0 <==> y % 100 == 0;
  }

  lemma Step400(y: int)
    ensures (y + 1 - 1601) / 400 == (y - 1601) / 400 + (if y % 400 == 0 then 1 else 0)
  {
    assert (y - 1600) % 400 == 0 <==> y % 400 == 0;
  }

  /** Every day of year `y1` comes before the start of any later year. */
  lemma {:induction false} YearsAscend(y1: int, y2: int)
    requires y1 < y2
    ensures DayFromYear(y1) + DaysInYear(y1) <= DayFromYear(y2)
    decreases y2 - y1
  {
    YearLength(y1);
    if y1 + 1 < y2 {
      YearsAscend(y1 + 1, y2);
      YearLength(y1 + 1);
    }
  }

  /** Every day of month `m1` comes before the start of a later month. */
  lemma MonthsAscend(y: int, m1: int, m2: int)
    requires 0 <= m1 < m2 < 12
    ensures MonthStart(y, m1) + DaysInMonth(y, m1) <= MonthStart(y, m2)
  {
  }

  /** Every month ends within its year. */
  lemma MonthInYear(y: int, m: int)
    requires 0 <= m < 12
    ensures 0 <= MonthStart(y, m) && MonthStart(y, m) + DaysInMonth(y, m) <= DaysInYear(y)
  {
  }

  /** Without rollover, a date's day number is its year's start plus the
      days before its month plus its day of the month, less one. */
  lemma NoRollover(d: Date)
    requires Valid(d)
    ensures DayNumber(d) == DayFromYear(d.year) + MonthStart(d.year, d.month) + d.day - 1
  {
    assert d.month / 12 == 0 && d.month % 12 == d.month;
  }

  /** A valid date's day number lies within its year. */
  lemma WithinYear(d: Date)
    requires Valid(d)
    ensures DayFromYear(d.year) <= DayNumber(d) < DayFromYear(d.year) + DaysInYear(d.year)
  {
    NoRollover(d);
    MonthInYear(d.year, d.month);
  }

  lemma BeforeMeansEarlier(a: Date, b: Date)
    requires Valid(a) && Valid(b) && Before(a, b)
    ensures DayNumber(a) < DayNumber(b)
  {
    if a.year < b.year {
      WithinYear(a);
      WithinYear(b);
      YearsAscend(a.year, b.year);
    } else {
      NoRollover(a);
      NoRollover(b);
      if a.month < b.month {
        MonthsAscend(a.year, a.month, b.month);
      }
    }
  }

  /** On valid dates, day numbers order exactly as the calendar does, and
      distinct dates have distinct day numbers. */
  lemma DayOrder(a: Date, b: Date)
    requires Valid(a) && Valid(b)
    ensures DayNumber(a) < DayNumber(b) <==> Before(a, b)
    ensures DayNumber(a) == DayNumber(b) <==> a == b
  {
    if Before(a, b) {
      BeforeMeansEarlier(a, b);
    } else if Before(b, a) {
      BeforeMeansEarlier(b, a);
    }
  }
}
