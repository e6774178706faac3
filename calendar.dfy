/**
 * Proleptic Gregorian calendar dates as JavaScript's `Date` exposes them through
 * `getFullYear()`, `getMonth()` (0 = January … 11 = December) and `getDate()`,
 * with a day number that counts days from 1 January of year 0.
 */
module Calendar {

  datatype Date = Date(year: int, month: int, day: int) {

    /** A date that exists: a month index 0..11 and a day within that month. */
    predicate Valid() {
      0 <= month < 12 && 1 <= day <= DaysInMonth(year, month)
    }
  }

  predicate IsLeapYear(y: int) {
    y % 4 == 0 && (y % 100 != 0 || y % 400 == 0)
  }

  function DaysInYear(y: int): int {
    if IsLeapYear(y) then 366 else 365
  }

  function DaysInMonth(y: int, m: int): (n: int)
    requires 0 <= m < 12
    ensures 28 <= n <= 31
    ensures n == 31 <==> m in {0, 2, 4, 6, 7, 9, 11}
    ensures n == 30 <==> m in {3, 5, 8, 10}
    ensures m == 1 ==> (n == 29 <==> IsLeapYear(y))
  {
    if m == 1 then (if IsLeapYear(y) then 29 else 28)
    else if m in {3, 5, 8, 10} then 30
    else 31
  }

  /** The (year, month) that follows `y`/`m`; December rolls over into January of `y + 1`. */
  function NextMonth(y: int, m: int): (r: (int, int))
    requires 0 <= m < 12
    ensures 0 <= r.1 < 12
    ensures m < 11 ==> r == (y, m + 1)
    ensures m == 11 ==> r == (y + 1, 0)
  {
    if m == 11 then (y + 1, 0) else (y, m + 1)
  }

  /** The (year, month) that precedes `y`/`m`; January rolls back into December of `y - 1`. */
  function PrevMonth(y: int, m: int): (r: (int, int))
    requires 0 <= m < 12
    ensures 0 <= r.1 < 12
    ensures NextMonth(r.0, r.1) == (y, m)
  {
    if m == 0 then (y - 1, 11) else (y, m - 1)
  }

  /** The number of days of year `y` before the first of month `m` (`m == 12` gives the year's length). */
  function DaysBeforeMonth(y: int, m: int): int
    requires 0 <= m <= 12
  {
    [0, 31, 59, 90, 120, 151, 181, 212, 243, 273, 304, 334, 365][m]
      + (if m >= 2 && IsLeapYear(y) then 1 else 0)
  }

  /** The number of leap years in [0, y) for y >= 0, negated count of those in [y, 0) for y < 0. */
  function LeapYearsBefore(y: int): int {
    (y + 3) / 4 - (y + 99) / 100 + (y + 399) / 400
  }

  /** The day number of 1 January of year `y`. */
  function DaysBeforeYear(y: int): int {
    365 * y + LeapYearsBefore(y)
  }

  /**
   * The day number of day `d` of month `m` of year `y`, for any integer `d`:
   * day 0 is the day before the first, day 32 is the day after the 31st, and so on.
   */
  function Ordinal(y: int, m: int, d: int): int
    requires 0 <= m < 12
  {
    DaysBeforeYear(y) + DaysBeforeMonth(y, m) + d - 1
  }

  function DayNumber(date: Date): int
    requires date.Valid()
  {
    Ordinal(date.year, date.month, date.day)
  }

  /** Calendar order: `a` falls on or before `b`. */
  predicate NotAfter(a: Date, b: Date) {
    a.year < b.year
    || (a.year == b.year && (a.month < b.month || (a.month == b.month && a.day <= b.day)))
  }

  /** `(q + 1) * k` steps over exactly one multiple of `k` more than `q * k` does. */
  lemma MultiplesOf4(y: int)
    ensures (y + 4) / 4 - (y + 3) / 4 == if y % 4 == 0 then 1 else 0
  {
    var q, r := y / 4, y % 4;
    assert y == 4 * q + r;
    assert (y + 4) / 4 == q + 1;
    assert (y + 3) / 4 == if r == 0 then q else q + 1;
  }

  lemma MultiplesOf100(y: int)
    ensures (y + 100) / 100 - (y + 99) / 100 == if y % 100 == 0 then 1 else 0
  {
    var q, r := y / 100, y % 100;
    assert y == 100 * q + r;
    assert (y + 100) / 100 == q + 1;
    assert (y + 99) / 100 == if r == 0 then q else q + 1;
  }

  lemma MultiplesOf400(y: int)
    ensures (y + 400) / 400 - (y + 399) / 400 == if y % 400 == 0 then 1 else 0
  {
    var q, r := y / 400, y % 400;
    assert y == 400 * q + r;
    assert (y + 400) / 400 == q + 1;
    assert (y + 399) / 400 == if r == 0 then q else q + 1;
  }

  /** A multiple of 400 is a multiple of 100, and a multiple of 100 is a multiple of 4. */
  lemma Divisibility(y: int)
    ensures y % 400 == 0 ==> y % 100 == 0
    ensures y % 100 == 0 ==> y % 4 == 0
  {
    if y % 400 == 0 {
      var k := y / 400;
      assert y == 100 * (4 * k);
    }
    if y % 100 == 0 {
      var k := y / 100;
      assert y == 4 * (25 * k);
    }
  }

  /** Counting leap years up to `y + 1` adds one exactly when `y` is a leap year. */
  lemma LeapStep(y: int)
    ensures LeapYearsBefore(y + 1) == LeapYearsBefore(y) + (if IsLeapYear(y) then 1 else 0)
  {
    MultiplesOf4(y);
    MultiplesOf100(y);
    MultiplesOf400(y);
    Divisibility(y);
  }

  /** Consecutive New Year's days are one year's length apart. */
  lemma {:induction false} YearStep(y: int)
    ensures DaysBeforeYear(y + 1) == DaysBeforeYear(y) + DaysInYear(y)
  {
    LeapStep(y);
  }

  /** The first of the next month is the first of this month plus this month's length. */
  lemma {:induction false} MonthStep(y: int, m: int)
    requires 0 <= m < 12
    ensures Ordinal(NextMonth(y, m).0, NextMonth(y, m).1, 1) == Ordinal(y, m, 1) + DaysInMonth(y, m)
  {
    if m == 11 {
      YearStep(y);
    }
  }

  /** New Year's day moves forward by at least 365 days a year. */
  lemma {:induction false} YearsApart(a: int, b: int)
    requires a <= b
    ensures DaysBeforeYear(a) + 365 * (b - a) <= DaysBeforeYear(b)
    decreases b - a
  {
    if a < b {
      YearsApart(a, b - 1);
      YearStep(b - 1);
    }
  }

  /** Months of one year occupy disjoint, increasing runs of day numbers. */
  lemma {:induction false} MonthsApart(y: int, m: int, n: int)
    requires 0 <= m < n <= 12
    ensures DaysBeforeMonth(y, m) + DaysInMonth(y, m) <= DaysBeforeMonth(y, n)
    decreases n - m
  {
    if m + 1 < n {
      MonthsApart(y, m + 1, n);
    }
  }

  /** Day numbers follow calendar order: the day number is a strictly monotone encoding of valid dates. */
  lemma {:induction false} DayNumberOrder(a: Date, b: Date)
    requires a.Valid() && b.Valid()
    ensures NotAfter(a, b) <==> DayNumber(a) <= DayNumber(b)
    ensures a == b <==> DayNumber(a) == DayNumber(b)
  {
    if a != b {
      if NotAfter(a, b) {
        DayNumberBefore(a, b);
      } else {
        DayNumberBefore(b, a);
      }
    }
  }

  lemma {:induction false} DayNumberBefore(a: Date, b: Date)
    requires a.Valid() && b.Valid()
    requires NotAfter(a, b) && a != b
    ensures DayNumber(a) < DayNumber(b)
  {
    if a.year < b.year {
      MonthsApart(a.year, a.month, 12);
      YearStep(a.year);
      YearsApart(a.year + 1, b.year);
    } else if a.month < b.month {
      MonthsApart(a.year, a.month, b.month);
    }
  }
}
