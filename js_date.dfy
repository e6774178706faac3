/**
 * The calendar part of JavaScript's `new Date(year, monthIndex, day)`: a year from 0 to 99
 * means 1900 + year, the month index is folded into 0..11 with the surplus carried into the
 * year (so -1 is December of the year before), and the day is counted from the first of
 * that month (so day 0 is the last day of the month before). Time of day is not modelled.
 */
module JsDate {
  import opened Calendar

  /** A year that the constructor takes literally (0..99 are read as 1900..1999). */
  predicate LiteralYear(y: int) {
    !(0 <= y <= 99)
  }

  function ConstructorYear(y: int): (r: int)
    ensures LiteralYear(y) ==> r == y
    ensures !LiteralYear(y) ==> r == 1900 + y
  {
    if 0 <= y <= 99 then 1900 + y else y
  }

  /** Resolves a day count `d <= 0` by walking back month by month. */
  function StepBack(y: int, m: int, d: int): (r: Date)
    requires 0 <= m < 12 && d <= DaysInMonth(y, m)
    ensures r.Valid()
    decreases -d
  {
    if d >= 1 then Date(y, m, d)
    else
      var p := PrevMonth(y, m);
      StepBack(p.0, p.1, d + DaysInMonth(p.0, p.1))
  }

  /** Resolves a day count `d` beyond the month's length by walking forward month by month. */
  function StepForward(y: int, m: int, d: int): (r: Date)
    requires 0 <= m < 12 && d >= 1
    ensures r.Valid()
    decreases d
  {
    if d <= DaysInMonth(y, m) then Date(y, m, d)
    else
      var n := NextMonth(y, m);
      StepForward(n.0, n.1, d - DaysInMonth(y, m))
  }

  /** Day `d` of month index `m` (any integer) counted from January of year `y`. */
  function Normalize(y: int, m: int, d: int): (r: Date)
    ensures r.Valid()
  {
    var y', m' := y + m / 12, m % 12;
    if d < 1 then StepBack(y', m', d) else StepForward(y', m', d)
  }

  /** `new Date(y, m, d)`, read back through getFullYear / getMonth / getDate. */
  function NewDate(y: int, m: int, d: int): (r: Date)
    ensures r.Valid()
  {
    Normalize(ConstructorYear(y), m, d)
  }

  lemma {:induction false} StepBackDayNumber(y: int, m: int, d: int)
    requires 0 <= m < 12 && d <= DaysInMonth(y, m)
    ensures DayNumber(StepBack(y, m, d)) == Ordinal(y, m, d)
    decreases -d
  {
    if d < 1 {
      var p := PrevMonth(y, m);
      MonthStep(p.0, p.1);
      StepBackDayNumber(p.0, p.1, d + DaysInMonth(p.0, p.1));
    }
  }

  lemma {:induction false} StepForwardDayNumber(y: int, m: int, d: int)
    requires 0 <= m < 12 && d >= 1
    ensures DayNumber(StepForward(y, m, d)) == Ordinal(y, m, d)
    decreases d
  {
    if d > DaysInMonth(y, m) {
      var n := NextMonth(y, m);
      MonthStep(y, m);
      StepForwardDayNumber(n.0, n.1, d - DaysInMonth(y, m));
    }
  }

  /**
   * The date normalisation lands on the day `d - 1` days after the first of the folded
   * month, which is how the ECMAScript MakeDay operation defines it.
   */
  lemma NormalizeDayNumber(y: int, m: int, d: int)
    ensures DayNumber(Normalize(y, m, d)) == Ordinal(y + m / 12, m % 12, d)
  {
    if d < 1 {
      StepBackDayNumber(y + m / 12, m % 12, d);
    } else {
      StepForwardDayNumber(y + m / 12, m % 12, d);
    }
  }

  /** So the normalised date is the one valid date with that day number. */
  lemma NormalizeUnique(y: int, m: int, d: int, date: Date)
    requires date.Valid()
    ensures date == Normalize(y, m, d) <==> DayNumber(date) == Ordinal(y + m / 12, m % 12, d)
  {
    NormalizeDayNumber(y, m, d);
    DayNumberOrder(date, Normalize(y, m, d));
  }

  /** Normalisation leaves a date that already exists as it is. */
  lemma NormalizeExisting(date: Date)
    requires date.Valid()
    ensures Normalize(date.year, date.month, date.day) == date
  {
    NormalizeUnique(date.year, date.month, date.day, date);
  }

  /** Day 1 is the first of the folded month. */
  lemma NormalizeFirst(y: int, m: int)
    ensures Normalize(y, m, 1) == Date(y + m / 12, m % 12, 1)
  {
  }

  /** Day 0 is the last day of the month before the folded month. */
  lemma NormalizeLast(y: int, m: int)
    ensures var p := PrevMonth(y + m / 12, m % 12);
            Normalize(y, m, 0) == Date(p.0, p.1, DaysInMonth(p.0, p.1))
  {
  }

  /** Month index `m + 1`, day 0: the last day of the folded month `m` itself. */
  lemma LastOfMonth(y: int, m: int)
    ensures Normalize(y, m + 1, 0) == Date(y + m / 12, m % 12, DaysInMonth(y + m / 12, m % 12))
  {
    NormalizeLast(y, m + 1);
    var p := PrevMonth(y + (m + 1) / 12, (m + 1) % 12);
    assert p == (y + m / 12, m % 12);
  }
}
