/**
  Calendar dates as the schedule form's date inputs produce them, and the
  order in which the form compares them.

  The form compares `new Date("YYYY-MM-DD")` values. Such a value is midnight
  UTC of that day, so comparing two of them compares their day numbers. The
  lemmas at the end show that this order is the lexicographic order of the
  (year, month, day) triple.
*/
module Dates {

  /** A year-month-day triple, not necessarily a real calendar day. */
  datatype Ymd = Ymd(year: int, month: int, day: int)

  /** The Gregorian leap-year rule. */
  predicate IsLeapYear(y: int) {
    y % 4 == 0 && (y % 100 != 0 || y % 400 == 0)
  }

  function DaysInYear(y: int): int {
    if IsLeapYear(y) then 366 else 365
  }

  function DaysInMonth(y: int, m: int): int
    requires 1 <= m <= 12
  {
    if m == 2 then (if IsLeapYear(y) then 29 else 28)
    else if m == 4 || m == 6 || m == 9 || m == 11 then 30
    else 31
  }

  /** A real day with a four-digit year, as a date input yields it. */
  predicate IsCalendarDate(t: Ymd) {
    && 1 <= t.year <= 9999
    && 1 <= t.month <= 12
    && 1 <= t.day <= DaysInMonth(t.year, t.month)
  }

  type Date = t: Ymd | IsCalendarDate(t) witness Ymd(1970, 1, 1)

  /** Days in the years 1 .. y-1. */
  function DaysBeforeYear(y: int): nat
    requires y >= 1
  {
    if y == 1 then 0 else DaysBeforeYear(y - 1) + DaysInYear(y - 1)
  }

  /** Days in the months 1 .. m-1 of year y. */
  function DaysBeforeMonth(y: int, m: int): nat
    requires 1 <= m <= 12
  {
    if m == 1 then 0 else DaysBeforeMonth(y, m - 1) + DaysInMonth(y, m - 1)
  }

  /** Days since 0001-01-01 (that day is 0). */
  function DayNumber(d: Date): nat {
    DaysBeforeYear(d.year) + DaysBeforeMonth(d.year, d.month) + d.day - 1
  }

  /** `a <= b` on the form's Date objects. */
  predicate OnOrBefore(a: Date, b: Date) {
    DayNumber(a) <= DayNumber(b)
  }

  /** `a < b` on the form's Date objects. */
  predicate Before(a: Date, b: Date) {
    DayNumber(a) < DayNumber(b)
  }

  /** Lexicographic order of the (year, month, day) triple. */
  predicate LexBefore(a: Ymd, b: Ymd) {
    || a.year < b.year
    || (a.year == b.year && a.month < b.month)
    || (a.year == b.year && a.month == b.month && a.day < b.day)
  }

  /** Whole months before m, plus month m itself, fit in the year. */
  lemma MonthsFitInYear(y: int, m: int)
    requires 1 <= m <= 12
    ensures DaysBeforeMonth(y, m) + DaysInMonth(y, m) <= DaysInYear(y)
  {
    var leap := if IsLeapYear(y) then 1 else 0;
    assert DaysBeforeMonth(y, 2) == 31;
    assert DaysBeforeMonth(y, 3) == 59 + leap;
    assert DaysBeforeMonth(y, 4) == 90 + leap;
    assert DaysBeforeMonth(y, 5) == 120 + leap;
    assert DaysBeforeMonth(y, 6) == 151 + leap;
    assert DaysBeforeMonth(y, 7) == 181 + leap;
    assert DaysBeforeMonth(y, 8) == 212 + leap;
    assert DaysBeforeMonth(y, 9) == 243 + leap;
    assert DaysBeforeMonth(y, 10) == 273 + leap;
    assert DaysBeforeMonth(y, 11) == 304 + leap;
    assert DaysBeforeMonth(y, 12) == 334 + leap;
  }

  /** Every day of an earlier month comes before the first day of a later one. */
  lemma {:induction false} MonthsAccumulate(y: int, m1: int, m2: int)
    requires 1 <= m1 < m2 <= 12
    ensures DaysBeforeMonth(y, m1) + DaysInMonth(y, m1) <= DaysBeforeMonth(y, m2)
    decreases m2
  {
    if m2 > m1 + 1 {
      MonthsAccumulate(y, m1, m2 - 1);
    }
  }

  /** Every day of an earlier year comes before the first day of a later one. */
  lemma {:induction false} YearsAccumulate(y1: int, y2: int)
    requires 1 <= y1 < y2
    ensures DaysBeforeYear(y1) + DaysInYear(y1) <= DaysBeforeYear(y2)
    decreases y2
  {
    if y2 > y1 + 1 {
      YearsAccumulate(y1, y2 - 1);
    }
  }

  lemma LexBeforeIsBefore(a: Date, b: Date)
    requires LexBefore(a, b)
    ensures Before(a, b)
  {
    if a.year < b.year {
      MonthsFitInYear(a.year, a.month);
      YearsAccumulate(a.year, b.year);
    } else if a.month < b.month {
      MonthsAccumulate(a.year, a.month, b.month);
    }
  }

  /**
    Comparing Date objects of well-formed dates is chronological order:
    `<` is the lexicographic order of the triples, `<=` adds equality, and
    two dates with the same day number are the same date.
  */
  lemma ChronologicalIsLexicographic(a: Date, b: Date)
    ensures Before(a, b) <==> LexBefore(a, b)
    ensures OnOrBefore(a, b) <==> LexBefore(a, b) || a == b
    ensures DayNumber(a) == DayNumber(b) <==> a == b
  {
    if LexBefore(a, b) {
      LexBeforeIsBefore(a, b);
    } else if LexBefore(b, a) {
      LexBeforeIsBefore(b, a);
    }
  }
}
