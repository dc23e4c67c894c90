/** Gregorian calendar arithmetic behind the month grid, with months numbered
    0..11 as JavaScript's `Date.getMonth()` numbers them, and the month
    navigation of the calendar header. */
module Dates {

  /** The month shown by the calendar: what `currentDate.getFullYear()` and
      `currentDate.getMonth()` return. */
  datatype YearMonth = YearMonth(year: int, month: int)
  {
    predicate Valid() { 0 <= month < 12 }
  }

  predicate IsLeapYear(y: int)
  {
    y % 4 == 0 && (y % 100 != 0 || y % 400 == 0)
  }

  /** Number of days of month `m` (0 = January) of year `y`. */
  function DaysInMonth(y: int, m: int): (n: int)
    requires 0 <= m < 12
    ensures 28 <= n <= 31
    ensures n == 29 <==> m == 1 && IsLeapYear(y)
    ensures n == 28 <==> m == 1 && !IsLeapYear(y)
    ensures n == 30 <==> m == 3 || m == 5 || m == 8 || m == 10
  {
    if m == 1 then (if IsLeapYear(y) then 29 else 28)
    else if m == 3 || m == 5 || m == 8 || m == 10 then 30
    else 31
  }

  /** Days from 1970-01-01 to day `d` of month `m` of year `y` in the
      proleptic Gregorian calendar (the calendar JavaScript dates use). Years
      are counted from March, so that the leap day ends a year: `yy` is that
      year, `mp` the month within it (0 = March) and `doy` the day within it. */
  function DaysFromCivil(y: int, m: int, d: int): int
    requires 0 <= m < 12
  {
    var yy := if m < 2 then y - 1 else y;
    var mp := if m >= 2 then m - 2 else m + 10;
    var doy := (153 * mp + 2) / 5 + d - 1;
    yy * 365 + yy / 4 - yy / 100 + yy / 400 + doy - 719468
  }

  /** `new Date(y, m, d).getDay()`: 0 = Sunday; 1970-01-01 was a Thursday. */
  function Weekday(y: int, m: int, d: int): (w: int)
    requires 0 <= m < 12
    ensures 0 <= w < 7
  {
    (DaysFromCivil(y, m, d) + 4) % 7
  }

  /** The epoch, 1 January 1970, was a Thursday. */
  lemma WeekdayEpoch()
    ensures Weekday(1970, 0, 1) == 4
  {
  }

  /** Number of blank cells before day 1 in the Sunday-first grid. */
  function FirstWeekday(y: int, m: int): (w: int)
    requires 0 <= m < 12
    ensures 0 <= w < 7
  {
    Weekday(y, m, 1)
  }

  // ---------------------------------------------------------------------
  // Month navigation.

  /** The month `m` months after January of year `y`, normalising `m` the
      way the `Date` constructor normalises an out-of-range month. */
  function MonthStart(y: int, m: int): (r: YearMonth)
    ensures r.Valid()
    ensures r.year * 12 + r.month == y * 12 + m
  {
    YearMonth(y + m / 12, m % 12)
  }

  /** The "<" button. */
  function PrevMonth(v: YearMonth): (r: YearMonth)
    requires v.Valid()
    ensures r.Valid()
    ensures v.month == 0 ==> r == YearMonth(v.year - 1, 11)
    ensures v.month > 0 ==> r == YearMonth(v.year, v.month - 1)
  {
    MonthStart(v.year, v.month - 1)
  }

  /** The ">" button. */
  function NextMonth(v: YearMonth): (r: YearMonth)
    requires v.Valid()
    ensures r.Valid()
    ensures v.month == 11 ==> r == YearMonth(v.year + 1, 0)
    ensures v.month < 11 ==> r == YearMonth(v.year, v.month + 1)
  {
    MonthStart(v.year, v.month + 1)
  }

  /** Going forward then back (or back then forward) returns to the same month. */
  lemma NavigationRoundTrip(v: YearMonth)
    requires v.Valid()
    ensures PrevMonth(NextMonth(v)) == v
    ensures NextMonth(PrevMonth(v)) == v
  {
  }

  // ---------------------------------------------------------------------
  // Calendar facts tying month lengths to weekdays.

  /** Consecutive days of a month are consecutive day numbers. */
  lemma NextDayInMonth(y: int, m: int, d: int)
    requires 0 <= m < 12 && 1 <= d < DaysInMonth(y, m)
    ensures DaysFromCivil(y, m, d + 1) == DaysFromCivil(y, m, d) + 1
    ensures Weekday(y, m, d + 1) == (Weekday(y, m, d) + 1) % 7
  {
    ModAddLeft(DaysFromCivil(y, m, d) + 4, 1);
  }

  /** Day 1 of the next month follows the last day of this month, including
      the leap-year rule at the end of February and the turn of the year. */
  lemma MonthBoundary(y: int, m: int)
    requires 0 <= m < 12
    ensures var n := NextMonth(YearMonth(y, m));
      DaysFromCivil(n.year, n.month, 1) == DaysFromCivil(y, m, DaysInMonth(y, m)) + 1
  {
    if m == 1 {
      FebruaryToMarch(y);
    }
  }

  /** The leap day: the March-based year `y - 1` ends with February of `y`,
      whose length the leap-year rule decides. */
  lemma FebruaryToMarch(y: int)
    ensures DaysFromCivil(y, 2, 1) == DaysFromCivil(y, 1, DaysInMonth(y, 1)) + 1
  {
    DivStep4(y);
    DivStep100(y);
    DivStep400(y);
    Divisibility(y);
  }

  lemma DivStep4(y: int)
    ensures y / 4 - (y - 1) / 4 == if y % 4 == 0 then 1 else 0
  {
  }

  lemma DivStep100(y: int)
    ensures y / 100 - (y - 1) / 100 == if y % 100 == 0 then 1 else 0
  {
  }

  lemma DivStep400(y: int)
    ensures y / 400 - (y - 1) / 400 == if y % 400 == 0 then 1 else 0
  {
  }

  lemma Divisibility(y: int)
    ensures y % 400 == 0 ==> y % 100 == 0
    ensures y % 100 == 0 ==> y % 4 == 0
  {
    if y % 400 == 0 {
      MultipleOf400(y / 400);
    }
    if y % 100 == 0 {
      MultipleOf100(y / 100);
    }
  }

  lemma MultipleOf400(q: int)
    ensures (400 * q) % 100 == 0
  {
    assert 400 * q == 100 * (4 * q);
  }

  lemma MultipleOf100(q: int)
    ensures (100 * q) % 4 == 0
  {
    assert 100 * q == 4 * (25 * q);
  }

  lemma ModAddLeft(a: int, b: int)
    ensures ((a % 7) + b) % 7 == (a + b) % 7
  {
    assert a + b == 7 * (a / 7) + ((a % 7) + b);
  }

  /** The grid of the next month starts on the weekday after this month's last day. */
  lemma NextFirstWeekday(v: YearMonth)
    requires v.Valid()
    ensures var n := NextMonth(v);
      FirstWeekday(n.year, n.month) == (FirstWeekday(v.year, v.month) + DaysInMonth(v.year, v.month)) % 7
  {
    var n := NextMonth(v);
    var dim := DaysInMonth(v.year, v.month);
    var first := DaysFromCivil(v.year, v.month, 1);
    MonthBoundary(v.year, v.month);
    assert DaysFromCivil(v.year, v.month, dim) == first + dim - 1;
    assert DaysFromCivil(n.year, n.month, 1) == first + dim;
    ModAddLeft(first + 4, dim);
  }

  // ---------------------------------------------------------------------
  // The `Date` constructor as the component calls it. `new Date(y, m[, d])`
  // reads a year between 0 and 99 as 1900 + y before normalising the month,
  // so the navigation and the grid computed by the component differ from
  // the corrected functions above for those years.

  /** The year `new Date(y, ...)` actually uses. */
  function DateConstructorYear(y: int): int
  {
    if 0 <= y <= 99 then 1900 + y else y
  }

  function PrevMonthAsWritten(v: YearMonth): (r: YearMonth)
    requires v.Valid()
    ensures r.Valid()
  {
    MonthStart(DateConstructorYear(v.year), v.month - 1)
  }

  function NextMonthAsWritten(v: YearMonth): (r: YearMonth)
    requires v.Valid()
    ensures r.Valid()
  {
    MonthStart(DateConstructorYear(v.year), v.month + 1)
  }

  /** `new Date(year, month, 1).getDay()` as the component computes it. */
  function FirstWeekdayAsWritten(v: YearMonth): (w: int)
    requires v.Valid()
    ensures 0 <= w < 7
  {
    Weekday(DateConstructorYear(v.year), v.month, 1)
  }

  /** `new Date(year, month + 1, 0).getDate()` as the component computes it. */
  function DaysInMonthAsWritten(v: YearMonth): (n: int)
    requires v.Valid()
    ensures 28 <= n <= 31
  {
    DaysInMonth(DateConstructorYear(v.year), v.month)
  }

  /** Outside years 0..99 the component's navigation and grid agree with the
      corrected functions. */
  lemma AsWrittenAgreesOutsideTwoDigitYears(v: YearMonth)
    requires v.Valid() && !(0 <= v.year <= 99)
    ensures PrevMonthAsWritten(v) == PrevMonth(v)
    ensures NextMonthAsWritten(v) == NextMonth(v)
    ensures FirstWeekdayAsWritten(v) == FirstWeekday(v.year, v.month)
    ensures DaysInMonthAsWritten(v) == DaysInMonth(v.year, v.month)
  {
  }

  /** In years 0..99 the component's navigation and grid are those of the
      same month of 1900 + year. */
  lemma AsWrittenInTwoDigitYears(v: YearMonth)
    requires v.Valid() && 0 <= v.year <= 99
    ensures PrevMonthAsWritten(v) == PrevMonth(YearMonth(1900 + v.year, v.month))
    ensures NextMonthAsWritten(v) == NextMonth(YearMonth(1900 + v.year, v.month))
    ensures FirstWeekdayAsWritten(v) == FirstWeekday(1900 + v.year, v.month)
    ensures DaysInMonthAsWritten(v) == DaysInMonth(1900 + v.year, v.month)
  {
  }

  /** Away from years 0..99 the component's ">" and "<" undo each other. */
  lemma AsWrittenRoundTrip(v: YearMonth)
    requires v.Valid() && (v.year < -1 || v.year > 100)
    ensures PrevMonthAsWritten(NextMonthAsWritten(v)) == v
    ensures NextMonthAsWritten(PrevMonthAsWritten(v)) == v
  {
    AsWrittenAgreesOutsideTwoDigitYears(v);
    AsWrittenAgreesOutsideTwoDigitYears(NextMonth(v));
    AsWrittenAgreesOutsideTwoDigitYears(PrevMonth(v));
    NavigationRoundTrip(v);
  }

  /** February of year 0 is a leap month (0 is divisible by 400), but the
      component computes its length for 1900, which is not a leap year. */
  lemma TwoDigitYearFebruary()
    ensures DaysInMonthAsWritten(YearMonth(0, 1)) == 28
    ensures DaysInMonth(0, 1) == 29
  {
  }

  /** December of year 99 is reachable from January of year 100 with "<";
      from there ">" jumps to January 2000 instead of January 100, and "<"
      to November 1999 instead of November 99. */
  lemma TwoDigitYearNavigation()
    ensures PrevMonthAsWritten(YearMonth(100, 0)) == YearMonth(99, 11)
    ensures NextMonthAsWritten(YearMonth(99, 11)) == YearMonth(2000, 0)
    ensures NextMonth(YearMonth(99, 11)) == YearMonth(100, 0)
    ensures PrevMonthAsWritten(YearMonth(99, 11)) == YearMonth(1999, 10)
    ensures PrevMonth(YearMonth(99, 11)) == YearMonth(99, 10)
  {
    assert DateConstructorYear(100) == 100;
    assert DateConstructorYear(99) == 1999;
    assert MonthStart(100, -1) == YearMonth(99, 11);
    assert MonthStart(1999, 12) == YearMonth(2000, 0);
    assert MonthStart(1999, 10) == YearMonth(1999, 10);
  }

  /** The grid for December 99 starts on the weekday of 1 December 1999 (a
      Wednesday) instead of that of 1 December 99 (a Tuesday). */
  lemma TwoDigitYearGrid()
    ensures FirstWeekdayAsWritten(YearMonth(99, 11)) == 3
    ensures FirstWeekday(99, 11) == 2
  {
    assert DaysFromCivil(1999, 11, 1) == 10926;
    assert DaysFromCivil(99, 11, 1) == -683034;
  }
}
