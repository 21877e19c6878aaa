/** Calendar dates, their order, and calendar-month offsets that clamp the day
    to the length of the target month (the behaviour of a month `DateOffset`). */
module Dates {

  datatype Ymd = Ymd(year: int, month: int, day: int)

  predicate IsLeapYear(year: int) {
    (year % 4 == 0 && year % 100 != 0) || year % 400 == 0
  }

  function DaysInMonth(year: int, month: int): (n: int)
    ensures 28 <= n <= 31
    ensures month == 2 ==> (n == 29 <==> IsLeapYear(year))
  {
    if month == 2 then (if IsLeapYear(year) then 29 else 28)
    else if month == 4 || month == 6 || month == 9 || month == 11 then 30
    else 31
  }

  predicate IsCalendarDate(x: Ymd) {
    1 <= x.month <= 12 && 1 <= x.day <= DaysInMonth(x.year, x.month)
  }

  /** A day of the proleptic Gregorian calendar. */
  type Date = x: Ymd | IsCalendarDate(x) witness Ymd(1970, 1, 1)

  /** `a < b` on dates: lexicographic on (year, month, day). */
  predicate Before(a: Date, b: Date) {
    a.year < b.year || (a.year == b.year && (a.month < b.month || (a.month == b.month && a.day < b.day)))
  }

  /** Months elapsed since January of year 0. */
  function MonthIndex(x: Date): int {
    x.year * 12 + x.month - 1
  }

  function Min(a: int, b: int): int {
    if a <= b then a else b
  }

  /** The date in month number `i` whose day is `day`, clamped to the month's length. */
  function InMonth(i: int, day: int): (r: Date)
    requires day >= 1
    ensures MonthIndex(r) == i
    ensures r.day == Min(day, DaysInMonth(r.year, r.month))
  {
    var year := i / 12;
    var month := i % 12 + 1;
    Ymd(year, month, Min(day, DaysInMonth(year, month)))
  }

  /** `x + DateOffset(months=k)`. */
  function AddMonths(x: Date, k: nat): (r: Date)
    ensures MonthIndex(r) == MonthIndex(x) + k
    ensures r.day == Min(x.day, DaysInMonth(r.year, r.month))
  {
    InMonth(MonthIndex(x) + k, x.day)
  }

  /** `x - DateOffset(months=k)`. */
  function SubMonths(x: Date, k: nat): (r: Date)
    ensures MonthIndex(r) == MonthIndex(x) - k
    ensures r.day == Min(x.day, DaysInMonth(r.year, r.month))
  {
    InMonth(MonthIndex(x) - k, x.day)
  }

  /** The month number determines year and month. */
  lemma SameMonth(a: Date, b: Date)
    requires MonthIndex(a) == MonthIndex(b)
    ensures a.year == b.year && a.month == b.month
  {
  }

  /** Comparing month numbers agrees with comparing dates. */
  lemma MonthOrder(a: Date, b: Date)
    ensures MonthIndex(a) < MonthIndex(b) ==> Before(a, b)
    ensures Before(a, b) ==> MonthIndex(a) <= MonthIndex(b)
  {
  }

  /** `Before` is a strict total order. */
  lemma BeforeIsStrictTotalOrder(a: Date, b: Date, c: Date)
    ensures !Before(a, a)
    ensures Before(a, b) ==> !Before(b, a)
    ensures Before(a, b) && Before(b, c) ==> Before(a, c)
    ensures a != b ==> Before(a, b) || Before(b, a)
  {
  }

  /** Shifting by zero months is the identity. */
  lemma ShiftByZero(x: Date)
    ensures AddMonths(x, 0) == x && SubMonths(x, 0) == x
  {
    SameMonth(AddMonths(x, 0), x);
    SameMonth(SubMonths(x, 0), x);
  }

  /** A shift by at least one month moves strictly forward or backward. */
  lemma ShiftMoves(x: Date, k: nat)
    requires k >= 1
    ensures Before(x, AddMonths(x, k))
    ensures Before(SubMonths(x, k), x)
  {
    MonthOrder(x, AddMonths(x, k));
    MonthOrder(SubMonths(x, k), x);
  }

  /** Month starts stay month starts under month shifts. */
  lemma MonthStartsStay(x: Date, k: nat)
    requires x.day == 1
    ensures AddMonths(x, k).day == 1 && SubMonths(x, k).day == 1
  {
  }

  /** Going forward then back by the same number of months restores every date
      whose day exists in all months. */
  lemma ShiftBackUndoesShift(x: Date, k: nat)
    requires x.day <= 28
    ensures SubMonths(AddMonths(x, k), k) == x
  {
    var y := AddMonths(x, k);
    var z := SubMonths(y, k);
    assert y.day == x.day;
    assert MonthIndex(z) == MonthIndex(x);
    SameMonth(z, x);
  }

  /** A month shift clamps a month end: 31 January + 1 month is the last day of February. */
  lemma MonthEndClamps(x: Date)
    requires x.month == 1 && x.day == 31
    ensures AddMonths(x, 1) == Ymd(x.year, 2, DaysInMonth(x.year, 2))
  {
    var y := AddMonths(x, 1);
    var feb: Date := Ymd(x.year, 2, 1);
    assert MonthIndex(y) == MonthIndex(feb);
    SameMonth(y, feb);
  }

  /** ... so going forward then back does not restore a month end:
      31 January + 1 month - 1 month is 28 (or 29) January. */
  lemma ShiftBackLosesMonthEnd(x: Date)
    requires x.month == 1 && x.day == 31
    ensures SubMonths(AddMonths(x, 1), 1) == Ymd(x.year, 1, DaysInMonth(x.year, 2))
    ensures SubMonths(AddMonths(x, 1), 1) != x
  {
    MonthEndClamps(x);
    var z := SubMonths(AddMonths(x, 1), 1);
    var jan: Date := Ymd(x.year, 1, 1);
    assert MonthIndex(z) == MonthIndex(jan);
    SameMonth(z, jan);
  }
}
