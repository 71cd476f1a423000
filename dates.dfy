/**
 * Calendar dates as whole day numbers, standing in for JavaScript `Date` values taken at
 * local midnight. Day 0 is 1970-01-01, a Thursday. The civil calendar (year, month 0..11,
 * day of month) is the proleptic Gregorian one that `Date` uses.
 */
module Dates {

  /** A date as a day number; consecutive dates differ by one. */
  type Day = int

  /** `date.getDay()`: 0 is Sunday, 6 is Saturday. */
  function Weekday(d: Day): (w: int)
    ensures 0 <= w < 7
  {
    (d + 4) % 7
  }

  /** The weekday advances by one, wrapping from Saturday to Sunday. */
  lemma WeekdayNext(d: Day)
    ensures Weekday(d + 1) == if Weekday(d) == 6 then 0 else Weekday(d) + 1
  {
  }

  predicate IsLeapYear(y: int) {
    y % 4 == 0 && (y % 100 != 0 || y % 400 == 0)
  }

  /** `new Date(y, m + 1, 0).getDate()`: the length of month m (0 = January). */
  function DaysInMonth(y: int, m: int): (n: int)
    requires 0 <= m < 12
    ensures 28 <= n <= 31
    ensures n == 29 <==> m == 1 && IsLeapYear(y)
  {
    if m == 1 then (if IsLeapYear(y) then 29 else 28)
    else if m == 3 || m == 5 || m == 8 || m == 10 then 30
    else 31
  }

  /** Days of year y before the first of month m. */
  function DaysBeforeMonth(y: int, m: int): int
    requires 0 <= m <= 12
  {
    [0, 31, 59, 90, 120, 151, 181, 212, 243, 273, 304, 334, 365][m]
      + (if m >= 2 && IsLeapYear(y) then 1 else 0)
  }

  function DaysInYear(y: int): int {
    if IsLeapYear(y) then 366 else 365
  }

  /** The day number of January 1st of year y. */
  function YearStart(y: int): Day
    decreases if y < 1970 then 1970 - y else y - 1970
  {
    if y == 1970 then 0
    else if y > 1970 then YearStart(y - 1) + DaysInYear(y - 1)
    else YearStart(y + 1) - DaysInYear(y)
  }

  /** The day number of the first of month m of year y. */
  function MonthStart(y: int, m: int): Day
    requires 0 <= m < 12
  {
    YearStart(y) + DaysBeforeMonth(y, m)
  }

  /** A month counted from year 0: `12 * year + month`. */
  function MonthIndex(y: int, m: int): int {
    12 * y + m
  }

  /** `new Date(y, m, d)` at local midnight; an out-of-range month or day rolls over. */
  function DayNumber(y: int, m: int, d: int): Day {
    MonthStart(y + m / 12, m % 12) + d - 1
  }

  lemma YearStartNext(y: int)
    ensures YearStart(y + 1) == YearStart(y) + DaysInYear(y)
  {
  }

  /** The month after m of year y starts right after the last day of m. */
  lemma MonthStartNext(y: int, m: int)
    requires 0 <= m < 12
    ensures m < 11 ==> MonthStart(y, m + 1) == MonthStart(y, m) + DaysInMonth(y, m)
    ensures m == 11 ==> MonthStart(y + 1, 0) == MonthStart(y, m) + DaysInMonth(y, m)
  {
    if m == 11 {
      YearStartNext(y);
    }
  }

  /** `DayNumber` agrees with `MonthStart` on in-range months, and the day after the last
      day of a month is the first of the next month. */
  lemma DayNumberNormal(y: int, m: int, d: int)
    requires 0 <= m < 12
    ensures DayNumber(y, m, d) == MonthStart(y, m) + d - 1
    ensures DayNumber(y, m + 1, d) == MonthStart(y, m) + DaysInMonth(y, m) + d - 1
  {
    MonthStartNext(y, m);
    if m == 11 {
      assert (m + 1) / 12 == 1 && (m + 1) % 12 == 0;
    } else {
      assert (m + 1) / 12 == 0 && (m + 1) % 12 == m + 1;
    }
  }

  /** A date as `getFullYear()`, `getMonth()` (0 = January) and `getDate()` report it. */
  datatype CivilDate = CivilDate(year: int, month: int, day: int)

  predicate ValidCivil(c: CivilDate) {
    0 <= c.month < 12 && 1 <= c.day <= DaysInMonth(c.year, c.month)
  }

  /** The day number of a valid civil date. */
  function DayOf(c: CivilDate): Day
    requires 0 <= c.month < 12
  {
    MonthStart(c.year, c.month) + c.day - 1
  }

  /** The civil date `offset` days after the first of month m of year y. */
  function CivilAfter(y: int, m: int, offset: nat): (c: CivilDate)
    requires 0 <= m < 12
    ensures ValidCivil(c) && DayOf(c) == MonthStart(y, m) + offset
    decreases offset
  {
    var n := DaysInMonth(y, m);
    if offset < n then CivilDate(y, m, offset + 1)
    else
      MonthStartNext(y, m);
      if m == 11 then CivilAfter(y + 1, 0, offset - n) else CivilAfter(y, m + 1, offset - n)
  }

  /** The civil date `back` days before the first of month m of year y. */
  function CivilBefore(y: int, m: int, back: nat): (c: CivilDate)
    requires 0 <= m < 12 && back >= 1
    ensures ValidCivil(c) && DayOf(c) == MonthStart(y, m) - back
    decreases back
  {
    var py := if m == 0 then y - 1 else y;
    var pm := if m == 0 then 11 else m - 1;
    var n := DaysInMonth(py, pm);
    MonthStartNext(py, pm);
    if back <= n then CivilDate(py, pm, n - back + 1) else CivilBefore(py, pm, back - n)
  }

  /** Every day number is the day number of some valid civil date. */
  lemma CivilExists(d: Day)
    ensures exists c :: ValidCivil(c) && DayOf(c) == d
  {
    assert MonthStart(1970, 0) == 0;
    var c := if d >= 0 then CivilAfter(1970, 0, d) else CivilBefore(1970, 0, -d);
    assert ValidCivil(c) && DayOf(c) == d;
  }

  /** The civil date of day number d (what the getters of a `Date` report): the one valid
      civil date with that day number. */
  function CivilOf(d: Day): (c: CivilDate)
    ensures ValidCivil(c) && DayOf(c) == d
  {
    CivilExists(d);
    CivilDatesAreDistinct();
    var c :| ValidCivil(c) && DayOf(c) == d; c
  }

  /** A later month starts no earlier than the day after the last day of an earlier one. */
  lemma {:induction false} MonthStartGap(y1: int, m1: int, y2: int, m2: int)
    requires 0 <= m1 < 12 && 0 <= m2 < 12
    requires MonthIndex(y1, m1) < MonthIndex(y2, m2)
    ensures MonthStart(y2, m2) >= MonthStart(y1, m1) + DaysInMonth(y1, m1)
    decreases MonthIndex(y2, m2) - MonthIndex(y1, m1)
  {
    MonthStartNext(y1, m1);
    var ny := if m1 == 11 then y1 + 1 else y1;
    var nm := if m1 == 11 then 0 else m1 + 1;
    if MonthIndex(ny, nm) != MonthIndex(y2, m2) {
      MonthStartGap(ny, nm, y2, m2);
    } else {
      assert ny == y2 && nm == m2;
    }
  }

  /** Two valid civil dates with the same day number are the same date. */
  lemma DayOfInjective(c1: CivilDate, c2: CivilDate)
    requires ValidCivil(c1) && ValidCivil(c2) && DayOf(c1) == DayOf(c2)
    ensures c1 == c2
  {
    if MonthIndex(c1.year, c1.month) < MonthIndex(c2.year, c2.month) {
      MonthStartGap(c1.year, c1.month, c2.year, c2.month);
    } else if MonthIndex(c2.year, c2.month) < MonthIndex(c1.year, c1.month) {
      MonthStartGap(c2.year, c2.month, c1.year, c1.month);
    } else {
      assert c1.year == c2.year && c1.month == c2.month;
    }
  }

  /** Distinct valid civil dates have distinct day numbers. */
  lemma CivilDatesAreDistinct()
    ensures forall c1, c2 :: ValidCivil(c1) && ValidCivil(c2) && DayOf(c1) == DayOf(c2) ==> c1 == c2
  {
    forall c1, c2 | ValidCivil(c1) && ValidCivil(c2) && DayOf(c1) == DayOf(c2) ensures c1 == c2 {
      DayOfInjective(c1, c2);
    }
  }

  /** Converting a valid civil date to a day number and back gives the date again. */
  lemma CivilRoundTrip(c: CivilDate)
    requires ValidCivil(c)
    ensures CivilOf(DayOf(c)) == c
  {
    DayOfInjective(CivilOf(DayOf(c)), c);
  }

  /** A day number inside month m of year y has that month as its civil month. */
  lemma CivilOfInMonth(y: int, m: int, d: Day)
    requires 0 <= m < 12
    requires MonthStart(y, m) <= d < MonthStart(y, m) + DaysInMonth(y, m)
    ensures CivilOf(d) == CivilDate(y, m, d - MonthStart(y, m) + 1)
  {
    DayOfInjective(CivilOf(d), CivilDate(y, m, d - MonthStart(y, m) + 1));
  }

  /** Month m + n of year y, normalised the way `Date` does: year and month 0..11. */
  function AddMonths(y: int, m: int, n: int): (t: (int, int))
    ensures 0 <= t.1 < 12
    ensures MonthIndex(t.0, t.1) == MonthIndex(y, m) + n
  {
    (y + (m + n) / 12, (m + n) % 12)
  }

  /** Two months with the same index are the same month. */
  lemma MonthIndexInjective(y1: int, m1: int, y2: int, m2: int)
    requires 0 <= m1 < 12 && 0 <= m2 < 12
    requires MonthIndex(y1, m1) == MonthIndex(y2, m2)
    ensures y1 == y2 && m1 == m2
  {
  }

  /** `date.setMonth(month)` on a date of year y with day of month d: the same day of the
      given month, rolled over into the next month when that month is shorter. */
  function SetMonth(y: int, month: int, d: int): (c: CivilDate)
    ensures ValidCivil(c)
  {
    CivilOf(DayNumber(y, month, d))
  }

  /** Moving n months from month m keeps the day of month when the target month has it. */
  lemma SetMonthKeepsDay(y: int, m: int, n: int, d: int)
    requires var t := AddMonths(y, m, n); 1 <= d <= DaysInMonth(t.0, t.1)
    ensures var t := AddMonths(y, m, n); SetMonth(y, m + n, d) == CivilDate(t.0, t.1, d)
  {
    var t := AddMonths(y, m, n);
    assert DayNumber(y, m + n, d) == MonthStart(t.0, t.1) + d - 1;
    CivilOfInMonth(t.0, t.1, DayNumber(y, m + n, d));
  }

  /** `new Date(y, m + 1, 0)`: day 0 of the next month is the last day of month m. */
  lemma LastDayOfMonth(y: int, m: int)
    requires 0 <= m < 12
    ensures DayNumber(y, m + 1, 0) == MonthStart(y, m) + DaysInMonth(y, m) - 1
    ensures CivilOf(DayNumber(y, m + 1, 0)) == CivilDate(y, m, DaysInMonth(y, m))
  {
    DayNumberNormal(y, m, 0);
    CivilOfInMonth(y, m, DayNumber(y, m + 1, 0));
  }
}
