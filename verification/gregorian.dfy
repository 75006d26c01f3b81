/**
 * Gregorian arithmetic used by the Phase Calendar: the leap rule, year
 * lengths, (year, day-of-year) ordinals, and the month table that replaces
 * JavaScript's `Date` for month/day conversions.
 */
module Gregorian {

  /** The Gregorian leap rule. A zero test of a remainder is the same under
      JavaScript's truncating `%` and Dafny's Euclidean `%`, so this holds for
      negative years too. */
  predicate IsLeapYear(year: int) {
    (year % 4 == 0 && year % 100 != 0) || year % 400 == 0
  }

  function DaysInYear(year: int): (n: int)
    ensures n == 365 || n == 366
    ensures n == 366 <==> IsLeapYear(year)
  {
    if IsLeapYear(year) then 366 else 365
  }

  /** A calendar day as the source keys it: `"<year>-<dayOfYear>"`. */
  datatype YearDay = YearDay(year: int, day: int) {
    predicate Valid() {
      1 <= day <= DaysInYear(year)
    }
  }

  /** Strict chronological order of two ordinals (comparison of `getTime()`). */
  predicate Before(a: YearDay, b: YearDay) {
    a.year < b.year || (a.year == b.year && a.day < b.day)
  }

  /** Length of month `month`, numbered from 0 (January) as JavaScript does. */
  function DaysInMonth(year: int, month: int): (n: int)
    requires 0 <= month < 12
    ensures 28 <= n <= 31
    ensures n == 29 <==> month == 1 && IsLeapYear(year)
  {
    if month == 1 then (if IsLeapYear(year) then 29 else 28)
    else if month == 3 || month == 5 || month == 8 || month == 10 then 30
    else 31
  }

  /** Number of days in the months that precede `month`. */
  function DaysBeforeMonth(year: int, month: int): int
    requires 0 <= month <= 12
  {
    if month == 0 then 0 else DaysBeforeMonth(year, month - 1) + DaysInMonth(year, month - 1)
  }

  /** The twelve months together make up the year. */
  lemma {:induction false} MonthsFillYear(year: int)
    ensures DaysBeforeMonth(year, 12) == DaysInYear(year)
  {
    var feb := DaysInMonth(year, 1);
    assert DaysBeforeMonth(year, 1) == 31;
    assert DaysBeforeMonth(year, 2) == 31 + feb;
    assert DaysBeforeMonth(year, 3) == 62 + feb;
    assert DaysBeforeMonth(year, 4) == 92 + feb;
    assert DaysBeforeMonth(year, 5) == 123 + feb;
    assert DaysBeforeMonth(year, 6) == 153 + feb;
    assert DaysBeforeMonth(year, 7) == 184 + feb;
    assert DaysBeforeMonth(year, 8) == 215 + feb;
    assert DaysBeforeMonth(year, 9) == 245 + feb;
    assert DaysBeforeMonth(year, 10) == 276 + feb;
    assert DaysBeforeMonth(year, 11) == 306 + feb;
  }

  /** Later months start later: the month boundaries are strictly increasing. */
  lemma {:induction false} DaysBeforeMonthMonotone(year: int, m: int, n: int)
    requires 0 <= m <= n <= 12
    ensures DaysBeforeMonth(year, n) - DaysBeforeMonth(year, m) >= 28 * (n - m)
  {
    if m < n {
      DaysBeforeMonthMonotone(year, m, n - 1);
    }
  }

  /** `getDayOfYear`: the 1-based day of the year of a Gregorian date, counted
      from day 0 of January (December 31 of the previous year). */
  function GetDayOfYear(year: int, month: int, dayOfMonth: int): (d: int)
    requires 0 <= month < 12 && 1 <= dayOfMonth <= DaysInMonth(year, month)
    ensures 1 <= d <= DaysInYear(year)
    ensures month == 0 ==> d == dayOfMonth
    ensures month == 11 && dayOfMonth == 31 ==> d == DaysInYear(year)
  {
    DaysBeforeMonthMonotone(year, 0, month);
    DaysBeforeMonthMonotone(year, month + 1, 12);
    MonthsFillYear(year);
    DaysBeforeMonth(year, month) + dayOfMonth
  }

  /** Month and day of month of the `day`-th day of the year, searching the
      month table from `month` on. */
  function MonthDayFrom(year: int, day: int, month: int): (md: (int, int))
    requires 0 <= month < 12
    requires 1 <= day <= DaysInYear(year) - DaysBeforeMonth(year, month)
    ensures month <= md.0 < 12 && 1 <= md.1 <= DaysInMonth(year, md.0)
    ensures DaysBeforeMonth(year, md.0) + md.1 == DaysBeforeMonth(year, month) + day
    decreases 12 - month
  {
    if day <= DaysInMonth(year, month) then (month, day)
    else if month == 11 then
      MonthsFillYear(year);
      assert false;
      (month, day)
    else MonthDayFrom(year, day - DaysInMonth(year, month), month + 1)
  }

  /** The (month, day of month) of a valid ordinal: what `getMonth()` and
      `getDate()` read from `new Date(year, 0)` after `setDate(day)`. */
  function MonthDay(year: int, day: int): (md: (int, int))
    requires 1 <= day <= DaysInYear(year)
    ensures 0 <= md.0 < 12 && 1 <= md.1 <= DaysInMonth(year, md.0)
    ensures GetDayOfYear(year, md.0, md.1) == day
  {
    MonthDayFrom(year, day, 0)
  }

  /** Two month/day pairs with the same day of the year are the same pair. */
  lemma GetDayOfYearInjective(year: int, m1: int, d1: int, m2: int, d2: int)
    requires 0 <= m1 < 12 && 1 <= d1 <= DaysInMonth(year, m1)
    requires 0 <= m2 < 12 && 1 <= d2 <= DaysInMonth(year, m2)
    requires GetDayOfYear(year, m1, d1) == GetDayOfYear(year, m2, d2)
    ensures m1 == m2 && d1 == d2
  {
    if m1 < m2 {
      DaysBeforeMonthMonotone(year, m1 + 1, m2);
      assert false;
    } else if m2 < m1 {
      DaysBeforeMonthMonotone(year, m2 + 1, m1);
      assert false;
    }
  }

  /** `MonthDay` inverts `GetDayOfYear`. */
  lemma MonthDayRoundTrip(year: int, month: int, dayOfMonth: int)
    requires 0 <= month < 12 && 1 <= dayOfMonth <= DaysInMonth(year, month)
    ensures MonthDay(year, GetDayOfYear(year, month, dayOfMonth)) == (month, dayOfMonth)
  {
    var md := MonthDay(year, GetDayOfYear(year, month, dayOfMonth));
    GetDayOfYearInjective(year, md.0, md.1, month, dayOfMonth);
  }
}
