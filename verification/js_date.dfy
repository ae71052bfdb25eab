/** The part of JavaScript's `Date` the aggregator relies on: the
    proleptic Gregorian day count of section 21.4.1 of ECMA-262 (DayFromYear,
    MakeDay, TimeClip) and the local-time constructor `new Date(y, m, d)`.
    The local time zone is a fixed offset in milliseconds (local minus UTC),
    passed in by the caller. */
module JsDate {
  import opened Wrappers

  const MsPerDay: int := 86400000

  /** The largest magnitude a time value may have. */
  const MaxTime: int := 8640000000000000

  predicate LeapYear(y: int) {
    y % 4 == 0 && (y % 100 != 0 || y % 400 == 0)
  }

  function DaysInYear(y: int): int {
    if LeapYear(y) then 366 else 365
  }

  /** Day number of 1 January of year `y`, counted from 1 January 1970. */
  function DayFromYear(y: int): int {
    365 * (y - 1970) + (y - 1969) / 4 - (y - 1901) / 100 + (y - 1601) / 400
  }

  /** Length of the 0-based month `mn` in a common year. */
  function CommonMonthLength(mn: int): int
    requires 0 <= mn < 12
  {
    if mn == 1 then 28
    else if mn == 3 || mn == 5 || mn == 8 || mn == 10 then 30
    else 31
  }

  /** Days before the 0-based month `mn` in a common year. */
  function CommonMonthStart(mn: int): int
    requires 0 <= mn < 12
  {
    if mn == 0 then 0 else if mn == 1 then 31 else if mn == 2 then 59
    else if mn == 3 then 90 else if mn == 4 then 120 else if mn == 5 then 151
    else if mn == 6 then 181 else if mn == 7 then 212 else if mn == 8 then 243
    else if mn == 9 then 273 else if mn == 10 then 304 else 334
  }

  function DaysInMonth(y: int, mn: int): int
    requires 0 <= mn < 12
  {
    CommonMonthLength(mn) + if LeapYear(y) && mn == 1 then 1 else 0
  }

  function MonthStart(y: int, mn: int): int
    requires 0 <= mn < 12
  {
    CommonMonthStart(mn) + if LeapYear(y) && mn >= 2 then 1 else 0
  }

  /** `MakeDay(year, month, date)`: a month outside 0..11 carries into the
      year (floor division), a date past the month's end into later months. */
  function MakeDay(year: int, month: int, date: int): int {
    var ym := year + month / 12;
    DayFromYear(ym) + MonthStart(ym, month % 12) + date - 1
  }

  /** `TimeClip`: `None` stands for the invalid date (`NaN`). */
  function TimeClip(t: int): (r: Option<int>)
    ensures r.Some? <==> -MaxTime <= t <= MaxTime
    ensures r.Some? ==> r.value == t
  {
    if t < -MaxTime || t > MaxTime then None else Some(t)
  }

  /** `new Date(year, month, date)` in a zone `offset` milliseconds ahead of
      UTC; years 0 to 99 stand for 1900 to 1999. */
  function LocalDate(year: int, month: int, date: int, offset: int): Option<int> {
    var y := if 0 <= year <= 99 then 1900 + year else year;
    TimeClip(MakeDay(y, month, date) * MsPerDay - offset)
  }

  /** A calendar date with a 1-based month. */
  datatype Civil = Civil(year: int, month: int, day: int)

  predicate ValidCivil(c: Civil) {
    1 <= c.month <= 12 && 1 <= c.day <= DaysInMonth(c.year, c.month - 1)
  }

  /** Strictly earlier in the calendar: by year, then month, then day. */
  predicate CivilBefore(a: Civil, b: Civil) {
    a.year < b.year
    || (a.year == b.year && a.month < b.month)
    || (a.year == b.year && a.month == b.month && a.day < b.day)
  }

  function DayNumber(c: Civil): int {
    MakeDay(c.year, c.month - 1, c.day)
  }

  // ------------------------------------------------------------- lemmas

  /** One year later the day count has grown by that year's length. */
  lemma DayFromYearStep(y: int)
    ensures DayFromYear(y + 1) == DayFromYear(y) + DaysInYear(y)
  {
    FourStep(y);
    CenturyStep(y);
    QuadCenturyStep(y);
    Divides(y);
  }

  /** The 4-year term grows exactly when `y` is divisible by 4. */
  lemma FourStep(y: int)
    ensures (y - 1968) / 4 - (y - 1969) / 4 == if y % 4 == 0 then 1 else 0
  {
  }

  lemma CenturyStep(y: int)
    ensures (y - 1900) / 100 - (y - 1901) / 100 == if y % 100 == 0 then 1 else 0
  {
  }

  lemma QuadCenturyStep(y: int)
    ensures (y - 1600) / 400 - (y - 1601) / 400 == if y % 400 == 0 then 1 else 0
  {
  }

  lemma Divides(y: int)
    ensures y % 400 == 0 ==> y % 100 == 0
    ensures y % 100 == 0 ==> y % 4 == 0
  {
  }

  /** Every later year starts after the whole of year `y`. */
  lemma {:induction false} YearsIncrease(y: int, z: int)
    requires y < z
    ensures DayFromYear(y) + DaysInYear(y) <= DayFromYear(z)
    decreases z - y
  {
    DayFromYearStep(y);
    if y + 1 < z {
      YearsIncrease(y + 1, z);
    }
  }

  lemma MonthsIncrease(y: int, i: int, j: int)
    requires 0 <= i < j < 12
    ensures MonthStart(y, i) + DaysInMonth(y, i) <= MonthStart(y, j)
  {
  }

  lemma MonthWithinYear(y: int, i: int)
    requires 0 <= i < 12
    ensures MonthStart(y, i) + DaysInMonth(y, i) <= DaysInYear(y)
  {
  }

  /** A valid date in range: no month carry. */
  lemma DayNumberOfValid(c: Civil)
    requires ValidCivil(c)
    ensures DayNumber(c) == DayFromYear(c.year) + MonthStart(c.year, c.month - 1) + c.day - 1
  {
    assert (c.month - 1) / 12 == 0 && (c.month - 1) % 12 == c.month - 1;
  }

  /** The day count of a valid date lies within its year. */
  lemma DayNumberInYear(c: Civil)
    requires ValidCivil(c)
    ensures DayFromYear(c.year) <= DayNumber(c) < DayFromYear(c.year) + DaysInYear(c.year)
  {
    DayNumberOfValid(c);
    MonthWithinYear(c.year, c.month - 1);
  }

  lemma BeforeLess(a: Civil, b: Civil)
    requires ValidCivil(a) && ValidCivil(b) && CivilBefore(a, b)
    ensures DayNumber(a) < DayNumber(b)
  {
    if a.year < b.year {
      DayNumberInYear(a);
      DayNumberInYear(b);
      YearsIncrease(a.year, b.year);
    } else if a.month < b.month {
      MonthBefore(a, b);
    } else {
      DayNumberOfValid(a);
      DayNumberOfValid(b);
    }
  }

  lemma MonthBefore(a: Civil, b: Civil)
    requires ValidCivil(a) && ValidCivil(b) && a.year == b.year && a.month < b.month
    ensures DayNumber(a) < DayNumber(b)
  {
    DayNumberOfValid(a);
    DayNumberOfValid(b);
    MonthsIncrease(a.year, a.month - 1, b.month - 1);
  }

  /** Day numbers follow the calendar: of two valid dates the earlier one
      has the smaller number, and different dates have different numbers. */
  lemma CivilOrder(a: Civil, b: Civil)
    requires ValidCivil(a) && ValidCivil(b)
    ensures DayNumber(a) < DayNumber(b) <==> CivilBefore(a, b)
    ensures DayNumber(a) == DayNumber(b) <==> a == b
  {
    if CivilBefore(a, b) {
      BeforeLess(a, b);
    } else if CivilBefore(b, a) {
      BeforeLess(b, a);
    }
  }
}
