/** Calendar dates as Python's `datetime.date` sees them: the proleptic
    Gregorian calendar restricted to years 1..9999, ordered field by field,
    with day arithmetic through the day number (ordinal) of 0001-01-01 == 1. */
module Dates {
  import opened Results

  const MinYear := 1
  const MaxYear := 9999

  datatype Date = Date(year: int, month: int, day: int)

  /** The last representable date; adding days beyond it overflows. */
  const LastDate := Date(MaxYear, 12, 31)

  predicate IsLeapYear(y: int)
  {
    y % 4 == 0 && (y % 100 != 0 || y % 400 == 0)
  }

  function DaysInMonth(y: int, m: int): int
  {
    if m == 2 then (if IsLeapYear(y) then 29 else 28)
    else if m == 4 || m == 6 || m == 9 || m == 11 then 30
    else 31
  }

  function DaysInYear(y: int): int
  {
    if IsLeapYear(y) then 366 else 365
  }

  /** A date `datetime.date` accepts. */
  predicate ValidDate(d: Date)
  {
    MinYear <= d.year <= MaxYear && 1 <= d.month <= 12 && 1 <= d.day <= DaysInMonth(d.year, d.month)
  }

  /** Strictly earlier: Python compares dates as (year, month, day) tuples. */
  predicate Before(a: Date, b: Date)
  {
    a.year < b.year
    || (a.year == b.year && a.month < b.month)
    || (a.year == b.year && a.month == b.month && a.day < b.day)
  }

  /** Days in the years 1 .. y-1 (closed form, leap rule of the Gregorian calendar). */
  function DaysBeforeYear(y: int): int
    requires y >= 1
  {
    var p := y - 1;
    p * 365 + p / 4 - p / 100 + p / 400
  }

  /** Days in the months 1 .. m-1 of year y. */
  function DaysBeforeMonth(y: int, m: int): int
    requires 1 <= m <= 12
  {
    var common := [0, 31, 59, 90, 120, 151, 181, 212, 243, 273, 304, 334][m - 1];
    common + (if m > 2 && IsLeapYear(y) then 1 else 0)
  }

  /** Day number of a date, 0001-01-01 being day 1. */
  function Ordinal(d: Date): int
    requires ValidDate(d)
  {
    DaysBeforeYear(d.year) + DaysBeforeMonth(d.year, d.month) + d.day
  }

  lemma YearLength(y: int)
    requires y >= 1
    ensures DaysBeforeYear(y + 1) == DaysBeforeYear(y) + DaysInYear(y)
  {
    var p := y - 1;
    assert y / 4 == p / 4 + (if y % 4 == 0 then 1 else 0);
    assert y / 100 == p / 100 + (if y % 100 == 0 then 1 else 0);
    assert y / 400 == p / 400 + (if y % 400 == 0 then 1 else 0);
  }

  lemma MonthLength(y: int, m: int)
    requires 1 <= m <= 12
    ensures m < 12 ==> DaysBeforeMonth(y, m + 1) == DaysBeforeMonth(y, m) + DaysInMonth(y, m)
    ensures m == 12 ==> DaysBeforeMonth(y, m) + DaysInMonth(y, m) == DaysInYear(y)
  {
  }

  /** Every year starts after all days of every earlier year. */
  lemma {:induction false} YearsAscend(y1: int, y2: int)
    requires 1 <= y1 < y2
    ensures DaysBeforeYear(y1) + DaysInYear(y1) <= DaysBeforeYear(y2)
    decreases y2 - y1
  {
    YearLength(y1);
    if y1 + 1 < y2 {
      YearsAscend(y1 + 1, y2);
    }
  }

  /** Within a year a day number is a position 1 .. DaysInYear. */
  lemma DayOfYearBounds(d: Date)
    requires ValidDate(d)
    ensures 1 <= DaysBeforeMonth(d.year, d.month) + d.day <= DaysInYear(d.year)
  {
  }

  /** Within a year, a later month starts after every day of an earlier month. */
  lemma MonthsAscend(y: int, m1: int, m2: int)
    requires 1 <= m1 < m2 <= 12
    ensures DaysBeforeMonth(y, m1) + DaysInMonth(y, m1) <= DaysBeforeMonth(y, m2)
  {
  }

  /** The field-wise order of dates is exactly the order of their day numbers. */
  lemma OrdinalOrder(a: Date, b: Date)
    requires ValidDate(a) && ValidDate(b)
    ensures Before(a, b) <==> Ordinal(a) < Ordinal(b)
    ensures a == b <==> Ordinal(a) == Ordinal(b)
  {
    if a.year < b.year {
      DayOfYearBounds(a);
      YearsAscend(a.year, b.year);
    } else if b.year < a.year {
      DayOfYearBounds(b);
      YearsAscend(b.year, a.year);
    } else if a.month < b.month {
      MonthsAscend(a.year, a.month, b.month);
    } else if b.month < a.month {
      MonthsAscend(a.year, b.month, a.month);
    }
  }

  /** The first day of the month after d's month, or None past the last year. */
  function NextMonthStart(d: Date): (r: Option<Date>)
    requires ValidDate(d)
    ensures r.Some? <==> d.year < MaxYear || d.month < 12
    ensures r.Some? ==> ValidDate(r.value) && r.value.day == 1
    ensures r.Some? ==> Ordinal(r.value) == Ordinal(d) + DaysInMonth(d.year, d.month) - d.day + 1
  {
    if d.month < 12 then
      MonthLength(d.year, d.month);
      Some(Date(d.year, d.month + 1, 1))
    else if d.year < MaxYear then
      MonthLength(d.year, d.month);
      YearLength(d.year);
      Some(Date(d.year + 1, 1, 1))
    else
      None
  }

  /** `d + timedelta(days=n)`: the date n calendar days later, crossing month
      and year ends, or None when it would lie after 9999-12-31 (Python's
      OverflowError). */
  function AddDays(d: Date, n: nat): (r: Option<Date>)
    requires ValidDate(d)
    ensures r.Some? <==> Ordinal(d) + n <= Ordinal(LastDate)
    ensures r.Some? ==> ValidDate(r.value) && Ordinal(r.value) == Ordinal(d) + n
    decreases n
  {
    var len := DaysInMonth(d.year, d.month);
    if d.day + n <= len then
      Some(Date(d.year, d.month, d.day + n))
    else
      var next := NextMonthStart(d);
      if next.Some? then
        AddDays(next.value, n - (len - d.day + 1))
      else
        None
  }

  /** Adding a positive number of days moves strictly later. */
  lemma AddDaysIsLater(d: Date, n: nat)
    requires ValidDate(d) && n > 0
    requires AddDays(d, n).Some?
    ensures Before(d, AddDays(d, n).value)
  {
    OrdinalOrder(d, AddDays(d, n).value);
  }
}
