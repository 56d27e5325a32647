/**
 * The proleptic Gregorian calendar as Python's `datetime` module sees it:
 * which (year, month, day) triples it accepts, how dates compare, the
 * ordinal day number and the day of the week (Monday is 0).
 */
module Calendar {

  datatype Date = Date(year: int, month: int, day: int)

  /** The year range `datetime` accepts (MINYEAR and MAXYEAR). */
  const MinYear: int := 1
  const MaxYear: int := 9999

  /** The Gregorian leap-year rule used by `datetime`. */
  predicate IsLeapYear(y: int)
  {
    y % 4 == 0 && (y % 100 != 0 || y % 400 == 0)
  }

  /** Number of days of month `m` of year `y` (every month but 2 is 30 or 31 by its number). */
  function DaysInMonth(y: int, m: int): (n: int)
    ensures 28 <= n <= 31
    ensures n == 29 <==> m == 2 && IsLeapYear(y)
  {
    if m == 4 || m == 6 || m == 9 || m == 11 then 30
    else if m == 2 then (if IsLeapYear(y) then 29 else 28)
    else 31
  }

  /** A date that the `datetime(year, month, day)` constructor accepts without raising. */
  predicate IsValidDate(d: Date)
  {
    MinYear <= d.year <= MaxYear && 1 <= d.month <= 12 && 1 <= d.day <= DaysInMonth(d.year, d.month)
  }

  /** Chronological order of dates (tuple order on year, month, day). */
  predicate Before(a: Date, b: Date)
  {
    a.year < b.year
    || (a.year == b.year && a.month < b.month)
    || (a.year == b.year && a.month == b.month && a.day < b.day)
  }

  predicate NotAfter(a: Date, b: Date)
  {
    a == b || Before(a, b)
  }

  /** Days in the years before year `y` (Python's `_days_before_year`). */
  function DaysBeforeYear(y: int): int
  {
    var p := y - 1;
    365 * p + p / 4 - p / 100 + p / 400
  }

  /** Days in the months of year `y` before month `m`. */
  function DaysBeforeMonth(y: int, m: int): int
    decreases m
  {
    if m <= 1 then 0 else DaysBeforeMonth(y, m - 1) + DaysInMonth(y, m - 1)
  }

  /** The proleptic Gregorian ordinal: 1 January of year 1 is day 1 (`date.toordinal()`). */
  function Ordinal(d: Date): int
  {
    DaysBeforeYear(d.year) + DaysBeforeMonth(d.year, d.month) + d.day
  }

  /** Day of the week, Monday 0 to Sunday 6 (`date.weekday()`). */
  function Weekday(d: Date): (w: int)
    ensures 0 <= w < 7
  {
    (Ordinal(d) + 6) % 7
  }

  /** Monday to Friday; Saturday is 5 and Sunday 6. */
  predicate IsWorkingDay(d: Date)
  {
    Weekday(d) < 5
  }

  /**
   * Adding `k` to the day field adds `k` to the ordinal. This is an
   * identity of the formula and holds whether or not the dates are valid.
   */
  lemma OrdinalShift(y: int, m: int, d: int, k: int)
    ensures Ordinal(Date(y, m, d + k)) == Ordinal(Date(y, m, d)) + k
  {
  }

  lemma DaysBeforeYear2024()
    ensures DaysBeforeYear(2024) == 738885
  {
    assert 2023 / 4 == 505 && 2023 / 100 == 20 && 2023 / 400 == 5;
  }

  /** Anchors of the ordinal and weekday: day 1 is 1 January of year 1, and 1 January 2024 is a Monday. */
  lemma CalendarAnchors()
    ensures Ordinal(Date(1, 1, 1)) == 1
    ensures Weekday(Date(2024, 1, 1)) == 0
  {
    DaysBeforeYear2024();
    assert Ordinal(Date(2024, 1, 1)) == 738886;
    assert (738886 + 6) % 7 == 0;
  }
}
