/**
 * The half-month ("quinzaine") period resolver: from the month, year and
 * reference day entered on the form, the report covers either days 1 to 15
 * of the month or day 16 to the last day of the month.
 */
module HalfMonth {
  import opened Wrappers
  import opened Calendar

  /** An inclusive date window. */
  datatype Period = Period(start: Date, end: Date)

  /** The `ValueError` that `datetime(year, month, day)` raises for an impossible date. */
  datatype DateError = DayOutOfRange(date: Date)

  /** The `datetime(year, month, day)` constructor: the date, or the error it raises. */
  function MakeDate(y: int, m: int, d: int): (r: Result<Date, DateError>)
    ensures r.Ok? <==> IsValidDate(Date(y, m, d))
    ensures r.Ok? ==> r.value == Date(y, m, d)
    ensures r.Err? ==> r.error == DayOutOfRange(Date(y, m, d))
  {
    if IsValidDate(Date(y, m, d)) then Ok(Date(y, m, d)) else Err(DayOutOfRange(Date(y, m, d)))
  }

  /** The window the report covers: valid days of one month, 1-15 or 16-month end. */
  predicate IsHalfMonthWindow(p: Period)
  {
    IsValidDate(p.start) && IsValidDate(p.end)
    && p.start.year == p.end.year && p.start.month == p.end.month
    && ((p.start.day == 1 && p.end.day == 15)
        || (p.start.day == 16 && p.end.day == DaysInMonth(p.end.year, p.end.month)))
  }

  /** The last day of the second half as the form computes it, with the leap rule `annee % 4 == 0`. */
  function SimplifiedLastDay(mois: int, annee: int): int
  {
    if mois == 4 || mois == 6 || mois == 9 || mois == 11 then 30
    else if mois == 2 then (if annee % 4 == 0 then 29 else 28)
    else 31
  }

  /** The window for (`mois`, `annee`, `jour`), as written: the end of February uses the simplified leap rule. */
  function ResolvePeriod(mois: int, annee: int, jour: int): (r: Result<Period, DateError>)
    ensures r.Ok? ==> IsHalfMonthWindow(r.value)
    ensures r.Ok? ==> r.value.start.year == annee && r.value.start.month == mois
    ensures r.Ok? ==> (r.value.start.day == 1 <==> jour <= 15)
  {
    if jour <= 15 then
      match MakeDate(annee, mois, 1)
      case Err(e) => Err(e)
      case Ok(startDate) =>
        match MakeDate(annee, mois, 15)
        case Err(e) => Err(e)
        case Ok(endDate) => Ok(Period(startDate, endDate))
    else
      match MakeDate(annee, mois, 16)
      case Err(e) => Err(e)
      case Ok(startDate) =>
        match MakeDate(annee, mois, SimplifiedLastDay(mois, annee))
        case Err(e) => Err(e)
        case Ok(endDate) => Ok(Period(startDate, endDate))
  }

  /** The inputs the form admits: month 1-12, year 2000-2100, day 1-31. */
  predicate FormInputs(mois: int, annee: int, jour: int)
  {
    1 <= mois <= 12 && 2000 <= annee <= 2100 && 1 <= jour <= 31
  }

  /** A reference day of 15 or less selects days 1 to 15 of the month. */
  lemma ResolveFirstHalf(mois: int, annee: int, jour: int)
    requires 1 <= mois <= 12 && MinYear <= annee <= MaxYear && jour <= 15
    ensures ResolvePeriod(mois, annee, jour) == Ok(Period(Date(annee, mois, 1), Date(annee, mois, 15)))
  {
  }

  /**
   * A reference day after 15 selects day 16 to the last day: 30 for months
   * 4, 6, 9 and 11, 29 for February when `annee % 4 == 0`, 28 for other
   * Februaries and 31 otherwise. The only failure is February of a year
   * divisible by 100 but not by 400, where that day 29 does not exist.
   */
  lemma ResolveSecondHalf(mois: int, annee: int, jour: int)
    requires 1 <= mois <= 12 && MinYear <= annee <= MaxYear && jour > 15
    ensures var r := ResolvePeriod(mois, annee, jour);
      (r.Err? <==> mois == 2 && annee % 100 == 0 && annee % 400 != 0)
      && (r.Err? ==> r == Err(DayOutOfRange(Date(annee, 2, 29))))
      && (r.Ok? ==> r.value.start == Date(annee, mois, 16)
                    && r.value.end.year == annee && r.value.end.month == mois
                    && r.value.end.day == DaysInMonth(annee, mois)
                    && ((mois == 4 || mois == 6 || mois == 9 || mois == 11) ==> r.value.end.day == 30)
                    && (mois == 2 && annee % 4 == 0 ==> r.value.end.day == 29)
                    && (mois == 2 && annee % 4 != 0 ==> r.value.end.day == 28)
                    && (mois in {1, 3, 5, 7, 8, 10, 12} ==> r.value.end.day == 31))
  {
  }

  /** Over the inputs the form admits, the resolver fails exactly for the second half of February 2100. */
  lemma ResolveFailsOnlyInFebruary2100(mois: int, annee: int, jour: int)
    requires FormInputs(mois, annee, jour)
    ensures ResolvePeriod(mois, annee, jour).Err? <==> mois == 2 && annee == 2100 && jour > 15
  {
    if jour <= 15 {
      ResolveFirstHalf(mois, annee, jour);
    } else {
      ResolveSecondHalf(mois, annee, jour);
    }
  }

  /** The resolver's result on three reference inputs, and the failing input. */
  lemma ResolveExamples()
    ensures ResolvePeriod(2, 2024, 10) == Ok(Period(Date(2024, 2, 1), Date(2024, 2, 15)))
    ensures ResolvePeriod(2, 2024, 20) == Ok(Period(Date(2024, 2, 16), Date(2024, 2, 29)))
    ensures ResolvePeriod(4, 2023, 25) == Ok(Period(Date(2023, 4, 16), Date(2023, 4, 30)))
    ensures ResolvePeriod(2, 2100, 16) == Err(DayOutOfRange(Date(2100, 2, 29)))
  {
  }

  /** The resolver with the Gregorian month end: the last day of the month as `datetime` defines it. */
  function ResolvePeriodGregorian(mois: int, annee: int, jour: int): (r: Result<Period, DateError>)
    ensures r.Ok? ==> IsHalfMonthWindow(r.value)
    ensures r.Ok? ==> r.value.start.year == annee && r.value.start.month == mois
    ensures r.Ok? ==> (r.value.start.day == 1 <==> jour <= 15)
    ensures r.Ok? <==> 1 <= mois <= 12 && MinYear <= annee <= MaxYear
  {
    if jour <= 15 then
      match MakeDate(annee, mois, 1)
      case Err(e) => Err(e)
      case Ok(startDate) =>
        match MakeDate(annee, mois, 15)
        case Err(e) => Err(e)
        case Ok(endDate) => Ok(Period(startDate, endDate))
    else
      match MakeDate(annee, mois, 16)
      case Err(e) => Err(e)
      case Ok(startDate) =>
        match MakeDate(annee, mois, DaysInMonth(annee, mois))
        case Err(e) => Err(e)
        case Ok(endDate) => Ok(Period(startDate, endDate))
  }

  /** With the Gregorian month end too, a reference day of 15 or less selects days 1 to 15. */
  lemma ResolveGregorianFirstHalf(mois: int, annee: int, jour: int)
    requires 1 <= mois <= 12 && MinYear <= annee <= MaxYear && jour <= 15
    ensures ResolvePeriodGregorian(mois, annee, jour) == Ok(Period(Date(annee, mois, 1), Date(annee, mois, 15)))
  {
  }

  /** The corrected resolver never fails on the form's inputs and agrees with the original wherever that succeeds. */
  lemma GregorianResolverRefinesOriginal(mois: int, annee: int, jour: int)
    requires FormInputs(mois, annee, jour)
    ensures ResolvePeriodGregorian(mois, annee, jour).Ok?
    ensures ResolvePeriod(mois, annee, jour).Ok? ==> ResolvePeriod(mois, annee, jour) == ResolvePeriodGregorian(mois, annee, jour)
    ensures ResolvePeriodGregorian(2, 2100, 16) == Ok(Period(Date(2100, 2, 16), Date(2100, 2, 28)))
  {
    if jour <= 15 {
      ResolveFirstHalf(mois, annee, jour);
    } else {
      ResolveSecondHalf(mois, annee, jour);
    }
  }
}
