/**
 * How the three pieces fit together in the report page: the resolved
 * half-month window always holds working days, so the engine's
 * no-working-day branch is never taken from the page, and a worked
 * example of the whole computation.
 */
module Report {
  import opened Calendar
  import opened HalfMonth
  import opened Allocation
  import opened Wrappers
  import opened Holidays

  /** The weekday after weekday `r` (Sunday 6 is followed by Monday 0). */
  function Next(r: int): (n: int)
    requires 0 <= r < 7
    ensures 0 <= n < 7
  {
    if r == 6 then 0 else r + 1
  }

  /** The weekday `n` days after weekday `r`. */
  function Advance(r: int, n: nat): (a: int)
    requires 0 <= r < 7
    ensures 0 <= a < 7
    decreases n
  {
    if n == 0 then r else Advance(Next(r), n - 1)
  }

  /** The number of working days in a run of `len` consecutive days starting on weekday `r`. */
  function CountRun(r: int, len: nat): (n: nat)
    requires 0 <= r < 7
    ensures n <= len
    decreases len
  {
    if len == 0 then 0 else (if r < 5 then 1 else 0) + CountRun(Next(r), len - 1)
  }

  /** A run splits into its first `a` days and the rest. */
  lemma {:induction false} CountRunSplit(r: int, a: nat, b: nat)
    requires 0 <= r < 7
    ensures CountRun(r, a + b) == CountRun(r, a) + CountRun(Advance(r, a), b)
    decreases a
  {
    if a > 0 {
      CountRunSplit(Next(r), a - 1, b);
    }
  }

  /** Any seven consecutive days hold exactly five working days, and end where they began. */
  lemma WeekHasFiveWorkingDays(r: int)
    requires 0 <= r < 7
    ensures CountRun(r, 7) == 5
    ensures Advance(r, 7) == r
  {
  }

  /** Any six consecutive days hold at least four working days. */
  lemma SixDaysHaveFourWorkingDays(r: int)
    requires 0 <= r < 7
    ensures CountRun(r, 6) >= 4
  {
  }

  /** Thirteen or more consecutive days hold at least nine working days. */
  lemma LongRunHasNineWorkingDays(r: int, len: nat)
    requires 0 <= r < 7
    requires len >= 13
    ensures CountRun(r, len) >= 9
  {
    CountRunSplit(r, 7, len - 7);
    WeekHasFiveWorkingDays(r);
    CountRunSplit(r, 6, len - 13);
    SixDaysHaveFourWorkingDays(r);
  }

  /** Consecutive days from weekday `r` are counted by the run from `r`. */
  lemma {:induction false} WorkingDaysOfRun(days: seq<Date>, r: int)
    requires 0 <= r < 7
    requires |days| > 0 ==> Weekday(days[0]) == r
    requires forall k :: 0 <= k < |days| - 1 ==> Weekday(days[k + 1]) == Next(Weekday(days[k]))
    ensures NumWorkingDays(days) == CountRun(r, |days|)
  {
    if days != [] {
      var tail := days[1..];
      forall k | 0 <= k < |tail| - 1 ensures Weekday(tail[k + 1]) == Next(Weekday(tail[k])) {
        assert tail[k] == days[k + 1] && tail[k + 1] == days[k + 2];
      }
      WorkingDaysOfRun(tail, Next(r));
    }
  }

  /** The weekday of the next day of a month follows the weekday of the day before. */
  lemma NextDayWeekday(y: int, m: int, d: int)
    ensures Weekday(Date(y, m, d + 1)) == Next(Weekday(Date(y, m, d)))
  {
    OrdinalShift(y, m, d, 1);
  }

  /** The days of a month window run through the weekdays in order. */
  lemma WindowWeekdays(start: Date, end: Date)
    requires start.year == end.year && start.month == end.month
    ensures var days := DateRange(start, end);
      forall k :: 0 <= k < |days| - 1 ==> Weekday(days[k + 1]) == Next(Weekday(days[k]))
  {
    var days := DateRange(start, end);
    forall k | 0 <= k < |days| - 1 ensures Weekday(days[k + 1]) == Next(Weekday(days[k])) {
      NextDayWeekday(start.year, start.month, start.day + k);
    }
  }

  /**
   * Every half-month window holds at least nine working days (at least 72
   * nominal hours), so the division guarded in `calculate_hours` always
   * has a positive divisor when the window comes from the form.
   */
  lemma HalfMonthWindowHasWorkingDays(p: Period)
    requires IsHalfMonthWindow(p)
    ensures NumWorkingDays(DateRange(p.start, p.end)) >= 9
    ensures TotalHours(DateRange(p.start, p.end)) >= 72
  {
    var days := DateRange(p.start, p.end);
    WindowWeekdays(p.start, p.end);
    WorkingDaysOfRun(days, Weekday(p.start));
    LongRunHasNineWorkingDays(Weekday(p.start), |days|);
  }

  /** A window the page resolves from the form always has working days, for either resolver. */
  lemma ResolvedWindowHasWorkingDays(mois: int, annee: int, jour: int)
    ensures ResolvePeriod(mois, annee, jour).Ok? ==>
      NumWorkingDays(DateRange(ResolvePeriod(mois, annee, jour).value.start, ResolvePeriod(mois, annee, jour).value.end)) >= 9
    ensures ResolvePeriodGregorian(mois, annee, jour).Ok? ==>
      NumWorkingDays(DateRange(ResolvePeriodGregorian(mois, annee, jour).value.start, ResolvePeriodGregorian(mois, annee, jour).value.end)) >= 9
  {
    if ResolvePeriod(mois, annee, jour).Ok? {
      HalfMonthWindowHasWorkingDays(ResolvePeriod(mois, annee, jour).value);
    }
    if ResolvePeriodGregorian(mois, annee, jour).Ok? {
      HalfMonthWindowHasWorkingDays(ResolvePeriodGregorian(mois, annee, jour).value);
    }
  }

  /** The first half of a month that starts on a Monday holds 11 working days, hence 88 nominal hours. */
  lemma MondayFirstHalfHours(start: Date, end: Date)
    requires start.year == end.year && start.month == end.month
    requires start.day == 1 && end.day == 15 && Weekday(start) == 0
    ensures NumWorkingDays(DateRange(start, end)) == 11
    ensures TotalHours(DateRange(start, end)) == 88
  {
    var days := DateRange(start, end);
    WindowWeekdays(start, end);
    assert |days| == 15;
    WorkingDaysOfRun(days, 0);
    CountRunSplit(0, 7, 8);
    CountRunSplit(0, 7, 1);
    WeekHasFiveWorkingDays(0);
  }

  /**
   * Over the first half of a month that starts on a Monday, a worker at 50%
   * gets 4.0 hours on each working day and nothing on the first weekend
   * (the 6th and the 7th).
   */
  lemma MondayFirstHalfAllocation(start: Date, end: Date)
    requires start.year == end.year && start.month == end.month
    requires start.day == 1 && end.day == 15 && Weekday(start) == 0
    ensures DailyCell(50.0, DateRange(start, end)) == 4.0
    ensures AllocationRow(50.0, DateRange(start, end))[0] == Some(4.0)
    ensures AllocationRow(50.0, DateRange(start, end))[5] == None
    ensures AllocationRow(50.0, DateRange(start, end))[6] == None
  {
    var days := DateRange(start, end);
    MondayFirstHalfHours(start, end);
    DailyHoursIsFixedShare(50.0, 11);
    RoundTenthOfTenth(40);
    WindowWeekdays(start, end);
    assert Weekday(days[1]) == 1 && Weekday(days[2]) == 2 && Weekday(days[3]) == 3;
    assert Weekday(days[4]) == 4 && Weekday(days[5]) == 5 && Weekday(days[6]) == 6;
  }

  /**
   * 1 to 15 January 2024, the window the page resolves for a day in the
   * first half of that month: 11 working days, 88 hours, and 4.0 hours a
   * working day for a worker at 50%.
   */
  lemma FirstHalfOfJanuary2024(p: Period)
    requires ResolvePeriodGregorian(1, 2024, 10) == Ok(p)
    ensures NumWorkingDays(DateRange(p.start, p.end)) == 11
    ensures TotalHours(DateRange(p.start, p.end)) == 88
    ensures DailyCell(50.0, DateRange(p.start, p.end)) == 4.0
  {
    ResolveGregorianFirstHalf(1, 2024, 10);
    CalendarAnchors();
    MondayFirstHalfHours(p.start, p.end);
    MondayFirstHalfAllocation(p.start, p.end);
  }

  /** What the page shows for one run: the hours table, the period's total hours and its holidays. */
  datatype Outcome = Outcome(table: HoursTable, totalHours: int, holidays: seq<Holiday>)

  /**
   * The report page once the roster is loaded: resolve the half-month
   * window (with the Gregorian month end), compute the hours table, then
   * list the window's holidays. The run stops with the constructor's error
   * only for a month or year `datetime` does not accept, never on the
   * form's inputs.
   */
  method GenerateReport(workers: seq<Worker>, mois: int, annee: int, jour: int) returns (r: Result<Outcome, DateError>)
    ensures r.Err? <==> ResolvePeriodGregorian(mois, annee, jour).Err?
    ensures r.Err? ==> r.error == ResolvePeriodGregorian(mois, annee, jour).error
    ensures FormInputs(mois, annee, jour) ==> r.Ok?
    ensures r.Ok? ==>
      var p := ResolvePeriodGregorian(mois, annee, jour).value;
      var t := r.value.table;
      fresh(t) && t.Valid()
      && t.columns == DateRange(p.start, p.end)
      && r.value.totalHours == TotalHours(t.columns) && r.value.totalHours >= 72
      && |t.rows| == |workers| + 1
      && (forall k :: 0 <= k < |workers| ==> t.rows[k] == Row(Named(workers[k].name), RowAfter(workers, k, |workers|, t.columns)))
      && t.rows[|workers|] == Row(TotalLabel, ColumnTotals(t.rows[..|workers|], |t.columns|))
      && r.value.holidays == HolidaysIn(p.start, p.end)
  {
    if FormInputs(mois, annee, jour) {
      GregorianResolverRefinesOriginal(mois, annee, jour);
    }
    match ResolvePeriodGregorian(mois, annee, jour)
    case Err(e) =>
      r := Err(e);
    case Ok(p) =>
      var table, totalHours := CalculateHours(workers, p.start, p.end);
      HalfMonthWindowHasWorkingDays(p);
      var holidays := HolidaysIn(p.start, p.end);
      r := Ok(Outcome(table, totalHours, holidays));
  }

  /**
   * A single worker at 50% over 1 to 15 January 2024: the worker's row
   * holds 4.0 on each working day and nothing on the weekends, and the Total
   * row equals it on working days and holds 0 on the weekend days.
   */
  lemma SingleWorkerFirstHalfOfJanuary2024(p: Period, rows: seq<Row>)
    requires ResolvePeriodGregorian(1, 2024, 10) == Ok(p)
    requires |rows| == 2
    requires rows[0] == Row(Named("Jean"), RowAfter([Worker("Jean", 50.0)], 0, 1, DateRange(p.start, p.end)))
    requires forall j :: 0 <= j < |DateRange(p.start, p.end)| ==> HasColumn(rows[..1], j)
    requires rows[1] == Row(TotalLabel, ColumnTotals(rows[..1], |DateRange(p.start, p.end)|))
    ensures var days := DateRange(p.start, p.end);
      |days| == 15
      && (forall j :: 0 <= j < |days| ==> rows[0].cells[j] == if IsWorkingDay(days[j]) then Some(4.0) else None)
      && (forall j :: 0 <= j < |days| ==> rows[1].cells[j] == if IsWorkingDay(days[j]) then Some(4.0) else Some(0.0))
  {
    var workers := [Worker("Jean", 50.0)];
    var days := DateRange(p.start, p.end);
    FirstHalfOfJanuary2024(p);
    assert DistinctNames(workers);
    AllocatedTableWhenNamesDistinct(workers, days, rows);
    assert workers[..0] == [];
    assert SumOfDailyCells(workers, days) == 4.0;
  }
}
