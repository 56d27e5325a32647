/**
 * The hours-allocation engine (`calculate_hours`): one column per calendar
 * day of the period, one row per worker, each working-day cell holding the
 * worker's share of the period's nominal hours spread evenly over the
 * working days and rounded to one decimal, weekend cells empty, and a
 * final Total row holding the column sums.
 */
module Allocation {
  import opened Wrappers
  import opened Calendar

  /** A row of the input table: `FC Name` and `Pourcentage` (0-100 scale). */
  datatype Worker = Worker(name: string, pourcentage: real)

  /** A row label of the hours table: a worker's name, or the appended `Total`. */
  datatype RowLabel = Named(name: string) | TotalLabel

  /** A row of the hours table; `None` is pandas' NaN. */
  datatype Row = Row(key: RowLabel, cells: seq<Option<real>>)

  /** Nominal hours of one working day. */
  const HoursPerDay: int := 8

  // ---------------------------------------------------------------------
  // Days of the period
  // ---------------------------------------------------------------------

  /** Days `d` to `last` of month `m` of year `y`, one per day, in order. */
  function DaysFrom(y: int, m: int, d: int, last: int): (days: seq<Date>)
    ensures |days| == if d <= last then last - d + 1 else 0
    ensures forall k :: 0 <= k < |days| ==> days[k] == Date(y, m, d + k)
    decreases last - d
  {
    if d > last then [] else [Date(y, m, d)] + DaysFrom(y, m, d + 1, last)
  }

  /** `pd.date_range(start, end, freq='D')` for a period inside one month. */
  function DateRange(start: Date, end: Date): seq<Date>
    requires start.year == end.year && start.month == end.month
  {
    DaysFrom(start.year, start.month, start.day, end.day)
  }

  /**
   * The columns are exactly the calendar days from start to end inclusive,
   * weekends included, in strictly chronological order, and each is a real
   * date when the bounds are.
   */
  lemma DateRangeIsWindow(start: Date, end: Date)
    requires start.year == end.year && start.month == end.month
    ensures var days := DateRange(start, end);
      (forall x :: x in days <==> x.year == start.year && x.month == start.month && start.day <= x.day <= end.day)
      && (forall i, j :: 0 <= i < j < |days| ==> Before(days[i], days[j]))
      && (IsValidDate(start) && IsValidDate(end) ==> forall x :: x in days ==> IsValidDate(x))
  {
    var days := DateRange(start, end);
    forall x: Date | x.year == start.year && x.month == start.month && start.day <= x.day <= end.day
      ensures x in days
    {
      assert days[x.day - start.day] == x;
    }
  }

  /** `len(date_range[date_range.weekday < 5])`: the number of Monday-to-Friday days. */
  function NumWorkingDays(days: seq<Date>): (n: nat)
    ensures n <= |days|
  {
    if days == [] then 0
    else (if IsWorkingDay(days[0]) then 1 else 0) + NumWorkingDays(days[1..])
  }

  /** `pd.date_range(start, end, freq='B')` inside one month: the business days, stepped day by day. */
  function BusinessDaysFrom(y: int, m: int, d: int, last: int): (r: seq<Date>)
    ensures forall x :: x in r <==> x.year == y && x.month == m && d <= x.day <= last && IsWorkingDay(x)
    decreases last - d
  {
    if d > last then []
    else if IsWorkingDay(Date(y, m, d)) then [Date(y, m, d)] + BusinessDaysFrom(y, m, d + 1, last)
    else BusinessDaysFrom(y, m, d + 1, last)
  }

  function BusinessDayRange(start: Date, end: Date): seq<Date>
    requires start.year == end.year && start.month == end.month
  {
    BusinessDaysFrom(start.year, start.month, start.day, end.day)
  }

  /**
   * The business-day range tests exactly the days counted as working days:
   * a day of the period is in it iff it is Monday to Friday, and it has as
   * many days as are counted.
   */
  lemma {:induction false} BusinessDaysMatchWorkingDays(y: int, m: int, d: int, last: int)
    ensures |BusinessDaysFrom(y, m, d, last)| == NumWorkingDays(DaysFrom(y, m, d, last))
    ensures forall x :: x in DaysFrom(y, m, d, last) ==> (x in BusinessDaysFrom(y, m, d, last) <==> IsWorkingDay(x))
    decreases last - d
  {
    if d <= last {
      BusinessDaysMatchWorkingDays(y, m, d + 1, last);
      var days := DaysFrom(y, m, d, last);
      assert days[1..] == DaysFrom(y, m, d + 1, last);
      forall x | x in days ensures x.year == y && x.month == m && d <= x.day <= last {
        var k :| 0 <= k < |days| && days[k] == x;
      }
    }
  }

  // ---------------------------------------------------------------------
  // Hours
  // ---------------------------------------------------------------------

  /** `total_hours`: eight nominal hours per working day of the period. */
  function TotalHours(days: seq<Date>): int
  {
    HoursPerDay * NumWorkingDays(days)
  }

  /**
   * `daily_hours`: the worker's share of the period's hours spread over the
   * working days; 0 when there is no working day rather than a division by zero.
   */
  function DailyHours(pourcentage: real, totalHours: int, numWorkingDays: int): (h: real)
    ensures numWorkingDays > 0 ==> h * numWorkingDays as real == pourcentage / 100.0 * totalHours as real
    ensures numWorkingDays <= 0 ==> h == 0.0
  {
    var projectHours := pourcentage / 100.0 * totalHours as real;
    if numWorkingDays > 0 then projectHours / numWorkingDays as real else 0.0
  }

  /** With eight hours per working day, a worker's daily hours are 0.08 times the percentage. */
  lemma DailyHoursIsFixedShare(pourcentage: real, n: int)
    requires n > 0
    ensures DailyHours(pourcentage, HoursPerDay * n, n) == pourcentage * 8.0 / 100.0
  {
    var h := DailyHours(pourcentage, HoursPerDay * n, n);
    assert h * n as real == (pourcentage * 8.0 / 100.0) * n as real;
  }

  function Abs(x: real): real { if x < 0.0 then -x else x }

  /**
   * `round(x, 1)` on the exact value: the nearest multiple of 0.1, a tie
   * going to the even multiple.
   */
  function RoundTenth(x: real): (r: real)
    ensures -0.05 <= r - x <= 0.05
    ensures (r * 10.0).Floor as real == r * 10.0
    ensures Abs(r - x) == 0.05 ==> (r * 10.0).Floor % 2 == 0
  {
    var t := (x * 10.0).Floor;
    var f := x * 10.0 - t as real;
    var k := if f < 0.5 then t else if f > 0.5 then t + 1 else if t % 2 == 0 then t else t + 1;
    k as real / 10.0
  }

  /** No multiple of 0.1 is nearer to `x` than its rounding. */
  lemma RoundTenthIsNearest(x: real, k: int)
    ensures Abs(RoundTenth(x) - x) <= Abs(k as real / 10.0 - x)
  {
    var y := x * 10.0;
    var t := y.Floor;
    var f := y - t as real;
    var nearest := (RoundTenth(x) * 10.0).Floor;
    assert RoundTenth(x) == nearest as real / 10.0;
    assert nearest == t || nearest == t + 1;
    assert nearest == t ==> f <= 0.5;
    assert nearest == t + 1 ==> f >= 0.5;
    assert Abs(nearest as real - y) <= Abs(k as real - y) by {
      if k <= t {
        assert Abs(k as real - y) == y - k as real >= f;
      } else {
        assert Abs(k as real - y) == k as real - y >= 1.0 - f;
      }
    }
    ScaleDistance(nearest, x);
    ScaleDistance(k, x);
  }

  lemma ScaleDistance(k: int, x: real)
    ensures Abs(k as real / 10.0 - x) == Abs(k as real - x * 10.0) / 10.0
  {
  }

  /** Bounds of `n * e` for a non-negative `n` and `|e| <= 0.05`. */
  lemma ScaledRoundingError(n: real, e: real)
    requires n >= 0.0 && -0.05 <= e <= 0.05
    ensures -0.05 * n <= n * e <= 0.05 * n
  {
    assert n * (e + 0.05) >= 0.0;
    assert n * (0.05 - e) >= 0.0;
  }

  /** A value already at one decimal is left as it is. */
  lemma RoundTenthOfTenth(k: int)
    ensures RoundTenth(k as real / 10.0) == k as real / 10.0
  {
  }

  /** The value written into each working-day cell: `round(daily_hours, 1)`. */
  function DailyCell(pourcentage: real, days: seq<Date>): real
  {
    RoundTenth(DailyHours(pourcentage, TotalHours(days), NumWorkingDays(days)))
  }

  // ---------------------------------------------------------------------
  // Rows
  // ---------------------------------------------------------------------

  /** A row of empty cells, as `pd.DataFrame(index=..., columns=...)` creates it. */
  function Blank(width: nat): (cells: seq<Option<real>>)
    ensures |cells| == width && forall j :: 0 <= j < width ==> cells[j] == None
  {
    seq(width, j => None)
  }

  /** `value` on each working day, empty on Saturdays and Sundays. */
  function Cells(value: real, days: seq<Date>): seq<Option<real>>
  {
    seq(|days|, j requires 0 <= j < |days| => if IsWorkingDay(days[j]) then Some(value) else None)
  }

  /** The cells of a worker with percentage `pourcentage` over `days`. */
  function AllocationRow(pourcentage: real, days: seq<Date>): seq<Option<real>>
  {
    Cells(DailyCell(pourcentage, days), days)
  }

  /** The number of non-empty cells. */
  function FilledCount(cells: seq<Option<real>>): (n: nat)
    ensures n <= |cells|
  {
    if cells == [] then 0 else (if cells[0].Some? then 1 else 0) + FilledCount(cells[1..])
  }

  /** The sum of the non-empty cells (pandas skips NaN). */
  function RowSum(cells: seq<Option<real>>): real
  {
    if cells == [] then 0.0 else (if cells[0].Some? then cells[0].value else 0.0) + RowSum(cells[1..])
  }

  /** A row holding `value` on each working day has one filled cell per working day, and sums to their product. */
  lemma CellsCountAndSum(value: real, days: seq<Date>)
    ensures FilledCount(Cells(value, days)) == NumWorkingDays(days)
    ensures RowSum(Cells(value, days)) == NumWorkingDays(days) as real * value
  {
    CellsCount(value, days);
    CellsSum(value, days);
  }

  lemma {:induction false} CellsCount(value: real, days: seq<Date>)
    ensures FilledCount(Cells(value, days)) == NumWorkingDays(days)
  {
    if days != [] {
      assert Cells(value, days)[1..] == Cells(value, days[1..]);
      CellsCount(value, days[1..]);
    }
  }

  lemma {:induction false} CellsSum(value: real, days: seq<Date>)
    ensures RowSum(Cells(value, days)) == NumWorkingDays(days) as real * value
  {
    CellsSumRepeated(value, days);
    RepeatedIsProduct(NumWorkingDays(days), value);
  }

  /** `value` added to itself `k` times. */
  function Repeated(k: nat, value: real): real
  {
    if k == 0 then 0.0 else Repeated(k - 1, value) + value
  }

  /** Adding `value` to itself `k` times gives `k * value`. */
  lemma {:induction false} RepeatedIsProduct(k: nat, value: real)
    ensures Repeated(k, value) == k as real * value
  {
    if k > 0 {
      RepeatedIsProduct(k - 1, value);
      assert k as real * value == (k - 1) as real * value + value;
    }
  }

  /** The sum of a row holding `value` on each working day adds `value` once per working day. */
  lemma {:induction false} CellsSumRepeated(value: real, days: seq<Date>)
    ensures RowSum(Cells(value, days)) == Repeated(NumWorkingDays(days), value)
  {
    if days != [] {
      assert Cells(value, days)[1..] == Cells(value, days[1..]);
      CellsSumRepeated(value, days[1..]);
    }
  }

  /**
   * Each worker row has exactly as many filled cells as there are working
   * days, all equal to the rounded daily hours, and its sum is within
   * 0.05 hours per working day of the worker's share of the period's hours.
   */
  lemma AllocationRowSumWithinTolerance(pourcentage: real, days: seq<Date>)
    ensures FilledCount(AllocationRow(pourcentage, days)) == NumWorkingDays(days)
    ensures forall j :: 0 <= j < |days| && AllocationRow(pourcentage, days)[j].Some? ==>
      AllocationRow(pourcentage, days)[j].value == DailyCell(pourcentage, days)
    ensures var error := RowSum(AllocationRow(pourcentage, days)) - pourcentage / 100.0 * TotalHours(days) as real;
      -0.05 * NumWorkingDays(days) as real <= error <= 0.05 * NumWorkingDays(days) as real
  {
    CellsCountAndSum(DailyCell(pourcentage, days), days);
    RowSumNearShare(pourcentage, days);
  }

  /** The sum of a worker row is within `0.05` per working day of the worker's share. */
  lemma RowSumNearShare(pourcentage: real, days: seq<Date>)
    ensures var error := RowSum(AllocationRow(pourcentage, days)) - pourcentage / 100.0 * TotalHours(days) as real;
      -0.05 * NumWorkingDays(days) as real <= error <= 0.05 * NumWorkingDays(days) as real
  {
    DailyCellNearShare(pourcentage, days);
    CellsNearTarget(DailyCell(pourcentage, days), days, pourcentage / 100.0 * TotalHours(days) as real);
  }

  /** A row holding `value` on each working day sums to within `0.05` per working day of `target` when `value` does. */
  lemma CellsNearTarget(value: real, days: seq<Date>, target: real)
    requires WithinTolerance(NumWorkingDays(days) as real, value, target)
    ensures -0.05 * NumWorkingDays(days) as real <= RowSum(Cells(value, days)) - target <= 0.05 * NumWorkingDays(days) as real
  {
    CellsSumRepeated(value, days);
    RepeatedNearTarget(NumWorkingDays(days), value, target);
  }

  /** `k` copies of a value within tolerance of the target add up to within `0.05 * k` of it. */
  lemma RepeatedNearTarget(k: nat, value: real, target: real)
    requires WithinTolerance(k as real, value, target)
    ensures -0.05 * k as real <= Repeated(k, value) - target <= 0.05 * k as real
  {
    RepeatedIsProduct(k, value);
    SumWithinTolerance(Repeated(k, value), k as real, value, target);
  }

  /** A sum of `n` copies of a value within tolerance of the target is itself within `0.05 * n` of it. */
  lemma SumWithinTolerance(sum: real, n: real, value: real, target: real)
    requires WithinTolerance(n, value, target)
    requires sum == n * value
    ensures -0.05 * n <= sum - target <= 0.05 * n
  {
  }

  /** `n` copies of `value` add up to within `0.05` per copy of `target`. */
  predicate WithinTolerance(n: real, value: real, target: real)
  {
    -0.05 * n <= n * value - target <= 0.05 * n
  }

  /** The rounded daily hours times the working days is within `0.05` per working day of the worker's share. */
  lemma DailyCellNearShare(pourcentage: real, days: seq<Date>)
    ensures WithinTolerance(NumWorkingDays(days) as real, DailyCell(pourcentage, days), pourcentage / 100.0 * TotalHours(days) as real)
  {
    ShareTolerance(pourcentage, TotalHours(days), NumWorkingDays(days));
  }

  /** The same bound over plain numbers: `n` working days and `totalHours`, which is 0 when `n` is. */
  lemma ShareTolerance(pourcentage: real, totalHours: int, n: nat)
    requires n == 0 ==> totalHours == 0
    ensures WithinTolerance(n as real, RoundTenth(DailyHours(pourcentage, totalHours, n)), pourcentage / 100.0 * totalHours as real)
  {
    var h := DailyHours(pourcentage, totalHours, n);
    var target := pourcentage / 100.0 * totalHours as real;
    assert n > 0 ==> h * n as real == target;
    assert n == 0 ==> target == 0.0;
    RoundingTolerance(n as real, h, RoundTenth(h), target);
  }

  /** `n` times `v`, with `v` within 0.05 of `h` and `h * n` the target, is within `0.05 * n` of the target. */
  lemma RoundingTolerance(n: real, h: real, v: real, target: real)
    requires n >= 0.0 && -0.05 <= v - h <= 0.05
    requires n > 0.0 ==> h * n == target
    requires n == 0.0 ==> target == 0.0
    ensures WithinTolerance(n, v, target)
  {
    if n > 0.0 {
      var e := v - h;
      ScaledRoundingError(n, e);
      assert n * v == n * h + n * e;
      assert n * v - target == n * e;
    }
  }

  /** A run of days with no working day is all weekend. */
  lemma {:induction false} NoWorkingDayIsAllWeekend(days: seq<Date>)
    requires NumWorkingDays(days) == 0
    ensures forall j :: 0 <= j < |days| ==> !IsWorkingDay(days[j])
  {
    if days != [] {
      NoWorkingDayIsAllWeekend(days[1..]);
      assert forall j :: 1 <= j < |days| ==> days[j] == days[1..][j - 1];
    }
  }

  /**
   * A period with no working day has no nominal hours, a daily share of 0
   * instead of a division by zero, and only empty cells.
   */
  lemma NoWorkingDayMeansNoHours(pourcentage: real, days: seq<Date>)
    requires NumWorkingDays(days) == 0
    ensures TotalHours(days) == 0
    ensures DailyCell(pourcentage, days) == 0.0
    ensures forall j :: 0 <= j < |days| ==> AllocationRow(pourcentage, days)[j] == None
  {
    NoWorkingDayIsAllWeekend(days);
    RoundTenthOfTenth(0);
  }

  /** The worker listed last under `name` among the first `i` workers (the one whose `.loc` write survives). */
  function LastNamed(workers: seq<Worker>, name: string, i: nat): (r: Option<nat>)
    requires i <= |workers|
    ensures r.Some? ==> r.value < i && workers[r.value].name == name
    ensures r.Some? ==> forall k :: r.value < k < i ==> workers[k].name != name
    ensures r.None? ==> forall k :: 0 <= k < i ==> workers[k].name != name
  {
    if i == 0 then None
    else if workers[i - 1].name == name then Some(i - 1)
    else LastNamed(workers, name, i - 1)
  }

  /** The cells of row `r` once the first `i` workers have been written. */
  function RowAfter(workers: seq<Worker>, r: nat, i: nat, days: seq<Date>): seq<Option<real>>
    requires r < |workers| && i <= |workers|
  {
    match LastNamed(workers, workers[r].name, i)
    case None => Blank(|days|)
    case Some(k) => AllocationRow(workers[k].pourcentage, days)
  }

  /** Writing worker `i` replaces the rows under its name by its allocation, and leaves every other row as it was. */
  lemma RowAfterStep(workers: seq<Worker>, r: nat, i: nat, days: seq<Date>)
    requires r < |workers| && i < |workers|
    ensures RowAfter(workers, r, i + 1, days) ==
      if workers[r].name == workers[i].name then AllocationRow(workers[i].pourcentage, days) else RowAfter(workers, r, i, days)
    ensures |RowAfter(workers, r, i, days)| == |days|
    ensures forall c :: 0 <= c < |days| && !IsWorkingDay(days[c]) ==> RowAfter(workers, r, i, days)[c] == None
  {
  }

  /** Names are unique in the roster. */
  predicate DistinctNames(workers: seq<Worker>)
  {
    forall i, j :: 0 <= i < j < |workers| ==> workers[i].name != workers[j].name
  }

  /** With unique names, each worker's row holds that worker's own allocation. */
  lemma OwnRowWhenNamesDistinct(workers: seq<Worker>, r: nat, days: seq<Date>)
    requires DistinctNames(workers) && r < |workers|
    ensures RowAfter(workers, r, |workers|, days) == AllocationRow(workers[r].pourcentage, days)
  {
    var o := LastNamed(workers, workers[r].name, |workers|);
    assert o.Some?;
  }

  /** With unique names, the worker rows are exactly each worker's own allocation row. */
  lemma WorkerRowsWhenNamesDistinct(workers: seq<Worker>, days: seq<Date>)
    requires DistinctNames(workers)
    ensures seq(|workers|, r requires 0 <= r < |workers| => Row(Named(workers[r].name), RowAfter(workers, r, |workers|, days)))
      == WorkerRows(workers, days)
  {
    forall r | 0 <= r < |workers|
      ensures RowAfter(workers, r, |workers|, days) == AllocationRow(workers[r].pourcentage, days)
    {
      OwnRowWhenNamesDistinct(workers, r, days);
    }
  }

  // ---------------------------------------------------------------------
  // The Total row
  // ---------------------------------------------------------------------

  predicate HasColumn(rows: seq<Row>, j: int)
  {
    forall r :: 0 <= r < |rows| ==> 0 <= j < |rows[r].cells|
  }

  /** Sum of column `j` over `rows`, empty cells counting as 0. */
  function ColumnSum(rows: seq<Row>, j: int): real
    requires HasColumn(rows, j)
  {
    if rows == [] then 0.0
    else
      var last := rows[|rows| - 1].cells[j];
      ColumnSum(rows[..|rows| - 1], j) + (if last.Some? then last.value else 0.0)
  }

  /** `hours_table.sum()`: one sum per column (0 for a column with no value). */
  function ColumnTotals(rows: seq<Row>, width: nat): seq<Option<real>>
    requires forall j :: 0 <= j < width ==> HasColumn(rows, j)
  {
    seq(width, j requires 0 <= j < width => Some(ColumnSum(rows, j)))
  }

  /** A column whose cells are all empty sums to 0. */
  lemma {:induction false} ColumnSumOfEmptyColumn(rows: seq<Row>, j: int)
    requires HasColumn(rows, j)
    requires forall r :: 0 <= r < |rows| ==> rows[r].cells[j] == None
    ensures ColumnSum(rows, j) == 0.0
  {
    if rows != [] {
      var init := rows[..|rows| - 1];
      assert forall r :: 0 <= r < |init| ==> init[r] == rows[r];
      ColumnSumOfEmptyColumn(init, j);
    }
  }

  /** Sum of the rounded daily hours of `workers`. */
  function SumOfDailyCells(workers: seq<Worker>, days: seq<Date>): real
  {
    if workers == [] then 0.0
    else SumOfDailyCells(workers[..|workers| - 1], days) + DailyCell(workers[|workers| - 1].pourcentage, days)
  }

  /** The rows the workers produce when each row holds its own allocation. */
  function WorkerRows(workers: seq<Worker>, days: seq<Date>): (rows: seq<Row>)
    ensures |rows| == |workers|
    ensures forall j :: 0 <= j < |days| ==> HasColumn(rows, j)
  {
    seq(|workers|, r requires 0 <= r < |workers| => Row(Named(workers[r].name), AllocationRow(workers[r].pourcentage, days)))
  }

  /**
   * The Total cell of a working day is the sum of every worker's rounded
   * daily hours; that of a weekend day is 0.
   */
  lemma {:induction false} TotalOfWorkerRows(workers: seq<Worker>, days: seq<Date>, j: int)
    requires 0 <= j < |days|
    ensures ColumnSum(WorkerRows(workers, days), j) == if IsWorkingDay(days[j]) then SumOfDailyCells(workers, days) else 0.0
  {
    if workers != [] {
      var init := workers[..|workers| - 1];
      assert WorkerRows(workers, days)[..|workers| - 1] == WorkerRows(init, days);
      TotalOfWorkerRows(init, days, j);
    }
  }

  /**
   * The table `calculate_hours` returns, read for a roster with unique
   * names: each worker's row is that worker's own allocation, and the Total
   * cell of a day is the sum of the rounded daily hours on a working day
   * and 0 on a weekend day.
   */
  lemma AllocatedTableWhenNamesDistinct(workers: seq<Worker>, days: seq<Date>, rows: seq<Row>)
    requires DistinctNames(workers)
    requires |rows| == |workers| + 1
    requires forall r :: 0 <= r < |workers| ==> rows[r] == Row(Named(workers[r].name), RowAfter(workers, r, |workers|, days))
    requires forall j :: 0 <= j < |days| ==> HasColumn(rows[..|workers|], j)
    requires rows[|workers|] == Row(TotalLabel, ColumnTotals(rows[..|workers|], |days|))
    ensures rows[..|workers|] == WorkerRows(workers, days)
    ensures forall j :: 0 <= j < |days| ==>
      rows[|workers|].cells[j] == Some(if IsWorkingDay(days[j]) then SumOfDailyCells(workers, days) else 0.0)
  {
    WorkerRowsWhenNamesDistinct(workers, days);
    assert rows[..|workers|] == WorkerRows(workers, days);
    forall j | 0 <= j < |days|
      ensures rows[|workers|].cells[j] == Some(if IsWorkingDay(days[j]) then SumOfDailyCells(workers, days) else 0.0)
    {
      TotalOfWorkerRows(workers, days, j);
    }
  }

  // ---------------------------------------------------------------------
  // The hours table and `calculate_hours`
  // ---------------------------------------------------------------------

  /**
   * The columns after the fill loop: the days of `days` not yet among
   * `columns` are appended in the order the loop meets them.
   */
  function AppendMissing(columns: seq<Date>, days: seq<Date>): seq<Date>
    decreases |days|
  {
    if days == [] then columns
    else AppendMissing(if days[0] in columns then columns else columns + [days[0]], days[1..])
  }

  /**
   * The fill loop keeps the existing columns as a prefix, makes every day
   * a column, adds only days not already there, each once, and adds
   * nothing when every day is already a column.
   */
  lemma {:induction false} AppendMissingProperties(columns: seq<Date>, days: seq<Date>)
    ensures var result := AppendMissing(columns, days);
      |columns| <= |result| && result[..|columns|] == columns
      && (forall d :: d in days ==> d in result)
      && (forall c :: |columns| <= c < |result| ==> result[c] in days && result[c] !in result[..c])
      && ((forall d :: d in days ==> d in columns) ==> result == columns)
    decreases |days|
  {
    if days != [] {
      var next := if days[0] in columns then columns else columns + [days[0]];
      AppendMissingProperties(next, days[1..]);
      var result := AppendMissing(columns, days);
      assert result == AppendMissing(next, days[1..]);
      assert result[..|next|] == next;
      assert result[..|columns|] == next[..|columns|] == columns;
      assert days[0] in next;
      assert days[0] in result by {
        var k :| 0 <= k < |next| && next[k] == days[0];
        assert result[k] == days[0];
      }
      forall d | d in days ensures d in result {
        if d != days[0] {
          assert d in days[1..];
        }
      }
      forall c | |columns| <= c < |result| ensures result[c] in days && result[c] !in result[..c] {
        if c >= |next| {
          assert result[c] in days[1..];
        } else {
          assert c == |columns| && next == columns + [days[0]];
          assert result[c] == days[0];
          assert result[..c] == columns;
        }
      }
      if forall d :: d in days ==> d in columns {
        assert next == columns;
        assert forall d :: d in days[1..] ==> d in days;
      }
    }
  }

  /** The `hours_table` DataFrame: its column keys (the days) and its rows, filled in place. */
  class HoursTable {
    var columns: seq<Date>
    var rows: seq<Row>

    /** Every row has one cell per column. */
    ghost predicate Valid()
      reads this
    {
      forall r :: 0 <= r < |rows| ==> |rows[r].cells| == |columns|
    }

    /** `pd.DataFrame(index=names, columns=days)`: one row per name, every cell empty. */
    constructor (names: seq<string>, days: seq<Date>)
      ensures Valid() && columns == days && |rows| == |names|
      ensures forall r :: 0 <= r < |names| ==> rows[r] == Row(Named(names[r]), Blank(|days|))
    {
      var blank := Blank(|days|);
      var blankRows := seq(|names|, r requires 0 <= r < |names| => Row(Named(names[r]), blank));
      columns := days;
      rows := blankRows;
    }

    /** `hours_table.loc[name, columns[j]] = value`: every row labelled `name` gets `value` in column `j`. */
    method SetCell(name: string, j: nat, value: real)
      requires Valid() && j < |columns|
      requires exists r :: 0 <= r < |rows| && rows[r].key == Named(name)
      modifies this
      ensures Valid() && columns == old(columns) && |rows| == old(|rows|)
      ensures forall r :: 0 <= r < |rows| ==> rows[r].key == old(rows[r].key)
      ensures forall r, c :: 0 <= r < |rows| && 0 <= c < |columns| ==>
        rows[r].cells[c] == if rows[r].key == Named(name) && c == j then Some(value) else old(rows[r].cells[c])
    {
      var current := rows;
      rows := seq(|current|, r requires 0 <= r < |current| =>
        if current[r].key == Named(name) then Row(current[r].key, current[r].cells[j := Some(value)]) else current[r]);
    }

    /**
     * The inner loop over the days: `value` goes into the cell of each
     * business day in every row labelled `name`; all other cells keep theirs.
     */
    method WriteRow(name: string, businessDays: seq<Date>, value: real)
      requires Valid()
      requires exists r :: 0 <= r < |rows| && rows[r].key == Named(name)
      modifies this
      ensures Valid() && columns == old(columns) && |rows| == old(|rows|)
      ensures forall r :: 0 <= r < |rows| ==> rows[r].key == old(rows[r].key)
      ensures forall r, c :: 0 <= r < |rows| && 0 <= c < |columns| ==>
        rows[r].cells[c] == if rows[r].key == Named(name) && columns[c] in businessDays then Some(value) else old(rows[r].cells[c])
    {
      ghost var original := rows;
      for j := 0 to |columns|
        invariant Valid() && columns == old(columns)
        invariant WrittenUpTo(original, rows, name, columns, businessDays, value, j)
      {
        ghost var prev := rows;
        KeysKeepName(original, prev, name);
        if columns[j] in businessDays {
          SetCell(name, j, value);
        }
        WrittenStep(original, prev, rows, name, columns, businessDays, value, j);
      }
    }

    /** `hours_table[day] = np.nan`: a new column of empty cells at the end. */
    method AddColumn(day: Date)
      requires Valid()
      modifies this
      ensures Valid() && columns == old(columns) + [day] && |rows| == old(|rows|)
      ensures forall r :: 0 <= r < |rows| ==> rows[r] == Row(old(rows[r].key), old(rows[r].cells) + [None])
    {
      var current := rows;
      rows := seq(|current|, r requires 0 <= r < |current| => Row(current[r].key, current[r].cells + [None]));
      columns := columns + [day];
    }

    /**
     * The loop that adds an empty column for each day not yet a column:
     * the columns become `AppendMissing(old(columns), days)`, every row
     * keeps its label and its cells and gains one empty cell per added
     * column. Every day is then a column, the added columns are days not
     * there before, each added once, and when every day is already a
     * column nothing changes.
     */
    method FillMissingColumns(days: seq<Date>)
      requires Valid()
      modifies this
      ensures Valid() && |rows| == old(|rows|)
      ensures columns == AppendMissing(old(columns), days)
      ensures |old(columns)| <= |columns| && columns[..|old(columns)|] == old(columns)
      ensures forall r :: 0 <= r < |rows| ==>
        rows[r].key == old(rows[r].key) && rows[r].cells == old(rows[r].cells) + Blank(|columns| - |old(columns)|)
      ensures forall d :: d in days ==> d in columns
      ensures forall c :: |old(columns)| <= c < |columns| ==> columns[c] in days && columns[c] !in columns[..c]
      ensures (forall d :: d in days ==> d in old(columns)) ==> columns == old(columns) && rows == old(rows)
    {
      for i := 0 to |days|
        invariant Valid() && |rows| == old(|rows|)
        invariant |old(columns)| <= |columns|
        invariant AppendMissing(columns, days[i..]) == AppendMissing(old(columns), days)
        invariant forall r :: 0 <= r < |rows| ==>
          rows[r].key == old(rows[r].key) && rows[r].cells == old(rows[r].cells) + Blank(|columns| - |old(columns)|)
      {
        assert days[i..][1..] == days[i + 1..];
        ghost var before := rows;
        ghost var width := |columns|;
        if days[i] !in columns {
          AddColumn(days[i]);
          forall r | 0 <= r < |rows|
            ensures rows[r].cells == old(rows[r].cells) + Blank(|columns| - |old(columns)|)
          {
            assert Blank(width - |old(columns)|) + [None] == Blank(|columns| - |old(columns)|);
          }
        }
      }
      assert days[|days|..] == [];
      AppendMissingProperties(old(columns), days);
      if forall d :: d in days ==> d in old(columns) {
        forall r | 0 <= r < |rows| ensures rows[r] == old(rows[r]) {
          assert rows[r].cells == old(rows[r].cells) + [];
        }
      }
    }

    /** `hours_table.loc['Total'] = hours_table.sum()`: append the column sums as a last row. */
    method AppendTotal()
      requires Valid()
      modifies this
      ensures Valid() && columns == old(columns)
      ensures rows == old(rows) + [Row(TotalLabel, ColumnTotals(old(rows), |columns|))]
    {
      rows := rows + [Row(TotalLabel, ColumnTotals(rows, |columns|))];
    }
  }

  /**
   * `rows` is `original` with `value` written, in the rows labelled `name`,
   * into each business-day column before column `j`; all else is unchanged.
   */
  ghost predicate WrittenUpTo(original: seq<Row>, rows: seq<Row>, name: string, columns: seq<Date>,
                              businessDays: seq<Date>, value: real, j: int)
  {
    |rows| == |original|
    && (forall r :: 0 <= r < |rows| ==> rows[r].key == original[r].key)
    && (forall r :: 0 <= r < |rows| ==> |rows[r].cells| == |columns| && |original[r].cells| == |columns|)
    && (forall r, c :: 0 <= r < |rows| && 0 <= c < |columns| ==>
          rows[r].cells[c] == if rows[r].key == Named(name) && c < j && columns[c] in businessDays then Some(value) else original[r].cells[c])
  }

  /** Rows that keep their keys keep a row labelled `name`. */
  lemma KeysKeepName(original: seq<Row>, rows: seq<Row>, name: string)
    requires |rows| == |original| && forall r :: 0 <= r < |rows| ==> rows[r].key == original[r].key
    requires exists r :: 0 <= r < |original| && original[r].key == Named(name)
    ensures exists r :: 0 <= r < |rows| && rows[r].key == Named(name)
  {
    var r :| 0 <= r < |original| && original[r].key == Named(name);
    assert rows[r].key == Named(name);
  }

  /** One pass of the day loop: column `j` written (or not) extends the written prefix by one column. */
  lemma WrittenStep(original: seq<Row>, prev: seq<Row>, rows: seq<Row>, name: string, columns: seq<Date>,
                    businessDays: seq<Date>, value: real, j: int)
    requires 0 <= j < |columns|
    requires WrittenUpTo(original, prev, name, columns, businessDays, value, j)
    requires |rows| == |prev| && forall r :: 0 <= r < |rows| ==> rows[r].key == prev[r].key && |rows[r].cells| == |columns|
    requires forall r, c :: 0 <= r < |rows| && 0 <= c < |columns| ==>
      rows[r].cells[c] == if rows[r].key == Named(name) && c == j && columns[c] in businessDays then Some(value) else prev[r].cells[c]
    ensures WrittenUpTo(original, rows, name, columns, businessDays, value, j + 1)
  {
  }

  /**
   * `calculate_hours(df, start_date, end_date)` for a period inside one
   * month: the table has one column per day of the period and one row per
   * worker, in roster order; the row of a worker holds the allocation of
   * the last worker listed under the same name (the worker's own when
   * names are unique); a final Total row holds the column sums; and the
   * period's total hours are eight per working day.
   */
  method CalculateHours(workers: seq<Worker>, start: Date, end: Date) returns (table: HoursTable, totalHours: int)
    requires start.year == end.year && start.month == end.month
    ensures fresh(table) && table.Valid()
    ensures table.columns == DateRange(start, end)
    ensures totalHours == TotalHours(DateRange(start, end))
    ensures |table.rows| == |workers| + 1
    ensures forall r :: 0 <= r < |workers| ==>
      table.rows[r] == Row(Named(workers[r].name), RowAfter(workers, r, |workers|, table.columns))
    ensures table.rows[|workers|] == Row(TotalLabel, ColumnTotals(table.rows[..|workers|], |table.columns|))
  {
    var dateRange := DateRange(start, end);
    var names := seq(|workers|, i requires 0 <= i < |workers| => workers[i].name);
    table := new HoursTable(names, dateRange);

    var numWorkingDays := NumWorkingDays(dateRange);
    totalHours := HoursPerDay * numWorkingDays;
    var businessDays := BusinessDayRange(start, end);
    BusinessDaysMatchWorkingDays(start.year, start.month, start.day, end.day);
    NoWorkerWritten(table.rows, workers, dateRange);
    AllocateRows(table, workers, businessDays, numWorkingDays, totalHours);

    table.FillMissingColumns(dateRange);
    table.AppendTotal();
  }

  /**
   * The loop over the workers: each worker's rounded daily hours go into
   * every business-day cell of the rows under its name, so that a later
   * worker of the same name overwrites an earlier one.
   */
  method AllocateRows(table: HoursTable, workers: seq<Worker>, businessDays: seq<Date>, numWorkingDays: nat, totalHours: int)
    requires table.Valid()
    requires numWorkingDays == NumWorkingDays(table.columns) && totalHours == TotalHours(table.columns)
    requires MarksWorkingDays(table.columns, businessDays)
    requires RowsAfterWorkers(table.rows, workers, 0, table.columns)
    modifies table
    ensures table.Valid() && table.columns == old(table.columns)
    ensures RowsAfterWorkers(table.rows, workers, |workers|, table.columns)
  {
    var dateRange := table.columns;
    for i := 0 to |workers|
      invariant table.Valid() && table.columns == dateRange
      invariant RowsAfterWorkers(table.rows, workers, i, dateRange)
    {
      WriteWorker(table, workers, i, businessDays, numWorkingDays, totalHours);
    }
  }

  /** One pass of the worker loop: worker `i`'s rounded daily hours go into the business-day cells of the rows under its name. */
  method WriteWorker(table: HoursTable, workers: seq<Worker>, i: nat, businessDays: seq<Date>, numWorkingDays: nat, totalHours: int)
    requires table.Valid() && i < |workers|
    requires numWorkingDays == NumWorkingDays(table.columns) && totalHours == TotalHours(table.columns)
    requires MarksWorkingDays(table.columns, businessDays)
    requires RowsAfterWorkers(table.rows, workers, i, table.columns)
    modifies table
    ensures table.Valid() && table.columns == old(table.columns)
    ensures RowsAfterWorkers(table.rows, workers, i + 1, table.columns)
  {
    var dailyHours := DailyHours(workers[i].pourcentage, totalHours, numWorkingDays);
    var cellValue := RoundTenth(dailyHours);
    ghost var before := table.rows;
    OwnRowIsNamed(before, workers, i, table.columns);
    table.WriteRow(workers[i].name, businessDays, cellValue);
    RowsAfterWrite(workers, i, table.columns, businessDays, cellValue, before, table.rows);
  }

  /** `businessDays` holds exactly the working days among `days`. */
  ghost predicate MarksWorkingDays(days: seq<Date>, businessDays: seq<Date>)
  {
    forall c :: 0 <= c < |days| ==> (days[c] in businessDays <==> IsWorkingDay(days[c]))
  }

  /** The rows, as values, after the first `i` workers have been written. */
  ghost predicate RowsAfterWorkers(rows: seq<Row>, workers: seq<Worker>, i: nat, days: seq<Date>)
    requires i <= |workers|
  {
    |rows| == |workers| && forall r :: 0 <= r < |workers| ==> rows[r] == Row(Named(workers[r].name), RowAfter(workers, r, i, days))
  }

  /** Before the worker loop every row is blank, which is what no worker written means. */
  lemma NoWorkerWritten(rows: seq<Row>, workers: seq<Worker>, days: seq<Date>)
    requires |rows| == |workers|
    requires forall r :: 0 <= r < |workers| ==> rows[r] == Row(Named(workers[r].name), Blank(|days|))
    ensures RowsAfterWorkers(rows, workers, 0, days)
  {
  }

  /** Worker `i` has a row under its own name, so `.loc` finds one to write. */
  lemma OwnRowIsNamed(rows: seq<Row>, workers: seq<Worker>, i: nat, days: seq<Date>)
    requires i < |workers| && RowsAfterWorkers(rows, workers, i, days)
    ensures exists r :: 0 <= r < |rows| && rows[r].key == Named(workers[i].name)
  {
    assert rows[i].key == Named(workers[i].name);
  }

  /** One pass of the worker loop, on the rows as values: the rows after writing worker `i` are those of `i + 1` workers. */
  lemma RowsAfterWrite(workers: seq<Worker>, i: nat, days: seq<Date>, businessDays: seq<Date>, value: real,
                       before: seq<Row>, after: seq<Row>)
    requires i < |workers| && |before| == |workers| && |after| == |workers|
    requires value == DailyCell(workers[i].pourcentage, days)
    requires MarksWorkingDays(days, businessDays)
    requires RowsAfterWorkers(before, workers, i, days)
    requires forall r :: 0 <= r < |workers| ==> after[r].key == before[r].key && |after[r].cells| == |days| && |before[r].cells| == |days|
    requires forall r, c :: 0 <= r < |workers| && 0 <= c < |days| ==>
      after[r].cells[c] == if after[r].key == Named(workers[i].name) && days[c] in businessDays then Some(value) else before[r].cells[c]
    ensures RowsAfterWorkers(after, workers, i + 1, days)
  {
    var row := AllocationRow(workers[i].pourcentage, days);
    assert |row| == |days|;
    assert forall c :: 0 <= c < |days| ==> row[c] == if IsWorkingDay(days[c]) then Some(value) else None;
    forall r | 0 <= r < |workers|
      ensures after[r] == Row(Named(workers[r].name), RowAfter(workers, r, i + 1, days))
    {
      RowAfterStep(workers, r, i, days);
      var expected := if workers[r].name == workers[i].name then row else before[r].cells;
      assert forall c :: 0 <= c < |days| ==> after[r].cells[c] == expected[c];
      assert after[r].cells == expected;
    }
  }
}
