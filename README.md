# Half-month hours report: a Dafny model

This project models the computational core of the PAR generator page
(`ParGenerator.py`). That page turns a roster of workers, each committed to
a project at some percentage, into a day-by-day table of hours for one
half-month ("quinzaine"). The model covers three pieces:

- **The period resolver** (`HalfMonth`). From the month, year and
  reference day on the form, it picks either days 1 to 15 or day 16 to the
  month's last day. `datetime(...)` raises on an impossible date; here that
  becomes a `Result` error.
- **The holiday filter** (`Holidays`). It takes the fixed table of thirteen
  public holidays, re-anchors them to the year of the period's start, and
  keeps the ones that fall in the period.
- **The allocation engine** (`Allocation`), which models `calculate_hours`:
  - One column per calendar day.
  - One row per worker. Each working-day cell holds
    `round(percentage / 100 * total_hours / working_days, 1)`. Weekend
    cells are empty.
  - A Total row holds the column sums.
  - The period's nominal hours are eight per working day.
  - The pandas `DataFrame` is the class `HoursTable`. Its methods change
    the table in place, as the `.loc` writes, the column insertion and the
    Total append do.

`Calendar` gives the proleptic Gregorian calendar as Python's `datetime`
sees it: valid dates, order, `toordinal` and `weekday`. `Report` connects
the pieces in the order the page runs them, proves that every resolved
window has at least nine working days, and works through the
single-worker January 2024 scenario. The page flow uses the corrected
resolver (see Findings); `HalfMonth.ResolvePeriod` keeps the code as written.

In three places the code does something a reader of the page might not
expect. The model follows the code each time:

- The code's holiday table has an entry for 2 January ("Jour après le
  Nouvel an"). So 1 to 15 January holds three holidays: 1, 2 and 4 January.
- A reference day greater than the month's last day is not rejected. The
  day only chooses the half; only the end date of the second half can fail.
- The Total row's weekend cells hold 0, not an empty value. `DataFrame.sum`
  skips missing values, so a column with no value at all sums to 0.

## Model

| member | source | states |
|---|---|---|
| Calendar.DaysInMonth | ParGenerator.py:155 | The month lengths `datetime` accepts: 28 to 31 days, and 29 exactly for February of a Gregorian leap year |
| Calendar.Weekday | ParGenerator.py:43 | `weekday()` ranges over 0..6, with Monday as 0 |
| Calendar.CalendarAnchors | ParGenerator.py:43 | Day 1 of the ordinal count is 1 January of year 1, and 1 January 2024 is a Monday |
| Calendar.OrdinalShift | ParGenerator.py:39 | Adding k to the day field adds k to the ordinal, so consecutive days of the range have consecutive ordinals |
| HalfMonth.MakeDate | ParGenerator.py:151-155 | `datetime(y, m, d)` succeeds exactly on a valid Gregorian date and returns that date. Otherwise it gives `DayOutOfRange` for that date |
| HalfMonth.ResolvePeriod | ParGenerator.py:150-155 | Any window it returns lies in the given month and year: either days 1-15 or day 16 to the month's last day. It is the first half exactly when `jour <= 15` |
| HalfMonth.ResolveFirstHalf | ParGenerator.py:150-152 | For a valid month and year, `jour <= 15` gives exactly 1 to 15 of that month |
| HalfMonth.ResolveGregorianFirstHalf | ParGenerator.py:150-152 | The corrected resolver gives the same first half |
| HalfMonth.ResolveSecondHalf | ParGenerator.py:153-155 | `jour > 15` gives 16 to the last day (30 / 29 if `annee % 4 == 0` / 28 / 31). It fails exactly for February of a year divisible by 100 and not by 400, with the error for 29 February |
| HalfMonth.ResolveFailsOnlyInFebruary2100 | ParGenerator.py:150-155 | On the inputs the form admits (month 1-12, year 2000-2100, day 1-31), the resolver fails if and only if the input is the second half of February 2100 |
| HalfMonth.ResolveExamples | ParGenerator.py:150-155 | Resolved windows for February 2024 (both halves) and April 2023, and the error for February 2100 |
| HalfMonth.ResolvePeriodGregorian | ParGenerator.py:153-155 | The corrected resolver: it succeeds if and only if the month and year are valid. Its result is a half-month window of that month, the first half exactly when `jour <= 15` |
| HalfMonth.GregorianResolverRefinesOriginal | ParGenerator.py:150-155 | On form inputs the corrected resolver never fails, equals the original wherever the original succeeds, and ends February 2100 on the 28th |
| Holidays.FilterExact | ParGenerator.py:33 | The comprehension keeps exactly the re-anchored entries inside [start, end], both directions. On a chronological table the result is strictly ordered by date |
| Holidays.FilterMembers | ParGenerator.py:33 | A holiday is kept if and only if it is a re-anchored table entry inside [start, end] |
| Holidays.FilterOrdered | ParGenerator.py:33 | Applied to a chronological table, the comprehension returns holidays in strictly increasing date order |
| Holidays.HolidaysIn | ParGenerator.py:16-34 | `get_holidays`: each holiday returned lies in [start, end], has start's year and comes from the table. Every holiday of the table in the window is returned, in date order |
| Holidays.TableIsChronological | ParGenerator.py:17-31 | The fixed table is in strictly increasing (month, day) order |
| Holidays.AnchoredDatesAreValid | ParGenerator.py:17-31 | Re-anchoring the table to any valid year never makes an impossible date |
| Holidays.FilterAfterEnd | ParGenerator.py:33 | Entries dated after the window's end contribute nothing |
| Holidays.FilterKeepsFirstThree | ParGenerator.py:33 | When the first three entries fall in the window and all later ones fall after its end, the comprehension returns exactly those three, in order |
| Holidays.HolidaysOfEarlyJanuary2024 | ParGenerator.py:16-34 | 1-15 January 2024 holds exactly Nouvel an, Jour après le Nouvel an and Martyrs de l'indépendance, in that order. 16 January is excluded |
| Allocation.DaysFrom | ParGenerator.py:39 | The daily range has one entry per day from d to last, with day d+k at position k |
| Allocation.DateRangeIsWindow | ParGenerator.py:39 | The columns are exactly the days from start to end inclusive, strictly chronological and valid |
| Allocation.NumWorkingDays | ParGenerator.py:43 | The count of Monday-to-Friday days never exceeds the number of days |
| Allocation.BusinessDaysFrom | ParGenerator.py:52 | The `freq='B'` range holds a date if and only if that date is a Monday-to-Friday day of the period |
| Allocation.BusinessDaysMatchWorkingDays | ParGenerator.py:52 | A day of the period is in the business-day range exactly when it is counted as a working day, and the two counts are equal |
| Allocation.DailyHours | ParGenerator.py:47-49 | With working days, the daily hours times the working days equal the worker's share of the total hours. With none, the daily hours are 0 |
| Allocation.DailyHoursIsFixedShare | ParGenerator.py:42-49 | With 8 hours per working day, the daily hours are `percentage * 8 / 100`, whatever the period |
| Allocation.RoundTenth | ParGenerator.py:53 | `round(x, 1)` gives a multiple of 0.1 within 0.05 of x. A tie goes to the even multiple |
| Allocation.RoundTenthIsNearest | ParGenerator.py:53 | No multiple of 0.1 is closer to x than its rounding |
| Allocation.RoundTenthOfTenth | ParGenerator.py:53 | Rounding leaves a value that already has one decimal unchanged |
| Allocation.Blank | ParGenerator.py:40 | A freshly created row has one empty cell per column |
| Allocation.CellsCountAndSum | ParGenerator.py:51-53 | A row filled on working days has one filled cell per working day and sums to their number times the value |
| Allocation.CellsSum | ParGenerator.py:51-53 | A row filled with one value on working days sums to the number of working days times that value |
| Allocation.AllocationRowSumWithinTolerance | ParGenerator.py:46-53 | A worker row has exactly one filled cell per working day, each holding the rounded daily hours. Its sum is within 0.05 per working day of the worker's share |
| Allocation.RowSumNearShare | ParGenerator.py:46-53 | The sum of a worker row is within 0.05 per working day of the worker's share of the total hours |
| Allocation.DailyCellNearShare | ParGenerator.py:47-53 | The rounded daily hours times the working days are within 0.05 per working day of the worker's share |
| Allocation.NoWorkingDayIsAllWeekend | ParGenerator.py:43 | A zero working-day count means every day of the period is a Saturday or Sunday |
| Allocation.NoWorkingDayMeansNoHours | ParGenerator.py:42-53 | A period with no working day has 0 total hours, a daily share of 0 rather than a division by zero, and only empty cells |
| Allocation.LastNamed | ParGenerator.py:53 | The index found is the last worker before i with that name, and no later one has it. With none found, no worker before i has that name |
| Allocation.RowAfterStep | ParGenerator.py:46-53 | Writing worker i replaces every row under its name by its allocation and leaves the other rows alone. Weekend cells stay empty |
| Allocation.OwnRowWhenNamesDistinct | ParGenerator.py:53 | With unique names, each worker's row ends up as that worker's own allocation |
| Allocation.WorkerRowsWhenNamesDistinct | ParGenerator.py:46-53 | With unique names, the worker rows are exactly the per-worker allocation rows |
| Allocation.ColumnSumOfEmptyColumn | ParGenerator.py:60 | A column with no value sums to 0 |
| Allocation.TotalOfWorkerRows | ParGenerator.py:60 | On a working day the Total cell is the sum of the workers' rounded daily hours; on a weekend day it is 0 |
| Allocation.AllocatedTableWhenNamesDistinct | ParGenerator.py:37-62 | For unique names, the table returned holds each worker's own allocation row. Its Total row holds the per-day sums, and 0 on weekend days |
| Allocation.HoursTable.constructor | ParGenerator.py:40 | `pd.DataFrame(index=names, columns=days)`: one empty row per name, with the days as columns |
| Allocation.HoursTable.SetCell | ParGenerator.py:53 | `.loc[name, col] = v` sets column col of every row labelled name and changes no other cell |
| Allocation.HoursTable.WriteRow | ParGenerator.py:51-53 | The day loop puts the value in every business-day cell of the rows labelled name; every other cell keeps its value |
| Allocation.HoursTable.AddColumn | ParGenerator.py:58 | Adding a column appends one empty cell to every row and the day to the columns |
| Allocation.AppendMissingProperties | ParGenerator.py:56-58 | The fill loop's columns keep the old columns as a prefix and include every day. Each added column is a day not already present, added once. Nothing is added when every day is already a column |
| Allocation.HoursTable.FillMissingColumns | ParGenerator.py:56-58 | The columns become the old columns followed by the missing days in loop order (`AppendMissing`). Every row keeps its label and cells and gains one empty cell per added column. When every day is already a column, nothing changes |
| Allocation.HoursTable.AppendTotal | ParGenerator.py:60 | The table gains exactly one last row, labelled Total, holding the sum of each column over the previous rows |
| Allocation.AllocateRows | ParGenerator.py:46-53 | After the worker loop, each row holds the allocation of the last worker listed under its name |
| Allocation.WriteWorker | ParGenerator.py:46-53 | One pass of the worker loop on the table: the rows for i workers become the rows for i + 1 workers, and the columns stay the same |
| Allocation.RowsAfterWrite | ParGenerator.py:46-53 | One pass of the worker loop turns the rows for i workers into the rows for i + 1 workers |
| Allocation.CalculateHours | ParGenerator.py:37-62 | `calculate_hours`: columns are the period's days and the total hours are 8 per working day. There is one row per worker with the allocation of the last worker of that name, then a Total row of the column sums |
| Report.WorkingDaysOfRun | ParGenerator.py:43 | The working-day count of consecutive days equals the count over their run of weekdays |
| Report.HalfMonthWindowHasWorkingDays | ParGenerator.py:49 | Every half-month window has at least 9 working days and 72 hours, so the zero-day branch is never taken from the page |
| Report.ResolvedWindowHasWorkingDays | ParGenerator.py:150-158 | Any window either resolver returns has at least 9 working days |
| Report.MondayFirstHalfHours | ParGenerator.py:42-44 | The first half of a month that starts on a Monday has 11 working days and 88 hours |
| Report.MondayFirstHalfAllocation | ParGenerator.py:46-53 | For that window a worker at 50% has 4.0 on the working days and nothing on the 6th and 7th |
| Report.FirstHalfOfJanuary2024 | ParGenerator.py:150-158 | The window resolved for January 2024, day 10, has 11 working days and 88 hours, and gives 4.0 per working day at 50% |
| Report.GenerateReport | ParGenerator.py:150-163 | The page flow with the corrected month end. It stops with the resolver's error exactly when the month or year is one `datetime` rejects, so never on form inputs. Otherwise it returns the table `calculate_hours` returns for the resolved window, the total hours (at least 72) and the window's holidays |
| Report.SingleWorkerFirstHalfOfJanuary2024 | ParGenerator.py:37-62 | A lone worker at 50% over 1-15 January 2024 gets 4.0 per working day and empty weekends. The Total row equals that row on working days and holds 0 on weekends |

## Left out

- Reading the roster from Excel (`load_data`), the Excel and JPG exports (`export_to_excel`, `export_to_jpg`), the charts (`plot_hours_general`), the Streamlit widgets and page layout, and the home page module. These are presentation and I/O around the core. The roster is a parameter (`seq<Worker>`), and so are the form's month, year and day.
- Floating-point arithmetic. Percentages, hours and `round` work on exact reals. `RoundTenth` rounds half to even on the exact value. Python's `round` on a binary float can differ at values that are not exactly representable.
- The column labels (`strftime('%A %d-%m')`). Columns are keyed by the date itself. Within one month the labels are distinct, so the two keyings pick the same columns.
- Allocation.CalculateHours: takes periods that lie inside one calendar month only. Ranges that cross a month are not modelled. The only caller passes a half-month window, which always lies in one month.
- A worker named `Total`. pandas' `.loc['Total'] =` would then overwrite that worker's row instead of appending one. The model always appends a new row.
- pandas row enlargement: `.loc` with a label that is missing would add a row. Every worker's name is a row label by construction, so that branch cannot occur.
- Input validation the code does not perform: a missing `FC Name` or `Pourcentage` column, text percentages, and percentages outside 0-100. The code does none of these checks, and neither does the model.
- Holidays.HolidaysIn: anchors the table to the start's year, as the code does. A window that crosses a year is not re-anchored to the end's year; the page's windows never cross one.

## Findings

| source | as written | input that shows it | evidently intended | confidence | as-written member | corrected member |
|---|---|---|---|---|---|---|
| ParGenerator.py:155 | The second half of February ends on the 29th whenever `annee % 4 == 0`, and the form admits years up to 2100 | month 2, year 2100, day 16 to 31: `datetime(2100, 2, 29)` raises because 2100 is not a leap year | End on the month's real last day (28 in 2100), as the Gregorian calendar and `datetime` define it | not executed | HalfMonth.ResolveFailsOnlyInFebruary2100 | HalfMonth.GregorianResolverRefinesOriginal |
