# Road-network distances and tolls, modelled in Dafny

The model covers two Python files of the MapUp data assessment templates.

`python_task_2.py` is a small distance and toll pipeline:

- `calculate_distance_matrix` builds a square distance table over the sorted
  union of the point ids. It first fills the table from the edge rows, both
  ways, with the last row winning, and turns missing cells into 0. It then
  makes one in-place sweep, columns outer and rows inner. Every zero cell off
  the diagonal takes, both ways, the largest `d(idx, k) + d(k, col)` over the
  intermediates `k` with `d(idx, k) != 0`, read from the table as it stands
  at that moment.
- `unroll_distance_matrix` flattens the table back into
  (id_start, id_end, distance) records, dropping the diagonal.
- `find_ids_within_ten_percentage_threshold` takes the mean distance of the
  reference id's records. It returns the sorted, distinct id_start of every
  record whose own distance lies within ten percent of that mean.
- `calculate_toll_rate` adds one column per vehicle type, each holding the
  distance times a fixed coefficient.
- `calculate_time_based_toll_rates` accumulates a toll over three time-of-day
  bands on weekdays, with a weekend update placed inside the band loop, so a
  weekend record would gain 0.7 times its distance on each of the three
  passes. The day names are first parsed in a way that turns every one of them
  into Monday, so as written every record pays the weekday bands and none
  pays the weekend factor (see "Findings").

`python_task_1.py` holds small rules over a vehicle table:

- `generate_car_matrix` builds a car-value matrix over the distinct id_1 and
  id_2 values.
- `get_type_count` puts the car values into half-open buckets and counts them.
- `get_bus_indexes` returns the positions with an outsized bus value.
- `filter_routes` returns the routes with a high mean truck value.
- `multiply_matrix` rescales a copy of a matrix with two masked
  multiplications, one after the other.

Modules:

- `Tables` (`tables.dfy`) holds the shared helpers:
  - `sorted(set(...))` and `unique()`;
  - label lookup;
  - sum and mean;
  - the sequence view `Grid` of an `array2`.
- `DistanceMatrix` (`distance_matrix.dfy`):
  - the table is an `array2<real>` indexed by position on the sorted id axis;
  - the sweep is specified by the pure functions `Step`, `SweepRows`,
    `SweepCols` and `Complete` on that sequence view;
  - the in-place loops are proved equal to them.
- `Unroll` (`unroll.dfy`): the nested loop appending records.
- `Proximity` (`proximity.dfy`): the pure threshold selection.
- `TollRates` (`toll_rates.dfy`): a table class whose method adds the
  vehicle columns.
- `TimeTolls` (`time_tolls.dfy`): days are an enum and times are seconds
  after midnight; a table class whose method runs the band loop.
- `VehicleRows` (`vehicle_rows.dfy`): the row of the vehicle table.
- `CarMatrix` (`car_matrix.dfy`): `generate_car_matrix` and `multiply_matrix`.
- `VehicleStats` (`vehicle_stats.dfy`): `get_type_count`, `get_bus_indexes`
  and `filter_routes`.

Floating-point numbers are modelled as exact reals.

Behaviour of the code worth noting:

- The code makes exactly one sweep. There is no repeat-until-fixpoint loop.
- An unknown distance and a distance of 0 are the same cell value.
- The diagonal is 0 only because `fillna(0)` runs and no row writes it.
- The search for intermediates asks only d(idx, k) != 0, not d(k, col) != 0.
  A missing second leg counts as a leg of length 0, so two points with no
  path between them still get a distance: with edges (1, 2, 5) and (3, 4, 7),
  ids 1 and 3 end 7 apart (`DisconnectedPointsGetDistance`).
- No error is raised:
  - There is no malformed-input check. Negative distances and self-edges go
    straight into the table.
  - A reference id without records gives a NaN mean. Every comparison with
    NaN is false, so the result is empty rather than an error.
- A record's end time is tested with `<=` against the band's end, so the
  bands are closed at both ends. A record whose start day stayed a weekend
  day would gain the weekend factor on each of the three band passes, 2.1
  times its distance in all, not 0.7 times; after the day parse no record is
  a weekend one.

Search for intermediates: the source reads the column `distance_matrix[idx]`,
where the model reads row `idx`. Each visit keeps the table symmetric, so it
is symmetric at every visit of the sweep (`SweepRowsShape`, `SweepColsShape`),
and the two are the same.

## Model

| member | source | states |
|---|---|---|
| Tables.SortedDistinct | MapUp-Data-Assessment-F-main/templates/python_task_2.py:16 | `sorted(set(...))`: the result is strictly ascending and holds exactly the values of the input |
| Tables.SortedDistinctOfAscending | MapUp-Data-Assessment-F-main/templates/python_task_2.py:16 | `sorted(set(...))` of a strictly ascending list is that list |
| Tables.Unique | MapUp-Data-Assessment-F-main/templates/python_task_1.py:26-27 | `unique()`: the result is duplicate-free, holds exactly the input's values, and keeps them in order of first appearance |
| DistanceMatrix.PointIds | MapUp-Data-Assessment-F-main/templates/python_task_2.py:16 | the id axis is strictly ascending and holds exactly the ids occurring as id_start or id_end of some edge |
| DistanceMatrix.LastDistance | MapUp-Data-Assessment-F-main/templates/python_task_2.py:20-26 | definition: the direct cell, the distance of the last edge row joining the two ids in either order, or 0 |
| DistanceMatrix.DirectGrid | MapUp-Data-Assessment-F-main/templates/python_task_2.py:17-26 | definition: the square table after the row loop and `fillna(0)`, cell (i, j) being `LastDistance` of ids i and j |
| DistanceMatrix.BestVia | MapUp-Data-Assessment-F-main/templates/python_task_2.py:33-38 | definition: the largest d(idx, k) + d(k, col) over the intermediates k with d(idx, k) != 0, or none |
| DistanceMatrix.Step | MapUp-Data-Assessment-F-main/templates/python_task_2.py:31-38 | definition: one visit, which sets a zero cell off the diagonal and its mirror to `BestVia`; the matrix stays square |
| DistanceMatrix.SweepRows | MapUp-Data-Assessment-F-main/templates/python_task_2.py:30-38 | definition: the visits of rows 0 .. rows - 1 of one column, each on the matrix the previous ones left |
| DistanceMatrix.SweepCols | MapUp-Data-Assessment-F-main/templates/python_task_2.py:29-38 | definition: the columns 0 .. cols - 1 swept one after another |
| DistanceMatrix.Complete | MapUp-Data-Assessment-F-main/templates/python_task_2.py:29-38 | definition: the whole single sweep, columns outer and rows inner |
| DistanceMatrix.LastDistanceIsLastRow | MapUp-Data-Assessment-F-main/templates/python_task_2.py:20-26 | a direct cell is symmetric; it holds the distance of the last row joining the two ids in either direction, and 0 when no row does |
| DistanceMatrix.FillDirect | MapUp-Data-Assessment-F-main/templates/python_task_2.py:17-26 | after the row loop and `fillna(0)`, cell (i, j) holds the last joining row's distance, or 0 |
| DistanceMatrix.BestViaIsMax | MapUp-Data-Assessment-F-main/templates/python_task_2.py:33-38 | the candidate maximum exists iff some k has d(idx, k) != 0; it is at least every d(idx, k) + d(k, col) over those k and equal to one of them |
| DistanceMatrix.BestIntermediate | MapUp-Data-Assessment-F-main/templates/python_task_2.py:33-38 | the loop over intermediates finds a candidate iff some d(idx, k) != 0, and returns the largest d(idx, k) + d(k, col) over those k |
| DistanceMatrix.StepFillsWithMax | MapUp-Data-Assessment-F-main/templates/python_task_2.py:31-38 | a visited zero cell off the diagonal is set, the same both ways, to the largest sum through an intermediate of the matrix as it stands at that visit |
| DistanceMatrix.VisitCell | MapUp-Data-Assessment-F-main/templates/python_task_2.py:31-38 | one visit of cell (idx, col) changes the array exactly as `Step` does, whenever a zero cell off the diagonal has a nonzero cell in its row |
| DistanceMatrix.CompleteInPlace | MapUp-Data-Assessment-F-main/templates/python_task_2.py:29-38 | on a symmetric array whose sweep never searches an empty row (`SweepDefined`), the nested column/row loop leaves the array equal to one whole sweep, `Complete`, of its old contents |
| DistanceMatrix.LinkedSweepDefined | MapUp-Data-Assessment-F-main/templates/python_task_2.py:29-38 | a symmetric table with a nonzero cell in every row keeps every row linked, so no visit of the sweep searches an empty row |
| DistanceMatrix.IsolationFreeSweepDefined | MapUp-Data-Assessment-F-main/templates/python_task_2.py:20-38 | when every id has a nonzero direct distance to some point, the sweep over the directly filled table never searches an empty row |
| DistanceMatrix.ZeroEdgeCompletes | MapUp-Data-Assessment-F-main/templates/python_task_2.py:16-38 | edges (1, 2, 0) and (2, 3, 5) leave id 1 with no nonzero direct distance, yet no visit searches an empty row, and the sweep gives 5 between 1 and 2 and 10 between 1 and 3 |
| DistanceMatrix.DisconnectedPointsGetDistance | MapUp-Data-Assessment-F-main/templates/python_task_2.py:29-38 | edges (1, 2, 5) and (3, 4, 7) give ids [1, 2, 3, 4], and ids 1 and 3, with no path between them, end 7 apart both ways, since a missing second leg counts as 0 |
| DistanceMatrix.CompleteKeeps | MapUp-Data-Assessment-F-main/templates/python_task_2.py:29-38 | the sweep keeps the table symmetric and rewrites only cells that were 0 with idx != col |
| DistanceMatrix.CompleteFillsEveryCell | MapUp-Data-Assessment-F-main/templates/python_task_2.py:29-38 | with non-negative distances and a nonzero cell in every row, one sweep leaves every off-diagonal cell positive |
| DistanceMatrix.CalculateDistanceMatrix | MapUp-Data-Assessment-F-main/templates/python_task_2.py:16-40 | when no visit of the sweep searches an empty row, returns the sorted id axis and a new square array equal to the sweep applied to the directly filled table |
| DistanceMatrix.CompletedTableKeepsDirect | MapUp-Data-Assessment-F-main/templates/python_task_2.py:23-38 | the completed table is symmetric; every nonzero direct distance survives; without self-edges the diagonal stays 0 |
| DistanceMatrix.CompletedTableIsFull | MapUp-Data-Assessment-F-main/templates/python_task_2.py:20-38 | with non-negative edges and no isolated point, every pair of distinct ids has a positive distance after the single sweep |
| DistanceMatrix.LastDistanceNonNegative | MapUp-Data-Assessment-F-main/templates/python_task_2.py:20-26 | non-negative edge distances give non-negative direct cells |
| DistanceMatrix.ChainExample | MapUp-Data-Assessment-F-main/templates/python_task_2.py:16-38 | edges (1, 2, 10) and (2, 3, 10) give ids [1, 2, 3] and a distance of 20 between 1 and 3, both ways |
| DistanceMatrix.LaterCellsSeeEarlierFills | MapUp-Data-Assessment-F-main/templates/python_task_2.py:29-38 | in a chain of four points, cells filled early in the sweep feed later ones, and the maximum gives 40 where the chain is 20 long |
| Unroll.RowRecords | MapUp-Data-Assessment-F-main/templates/python_task_2.py:58-65 | definition: the records the inner loop appends for one row, skipping the diagonal |
| Unroll.UnrolledRows | MapUp-Data-Assessment-F-main/templates/python_task_2.py:57-65 | definition: the records appended for the first s rows, rows outer |
| Unroll.Unrolled | MapUp-Data-Assessment-F-main/templates/python_task_2.py:57-65 | definition: the records appended by the whole nested loop |
| Unroll.UnrolledLength | MapUp-Data-Assessment-F-main/templates/python_task_2.py:57-65 | N distinct ids give N * (N - 1) records |
| Unroll.UnrolledMembers | MapUp-Data-Assessment-F-main/templates/python_task_2.py:57-65 | the records are exactly the cells with different row and column labels, each value copied verbatim |
| Unroll.UnrolledOrdered | MapUp-Data-Assessment-F-main/templates/python_task_2.py:57-58 | over a sorted id axis, the records come in strictly increasing (id_start, id_end) order |
| Unroll.UnrolledTable | MapUp-Data-Assessment-F-main/templates/python_task_2.py:57-65 | over a sorted id axis: N * (N - 1) records, in row-major order, that are exactly the off-diagonal cells with start != end and the cell's value |
| Unroll.UnrollDistanceMatrix | MapUp-Data-Assessment-F-main/templates/python_task_2.py:54-67 | the nested loop returns the flattened table; over a sorted axis, it has N * (N - 1) records in row-major order |
| Proximity.DistancesFrom | MapUp-Data-Assessment-F-main/templates/python_task_2.py:84-87 | the reference's distance column is empty iff no record starts at the reference id |
| Proximity.InBand | MapUp-Data-Assessment-F-main/templates/python_task_2.py:90-94 | definition: a distance lies between avg - 0.1 avg and avg + 0.1 avg, both ends included |
| Proximity.StartsInBand | MapUp-Data-Assessment-F-main/templates/python_task_2.py:90-94 | an id is listed iff some record starts at it with a distance in [avg - 0.1 avg, avg + 0.1 avg] |
| Proximity.IdsWithinTenPercent | MapUp-Data-Assessment-F-main/templates/python_task_2.py:84-97 | the result is strictly ascending; it is empty when the reference has no record; otherwise an id is in it iff some record of that id_start has its distance within ten percent of the reference's mean |
| Proximity.RecordsNotMeansAreFiltered | MapUp-Data-Assessment-F-main/templates/python_task_2.py:84-97 | records (1, 2, 10), (2, 1, 10), (2, 3, 100) with reference 1 give [1, 2], although id 2's own mean is 55 |
| TollRates.VehicleTypesComplete | MapUp-Data-Assessment-F-main/templates/python_task_2.py:113 | the coefficient dictionary lists each of the five vehicle types exactly once |
| TollRates.VehicleTypes | MapUp-Data-Assessment-F-main/templates/python_task_2.py:113 | definition: the keys of the coefficient dictionary in insertion order |
| TollRates.RateCoefficient | MapUp-Data-Assessment-F-main/templates/python_task_2.py:113 | definition: the coefficients 0.8, 1.2, 1.5, 2.2 and 3.6 of moto, car, rv, bus and truck |
| TollRates.TollColumn | MapUp-Data-Assessment-F-main/templates/python_task_2.py:116-117 | definition: each record's distance times the vehicle type's coefficient |
| TollRates.TenUnitsExample | MapUp-Data-Assessment-F-main/templates/python_task_2.py:113-117 | a distance of 10 pays 8, 12, 15, 22 and 36 |
| TollRates.TollTable.CalculateTollRate | MapUp-Data-Assessment-F-main/templates/python_task_2.py:113-119 | afterwards every vehicle column exists and equals distance times its coefficient; the records are unchanged |
| TimeTolls.WeekdayMatch | MapUp-Data-Assessment-F-main/templates/python_task_2.py:155 | definition: `weekday_mask`, start >= the band's start, end <= its end, and a Monday to Friday start day |
| TimeTolls.TimeRanges | MapUp-Data-Assessment-F-main/templates/python_task_2.py:133-137 | definition: the three bands, 00:00:00 to 10:00:00 at 0.8, 10:00:00 to 18:00:00 at 1.2, 18:00:00 to 23:59:59 at 0.8 |
| TimeTolls.WeekendDiscountFactor | MapUp-Data-Assessment-F-main/templates/python_task_2.py:140 | definition: the weekend factor 0.7 |
| TimeTolls.BandContribution | MapUp-Data-Assessment-F-main/templates/python_task_2.py:155-159 | definition: what one band pass adds, the weekday update and then the weekend update |
| TimeTolls.TimeBasedToll | MapUp-Data-Assessment-F-main/templates/python_task_2.py:151-159 | definition: the column's value after all three band passes, starting from 0.0 |
| TimeTolls.TollAfterBands | MapUp-Data-Assessment-F-main/templates/python_task_2.py:151-159 | definition: the toll after the first k band passes, starting from 0.0 |
| TimeTolls.ParsedDay | MapUp-Data-Assessment-F-main/templates/python_task_2.py:143-144 | definition: the day-name parse, which yields Monday for every name because a bare weekday name sets no date and the date defaults to 1900-01-01 |
| TimeTolls.TimeBasedTollColumn | MapUp-Data-Assessment-F-main/templates/python_task_2.py:143-159 | definition: each record's toll, computed on its parsed start day |
| TimeTolls.WeekendToll | MapUp-Data-Assessment-F-main/templates/python_task_2.py:139-159 | intended behaviour, with the day name kept: a Saturday or Sunday record gains 0.7 times its distance on each of the three passes, 2.1 times in all, whatever its times |
| TimeTolls.WeekdayToll | MapUp-Data-Assessment-F-main/templates/python_task_2.py:133-158 | a Monday to Friday record pays its distance times the sum of the factors of every band with start >= lo and end <= hi |
| TimeTolls.BandOf | MapUp-Data-Assessment-F-main/templates/python_task_2.py:133-137 | the factor an interval running forward in time collects is one of 0, 0.8 and 1.2 |
| TimeTolls.ForwardIntervalMatchesOneBand | MapUp-Data-Assessment-F-main/templates/python_task_2.py:133-158 | with start < end no two bands both match a weekday record, which pays the factor of the band holding its interval, or nothing |
| TimeTolls.TenOClockInstant | MapUp-Data-Assessment-F-main/templates/python_task_2.py:133-158 | a weekday record from 10:00:00 to 10:00:00 matches two bands and pays 0.8 + 1.2 times its distance |
| TimeTolls.OvernightCollectsAllBands | MapUp-Data-Assessment-F-main/templates/python_task_2.py:133-158 | a weekday record starting at 18:00:00 or later and ending by 10:00:00 matches all three bands and pays 2.8 times its distance |
| TimeTolls.UnmatchedWeekdayIsFree | MapUp-Data-Assessment-F-main/templates/python_task_2.py:133-158 | a weekday record running forward across 10:00:00 or 18:00:00 pays nothing |
| TimeTolls.EndDayIgnored | MapUp-Data-Assessment-F-main/templates/python_task_2.py:144-159 | the end day never changes the toll |
| TimeTolls.ParsedTollIsBandsOnly | MapUp-Data-Assessment-F-main/templates/python_task_2.py:143-159 | with the parse as written, every record pays its distance times the factors of the bands holding its times, whatever its day |
| TimeTolls.ParsedColumnIsBandsOnly | MapUp-Data-Assessment-F-main/templates/python_task_2.py:143-159 | every entry of the column as written is the record's distance times the factors of its matching bands |
| TimeTolls.SaturdayPaysWeekdayBands | MapUp-Data-Assessment-F-main/templates/python_task_2.py:143-159 | a Saturday record from 10:00:00 to 10:00:00 over distance 10 pays 20 after the parse, where the weekend factor would give 21 |
| TimeTolls.TimedTable.CalculateTimeBasedTollRates | MapUp-Data-Assessment-F-main/templates/python_task_2.py:143-159 | `start_day` and `end_day` hold the parsed day of every record; the toll column starts at 0.0 and after the band loop each entry is the toll of the record with its parsed start day; the records are unchanged |
| CarMatrix.LastCar | MapUp-Data-Assessment-F-main/templates/python_task_1.py:32-36 | definition: the cell after the row loop and `fillna(0)`, the last matching row's car value or 0 |
| CarMatrix.LastCarIsLastRow | MapUp-Data-Assessment-F-main/templates/python_task_1.py:32-36 | cell (a, b) holds the car value of the last row with id_1 = a and id_2 = b, and 0 when there is none |
| CarMatrix.FillCars | MapUp-Data-Assessment-F-main/templates/python_task_1.py:29-36 | over distinct row and column labels holding every row's ids, a new array on which the row loop and `fillna(0)` leave each cell equal to the last matching row's car value, or 0 |
| CarMatrix.GenerateCarMatrix | MapUp-Data-Assessment-F-main/templates/python_task_1.py:26-38 | a new array whose rows and columns are the unique id_1 and id_2 values in first-appearance order, and whose every cell is the last matching row's car value or 0 |
| CarMatrix.Scaled | MapUp-Data-Assessment-F-main/templates/python_task_1.py:134-135 | definition: the first mask, then the second on its result |
| CarMatrix.FirstMask | MapUp-Data-Assessment-F-main/templates/python_task_1.py:134 | definition: a value above 20 is multiplied by 0.75 |
| CarMatrix.SecondMask | MapUp-Data-Assessment-F-main/templates/python_task_1.py:135 | definition: a value of at most 20 is multiplied by 1.25 |
| CarMatrix.ScaledClosedForm | MapUp-Data-Assessment-F-main/templates/python_task_1.py:134-135 | v <= 20 becomes 1.25 v; 20 < v <= 80/3 becomes 0.9375 v, as the second mask catches it; v > 80/3 becomes 0.75 v |
| CarMatrix.MaskedScale | MapUp-Data-Assessment-F-main/templates/python_task_1.py:134-135 | a masked `*=`: exactly the selected cells are multiplied by the factor |
| CarMatrix.MultiplyMatrix | MapUp-Data-Assessment-F-main/templates/python_task_1.py:131-135 | the result is a new array of the input's shape, the input is untouched, and every cell is the input cell put through both masks in order |
| VehicleStats.CarTypeOf | MapUp-Data-Assessment-F-main/templates/python_task_1.py:61 | definition: `pd.cut` with bins (-inf, 15, 25, inf), closed on the left |
| VehicleStats.ConditionsTypeOf | MapUp-Data-Assessment-F-main/templates/python_task_1.py:53-57 | definition: the unused `conditions` list, buckets closed on the right |
| VehicleStats.TypeCounts | MapUp-Data-Assessment-F-main/templates/python_task_1.py:64-67 | definition: the count of each bucket under its label, keys sorted |
| VehicleStats.BucketsAreHalfOpen | MapUp-Data-Assessment-F-main/templates/python_task_1.py:61 | low iff car < 15, medium iff 15 <= car < 25, high iff car >= 25 |
| VehicleStats.ConditionsDisagreeOnlyAtEdges | MapUp-Data-Assessment-F-main/templates/python_task_1.py:53-61 | the unused `conditions` list buckets a value differently exactly when it is 15 or 25 |
| VehicleStats.CountsPartition | MapUp-Data-Assessment-F-main/templates/python_task_1.py:61-64 | the three counts add up to the number of rows |
| VehicleStats.CountMatchesRows | MapUp-Data-Assessment-F-main/templates/python_task_1.py:61-64 | each count equals the number of rows whose car value falls in that bucket |
| VehicleStats.TypeCountsSortedAndComplete | MapUp-Data-Assessment-F-main/templates/python_task_1.py:64-67 | all three keys are present and come in alphabetical order, high, low, medium, with counts adding up to the number of rows |
| VehicleStats.VehicleTable.GetTypeCount | MapUp-Data-Assessment-F-main/templates/python_task_1.py:61-69 | writes each row's bucket into `car_type` and returns the sorted counts of that column |
| VehicleStats.PositionsAbove | MapUp-Data-Assessment-F-main/templates/python_task_1.py:87-90 | the listed positions are ascending and exactly those whose value is strictly above the threshold |
| VehicleStats.BusIndexes | MapUp-Data-Assessment-F-main/templates/python_task_1.py:84-92 | the list is strictly ascending and holds exactly the positions with bus > 2 * mean(bus); an empty table gives an empty list |
| VehicleStats.BusIndexesStrict | MapUp-Data-Assessment-F-main/templates/python_task_1.py:87 | bus values 0 and 2 give mean 1 and threshold 2; the row at exactly twice the mean is not picked, since the comparison is strict |
| VehicleStats.RouteTrucks | MapUp-Data-Assessment-F-main/templates/python_task_1.py:107 | a route's group of truck values is empty iff no row has that route |
| VehicleStats.RoutesAbove | MapUp-Data-Assessment-F-main/templates/python_task_1.py:110 | the kept routes stay strictly ascending and are exactly those of the input whose mean truck value is > 7 |
| VehicleStats.FilterRoutes | MapUp-Data-Assessment-F-main/templates/python_task_1.py:107-115 | the list is strictly ascending and holds exactly the routes whose mean truck value is > 7 |

## Findings

| source | as written | input that shows it | evidently intended | confidence | as-written member | corrected member |
|---|---|---|---|---|---|---|
| MapUp-Data-Assessment-F-main/templates/python_task_2.py:143 | `strptime(x, '%A').strftime('%A')` gives "Monday" for every day name: the parse keeps only year, month, day and time, a bare weekday name sets none of them, and the default date 1900-01-01 is a Monday; the weekend mask of line 156 then never holds | start day Saturday, 10:00:00 to 10:00:00, distance 10: the code pays 0.8 * 10 + 1.2 * 10 = 20 through the weekday bands | the day name is kept; the loop as written then pays 0.7 * 10 on each of the three passes, 21 | high; not executed | TimeTolls.SaturdayPaysWeekdayBands | TimeTolls.WeekendToll |

## Left out

- Loading the CSV files and mounting the notebook drive, at module level in
  `python_task_1.py`: this is I/O.
- `time_check` in `python_task_1.py`: it rests entirely on pandas' parsing
  of day-and-time strings and on its Timedelta and day-of-week semantics.
- Parsing of day names (`strptime('%A')`) and of times (`pd.to_datetime`):
  - the day columns are given as the `Day` enum of the name in the file, and
    `ParsedDay` models the parse as it behaves, yielding Monday for every name;
  - a day name that does not parse, which raises in the source, cannot occur
    in the model;
  - times are whole seconds after midnight; sub-second parts of a time are
    not modelled.
- Floating-point arithmetic, and the `.round(1)` at the end of
  `multiply_matrix`: the model uses exact reals and omits the rounding.
- The DataFrame machinery is not modelled:
  - tables are sequences of records, maps of columns and two-dimensional
    arrays;
  - the matrix labels are positions on the id sequence;
  - column order in the frame is not modelled.
- `.append` in `unroll_distance_matrix`, which was removed from recent
  pandas: the model appends records to a sequence.
- The first line of `python_task_2.py` (`iimport`) does not parse. The index
  array passed to `.at` at line 34 is not accepted by pandas either. The
  model follows the evident intent: row `idx` read at each intermediate `k`.
- DistanceMatrix.CalculateDistanceMatrix: requires that no visit of the sweep
  meets a zero cell off the diagonal in a row with no nonzero cell
  (`SweepDefined`), and `CompleteInPlace` requires the same:
  - in that case `max()` of an empty Series writes NaN into the cell and its
    mirror;
  - a NaN cell is never rewritten, since NaN == 0 is false, but it counts as
    an intermediate, since NaN != 0 holds; a later visit whose every
    candidate passes through a NaN cell writes NaN as well, so the NaN can
    spread, as with edges (1, 2, 0) and (2, 3, 0), where every off-diagonal
    cell ends as NaN;
  - NaN is not modelled, and the specification function `Step` leaves such a
    cell unchanged;
  - `NoIsolatedPoint` (every id has a nonzero direct distance) is enough for
    `SweepDefined`, but not needed: `ZeroEdgeCompletes` shows a table
    without it.
- Proximity.IdsWithinTenPercent: states the mean only for a reference id
  with records. With no records it returns the empty list, which is what the
  NaN comparisons give.
- VehicleStats.FilterRoutes: a row whose route is missing (NaN), which
  `groupby` drops, is not modelled. Every route is an integer.
- VehicleStats.VehicleTable.GetTypeCount: NaN and +inf car values, which
  `pd.cut` leaves uncategorised, do not exist among the reals. A -inf value
  would fall in low, as every real below 15 does.
- VehicleStats.BusIndexes: returns row positions. These are the `df.index`
  labels only when the table has the default RangeIndex.
