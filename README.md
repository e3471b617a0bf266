# Transit schedule engine — Dafny model

This project models the schedule-generation engine of a bus-network scheduling tool: the class
`Schedule_Algorithm` of `apps/schedule_app.py` and the connection generator of `Node` in
`apps/node.py`.

The engine reads four tables: route points, transfer nodes, hourly frequencies and route priorities.
From them it builds, in place, three dictionaries:

- `routes_stops`: route id → stop list;
- `routes_schedules`: route id → trip id → stop id → "HH:MM:SS";
- `routes_schedules_finalized`.

It also builds the priority order of the routes.

The model follows the code's own shape:

- **`Schedule.ScheduleAlgorithm`** is a class with the engine's fields. Its methods (`ArrangeRoutes`, `GenerateSchedules`, `GenerateRouteSchedule`, `GenerateTrip`, `CalculateNodeNumber`) update those fields with loops. Each method is proved against a function that states the whole new state and the exception raised, if any.
- **Nodes.** `Nodes.Node` is a class whose constructor stores its arguments and generates its connections.
- **Pure functions and lemmas** describe what those loops compute. They live in five modules:
  - Priority: the selection with the sentinel rank 20, and the rank buckets of `getOrderedRoutes`;
  - Frequency: minutes of an hour;
  - Trips: the stop-by-stop clock of `generateTrip`, trip ids, and `shiftTripTime`;
  - Timetable: the 24-hour walk of `generateRouteSchedule` and the loop of `generateSchedules`;
  - TimeOfDay: "HH:MM:SS" format and parse, and a shift that wraps at midnight.
- **Python behaviour** the engine relies on is written out:
  - `int()` on strings, `"%04d"`, `s.index`, slicing and `permutations(s, 2)`;
  - the exceptions the code raises (KeyError, ValueError, IndexError, AttributeError), as values of `Common.Error`.

Times are whole seconds since midnight, in `0 .. 86399`. The engine only keeps `.time()` of its `datetime` values, so the date is dropped. An insertion-ordered Python dict whose order matters (a trip and one route's trip table) is a `PyDict.Dict`, which holds its key sequence and a map.

## Model

| member | source | states |
|---|---|---|
| Frequency.Offsets | apps/schedule_app.py:238-243 | the minutes of one hour from `shift_min` on, `frequency` apart, while below 60 (proved in `OffsetsProgression` and `OffsetsIncreasing`) |
| Frequency.CalculateFrequencyMinutes | apps/schedule_app.py:222-243 | returns None exactly when the frequency is outside 1..60, otherwise the offsets shift, shift + f, … below 60 |
| Frequency.FrequencyMinutes | apps/schedule_app.py:235-236 | the result is None if and only if the frequency is below 1 or above 60 |
| Frequency.OffsetsProgression | apps/schedule_app.py:238-243 | element i is shift + i·f and below 60, the list is empty exactly when shift >= 60, and one more step would reach 60 |
| Frequency.OffsetsIncreasing | apps/schedule_app.py:240-242 | the minutes strictly increase, so no minute repeats |
| Frequency.HourlyFrequency | apps/schedule_app.py:235-243 | a frequency of 60 gives the single minute shift |
| Frequency.FrequencyExamples | apps/schedule_app.py:235-243 | 15 gives [0, 15, 30, 45]; 60 gives [0]; 0 and 61 give None |
| Schedule.ScheduleAlgorithm.constructor | apps/schedule_app.py:27-32 | stores the four tables; the dictionaries start empty and `routes_order` does not exist |
| Schedule.ScheduleAlgorithm.ArrangeRoutes | apps/schedule_app.py:34-55 | IndexError on an empty priority table; otherwise drops the header row, stores every row's stop list and an empty trip table, and sets `routes_order` to the selection order, or to [] with ValueError when a rank is not a number |
| Schedule.ScheduleAlgorithm.StoreRows | apps/schedule_app.py:41-46 | each priority row's route gets its filtered stop list and an empty trip table, over the earlier contents |
| Schedule.StopLists | apps/schedule_app.py:41-44 | the stop list stored for each route of the priority rows (proved in `StopListsContents`) |
| Priority.StopsOf | apps/schedule_app.py:43-44 | the `[stop id, travel time]` pairs of the route's table rows whose stop id is non-empty, in table order (proved in `StopsOfMembers` and `StopsOfAppend`) |
| Priority.StopsOfMembers | apps/schedule_app.py:43-44 | a stop is in a route's list exactly when some route-table row of that route with a non-empty stop id gives it |
| Priority.StopsOfAppend | apps/schedule_app.py:43-44 | the stop list of a concatenated table is the concatenation of the stop lists, so table order is kept |
| Schedule.StopListsContents | apps/schedule_app.py:41-44 | the stored stop list of a priority route holds exactly the stops of its table rows |
| Schedule.SelectRoutes | apps/schedule_app.py:49-55 | the loop of repeated first-minimum picks, each overwritten with 20, yields `RoutesOrder` |
| Priority.Selection | apps/schedule_app.py:51-55 | the positions picked in the given number of rounds, one per round, each a position of the rank list; the first minimum is picked and overwritten with 20 |
| Priority.FirstMinIndex | apps/schedule_app.py:53 | `index(min(...))`: a position holding the least value, and no earlier position holds it |
| Priority.RoutesOrder | apps/schedule_app.py:49-55 | `routes_order`: one route id per priority row, in the order the selection picks the rows (proved in `SelectionIsStableSort`) |
| Priority.SelectionIsStableSort | apps/schedule_app.py:49-55 | with every rank below 20, the selection picks every row exactly once, ranks never decrease, ties keep table order, and `routes_order[k]` is the route of the k-th pick |
| Priority.SelectionMembers | apps/schedule_app.py:52-55 | a row is picked exactly when its current rank is below 20 |
| Priority.SelectionNoRepeats | apps/schedule_app.py:52-55 | no row is picked twice while ranks are below 20 |
| Priority.SelectionOrdered | apps/schedule_app.py:52-55 | the picks are in non-decreasing rank order, with table order among equal ranks |
| Priority.SentinelCollision | apps/schedule_app.py:51-55 | with ranks 25 and 5, the second row is picked twice and the first never |
| Priority.GetOrderedRoutes | apps/schedule_app.py:263-290 | always 19 rounds: the result maps 1..19 to their buckets, or is ValueError when a rank is not a number |
| Priority.OrderedRoutes | apps/schedule_app.py:274-290 | the keys are exactly 1..19 |
| Priority.CollectRank | apps/schedule_app.py:280-282 | one round collects the bucket of the rank, or ValueError on the first rank that is not a number |
| Priority.Bucket | apps/schedule_app.py:280-282 | bucket `rank` of `getOrderedRoutes`: the route ids with that rank (proved in `BucketMembers`, `BucketDistinct` and `BucketOrder`) |
| Priority.BucketMembers | apps/schedule_app.py:280-282 | a route id is in bucket r exactly when some row of that route has rank r |
| Priority.BucketDistinct | apps/schedule_app.py:281 | no route id appears twice in a bucket |
| Priority.BucketOrder | apps/schedule_app.py:280-282 | route ids appear in a bucket in the order of their first row with that rank |
| Priority.OutOfRangeRanksIgnored | apps/schedule_app.py:275-288 | a route whose ranks all lie outside 1..19 is in no bucket |
| Schedule.ScheduleAlgorithm.GenerateTrip | apps/schedule_app.py:168-186 | the new schedules and exception are those of `GenerateTripEffect`: KeyError for an unknown route, an empty trip then ValueError for a bad start time, and otherwise the stop loop's trip |
| Timetable.GenerateTripEffect | apps/schedule_app.py:179-186 | the state and exception after `generateTrip`: KeyError for a route without a table; otherwise an empty trip under the id, then ValueError for a start outside 0..23 h or 0..59 min, KeyError for a route without stops, or the stop loop's trip and exception (proved in `GenerateTripFrame`) |
| Trips.FillStops | apps/schedule_app.py:182-186 | the stop loop's clocks and error are those of `TripRun` over all stops |
| Timetable.GenerateTripFrame | apps/schedule_app.py:179-186 | only the route's own table changes, it gains the trip id, and no exception is raised exactly when the route has a table and stops, the start is a valid time and every travel time is a number |
| Trips.TripRun | apps/schedule_app.py:182-186 | the first n turns of the stop loop: each stop advances the clock by its travel time and records it; the first travel field that is not a number raises ValueError (proved in `RunFails` and `FillStops`) |
| Trips.TripLoop | apps/schedule_app.py:182-186 | the whole stop loop from the start time (proved in `TripLoopErrors`, `TripLoopNoError`, `TripLoopKeys` and `TripLoopTimes`) |
| Trips.TripLoopErrors | apps/schedule_app.py:184-185 | the stop loop raises exactly when some travel field is not a number, and then raises ValueError |
| Trips.TripLoopNoError | apps/schedule_app.py:184-185 | with all travel times numbers, the clock ends at the start plus their sum |
| Trips.TripLoopKeys | apps/schedule_app.py:184-186 | the trip's keys are exactly the stop ids, in stop order when the ids are distinct |
| Trips.TripLoopTimes | apps/schedule_app.py:182-186 | the time at stop i is (start + travel times of stops 0..i) mod one day, as "HH:MM:SS"; a repeated stop keeps its last visit |
| Trips.RunFails | apps/schedule_app.py:184-185 | the first bad travel field ends the loop with the stops before it recorded and ValueError |
| PyDict.Put | apps/schedule_app.py:186 | a write `d[k] = v`: k maps to v; an existing key keeps its place and a new key is appended at the end |
| Trips.RenderPut | apps/schedule_app.py:186 | recording a clock writes its "HH:MM:SS" text under the stop id |
| Trips.TripExample | apps/schedule_app.py:179-186 | travel times 0, 120 and 90 from 03:00 give 03:00:00, 03:02:00, 03:03:30 in stop order |
| Trips.TripId | apps/schedule_app.py:159 | the route id followed by the counter written with at least four digits (proved in `TripIdInjective`) |
| Trips.TripIdInjective | apps/schedule_app.py:159 | two trip ids of a route are equal exactly when their counters are |
| PyStr.ZeroPad | apps/schedule_app.py:159 | `"%04d"`: the decimal digits of the number, left-padded with zeros to the width (proved in `ZeroPadInjective` and `ZeroPadValue`) |
| PyStr.IntOf | apps/schedule_app.py:151 | `int()` on a string, also used at lines 51, 185 and 281: the value of an optional sign and ASCII digits, None where Python raises ValueError |
| PyStr.ZeroPadInjective | apps/schedule_app.py:159 | `"%04d"` of distinct numbers gives distinct strings |
| PyStr.ZeroPadValue | apps/schedule_app.py:159 | the padded digits still denote the number and have at least the width |
| Schedule.ScheduleAlgorithm.GenerateRouteSchedule | apps/schedule_app.py:124-166 | the new schedules and exception are those of `RouteSchedule`: the lookup errors, then the hour walk |
| Schedule.ScheduleAlgorithm.GenerateHourTrips | apps/schedule_app.py:156-161 | one trip per minute under the next ids; the counter advances by the number of minutes when nothing raises |
| Timetable.RouteSchedule | apps/schedule_app.py:124-166 | the state and exception after `generateRouteSchedule(route, period)`: the lookup errors of the period cells, otherwise the hour walk from the first cell with no trips made yet (proved in `RouteScheduleOk` and `RouteScheduleFrame`) |
| Timetable.HourTrips | apps/schedule_app.py:156-161 | the trips of one hour: one `generateTrip` per minute, with ids numbered on from the counter, stopping at the first exception (proved through `GenerateHourTrips` and `FreshRouteTrip`) |
| Timetable.IndexOf | apps/schedule_app.py:135-139 | `index`: None exactly when the value is absent, otherwise its first position |
| Timetable.PeriodCells | apps/schedule_app.py:135-143 | the route's frequency row from column period + "00" to period + "23", rotated so the cell of hour 3 comes first, or the IndexError or ValueError of a failed lookup (proved in `PeriodCellsErrors` and `PeriodCellsHours`) |
| Timetable.PeriodCellsErrors | apps/schedule_app.py:135-139 | IndexError for a row with no cells, ValueError for a missing route, and success exactly when both period header columns exist |
| Timetable.PeriodCellsHours | apps/schedule_app.py:138-143 | with the period's 24 columns present, the walk has 24 cells and cell k holds the frequency of clock hour (3 + k) mod 24 |
| Timetable.RotateHours | apps/schedule_app.py:143-150 | after the rotation, cell k belongs to hour (3 + k) mod 24 and every hour is visited exactly once |
| Timetable.Walk | apps/schedule_app.py:145-166 | the hour loop from a given cell: ValueError on a cell that is not a number, no trips for a frequency outside 1..60, and a stop after the 24th cell once that hour has trips (proved in `WalkOk` and `WalkSkip`) |
| Timetable.WalkOk | apps/schedule_app.py:145-166 | when every cell and travel time parses, the walk adds one trip per planned departure, numbered on from the counter, and raises nothing |
| Timetable.WalkSkip | apps/schedule_app.py:151-155 | an hour whose frequency is outside 1..60 adds no trip |
| Timetable.PlanSound | apps/schedule_app.py:148-166 | every planned departure is a minute of a served hour |
| Timetable.PlanComplete | apps/schedule_app.py:148-166 | every minute of every served hour among the first 24 cells is planned |
| Timetable.RouteScheduleOk | apps/schedule_app.py:124-166 | with everything parsing, the route's table gains the trips of its day plan under ids 1, 2, … and no other route changes |
| Timetable.RouteScheduleFrame | apps/schedule_app.py:124-166 | no other route's table changes and the set of routes with tables is kept |
| Timetable.FreshRouteTable | apps/schedule_app.py:147-159 | from an empty table, the trip ids are route + 0001, 0002, … in generation order, each once |
| Timetable.FreshRouteTrip | apps/schedule_app.py:157-161 | trip number j + 1 is the trip of the j-th departure |
| Timetable.AddTripsKeys | apps/schedule_app.py:157-161 | storing trips under fresh ids appends exactly those ids, in order |
| Timetable.AddTripsKept | apps/schedule_app.py:157-161 | trips already in the table are kept |
| Schedule.ScheduleAlgorithm.GenerateSchedules | apps/schedule_app.py:57-69 | AttributeError before `arrangeRoutes`; otherwise the state and exception are those of `GenerateAll` over `routes_order` |
| Timetable.GenerateAll | apps/schedule_app.py:65-68 | the loop of `generateSchedules` over `routes_order`: each route is marked unfinalized and scheduled; the first exception, or KeyError for a route left without a table, ends the loop (proved in `GenerateAllFrame` and `GenerateAllOk`) |
| Timetable.GenerateAllFrame | apps/schedule_app.py:65-68 | the routes with tables stay the same, and without an exception every listed route is marked unfinalized |
| Timetable.GenerateAllOk | apps/schedule_app.py:65-68 | when every listed route is ready and none repeats, nothing raises, each listed route gets its day of trips and every other table is unchanged |
| Trips.ShiftTrip | apps/schedule_app.py:216-220 | the trip and exception after `shiftTripTime`: every time moved by the seconds, or the ValueError strptime raises (proved in `ShiftTripErrors`, `ShiftTripValues` and `ShiftTripCanonical`) |
| Trips.ShiftTripTime | apps/schedule_app.py:203-220 | the result and exception are those of `ShiftTrip` |
| Trips.MoveTime | apps/schedule_app.py:217-219 | one time read back, moved and written again, or None where it does not parse |
| Trips.ShiftTripErrors | apps/schedule_app.py:216-219 | the shift raises exactly when some time does not parse, and then raises ValueError |
| Trips.ShiftTripValues | apps/schedule_app.py:216-220 | the keys and their order are kept, and without an exception each time t becomes (t + s) mod one day |
| Trips.ShiftTripCanonical | apps/schedule_app.py:216-220 | a trip of canonical times shifts without an exception to canonical times |
| Trips.ShiftedBack | apps/schedule_app.py:216-220 | shifting canonical times by s and then by -s restores the trip |
| Trips.ShiftedInverse | apps/schedule_app.py:216-220 | when canonical times move by s to those of t, the times of t move by -s to the original ones |
| Trips.ShiftTripIs | apps/schedule_app.py:216-220 | a trip whose times move by s to those of u is shifted to exactly u, with no exception; with `ShiftTripCanonical` and `ShiftedInverse` this is the round trip of `shiftTripTime` by s and then by -s |
| Trips.ShiftTripWholeDays | apps/schedule_app.py:216-220 | shifting a canonical trip by a whole number of days, zero included, changes nothing |
| Trips.ShiftRunSticky | apps/schedule_app.py:216-219 | once a time fails to parse, no later key is rewritten |
| TimeOfDay.Format | apps/schedule_app.py:186 | `str(time)` of a clock time: "HH:MM:SS", always 8 characters (inverse of `Parse`: `ParseFormat`, `FormatParse`) |
| TimeOfDay.Parse | apps/schedule_app.py:217 | `strptime(s, "%H:%M:%S").time()`: a clock time in 0..86399, or None where strptime raises ValueError (inverse of `Format`: `ParseFormat`, `FormatParse`) |
| TimeOfDay.ParseFormat | apps/schedule_app.py:217-219 | strptime of the `str` of a clock time gives the time back |
| TimeOfDay.FormatParse | apps/schedule_app.py:217-219 | an 8-character time that parses is exactly the text of the time it denotes |
| TimeOfDay.ShiftBack | apps/schedule_app.py:218 | moving by s and then by -s restores every clock time |
| TimeOfDay.ShiftWholeDays | apps/schedule_app.py:218 | moving by a whole number of days changes nothing |
| TimeOfDay.Shift | apps/schedule_app.py:218-219 | the result is a clock time congruent to t + s modulo one day |
| Schedule.ScheduleAlgorithm.CalculateNodeNumber | apps/schedule_app.py:245-261 | every route with a stop list maps to the count of (stop, node) pairs whose node holds the stop id |
| Schedule.NodeNumber | apps/schedule_app.py:254-260 | the node number of a route: over its stops, the number of nodes holding the stop, added up (proved in `NodeNumberBounds` and `NodeNumberAppend`) |
| Schedule.NodeNumberBounds | apps/schedule_app.py:254-260 | the count is at most stops × nodes, and zero exactly when no node holds any of the route's stops |
| Schedule.NodeNumberAppend | apps/schedule_app.py:256-259 | the count splits over the stops |
| Schedule.EvaluateNodeConnections | apps/schedule_app.py:71-84 | the sum of every value of every node's result, node by node |
| Schedule.TotalWait | apps/schedule_app.py:79-84 | the sum of the values of every node's result, node by node (proved in `TotalWaitFlatten`) |
| Schedule.TotalWaitFlatten | apps/schedule_app.py:79-84 | the nested sum equals the plain sum of all values |
| Nodes.Node.constructor | apps/node.py:13-18 | stores id, name and stops unchanged and sets the connections to the pairs of those stops |
| Nodes.Node.GenerateConnections | apps/node.py:20-22 | the connections are `permutations(node_stops, 2)`, n·(n−1) of them |
| Nodes.Connections | apps/node.py:22 | `list(permutations(s, 2))`: every ordered pair of distinct positions, lexicographically (proved in `ConnectionsLength`, `ConnectionAt`, `ConnectionSource`, `PairIndexOrder` and `PairIndexInjective`) |
| Nodes.ConnectionsLength | apps/node.py:22 | n·(n−1) pairs, none with fewer than two stops |
| Nodes.ConnectionAt | apps/node.py:22 | every ordered pair of distinct positions (i, j) occurs, at index i·(n−1) + (j − [j > i]); equal values still pair |
| Nodes.ConnectionSource | apps/node.py:22 | every entry is the pair of two distinct positions, recovered from its index |
| Nodes.PairIndexOrder | apps/node.py:22 | pairs are listed in lexicographic order of their positions |
| Nodes.PairIndexInjective | apps/node.py:22 | each ordered pair of positions occurs exactly once |
| Nodes.ConnectionReversed | apps/node.py:22 | (a, b) at positions (i, j) means (b, a) at positions (j, i) |

## Left out

- Console output: the `print` calls of `generateSchedules`, `optimizeNodeConnections`, `minimizeRouteWaitTime` and `Node.evaluateConnectionTime` have no effect on state.
- `minimizeRouteWaitTime` only parses and prints start hours. `optimizeNodeConnections` only runs it and `evaluateNodeConnections` and prints. Neither changes the schedules, so neither is modelled.
- `shiftHourlyTripTimes` has an empty body.
- `Node.evaluateConnectionTime` only prints and returns None. It does not accept the `route=` keyword that `evaluateNodeConnections` passes (apps/schedule_app.py:81), so that call raises TypeError. `Schedule.EvaluateNodeConnections` takes each node's result values as an input and models the intended summation.
- The `buses` table is stored by `__init__` but never read. It is not a field of the model.
- The unused `numpy`, `random` and `csv` imports, the data-file constants of `apps/node.py` and all file loading are outside the engine.
- `datetime` and `strptime` are replaced by whole seconds of the day with `TimeOfDay.Format`, `Parse` and `Shift`.
  - The `OverflowError` that `datetime` raises outside years 1..9999 is not modelled. `shiftTripTime` starts from 1900-01-01, so it raises for a shift of about 8,100 years forward or about 1,900 years back. `generateTrip` starts from 2000-01-01, so it raises once the travel times add up to about 8,000 years forward or 2,000 years back. `TimeOfDay.Shift` returns a clock time in every case.
  - `Parse` accepts one- or two-digit fields, as `%H:%M:%S` does. It does not accept non-ASCII decimal digits (Arabic-Indic digits, for example), which `strptime` accepts.
- `PyStr.IntOf` models `int()` on an optional sign followed by ASCII digits. Surrounding whitespace, `_` separators and non-ASCII digits are not accepted.
- Dict order:
  - The outer dictionaries keyed by route id (`routes_stops`, `routes_schedules`, `routes_schedules_finalized`) are Dafny maps, so their insertion order is not modelled.
  - The order of a trip and of a route's trip table is modelled.
- In-place aliasing:
  - `generateTrip` stores the trip dict first and then fills it through the same reference. The model stores the empty trip and then the filled trip, which is the same final state, including when the loop raises.
  - `arrangeRoutes` deletes the header row from `self.priority`, which `__init__` stores without copying, so the caller's own list loses its first row too. `Schedule.ScheduleAlgorithm.ArrangeRoutes` drops the row from its `priority` field only; the caller's list is not modelled.
  - `shiftTripTime` rewrites the dict it is given and returns it. `Trips.ShiftTripTime` returns the rewritten trip as a value, so the identity of the returned object is not captured.
- The three dictionaries are class attributes shared by every `Schedule_Algorithm`. The model makes them fields of one instance, so sharing between instances is not captured.
- A priority row shorter than two fields (`priority[1]` raising IndexError) is not modelled. Rows are `(route, rank)` pairs. Likewise a route point always has its stop id and travel fields.
- `shiftTripTime` applies `int(seconds)`. The model takes `seconds` as an integer, so the ValueError of a non-numeric argument is not modelled.
- Priority.SelectionIsStableSort: requires every rank to be below 20. With a rank of 20 or more, the overwritten slot can be picked again; `Priority.SentinelCollision` exhibits this.
- Timetable.PlanComplete: stated for served hours among the first 24 cells. When the period slice is longer than 24 cells and the 24th hour has no service, the code walks on and plans later cells too; `Timetable.WalkOk` covers that case through `Plan`.
- Trips.ShiftedBack: the round trip "shift by s, then by -s, gives the trip back" is stated for trips of canonical "HH:MM:SS" times. A trip with one-digit fields parses but is rewritten in canonical form.
- Trips.ShiftTripIs: the round trip of `ShiftTrip` is stated in three steps, not as one equation `ShiftTrip(ShiftTrip(t, s).trip, -s) == Shifted(t, None)`. `ShiftTripCanonical` gives the first shift, `ShiftedInverse` turns its times back, and `ShiftTripIs` gives the second shift.
- Three behaviours of the code that a reader might not expect, which the model follows:
  - `getOrderedRoutes` always stops after 19 rounds; it does not loop forever on an out-of-range rank.
  - The stop filter of `arrangeRoutes` tests the stop id (field 4) for being non-empty, not the travel time.
  - The first stop's recorded time already includes its own travel time.
