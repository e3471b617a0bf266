/**
 * A route's timetable for one day: the frequency row of the route for a period, the walk over
 * its 24 hours that `generateRouteSchedule` makes, and what `generateTrip` adds to
 * `routes_schedules` for each departure.
 */
module Timetable {
  import opened Common
  import opened PyStr
  import opened PyDict
  import opened TimeOfDay
  import opened Frequency
  import opened Priority
  import opened Trips

  /** Hour of the day at which the schedule day starts (`START_DAY_HOUR`). */
  const START_DAY_HOUR := 3

  /** trip id -> trip, in generation order: one route's entry of `routes_schedules`. */
  type TripTable = Dict<string, Trip>

  /** `routes_schedules`: route id -> its trips. */
  type Schedules = map<string, TripTable>

  /** `routes_stops`: route id -> its stops. */
  type RouteStops = map<string, seq<Stop>>

  /** The schedules an operation leaves behind, and the exception it raised, if any. */
  datatype Outcome = Outcome(schedules: Schedules, err: Option<Error>)

  // ---------------------------------------------------------------------------------------------
  // generateTrip

  /** Seconds since midnight of `datetime(2000, 1, 1, hour, minute, 0)`. */
  function StartTime(hour: int, minute: int): int
  {
    3600 * hour + 60 * minute
  }

  /**
   * `generateTrip(route, tripId, hour, minute)`: an empty trip is stored under the trip id first;
   * then the start time is built (ValueError outside 0..23 and 0..59), the route's stops are looked
   * up (KeyError) and the trip is filled in stop by stop.
   */
  function GenerateTripEffect(st: Schedules, stops: RouteStops, route: string, tripId: string, hour: int, minute: int): Outcome
  {
    if route !in st then Outcome(st, Some(KeyError))
    else if !(0 <= hour < 24 && 0 <= minute < 60) then Outcome(st[route := Put(st[route], tripId, Empty())], Some(ValueError))
    else if route !in stops then Outcome(st[route := Put(st[route], tripId, Empty())], Some(KeyError))
    else
      var pr := TripLoop(stops[route], StartTime(hour, minute));
      Outcome(st[route := Put(st[route], tripId, Render(pr.times))], pr.err)
  }

  /** Only the route's own table may differ, and the routes with tables are the same. */
  predicate KeepsOthers(st: Schedules, st1: Schedules, route: string)
  {
    st1.Keys == st.Keys && forall r :: r in st && r != route ==> st1[r] == st[r]
  }

  lemma KeepsOthersTrans(st: Schedules, st1: Schedules, st2: Schedules, route: string)
    requires KeepsOthers(st, st1, route) && KeepsOthers(st1, st2, route)
    ensures KeepsOthers(st, st2, route)
  {
  }

  /**
   * `generateTrip` touches only the route's own table, where it stores a trip under the trip id,
   * and raises nothing exactly when the route has a table and stops, the start time is a valid
   * clock time and every travel time is a number.
   */
  lemma GenerateTripFrame(st: Schedules, stops: RouteStops, route: string, tripId: string, hour: int, minute: int)
    ensures var o := GenerateTripEffect(st, stops, route, tripId, hour, minute);
      && KeepsOthers(st, o.schedules, route)
      && (route !in st ==> o == Outcome(st, Some(KeyError)))
      && (route in st ==> o.schedules[route].keys == Put(st[route], tripId, Empty()).keys
                          && tripId in o.schedules[route].vals)
      && (o.err.None? <==> route in st && 0 <= hour < 24 && 0 <= minute < 60 && route in stops && TravelsParse(stops[route]))
  {
    if route in st && 0 <= hour < 24 && 0 <= minute < 60 && route in stops {
      TripLoopErrors(stops[route], StartTime(hour, minute));
    }
  }

  /** `generateTrip` once the route has a table and stops and the start time is a valid clock time: the outcome of the stop loop. */
  lemma GenerateTripRuns(st: Schedules, stops: RouteStops, route: string, tripId: string, hour: int, minute: int, pr: TripProgress)
    requires route in st && 0 <= hour < 24 && 0 <= minute < 60 && route in stops
    requires pr == TripLoop(stops[route], StartTime(hour, minute))
    ensures GenerateTripEffect(st, stops, route, tripId, hour, minute) == Outcome(st[route := Put(st[route], tripId, Render(pr.times))], pr.err)
  {
  }

  // ---------------------------------------------------------------------------------------------
  // Finding the route's frequencies for a period

  /** `s.index(x)`: the first position of x, or None where Python raises ValueError. */
  function IndexOf<T(==)>(s: seq<T>, x: T): (r: Option<nat>)
    ensures r.None? <==> x !in s
    ensures r.Some? ==> r.value < |s| && s[r.value] == x && x !in s[..r.value]
  {
    if s == [] then None
    else if s[0] == x then Some(0)
    else match IndexOf(s[1..], x)
      case None => None
      case Some(i) =>
        assert s[..i + 1] == [s[0]] + s[1..][..i];
        Some(i + 1)
  }

  /** `s[lo:hi]` for non-negative bounds: both are clamped to the length. */
  function Slice<T>(s: seq<T>, lo: nat, hi: nat): (r: seq<T>)
    ensures |r| <= |s|
  {
    var l := if lo < |s| then lo else |s|;
    var h := if hi < |s| then hi else |s|;
    if h <= l then [] else s[l..h]
  }

  /** `s[k:] + s[:k]` */
  function Rotate<T>(s: seq<T>, k: nat): seq<T>
  {
    Slice(s, k, |s|) + Slice(s, 0, k)
  }

  /** Clock hour of the k-th cell of the rotated period (`current_hour`). */
  function HourAt(k: nat): int
  {
    (START_DAY_HOUR + k) % 24
  }

  /** Some row of the frequency table has no first cell. */
  predicate HasEmptyRow(freq: seq<seq<string>>)
  {
    exists i :: 0 <= i < |freq| && freq[i] == []
  }

  /** `[row[0] for row in frequency]` */
  function FirstColumn(freq: seq<seq<string>>): (col: seq<string>)
    requires !HasEmptyRow(freq)
    ensures |col| == |freq| && forall i :: 0 <= i < |freq| ==> col[i] == freq[i][0]
  {
    seq(|freq|, i requires 0 <= i < |freq| && !HasEmptyRow(freq) => freq[i][0])
  }

  /** `frequency[[row[0] for row in frequency].index(route)]`; the header row takes part in the search. */
  function FrequencyRow(freq: seq<seq<string>>, route: string): (r: Result<seq<string>>)
    ensures r.Ok? ==> |freq| > 0
  {
    if HasEmptyRow(freq) then Err(IndexError)
    else match IndexOf(FirstColumn(freq), route)
      case None => Err(ValueError)
      case Some(i) => Ok(freq[i])
  }

  /**
   * The cells of the route's frequency row from column `period + "00"` to column `period + "23"`
   * of the header row, rotated so that the cell of START_DAY_HOUR comes first.
   */
  function PeriodCells(freq: seq<seq<string>>, route: string, period: string): Result<seq<string>>
  {
    match FrequencyRow(freq, route)
    case Err(e) => Err(e)
    case Ok(row) =>
      match (IndexOf(freq[0], period + "00"), IndexOf(freq[0], period + "23"))
      case (Some(a), Some(b)) => Ok(Rotate(Slice(row, a, b + 1), START_DAY_HOUR))
      case _ => Err(ValueError)
  }

  /** Over 24 cells the k-th walked cell is the cell of clock hour HourAt(k), and every hour is walked exactly once. */
  lemma RotateHours<T>(s: seq<T>)
    requires |s| == 24
    ensures |Rotate(s, START_DAY_HOUR)| == 24
    ensures forall k :: 0 <= k < 24 ==> 0 <= HourAt(k) < 24 && Rotate(s, START_DAY_HOUR)[k] == s[HourAt(k)]
    ensures forall k, j :: 0 <= k < j < 24 ==> HourAt(k) != HourAt(j)
  {
    assert Rotate(s, START_DAY_HOUR) == s[3..] + s[..3];
  }

  /**
   * When the header holds `period + "00"` at column a and `period + "23"` 23 columns later, and the
   * route's row reaches that far, the walk has 24 cells and cell k holds the route's frequency for
   * the clock hour HourAt(k).
   */
  lemma PeriodCellsHours(freq: seq<seq<string>>, route: string, period: string, row: seq<string>, a: nat)
    requires FrequencyRow(freq, route) == Ok(row)
    requires IndexOf(freq[0], period + "00") == Some(a) && IndexOf(freq[0], period + "23") == Some(a + 23)
    requires a + 24 <= |row|
    ensures PeriodCells(freq, route, period).Ok?
    ensures |PeriodCells(freq, route, period).value| == 24
    ensures forall k :: 0 <= k < 24 ==> 0 <= HourAt(k) < 24 && PeriodCells(freq, route, period).value[k] == row[a + HourAt(k)]
  {
    var s := row[a..a + 24];
    assert Slice(row, a, a + 24) == s;
    RotateHours(s);
  }

  /** Looking the route up fails exactly as Python does: IndexError for an empty row, then ValueError for a missing route or period column. */
  lemma PeriodCellsErrors(freq: seq<seq<string>>, route: string, period: string)
    ensures HasEmptyRow(freq) ==> PeriodCells(freq, route, period) == Err(IndexError)
    ensures !HasEmptyRow(freq) && route !in FirstColumn(freq) ==> PeriodCells(freq, route, period) == Err(ValueError)
    ensures !HasEmptyRow(freq) && route in FirstColumn(freq) ==>
      (PeriodCells(freq, route, period).Ok? <==> period + "00" in freq[0] && period + "23" in freq[0])
    ensures PeriodCells(freq, route, period).Err? ==> PeriodCells(freq, route, period).error in {IndexError, ValueError}
  {
  }

  // ---------------------------------------------------------------------------------------------
  // generateRouteSchedule

  /** The trips of one hour: one `generateTrip` per minute, numbered on from idNum; the first exception stops the loop. */
  function HourTrips(st: Schedules, stops: RouteStops, route: string, hour: int, ms: seq<int>, idNum: nat): Outcome
    decreases |ms|
  {
    if ms == [] then Outcome(st, None)
    else
      var o := GenerateTripEffect(st, stops, route, TripId(route, idNum + 1), hour, ms[0]);
      if o.err.Some? then o else HourTrips(o.schedules, stops, route, hour, ms[1..], idNum + 1)
  }

  /**
   * The loop of `generateRouteSchedule` from the k-th cell on, idNum trips made so far: a cell that
   * is not a number raises ValueError, a frequency outside 1..60 skips the hour, and the loop stops
   * after the hour of the 24th cell once that hour has trips.
   */
  function Walk(st: Schedules, stops: RouteStops, route: string, cells: seq<string>, k: nat, idNum: nat): Outcome
    decreases |cells| - k
  {
    if k >= |cells| then Outcome(st, None)
    else match IntOf(cells[k])
      case None => Outcome(st, Some(ValueError))
      case Some(f) =>
        match FrequencyMinutes(f, 0)
        case None => Walk(st, stops, route, cells, k + 1, idNum)
        case Some(ms) =>
          var o := HourTrips(st, stops, route, HourAt(k), ms, idNum);
          if o.err.Some? then o
          else if k == 23 then o
          else Walk(o.schedules, stops, route, cells, k + 1, idNum + |ms|)
  }

  /** `generateRouteSchedule(route, period)` */
  function RouteSchedule(st: Schedules, stops: RouteStops, freq: seq<seq<string>>, route: string, period: string): Outcome
  {
    match PeriodCells(freq, route, period)
    case Err(e) => Outcome(st, Some(e))
    case Ok(cells) => Walk(st, stops, route, cells, 0, 0)
  }

  // ---------------------------------------------------------------------------------------------
  // What a successful walk produces

  /** A trip's departure: the clock hour and the minute of the hour. */
  datatype Departure = Departure(hour: int, minute: int)

  /** The departures of one hour. */
  function HourPlan(hour: int, ms: seq<int>): (p: seq<Departure>)
    ensures |p| == |ms| && forall j :: 0 <= j < |ms| ==> p[j] == Departure(hour, ms[j])
  {
    seq(|ms|, j requires 0 <= j < |ms| => Departure(hour, ms[j]))
  }

  /** Every cell is a number. */
  predicate CellsParse(cells: seq<string>)
  {
    forall k :: 0 <= k < |cells| ==> IntOf(cells[k]).Some?
  }

  /** The departures of the day from the k-th cell on, for frequencies that all parsed. */
  function Plan(cells: seq<string>, k: nat): seq<Departure>
    requires CellsParse(cells)
    decreases |cells| - k
  {
    if k >= |cells| then []
    else match FrequencyMinutes(IntOf(cells[k]).value, 0)
      case None => Plan(cells, k + 1)
      case Some(ms) => HourPlan(HourAt(k), ms) + (if k == 23 then [] else Plan(cells, k + 1))
  }

  /** The trip `generateTrip` builds for a departure over the given stops. */
  function DepartureTrip(stops: seq<Stop>, d: Departure): Trip
  {
    Render(TripLoop(stops, StartTime(d.hour, d.minute)).times)
  }

  /** The trips of a list of departures, in order. */
  function TripsOf(stops: seq<Stop>, plan: seq<Departure>): (ts: seq<Trip>)
    ensures |ts| == |plan|
    decreases |plan|
  {
    if plan == [] then [] else [DepartureTrip(stops, plan[0])] + TripsOf(stops, plan[1..])
  }

  lemma {:induction false} TripsOfAppend(stops: seq<Stop>, p1: seq<Departure>, p2: seq<Departure>)
    ensures TripsOf(stops, p1 + p2) == TripsOf(stops, p1) + TripsOf(stops, p2)
    decreases |p1|
  {
    if p1 == [] {
      assert p1 + p2 == p2;
    } else {
      assert (p1 + p2)[1..] == p1[1..] + p2;
      TripsOfAppend(stops, p1[1..], p2);
    }
  }

  lemma {:induction false} TripsOfAt(stops: seq<Stop>, plan: seq<Departure>, j: nat)
    requires j < |plan|
    ensures TripsOf(stops, plan)[j] == DepartureTrip(stops, plan[j])
    decreases j
  {
    if j > 0 {
      TripsOfAt(stops, plan[1..], j - 1);
    }
  }

  /** Trips stored one after the other under the ids idNum + 1, idNum + 2, ... of the route. */
  function AddTrips(table: TripTable, route: string, trips: seq<Trip>, idNum: nat): TripTable
    decreases |trips|
  {
    if trips == [] then table
    else AddTrips(Put(table, TripId(route, idNum + 1), trips[0]), route, trips[1..], idNum + 1)
  }

  /** The trip ids idNum + 1, idNum + 2, ... of n consecutive trips. */
  function NewIds(route: string, idNum: nat, n: nat): (ids: seq<string>)
    ensures |ids| == n && forall j :: 0 <= j < n ==> ids[j] == TripId(route, idNum + j + 1)
  {
    seq(n, j requires 0 <= j < n => TripId(route, idNum + j + 1))
  }

  lemma NewIdsCons(route: string, idNum: nat, n: nat)
    requires n > 0
    ensures NewIds(route, idNum, n) == [TripId(route, idNum + 1)] + NewIds(route, idNum + 1, n - 1)
  {
    var a := NewIds(route, idNum, n);
    var b := [TripId(route, idNum + 1)] + NewIds(route, idNum + 1, n - 1);
    forall j | 0 <= j < n ensures a[j] == b[j] {
      if j > 0 {
        assert idNum + 1 + (j - 1) + 1 == idNum + j + 1;
      }
    }
  }

  lemma {:induction false} AddTripsAppend(table: TripTable, route: string, t1: seq<Trip>, t2: seq<Trip>, idNum: nat)
    ensures AddTrips(table, route, t1 + t2, idNum) == AddTrips(AddTrips(table, route, t1, idNum), route, t2, idNum + |t1|)
    decreases |t1|
  {
    if t1 != [] {
      assert (t1 + t2)[1..] == t1[1..] + t2;
      assert (t1 + t2)[0] == t1[0];
      AddTripsAppend(Put(table, TripId(route, idNum + 1), t1[0]), route, t1[1..], t2, idNum + 1);
    } else {
      assert t1 + t2 == t2;
    }
  }

  /** The ids still to come are not yet in the route's table: every trip there is numbered idNum or less. */
  ghost predicate NumberedUpTo(table: TripTable, route: string, idNum: nat)
  {
    forall n: nat :: TripId(route, n) in table.vals ==> n <= idNum
  }

  /** Storing trip idNum + 1 keeps the table numbered up to idNum + 1. */
  lemma NumberedStep(table: TripTable, route: string, idNum: nat, trip: Trip)
    requires NumberedUpTo(table, route, idNum)
    ensures TripId(route, idNum + 1) !in table.vals
    ensures NumberedUpTo(Put(table, TripId(route, idNum + 1), trip), route, idNum + 1)
  {
    var table1 := Put(table, TripId(route, idNum + 1), trip);
    forall n: nat | TripId(route, n) in table1.vals ensures n <= idNum + 1 {
      TripIdInjective(route, n, idNum + 1);
    }
  }

  /** Storing trip idNum + 1 appends its id to the keys and keeps the table valid and numbered. */
  lemma FreshPut(table: TripTable, route: string, idNum: nat, trip: Trip)
    requires Valid(table) && NumberedUpTo(table, route, idNum)
    ensures Put(table, TripId(route, idNum + 1), trip).keys == table.keys + [TripId(route, idNum + 1)]
    ensures Valid(Put(table, TripId(route, idNum + 1), trip))
    ensures NumberedUpTo(Put(table, TripId(route, idNum + 1), trip), route, idNum + 1)
  {
    NumberedStep(table, route, idNum, trip);
    PutValid(table, TripId(route, idNum + 1), trip);
  }

  /** Adding trips keeps the key sequence listing each key exactly once. */
  lemma {:induction false} AddTripsValid(table: TripTable, route: string, trips: seq<Trip>, idNum: nat)
    requires Valid(table)
    ensures Valid(AddTrips(table, route, trips, idNum))
    decreases |trips|
  {
    if trips != [] {
      PutValid(table, TripId(route, idNum + 1), trips[0]);
      AddTripsValid(Put(table, TripId(route, idNum + 1), trips[0]), route, trips[1..], idNum + 1);
    }
  }

  /** Adding trips under fresh ids appends exactly those ids, in order, to the table's keys. */
  lemma {:induction false} AddTripsKeys(table: TripTable, route: string, trips: seq<Trip>, idNum: nat)
    requires Valid(table) && NumberedUpTo(table, route, idNum)
    ensures AddTrips(table, route, trips, idNum).keys == table.keys + NewIds(route, idNum, |trips|)
    decreases |trips|
  {
    if trips != [] {
      var id := TripId(route, idNum + 1);
      var ids1 := NewIds(route, idNum + 1, |trips| - 1);
      FreshPut(table, route, idNum, trips[0]);
      AddTripsKeys(Put(table, id, trips[0]), route, trips[1..], idNum + 1);
      NewIdsCons(route, idNum, |trips|);
      assert (table.keys + [id]) + ids1 == table.keys + ([id] + ids1);
    } else {
      assert table.keys + NewIds(route, idNum, 0) == table.keys;
    }
  }

  /** Adding trips under fresh ids keeps every trip already in the table. */
  lemma {:induction false} AddTripsKept(table: TripTable, route: string, trips: seq<Trip>, idNum: nat, k: string)
    requires NumberedUpTo(table, route, idNum) && k in table.vals
    ensures k in AddTrips(table, route, trips, idNum).vals
    ensures AddTrips(table, route, trips, idNum).vals[k] == table.vals[k]
    decreases |trips|
  {
    if trips != [] {
      NumberedStep(table, route, idNum, trips[0]);
      AddTripsKept(Put(table, TripId(route, idNum + 1), trips[0]), route, trips[1..], idNum + 1, k);
    }
  }

  /** The j-th added trip is stored under the j-th new id. */
  lemma {:induction false} AddTripsAt(table: TripTable, route: string, trips: seq<Trip>, idNum: nat, j: nat)
    requires NumberedUpTo(table, route, idNum) && j < |trips|
    ensures TripId(route, idNum + j + 1) in AddTrips(table, route, trips, idNum).vals
    ensures AddTrips(table, route, trips, idNum).vals[TripId(route, idNum + j + 1)] == trips[j]
    decreases |trips|
  {
    var table1 := Put(table, TripId(route, idNum + 1), trips[0]);
    NumberedStep(table, route, idNum, trips[0]);
    if j == 0 {
      AddTripsKept(table1, route, trips[1..], idNum + 1, TripId(route, idNum + 1));
    } else {
      AddTripsAt(table1, route, trips[1..], idNum + 1, j - 1);
      assert idNum + 1 + (j - 1) + 1 == idNum + j + 1;
      assert trips[1..][j - 1] == trips[j];
    }
  }

  /** The minutes of a valid frequency are minutes of an hour. */
  lemma MinutesInHour(f: int)
    requires FrequencyMinutes(f, 0).Some?
    ensures forall j :: 0 <= j < |FrequencyMinutes(f, 0).value| ==> 0 <= FrequencyMinutes(f, 0).value[j] < 60
  {
    OffsetsProgression(f, 0);
    forall j | 0 <= j < |FrequencyMinutes(f, 0).value| ensures 0 <= j * f { MulNonNegative(j, f); }
  }

  lemma MulNonNegative(a: nat, b: nat)
    ensures 0 <= a * b
  {
  }

  /** One hour whose trips all succeed adds the trips of its departures to the route's table, and nothing else. */
  lemma {:induction false} HourTripsOk(st: Schedules, stops: RouteStops, route: string, hour: int, ms: seq<int>, idNum: nat, xs: seq<int>)
    requires route in st && route in stops && TravelsAre(stops[route], xs)
    requires 0 <= hour < 24 && forall j :: 0 <= j < |ms| ==> 0 <= ms[j] < 60
    ensures HourTrips(st, stops, route, hour, ms, idNum)
         == Outcome(st[route := AddTrips(st[route], route, TripsOf(stops[route], HourPlan(hour, ms)), idNum)], None)
    decreases |ms|
  {
    var ts := TripsOf(stops[route], HourPlan(hour, ms));
    if ms != [] {
      var id := TripId(route, idNum + 1);
      var d := Departure(hour, ms[0]);
      var trip := DepartureTrip(stops[route], d);
      assert GenerateTripEffect(st, stops, route, id, hour, ms[0]) == Outcome(st[route := Put(st[route], id, trip)], None) by {
        TripLoopNoError(stops[route], StartTime(hour, ms[0]), xs);
      }
      var st1 := st[route := Put(st[route], id, trip)];
      HourTripsOk(st1, stops, route, hour, ms[1..], idNum + 1, xs);
      assert HourPlan(hour, ms) == [d] + HourPlan(hour, ms[1..]);
      assert ts == [trip] + TripsOf(stops[route], HourPlan(hour, ms[1..]));
      assert ts[0] == trip && ts[1..] == TripsOf(stops[route], HourPlan(hour, ms[1..]));
    } else {
      assert st[route := st[route]] == st;
    }
  }

  /** A walk whose cells and travel times all parse adds the trips of the planned departures, numbered on from idNum. */
  lemma {:induction false} WalkOk(st: Schedules, stops: RouteStops, route: string, cells: seq<string>, k: nat, idNum: nat, xs: seq<int>)
    requires route in st && route in stops && TravelsAre(stops[route], xs) && CellsParse(cells)
    ensures Walk(st, stops, route, cells, k, idNum)
         == Outcome(st[route := AddTrips(st[route], route, TripsOf(stops[route], Plan(cells, k)), idNum)], None)
    decreases |cells| - k, 1
  {
    if k >= |cells| {
      assert st[route := st[route]] == st;
    } else {
      var f := IntOf(cells[k]).value;
      match FrequencyMinutes(f, 0)
      case None =>
        WalkSkip(st, stops, route, cells, k, idNum, f);
        WalkOk(st, stops, route, cells, k + 1, idNum, xs);
      case Some(ms) =>
        WalkServed(st, stops, route, cells, k, idNum, xs, f, ms);
    }
  }

  /** A cell whose frequency is outside 1..60 adds nothing: the walk goes on at the next cell. */
  lemma WalkSkip(st: Schedules, stops: RouteStops, route: string, cells: seq<string>, k: nat, idNum: nat, f: int)
    requires CellsParse(cells) && k < |cells| && IntOf(cells[k]) == Some(f) && FrequencyMinutes(f, 0).None?
    ensures Walk(st, stops, route, cells, k, idNum) == Walk(st, stops, route, cells, k + 1, idNum)
    ensures Plan(cells, k) == Plan(cells, k + 1)
  {
  }

  lemma {:induction false} WalkServed(st: Schedules, stops: RouteStops, route: string, cells: seq<string>, k: nat, idNum: nat, xs: seq<int>, f: int, ms: seq<int>)
    requires route in st && route in stops && TravelsAre(stops[route], xs) && CellsParse(cells)
    requires k < |cells| && IntOf(cells[k]) == Some(f) && FrequencyMinutes(f, 0) == Some(ms)
    ensures Walk(st, stops, route, cells, k, idNum)
         == Outcome(st[route := AddTrips(st[route], route, TripsOf(stops[route], Plan(cells, k)), idNum)], None)
    decreases |cells| - k, 0
  {
    var hp := HourPlan(HourAt(k), ms);
    var hts := TripsOf(stops[route], hp);
    var table1 := AddTrips(st[route], route, hts, idNum);
    var st1 := st[route := table1];
    assert HourTrips(st, stops, route, HourAt(k), ms, idNum) == Outcome(st1, None) by {
      MinutesInHour(f);
      HourTripsOk(st, stops, route, HourAt(k), ms, idNum, xs);
    }
    if k == 23 {
      assert Plan(cells, k) == hp + [];
      assert hp + [] == hp;
    } else {
      var rest := Plan(cells, k + 1);
      var rts := TripsOf(stops[route], rest);
      var table2 := AddTrips(table1, route, rts, idNum + |ms|);
      assert Walk(st, stops, route, cells, k, idNum) == Outcome(st1[route := table2], None) by {
        WalkStep(st, stops, route, cells, k, idNum, f, ms, st1);
        WalkOk(st1, stops, route, cells, k + 1, idNum + |ms|, xs);
      }
      assert st1[route := table2] == st[route := table2];
      assert table2 == AddTrips(st[route], route, TripsOf(stops[route], Plan(cells, k)), idNum) by {
        assert Plan(cells, k) == hp + rest;
        TripsOfAppend(stops[route], hp, rest);
        AddTripsAppend(st[route], route, hts, rts, idNum);
      }
    }
  }

  /** One served hour that raises nothing, short of the last cell, hands on to the next cell. */
  lemma WalkStep(st: Schedules, stops: RouteStops, route: string, cells: seq<string>, k: nat, idNum: nat, f: int, ms: seq<int>, st1: Schedules)
    requires k < |cells| && k != 23 && IntOf(cells[k]) == Some(f) && FrequencyMinutes(f, 0) == Some(ms)
    requires HourTrips(st, stops, route, HourAt(k), ms, idNum) == Outcome(st1, None)
    ensures Walk(st, stops, route, cells, k, idNum) == Walk(st1, stops, route, cells, k + 1, idNum + |ms|)
  {
  }

  /**
   * `generateRouteSchedule` when the route's frequency cells and travel times all parse: the route's
   * table gets one trip per planned departure, numbered from 1, and no other route changes.
   */
  lemma RouteScheduleOk(st: Schedules, stops: RouteStops, freq: seq<seq<string>>, route: string, period: string, cells: seq<string>, xs: seq<int>)
    requires PeriodCells(freq, route, period) == Ok(cells) && CellsParse(cells)
    requires route in st && route in stops && TravelsAre(stops[route], xs)
    ensures RouteSchedule(st, stops, freq, route, period)
         == Outcome(st[route := AddTrips(st[route], route, TripsOf(stops[route], Plan(cells, 0)), 0)], None)
  {
    WalkOk(st, stops, route, cells, 0, 0, xs);
  }

  /** A route's table built from the empty table `arrangeRoutes` leaves, for the given departures. */
  function DayTable(route: string, stops: seq<Stop>, plan: seq<Departure>): TripTable
  {
    AddTrips(Empty(), route, TripsOf(stops, plan), 0)
  }

  /** Starting from the empty table `arrangeRoutes` leaves, the trip ids are route + "0001", route + "0002", ... in departure order. */
  lemma FreshRouteTable(route: string, stops: seq<Stop>, plan: seq<Departure>)
    ensures Valid(DayTable(route, stops, plan))
    ensures DayTable(route, stops, plan).keys == NewIds(route, 0, |plan|)
  {
    var e: TripTable := Empty();
    AddTripsValid(e, route, TripsOf(stops, plan), 0);
    AddTripsKeys(e, route, TripsOf(stops, plan), 0);
    assert e.keys + NewIds(route, 0, |plan|) == NewIds(route, 0, |plan|);
  }

  /** Trip number j + 1 of a route's day is the trip of its j-th departure. */
  lemma FreshRouteTrip(route: string, stops: seq<Stop>, plan: seq<Departure>, j: nat)
    requires j < |plan|
    ensures TripId(route, j + 1) in DayTable(route, stops, plan).vals
    ensures DayTable(route, stops, plan).vals[TripId(route, j + 1)] == DepartureTrip(stops, plan[j])
  {
    var e: TripTable := Empty();
    AddTripsAt(e, route, TripsOf(stops, plan), 0, j);
    assert 0 + j + 1 == j + 1;
    TripsOfAt(stops, plan, j);
  }

  /**
   * Every planned departure comes from a served hour: a walked cell j with a frequency in 1..60,
   * at clock hour HourAt(j) and one of that frequency's minutes.
   */
  lemma {:induction false} PlanSound(cells: seq<string>, k: nat, d: Departure)
    requires CellsParse(cells) && d in Plan(cells, k)
    ensures exists j :: k <= j < |cells| && Served(cells, j, d)
    decreases |cells| - k
  {
    var f := IntOf(cells[k]).value;
    match FrequencyMinutes(f, 0)
    case None =>
      PlanSound(cells, k + 1, d);
      var j :| k + 1 <= j < |cells| && Served(cells, j, d);
    case Some(ms) =>
      if d in HourPlan(HourAt(k), ms) {
        var i :| 0 <= i < |ms| && HourPlan(HourAt(k), ms)[i] == d;
        assert Served(cells, k, d);
      } else {
        assert k != 23;
        PlanSound(cells, k + 1, d);
        var j :| k + 1 <= j < |cells| && Served(cells, j, d);
      }
  }

  /** Cell j has a frequency in 1..60, and d leaves at its clock hour on one of its minutes. */
  predicate Served(cells: seq<string>, j: nat, d: Departure)
    requires CellsParse(cells) && j < |cells|
  {
    var m := FrequencyMinutes(IntOf(cells[j]).value, 0);
    m.Some? && d.hour == HourAt(j) && d.minute in m.value
  }

  /** Conversely, every minute of every served hour among the first 24 cells is planned. */
  lemma {:induction false} PlanComplete(cells: seq<string>, k: nat, j: nat, d: Departure)
    requires CellsParse(cells) && k <= j < |cells| && j <= 23 && Served(cells, j, d)
    ensures d in Plan(cells, k)
    decreases j - k
  {
    var f := IntOf(cells[k]).value;
    match FrequencyMinutes(f, 0)
    case None =>
      PlanComplete(cells, k + 1, j, d);
    case Some(ms) =>
      if j == k {
        var i :| 0 <= i < |ms| && ms[i] == d.minute;
        assert HourPlan(HourAt(k), ms)[i] == d;
      } else {
        PlanComplete(cells, k + 1, j, d);
      }
  }

  // ---------------------------------------------------------------------------------------------
  // generateSchedules

  /** `routes_schedules`, `routes_schedules_finalized` and the exception after `generateSchedules`. */
  datatype Day = Day(schedules: Schedules, finalized: map<string, bool>, err: Option<Error>)

  /**
   * `generateSchedules(period)` over the routes in `routes_order`: each route is marked unfinalized,
   * its schedule is generated, and the progress line reads `routes_schedules[route]` (KeyError for a
   * route that has no table and got no trip); the first exception ends the loop.
   */
  function GenerateAll(st: Schedules, fin: map<string, bool>, stops: RouteStops, freq: seq<seq<string>>, order: seq<string>, period: string): Day
    decreases |order|
  {
    if order == [] then Day(st, fin, None)
    else
      var r := order[0];
      var o := RouteSchedule(st, stops, freq, r, period);
      if o.err.Some? then Day(o.schedules, fin[r := false], o.err)
      else if r !in o.schedules then Day(o.schedules, fin[r := false], Some(KeyError))
      else GenerateAll(o.schedules, fin[r := false], stops, freq, order[1..], period)
  }

  /** The numbers the travel fields denote. */
  function TravelValues(stops: seq<Stop>): (xs: seq<int>)
    requires TravelsParse(stops)
    ensures TravelsAre(stops, xs)
  {
    var xs := seq(|stops|, i requires 0 <= i < |stops| && TravelsParse(stops) => IntOf(stops[i].travel).value);
    assert ParsedTo(Travels(stops), xs, |stops|) by {
      forall i | 0 <= i < |stops| ensures Travels(stops)[i] == Some(xs[i]) {
        TravelsAt(stops, i);
      }
    }
    xs
  }

  /** The route has a table, stops whose travel times are numbers, and a frequency row for the period whose cells are numbers. */
  predicate RouteReady(st: Schedules, stops: RouteStops, freq: seq<seq<string>>, route: string, period: string)
  {
    && route in st && route in stops && TravelsParse(stops[route])
    && PeriodCells(freq, route, period).Ok? && CellsParse(PeriodCells(freq, route, period).value)
  }

  /** The route's table after its schedule is generated: its trips for the planned departures, numbered from 1. */
  function RouteDay(st: Schedules, stops: RouteStops, freq: seq<seq<string>>, route: string, period: string): TripTable
    requires RouteReady(st, stops, freq, route, period)
  {
    AddTrips(st[route], route, TripsOf(stops[route], Plan(PeriodCells(freq, route, period).value, 0)), 0)
  }

  /** `generateSchedules` only adds tables' trips and finalized flags: the routes with tables stay the same, and each processed route is marked unfinalized. */
  lemma {:induction false} GenerateAllFrame(st: Schedules, fin: map<string, bool>, stops: RouteStops, freq: seq<seq<string>>, order: seq<string>, period: string)
    ensures var d := GenerateAll(st, fin, stops, freq, order, period);
      && d.schedules.Keys == st.Keys
      && (d.err.None? ==> d.finalized == fin + (map r | r in order :: false))
    decreases |order|
  {
    if order != [] {
      var r := order[0];
      var o := RouteSchedule(st, stops, freq, r, period);
      RouteScheduleFrame(st, stops, freq, r, period);
      if o.err.None? && r in o.schedules {
        GenerateAllFrame(o.schedules, fin[r := false], stops, freq, order[1..], period);
        var d := GenerateAll(o.schedules, fin[r := false], stops, freq, order[1..], period);
        if d.err.None? {
          FinalizedStep(fin, order);
        }
      }
    } else {
      assert fin + (map r: string | r in order :: false) == fin;
    }
  }

  lemma FinalizedStep(fin: map<string, bool>, order: seq<string>)
    requires order != []
    ensures fin[order[0] := false] + (map x | x in order[1..] :: false) == fin + (map x | x in order :: false)
  {
    assert forall x :: x in order <==> x == order[0] || x in order[1..];
  }

  /** Generating one route's schedule changes no other route's table and keeps the set of routes with tables. */
  lemma RouteScheduleFrame(st: Schedules, stops: RouteStops, freq: seq<seq<string>>, route: string, period: string)
    ensures RouteSchedule(st, stops, freq, route, period).schedules.Keys == st.Keys
    ensures forall r :: r in st && r != route ==> RouteSchedule(st, stops, freq, route, period).schedules[r] == st[r]
  {
    match PeriodCells(freq, route, period)
    case Err(_) =>
    case Ok(cells) => WalkFrame(st, stops, route, cells, 0, 0);
  }

  lemma {:induction false} WalkFrame(st: Schedules, stops: RouteStops, route: string, cells: seq<string>, k: nat, idNum: nat)
    ensures KeepsOthers(st, Walk(st, stops, route, cells, k, idNum).schedules, route)
    decreases |cells| - k
  {
    if k < |cells| {
      match IntOf(cells[k])
      case None =>
      case Some(f) =>
        match FrequencyMinutes(f, 0)
        case None => WalkFrame(st, stops, route, cells, k + 1, idNum);
        case Some(ms) =>
          HourTripsFrame(st, stops, route, HourAt(k), ms, idNum);
          var o := HourTrips(st, stops, route, HourAt(k), ms, idNum);
          if o.err.None? && k != 23 {
            WalkFrame(o.schedules, stops, route, cells, k + 1, idNum + |ms|);
            KeepsOthersTrans(st, o.schedules, Walk(o.schedules, stops, route, cells, k + 1, idNum + |ms|).schedules, route);
          }
    }
  }

  lemma {:induction false} HourTripsFrame(st: Schedules, stops: RouteStops, route: string, hour: int, ms: seq<int>, idNum: nat)
    ensures KeepsOthers(st, HourTrips(st, stops, route, hour, ms, idNum).schedules, route)
    decreases |ms|
  {
    if ms != [] {
      var o := GenerateTripEffect(st, stops, route, TripId(route, idNum + 1), hour, ms[0]);
      GenerateTripFrame(st, stops, route, TripId(route, idNum + 1), hour, ms[0]);
      if o.err.None? {
        HourTripsFrame(o.schedules, stops, route, hour, ms[1..], idNum + 1);
        KeepsOthersTrans(st, o.schedules, HourTrips(o.schedules, stops, route, hour, ms[1..], idNum + 1).schedules, route);
      }
    }
  }

  /**
   * When every route in `routes_order` is ready and none repeats, `generateSchedules` raises nothing,
   * every listed route gets its day of trips, and every other route's table is left as it was.
   */
  lemma {:induction false} GenerateAllOk(st: Schedules, fin: map<string, bool>, stops: RouteStops, freq: seq<seq<string>>, order: seq<string>, period: string)
    requires forall i :: 0 <= i < |order| ==> RouteReady(st, stops, freq, order[i], period)
    requires forall i, j :: 0 <= i < j < |order| ==> order[i] != order[j]
    ensures var d := GenerateAll(st, fin, stops, freq, order, period);
      && d.err.None?
      && d.schedules.Keys == st.Keys
      && (forall i :: 0 <= i < |order| ==> order[i] in d.schedules && d.schedules[order[i]] == RouteDay(st, stops, freq, order[i], period))
      && (forall r :: r in st && r !in order ==> d.schedules[r] == st[r])
    decreases |order|
  {
    if order != [] {
      var r := order[0];
      var cells := PeriodCells(freq, r, period).value;
      var o := RouteSchedule(st, stops, freq, r, period);
      assert RouteReady(st, stops, freq, r, period);
      RouteScheduleOk(st, stops, freq, r, period, cells, TravelValues(stops[r]));
      var st1 := o.schedules;
      assert st1 == st[r := RouteDay(st, stops, freq, r, period)];
      forall i | 0 <= i < |order[1..]| ensures RouteReady(st1, stops, freq, order[1..][i], period) {
        assert order[1..][i] == order[i + 1];
        assert RouteReady(st, stops, freq, order[i + 1], period);
      }
      GenerateAllOk(st1, fin[r := false], stops, freq, order[1..], period);
      var d := GenerateAll(st1, fin[r := false], stops, freq, order[1..], period);
      forall i | 0 <= i < |order| ensures d.schedules[order[i]] == RouteDay(st, stops, freq, order[i], period) {
        if i == 0 {
          assert r !in order[1..] by {
            forall j | 0 <= j < |order[1..]| ensures order[1..][j] != r {
              assert order[1..][j] == order[j + 1];
            }
          }
        } else {
          assert order[1..][i - 1] == order[i];
          assert order[i] != r;
          assert st1[order[i]] == st[order[i]];
        }
      }
    }
  }
}
