/**
 * `Schedule_Algorithm`: the engine object that holds the input tables and the three dictionaries it
 * fills in place (`routes_stops`, `routes_schedules`, `routes_schedules_finalized`), with the methods
 * that fill them, each proved against the functions of the Priority, Trips and Timetable modules.
 */
module Schedule {
  import opened Common
  import opened PyStr
  import opened PyDict
  import opened TimeOfDay
  import opened Frequency
  import opened Priority
  import opened Trips
  import opened Timetable
  import opened Nodes

  // ---------------------------------------------------------------------------------------------
  // What arrangeRoutes writes

  /** The route ids of the priority rows. */
  function RowRoutes(rows: seq<PriorityRow>): (ids: set<string>)
    ensures forall i :: 0 <= i < |rows| ==> rows[i].route in ids
    ensures forall r :: r in ids ==> exists i :: 0 <= i < |rows| && rows[i].route == r
  {
    set i | 0 <= i < |rows| :: rows[i].route
  }

  /** The stop list `arrangeRoutes` stores for every route of the priority rows. */
  function StopLists(routes: seq<RoutePoint>, rows: seq<PriorityRow>): map<string, seq<Stop>>
  {
    map r | r in RowRoutes(rows) :: StopsOf(routes, r)
  }

  /** The empty trip table `arrangeRoutes` stores for every route of the priority rows. */
  function FreshTables(rows: seq<PriorityRow>): map<string, TripTable>
  {
    map r | r in RowRoutes(rows) :: Empty()
  }

  lemma RowRoutesStep(rows: seq<PriorityRow>, i: nat)
    requires i < |rows|
    ensures RowRoutes(rows[..i + 1]) == RowRoutes(rows[..i]) + {rows[i].route}
  {
    var a, b := RowRoutes(rows[..i + 1]), RowRoutes(rows[..i]) + {rows[i].route};
    forall r | r in a ensures r in b {
      var j :| 0 <= j < i + 1 && rows[..i + 1][j].route == r;
      if j < i {
        assert rows[..i][j] == rows[..i + 1][j];
      }
    }
    forall r | r in b ensures r in a {
      if r != rows[i].route {
        var j :| 0 <= j < i && rows[..i][j].route == r;
        assert rows[..i + 1][j] == rows[..i][j];
      } else {
        assert rows[..i + 1][i] == rows[i];
      }
    }
  }

  /** One more row stored on top of a dictionary m: its route's stop list. */
  lemma StopListsStep(routes: seq<RoutePoint>, rows: seq<PriorityRow>, i: nat, m: map<string, seq<Stop>>)
    requires i < |rows|
    ensures (m + StopLists(routes, rows[..i]))[rows[i].route := StopsOf(routes, rows[i].route)] == m + StopLists(routes, rows[..i + 1])
  {
    RowRoutesStep(rows, i);
  }

  /** One more row stored on top of a dictionary m: its route's empty trip table. */
  lemma FreshTablesStep(rows: seq<PriorityRow>, i: nat, m: map<string, TripTable>)
    requires i < |rows|
    ensures (m + FreshTables(rows[..i]))[rows[i].route := Empty()] == m + FreshTables(rows[..i + 1])
  {
    RowRoutesStep(rows, i);
  }

  /**
   * After `arrangeRoutes` every priority row's route has its stop list: the route-table rows of
   * that route with a stop id, in table order, as `[stop id, travel time]`.
   */
  lemma StopListsContents(routes: seq<RoutePoint>, rows: seq<PriorityRow>, r: string, s: Stop)
    requires r in RowRoutes(rows)
    ensures r in StopLists(routes, rows)
    ensures s in StopLists(routes, rows)[r] <==> exists i :: StopRow(routes, r, i, s)
  {
    StopsOfMembers(routes, r, s);
  }

  // ---------------------------------------------------------------------------------------------
  // calculateNodeNumber

  /** `[e[1] for e in node.node_stops]` */
  function NodeStopIds(ns: seq<NodeStop>): (ids: seq<string>)
    ensures |ids| == |ns| && forall i :: 0 <= i < |ns| ==> ids[i] == ns[i].stop
  {
    seq(|ns|, i requires 0 <= i < |ns| => ns[i].stop)
  }

  /** How many of the nodes' stop-id lists hold the stop id. */
  function NodesHolding(id: string, groups: seq<seq<string>>): (n: nat)
    ensures n <= |groups|
  {
    if groups == [] then 0
    else NodesHolding(id, groups[..|groups| - 1]) + (if id in groups[|groups| - 1] then 1 else 0)
  }

  /** The node number of a route: over its stops, the nodes that hold the stop, added up. */
  function NodeNumber(stops: seq<Stop>, groups: seq<seq<string>>): nat
  {
    if stops == [] then 0
    else NodeNumber(stops[..|stops| - 1], groups) + NodesHolding(stops[|stops| - 1].id, groups)
  }

  /** A stop contributes nothing exactly when no node holds its id. */
  lemma {:induction false} NodesHoldingZero(id: string, groups: seq<seq<string>>)
    ensures NodesHolding(id, groups) == 0 <==> forall n :: 0 <= n < |groups| ==> id !in groups[n]
  {
    if groups != [] {
      var init := groups[..|groups| - 1];
      NodesHoldingZero(id, init);
      assert forall n :: 0 <= n < |init| ==> init[n] == groups[n];
    }
  }

  /** The count of a route splits over its stops: counting a + b is counting a and then b. */
  lemma {:induction false} NodeNumberAppend(a: seq<Stop>, b: seq<Stop>, groups: seq<seq<string>>)
    ensures NodeNumber(a + b, groups) == NodeNumber(a, groups) + NodeNumber(b, groups)
    decreases |b|
  {
    if b == [] {
      assert a + b == a;
    } else {
      var b0 := b[..|b| - 1];
      assert (a + b)[..|a + b| - 1] == a + b0;
      assert (a + b)[|a + b| - 1] == b[|b| - 1];
      NodeNumberAppend(a, b0, groups);
    }
  }

  /** A route's node number is at most its stop count times the node count, and is zero exactly when none of its stops is in a node. */
  lemma {:induction false} NodeNumberBounds(stops: seq<Stop>, groups: seq<seq<string>>)
    ensures NodeNumber(stops, groups) <= |stops| * |groups|
    ensures NodeNumber(stops, groups) == 0 <==>
      forall i, n :: 0 <= i < |stops| && 0 <= n < |groups| ==> stops[i].id !in groups[n]
  {
    if stops != [] {
      var init := stops[..|stops| - 1];
      var last := stops[|stops| - 1];
      NodeNumberBounds(init, groups);
      NodesHoldingZero(last.id, groups);
      assert (|init| + 1) * |groups| == |init| * |groups| + |groups|;
      assert forall i :: 0 <= i < |init| ==> init[i] == stops[i];
      if NodeNumber(stops, groups) == 0 {
        forall i, n | 0 <= i < |stops| && 0 <= n < |groups| ensures stops[i].id !in groups[n] {
          if i < |init| {
            assert stops[i] == init[i];
          }
        }
      }
    }
  }

  // ---------------------------------------------------------------------------------------------
  // evaluateNodeConnections

  /** The sum of the connection times every node returns for the route: the per-node dictionaries' values, in order. */
  function TotalWait(results: seq<seq<int>>): int
  {
    if results == [] then 0 else TotalWait(results[..|results| - 1]) + Sum(results[|results| - 1])
  }

  /** All the values of the per-node results, node after node. */
  function Flatten(results: seq<seq<int>>): seq<int>
  {
    if results == [] then [] else Flatten(results[..|results| - 1]) + results[|results| - 1]
  }

  lemma {:induction false} SumAppend(a: seq<int>, b: seq<int>)
    ensures Sum(a + b) == Sum(a) + Sum(b)
    decreases |b|
  {
    if b == [] {
      assert a + b == a;
    } else {
      var b0 := b[..|b| - 1];
      assert (a + b)[..|a + b| - 1] == a + b0;
      assert (a + b)[|a + b| - 1] == b[|b| - 1];
      SumAppend(a, b0);
    }
  }

  /** The route's wait time is the plain sum of every value every node returned. */
  lemma {:induction false} TotalWaitFlatten(results: seq<seq<int>>)
    ensures TotalWait(results) == Sum(Flatten(results))
  {
    if results != [] {
      var init := results[..|results| - 1];
      TotalWaitFlatten(init);
      SumAppend(Flatten(init), results[|results| - 1]);
    }
  }

  /** `evaluateNodeConnections(route)`, with the dictionaries the nodes return for the route given as their value lists. */
  method EvaluateNodeConnections(connTimes: seq<seq<int>>) returns (routeConnTime: int)
    ensures routeConnTime == TotalWait(connTimes)
    ensures routeConnTime == Sum(Flatten(connTimes))
  {
    routeConnTime := 0;
    for n := 0 to |connTimes|
      invariant routeConnTime == TotalWait(connTimes[..n])
    {
      var times := connTimes[n];
      var before := routeConnTime;
      for c := 0 to |times|
        invariant routeConnTime == before + Sum(times[..c])
      {
        assert times[..c + 1][..c] == times[..c];
        routeConnTime := routeConnTime + times[c];
      }
      assert times[..|times|] == times;
      assert connTimes[..n + 1][..n] == connTimes[..n];
    }
    assert connTimes[..|connTimes|] == connTimes;
    TotalWaitFlatten(connTimes);
  }

  /**
   * The selection loop of `arrangeRoutes` (schedule_app.py:51-55): as often as there are rows, take
   * the first row of least rank and overwrite its rank with 20.
   */
  method SelectRoutes(rows: seq<PriorityRow>) returns (order: seq<string>)
    requires RanksParse(rows)
    ensures order == RoutesOrder(rows)
  {
    var loop := Ranks(rows);
    order := [];
    for i := 0 to |rows|
      invariant |loop| == |rows|
      invariant order + RouteIds(rows, Selection(loop, |rows| - i)) == RoutesOrder(rows)
    {
      var m := FirstMinIndex(loop);
      RouteIdsStep(rows, loop, |rows| - i);
      order := order + [rows[m].route];
      loop := loop[m := CONSUMED];
    }
  }

  // ---------------------------------------------------------------------------------------------
  // The engine object

  /** `[[e[1] for e in node.node_stops] for node in nodes]` */
  function NodeGroups(nodes: seq<Node>): (groups: seq<seq<string>>)
    reads set n | n in nodes
    ensures |groups| == |nodes| && forall i :: 0 <= i < |nodes| ==> groups[i] == NodeStopIds(nodes[i].nodeStops)
  {
    seq(|nodes|, i reads set n | n in nodes requires 0 <= i < |nodes| => NodeStopIds(nodes[i].nodeStops))
  }

  class ScheduleAlgorithm {
    var routes: seq<RoutePoint>
    var nodes: seq<Node>
    var frequency: seq<seq<string>>
    var priority: seq<PriorityRow>
    var routesStops: RouteStops
    var routesSchedules: Schedules
    var routesSchedulesFinalized: map<string, bool>
    /** None until `arrangeRoutes` creates the attribute. */
    var routesOrder: Option<seq<string>>

    /** Stores the tables; the three dictionaries start empty and `routes_order` does not exist yet. */
    constructor (routes: seq<RoutePoint>, nodes: seq<Node>, frequency: seq<seq<string>>, priority: seq<PriorityRow>)
      ensures this.routes == routes && this.nodes == nodes && this.frequency == frequency && this.priority == priority
      ensures routesStops == map[] && routesSchedules == map[] && routesSchedulesFinalized == map[]
      ensures routesOrder == None
    {
      this.routes := routes;
      this.nodes := nodes;
      this.frequency := frequency;
      this.priority := priority;
      routesStops := map[];
      routesSchedules := map[];
      routesSchedulesFinalized := map[];
      routesOrder := None;
    }

    /**
     * `arrangeRoutes`: drops the header row of the priority table (IndexError when there is none),
     * stores every remaining row's stop list and an empty trip table, and builds `routes_order` by
     * repeatedly taking the first row of least rank and overwriting its rank with 20; a rank that is
     * not a number raises ValueError and leaves `routes_order` empty.
     */
    method ArrangeRoutes() returns (err: Option<Error>)
      modifies this`priority, this`routesStops, this`routesSchedules, this`routesOrder
      ensures old(priority) == [] ==>
        && err == Some(IndexError) && priority == old(priority) && routesStops == old(routesStops)
        && routesSchedules == old(routesSchedules) && routesOrder == old(routesOrder)
      ensures old(priority) != [] ==>
        && priority == old(priority)[1..]
        && routesStops == old(routesStops) + StopLists(routes, priority)
        && routesSchedules == old(routesSchedules) + FreshTables(priority)
        && routesOrder == Some(if RanksParse(priority) then RoutesOrder(priority) else [])
        && err == (if RanksParse(priority) then None else Some(ValueError))
    {
      if priority == [] {
        return Some(IndexError);
      }
      priority := priority[1..];
      StoreRows(priority);
      routesOrder := Some([]);
      if !RanksParse(priority) {
        return Some(ValueError);
      }
      var order := SelectRoutes(priority);
      routesOrder := Some(order);
      err := None;
    }

    /** The loop of `arrangeRoutes` over the priority rows (schedule_app.py:41-46): each row's route gets its stop list and an empty trip table. */
    method StoreRows(rows: seq<PriorityRow>)
      modifies this`routesStops, this`routesSchedules
      ensures routesStops == old(routesStops) + StopLists(routes, rows)
      ensures routesSchedules == old(routesSchedules) + FreshTables(rows)
    {
      for i := 0 to |rows|
        invariant routesStops == old(routesStops) + StopLists(routes, rows[..i])
        invariant routesSchedules == old(routesSchedules) + FreshTables(rows[..i])
      {
        StopListsStep(routes, rows, i, old(routesStops));
        FreshTablesStep(rows, i, old(routesSchedules));
        var r := rows[i].route;
        routesStops := routesStops[r := StopsOf(routes, r)];
        routesSchedules := routesSchedules[r := Empty()];
      }
      assert rows[..|rows|] == rows;
    }

    /**
     * `generateTrip(route, tripId, hour, minute)`: stores an empty trip under the id, then records,
     * stop after stop, the clock advanced by the stop's travel time. The dict stored under the id is
     * the one the stop loop fills, so the table ends with the trip as the loop leaves it, also when
     * the loop raises.
     */
    method GenerateTrip(route: string, tripId: string, hour: int, minute: int) returns (err: Option<Error>)
      modifies this`routesSchedules
      ensures Outcome(routesSchedules, err) == GenerateTripEffect(old(routesSchedules), routesStops, route, tripId, hour, minute)
    {
      if route !in routesSchedules {
        return Some(KeyError);
      }
      routesSchedules := routesSchedules[route := Put(routesSchedules[route], tripId, Empty())];
      if !(0 <= hour < 24 && 0 <= minute < 60) {
        return Some(ValueError);
      }
      if route !in routesStops {
        return Some(KeyError);
      }
      TravelsFromAll(routesStops[route], 0);
      var times;
      times, err := FillStops(routesStops[route], StartTime(hour, minute), Travels(routesStops[route]));
      PutPut(old(routesSchedules)[route], tripId, Empty(), Render(times));
      routesSchedules := routesSchedules[route := Put(routesSchedules[route], tripId, Render(times))];
      GenerateTripRuns(old(routesSchedules), routesStops, route, tripId, hour, minute, TripLoop(routesStops[route], StartTime(hour, minute)));
    }

    /**
     * `generateRouteSchedule(route, period)`: walks the route's rotated frequency cells with the hour
     * (wrapping 24 to 0), the count of cells seen and the trip counter, and generates one trip per
     * minute of every hour whose frequency is in 1..60.
     */
    method GenerateRouteSchedule(route: string, period: string) returns (err: Option<Error>)
      modifies this`routesSchedules
      ensures Outcome(routesSchedules, err) == RouteSchedule(old(routesSchedules), routesStops, frequency, route, period)
    {
      var found := PeriodCells(frequency, route, period);
      if found.Err? {
        return Some(found.error);
      }
      var cells := found.value;
      ghost var target := Walk(routesSchedules, routesStops, route, cells, 0, 0);
      var currentHour := START_DAY_HOUR;
      var count := 0;
      var tripIdNum := 0;
      var k := 0;
      while k < |cells|
        invariant 0 <= k <= |cells| && count == k
        invariant 0 <= currentHour <= 24 && (if currentHour == 24 then 0 else currentHour) == HourAt(k)
        invariant Walk(routesSchedules, routesStops, route, cells, k, tripIdNum) == target
      {
        if currentHour == 24 {
          currentHour := 0;
        }
        assert currentHour == HourAt(k) && (if currentHour + 1 == 24 then 0 else currentHour + 1) == HourAt(k + 1) by {
          HourAtNext(k);
        }
        var f := IntOf(cells[k]);
        if f.None? {
          WalkBadCell(routesSchedules, routesStops, route, cells, k, tripIdNum);
          return Some(ValueError);
        }
        var freqMinutes := CalculateFrequencyMinutes(f.value, 0);
        if freqMinutes.None? {
          WalkUnserved(routesSchedules, routesStops, route, cells, k, tripIdNum, f.value);
          count := count + 1;
          currentHour := currentHour + 1;
          k := k + 1;
          continue;
        }
        var ms := freqMinutes.value;
        ghost var stk := routesSchedules;
        var idk := tripIdNum;
        err, tripIdNum := GenerateHourTrips(route, currentHour, ms, tripIdNum);
        if err.Some? {
          WalkServedStops(stk, routesStops, route, cells, k, idk, f.value, ms);
          return;
        }
        if count == 23 {
          WalkLast(stk, routesStops, route, cells, k, idk, f.value, ms);
          return None;
        }
        WalkNext(stk, routesStops, route, cells, k, idk, f.value, ms, routesSchedules, tripIdNum, target);
        count := count + 1;
        currentHour := currentHour + 1;
        k := k + 1;
      }
      WalkEnd(routesSchedules, routesStops, route, cells, k, tripIdNum);
      err := None;
    }

    /**
     * The minute loop of `generateRouteSchedule` (schedule_app.py:156-161): one trip per minute of
     * the hour, each under the next trip id; the first trip that raises ends the loop.
     */
    method GenerateHourTrips(route: string, hour: int, ms: seq<int>, idNum: nat) returns (err: Option<Error>, idOut: nat)
      modifies this`routesSchedules
      ensures Outcome(routesSchedules, err) == HourTrips(old(routesSchedules), routesStops, route, hour, ms, idNum)
      ensures err.None? ==> idOut == idNum + |ms|
    {
      ghost var st0 := routesSchedules;
      idOut := idNum;
      err := None;
      var j := 0;
      while j < |ms|
        invariant 0 <= j <= |ms| && idOut == idNum + j && err.None?
        invariant HourTrips(routesSchedules, routesStops, route, hour, ms[j..], idOut) == HourTrips(st0, routesStops, route, hour, ms, idNum)
      {
        ghost var before := routesSchedules;
        idOut := idOut + 1;
        err := GenerateTrip(route, TripId(route, idOut), hour, ms[j]);
        HourTripsStep(before, routesStops, route, hour, ms[j..], idOut - 1);
        assert ms[j..][0] == ms[j] && ms[j..][1..] == ms[j + 1..];
        if err.Some? {
          return;
        }
        j := j + 1;
      }
      assert ms[j..] == [];
    }

    /**
     * `generateSchedules(period="MF")`: over `routes_order` (AttributeError before `arrangeRoutes`), marks
     * each route unfinalized and generates its schedule; the progress line reads the route's table.
     */
    method GenerateSchedules(period: string := "MF") returns (err: Option<Error>)
      modifies this`routesSchedules, this`routesSchedulesFinalized
      ensures routesOrder.None? ==> err == Some(AttributeError) && routesSchedules == old(routesSchedules)
                                    && routesSchedulesFinalized == old(routesSchedulesFinalized)
      ensures routesOrder.Some? ==>
        Day(routesSchedules, routesSchedulesFinalized, err)
          == GenerateAll(old(routesSchedules), old(routesSchedulesFinalized), routesStops, frequency, routesOrder.value, period)
    {
      if routesOrder.None? {
        return Some(AttributeError);
      }
      var order := routesOrder.value;
      ghost var st0, fin0 := routesSchedules, routesSchedulesFinalized;
      for i := 0 to |order|
        invariant GenerateAll(routesSchedules, routesSchedulesFinalized, routesStops, frequency, order[i..], period)
               == GenerateAll(st0, fin0, routesStops, frequency, order, period)
      {
        var route := order[i];
        GenerateAllStep(routesSchedules, routesSchedulesFinalized, routesStops, frequency, order[i..], period);
        assert order[i..][0] == route && order[i..][1..] == order[i + 1..];
        routesSchedulesFinalized := routesSchedulesFinalized[route := false];
        err := GenerateRouteSchedule(route, period);
        if err.Some? {
          return;
        }
        if route !in routesSchedules {
          return Some(KeyError);
        }
      }
      GenerateAllEnd(routesSchedules, routesSchedulesFinalized, routesStops, frequency, order[|order|..], period);
      err := None;
    }

    /**
     * `calculateNodeNumber()`: for every route with a stop list, the number of (stop, node) pairs
     * in which the node's stops include the stop id.
     */
    method CalculateNodeNumber() returns (routeNodeNumbers: map<string, nat>)
      ensures routeNodeNumbers == map r | r in routesStops :: NodeNumber(routesStops[r], NodeGroups(nodes))
    {
      var groups := NodeGroups(nodes);
      routeNodeNumbers := map[];
      var left := routesStops.Keys;
      while left != {}
        invariant left <= routesStops.Keys
        invariant routeNodeNumbers == map r | r in routesStops.Keys - left :: NodeNumber(routesStops[r], groups)
        decreases left
      {
        var route :| route in left;
        var stops := routesStops[route];
        var nodeNum := 0;
        for i := 0 to |stops|
          invariant nodeNum == NodeNumber(stops[..i], groups)
        {
          assert stops[..i + 1][..i] == stops[..i];
          var before := nodeNum;
          for n := 0 to |nodes|
            invariant nodeNum == before + NodesHolding(stops[i].id, groups[..n])
          {
            assert groups[..n + 1][..n] == groups[..n];
            if stops[i].id in NodeStopIds(nodes[n].nodeStops) {
              nodeNum := nodeNum + 1;
            }
          }
          assert groups[..|nodes|] == groups;
        }
        assert stops[..|stops|] == stops;
        routeNodeNumbers := routeNodeNumbers[route := nodeNum];
        left := left - {route};
      }
    }
  }

  // ---------------------------------------------------------------------------------------------
  // One step of each loop, as the functions see it

  lemma WalkBadCell(st: Schedules, stops: RouteStops, route: string, cells: seq<string>, k: nat, idNum: nat)
    requires k < |cells| && IntOf(cells[k]).None?
    ensures Walk(st, stops, route, cells, k, idNum) == Outcome(st, Some(ValueError))
  {
  }

  lemma WalkNext(st: Schedules, stops: RouteStops, route: string, cells: seq<string>, k: nat, idNum: nat, f: int, ms: seq<int>, st1: Schedules, id1: nat, target: Outcome)
    requires k < |cells| && k != 23 && IntOf(cells[k]) == Some(f) && FrequencyMinutes(f, 0) == Some(ms)
    requires HourTrips(st, stops, route, HourAt(k), ms, idNum) == Outcome(st1, None)
    requires Walk(st, stops, route, cells, k, idNum) == target && id1 == idNum + |ms|
    ensures Walk(st1, stops, route, cells, k + 1, id1) == target
  {
    WalkStep(st, stops, route, cells, k, idNum, f, ms, st1);
  }

  lemma WalkUnserved(st: Schedules, stops: RouteStops, route: string, cells: seq<string>, k: nat, idNum: nat, f: int)
    requires k < |cells| && IntOf(cells[k]) == Some(f) && FrequencyMinutes(f, 0).None?
    ensures Walk(st, stops, route, cells, k, idNum) == Walk(st, stops, route, cells, k + 1, idNum)
  {
  }

  lemma HourAtNext(k: nat)
    ensures HourAt(k + 1) == if HourAt(k) == 23 then 0 else HourAt(k) + 1
  {
  }

  lemma WalkEnd(st: Schedules, stops: RouteStops, route: string, cells: seq<string>, k: nat, idNum: nat)
    requires k >= |cells|
    ensures Walk(st, stops, route, cells, k, idNum) == Outcome(st, None)
  {
  }

  lemma WalkServedStops(st: Schedules, stops: RouteStops, route: string, cells: seq<string>, k: nat, idNum: nat, f: int, ms: seq<int>)
    requires k < |cells| && IntOf(cells[k]) == Some(f) && FrequencyMinutes(f, 0) == Some(ms)
    requires HourTrips(st, stops, route, HourAt(k), ms, idNum).err.Some? || k == 23
    ensures Walk(st, stops, route, cells, k, idNum) == HourTrips(st, stops, route, HourAt(k), ms, idNum)
  {
  }

  lemma WalkLast(st: Schedules, stops: RouteStops, route: string, cells: seq<string>, k: nat, idNum: nat, f: int, ms: seq<int>)
    requires k == 23 && k < |cells| && IntOf(cells[k]) == Some(f) && FrequencyMinutes(f, 0) == Some(ms)
    ensures Walk(st, stops, route, cells, k, idNum) == HourTrips(st, stops, route, HourAt(k), ms, idNum)
  {
    WalkServedStops(st, stops, route, cells, k, idNum, f, ms);
  }

  lemma HourTripsStep(st: Schedules, stops: RouteStops, route: string, hour: int, ms: seq<int>, idNum: nat)
    requires ms != []
    ensures var o := GenerateTripEffect(st, stops, route, TripId(route, idNum + 1), hour, ms[0]);
      HourTrips(st, stops, route, hour, ms, idNum) == if o.err.Some? then o else HourTrips(o.schedules, stops, route, hour, ms[1..], idNum + 1)
  {
  }

  lemma GenerateAllStep(st: Schedules, fin: map<string, bool>, stops: RouteStops, freq: seq<seq<string>>, order: seq<string>, period: string)
    requires order != []
    ensures var r := order[0];
      var o := RouteSchedule(st, stops, freq, r, period);
      GenerateAll(st, fin, stops, freq, order, period)
        == if o.err.Some? then Day(o.schedules, fin[r := false], o.err)
           else if r !in o.schedules then Day(o.schedules, fin[r := false], Some(KeyError))
           else GenerateAll(o.schedules, fin[r := false], stops, freq, order[1..], period)
  {
  }

  lemma GenerateAllEnd(st: Schedules, fin: map<string, bool>, stops: RouteStops, freq: seq<seq<string>>, order: seq<string>, period: string)
    requires order == []
    ensures GenerateAll(st, fin, stops, freq, order, period) == Day(st, fin, None)
  {
  }
}
