/**
 * Route priorities: the per-route stop lists taken from the route table, the processing order
 * of `arrangeRoutes` (selection of the minimum rank with the sentinel 20), and the rank buckets
 * of `getOrderedRoutes`.
 */
module Priority {
  import opened Common
  import opened PyStr

  /** The fields of a route-table row that the engine reads: 0 (route id), 4 (stop id) and 5 (travel time from the previous stop). */
  datatype RoutePoint = RoutePoint(route: string, stopId: string, travel: string)

  /** One entry of `routes_stops[route]`: `[stop id, travel time]`. */
  datatype Stop = Stop(id: string, travel: string)

  /** One row of the priority table: `[route id, rank]`. */
  datatype PriorityRow = PriorityRow(route: string, rank: string)

  /** The rank written over an entry that `arrangeRoutes` has already placed in the order. */
  const CONSUMED := 20

  /** `getOrderedRoutes` builds buckets for the ranks 1 up to this one. */
  const LOWEST_RANK := 19

  /** `[[p[4], p[5]] for p in routes if p[0] == route and p[4] != ""]`: the filter tests the stop id, not the travel time. */
  function StopsOf(routes: seq<RoutePoint>, route: string): seq<Stop>
  {
    if routes == [] then []
    else
      var p := routes[|routes| - 1];
      StopsOf(routes[..|routes| - 1], route) + (if p.route == route && p.stopId != "" then [Stop(p.stopId, p.travel)] else [])
  }

  /** Filtering the route table keeps table order: it distributes over concatenation. */
  lemma {:induction false} StopsOfAppend(a: seq<RoutePoint>, b: seq<RoutePoint>, route: string)
    ensures StopsOf(a + b, route) == StopsOf(a, route) + StopsOf(b, route)
    decreases |b|
  {
    if b == [] {
      assert a + b == a;
    } else {
      assert (a + b)[..|a + b| - 1] == a + b[..|b| - 1];
      StopsOfAppend(a, b[..|b| - 1], route);
    }
  }

  /** Row i of the route table belongs to the route, has a stop id, and yields the stop entry s. */
  predicate StopRow(routes: seq<RoutePoint>, route: string, i: int, s: Stop)
  {
    0 <= i < |routes| && routes[i].route == route && routes[i].stopId != ""
    && s == Stop(routes[i].stopId, routes[i].travel)
  }

  /** A stop entry of a route comes from, and only from, a table row of that route with a non-empty stop id. */
  lemma {:induction false} StopsOfMembers(routes: seq<RoutePoint>, route: string, s: Stop)
    ensures s in StopsOf(routes, route) <==> exists i :: StopRow(routes, route, i, s)
  {
    if routes != [] {
      var init := routes[..|routes| - 1];
      StopsOfMembers(init, route, s);
      if s in StopsOf(init, route) {
        var i :| StopRow(init, route, i, s);
        assert StopRow(routes, route, i, s);
      } else if s in StopsOf(routes, route) {
        assert StopRow(routes, route, |init|, s);
      }
      if exists i :: StopRow(routes, route, i, s) {
        var i :| StopRow(routes, route, i, s);
        if i < |init| {
          assert StopRow(init, route, i, s);
        } else {
          assert StopsOf(routes, route) == StopsOf(init, route) + [s];
        }
      }
    }
  }

  /** `int(p[1])` succeeds for every row. */
  predicate RanksParse(rows: seq<PriorityRow>)
  {
    forall i :: 0 <= i < |rows| ==> IntOf(rows[i].rank).Some?
  }

  /** `[int(p[1]) for p in rows]` */
  function Ranks(rows: seq<PriorityRow>): (r: seq<int>)
    requires RanksParse(rows)
    ensures |r| == |rows| && forall i :: 0 <= i < |rows| ==> Some(r[i]) == IntOf(rows[i].rank)
  {
    seq(|rows|, i requires 0 <= i < |rows| => IntOf(rows[i].rank).value)
  }

  /** `s.index(min(s))`: the first position of the minimum. */
  function FirstMinIndex(s: seq<int>): (i: nat)
    requires |s| > 0
    ensures i < |s|
    ensures forall j :: 0 <= j < |s| ==> s[i] <= s[j]
    ensures forall j :: 0 <= j < i ==> s[i] < s[j]
  {
    if |s| == 1 then 0
    else
      var k := FirstMinIndex(s[..|s| - 1]);
      if s[|s| - 1] < s[k] then |s| - 1 else k
  }

  /** The positions `arrangeRoutes` picks in `steps` rounds: take the first minimum, then overwrite it with CONSUMED. */
  function Selection(ranks: seq<int>, steps: nat): (sel: seq<nat>)
    requires steps <= |ranks|
    ensures |sel| == steps && forall k :: 0 <= k < steps ==> sel[k] < |ranks|
    decreases steps
  {
    if steps == 0 then []
    else
      var i := FirstMinIndex(ranks);
      [i] + Selection(ranks[i := CONSUMED], steps - 1)
  }

  /** `routes_order`: the route ids of the priority rows in the order the selection picks them. */
  function RoutesOrder(rows: seq<PriorityRow>): (order: seq<string>)
    requires RanksParse(rows)
    ensures |order| == |rows|
  {
    RouteIds(rows, Selection(Ranks(rows), |rows|))
  }

  /** The route ids of the rows at the given positions, in that order. */
  function RouteIds(rows: seq<PriorityRow>, sel: seq<nat>): (ids: seq<string>)
    requires forall k :: 0 <= k < |sel| ==> sel[k] < |rows|
    ensures |ids| == |sel| && forall k :: 0 <= k < |sel| ==> ids[k] == rows[sel[k]].route
  {
    if sel == [] then [] else [rows[sel[0]].route] + RouteIds(rows, sel[1..])
  }

  /** One round of the selection puts the route of the first minimum in front of the routes of the later rounds. */
  lemma RouteIdsStep(rows: seq<PriorityRow>, ranks: seq<int>, steps: nat)
    requires |ranks| == |rows| && 0 < steps <= |rows|
    ensures RouteIds(rows, Selection(ranks, steps))
         == [rows[FirstMinIndex(ranks)].route] + RouteIds(rows, Selection(ranks[FirstMinIndex(ranks) := CONSUMED], steps - 1))
  {
  }

  /** How many entries are still below the sentinel, i.e. not yet picked. */
  function CountBelow(s: seq<int>): (n: nat)
    ensures n <= |s|
  {
    if s == [] then 0 else CountBelow(s[..|s| - 1]) + (if s[|s| - 1] < CONSUMED then 1 else 0)
  }

  lemma {:induction false} CountBelowFacts(s: seq<int>)
    ensures CountBelow(s) == 0 ==> forall i :: 0 <= i < |s| ==> s[i] >= CONSUMED
    ensures (forall i :: 0 <= i < |s| ==> s[i] < CONSUMED) ==> CountBelow(s) == |s|
  {
    if s != [] {
      CountBelowFacts(s[..|s| - 1]);
      assert forall i :: 0 <= i < |s| - 1 ==> s[..|s| - 1][i] == s[i];
    }
  }

  lemma {:induction false} CountBelowPositive(s: seq<int>)
    requires CountBelow(s) > 0
    ensures exists j :: 0 <= j < |s| && s[j] < CONSUMED
  {
    if s[|s| - 1] >= CONSUMED {
      CountBelowPositive(s[..|s| - 1]);
      var j :| 0 <= j < |s| - 1 && s[..|s| - 1][j] < CONSUMED;
      assert s[j] == s[..|s| - 1][j];
    }
  }

  lemma {:induction false} CountBelowConsume(s: seq<int>, i: nat)
    requires i < |s| && s[i] < CONSUMED
    ensures CountBelow(s[i := CONSUMED]) == CountBelow(s) - 1
  {
    var t := s[i := CONSUMED];
    if i == |s| - 1 {
      assert t[..|t| - 1] == s[..|s| - 1];
    } else {
      assert t[..|t| - 1] == s[..|s| - 1][i := CONSUMED];
      CountBelowConsume(s[..|s| - 1], i);
    }
  }

  /** Positions in `sel` never repeat. */
  predicate NoRepeats(sel: seq<nat>)
  {
    forall p, q :: 0 <= p < q < |sel| ==> sel[p] != sel[q]
  }

  /** Ranks never decrease along `sel`, and equal ranks keep table order. */
  predicate StablyOrdered(r: seq<int>, sel: seq<nat>)
    requires forall k :: 0 <= k < |sel| ==> sel[k] < |r|
  {
    && (forall p, q :: 0 <= p < q < |sel| ==> r[sel[p]] <= r[sel[q]])
    && (forall p, q :: 0 <= p < q < |sel| && r[sel[p]] == r[sel[q]] ==> sel[p] < sel[q])
  }

  /** A working copy of the ranks in which some entries are overwritten with the sentinel. */
  predicate PartlyConsumed(r: seq<int>, cur: seq<int>)
  {
    && |cur| == |r|
    && (forall i :: 0 <= i < |r| ==> r[i] < CONSUMED)
    && (forall i :: 0 <= i < |r| ==> cur[i] == CONSUMED || cur[i] == r[i])
  }

  /** One round: while something is left, the first minimum is a position not yet consumed, of least remaining rank, and the first such. */
  lemma FirstPick(r: seq<int>, cur: seq<int>)
    requires PartlyConsumed(r, cur) && CountBelow(cur) > 0
    ensures var i0 := FirstMinIndex(cur);
      && cur[i0] < CONSUMED && cur[i0] == r[i0]
      && (forall j :: 0 <= j < |r| && cur[j] < CONSUMED ==> r[i0] <= r[j] && (r[i0] == r[j] ==> i0 <= j))
  {
    CountBelowPositive(cur);
    var i0 := FirstMinIndex(cur);
    var j :| 0 <= j < |cur| && cur[j] < CONSUMED;
    assert cur[i0] <= cur[j];
  }

  /** One round consumes its pick: the working copy stays partly consumed, with one entry fewer below the sentinel. */
  lemma ConsumeFirst(r: seq<int>, cur: seq<int>)
    requires PartlyConsumed(r, cur) && CountBelow(cur) > 0
    ensures var i0 := FirstMinIndex(cur);
      && cur[i0] < CONSUMED
      && PartlyConsumed(r, cur[i0 := CONSUMED])
      && CountBelow(cur[i0 := CONSUMED]) == CountBelow(cur) - 1
  {
    FirstPick(r, cur);
    CountBelowConsume(cur, FirstMinIndex(cur));
  }

  lemma NoRepeatsCons(i0: nat, tail: seq<nat>)
    requires NoRepeats(tail) && i0 !in tail
    ensures NoRepeats([i0] + tail)
  {
    var sel := [i0] + tail;
    forall p, q | 0 <= p < q < |sel| ensures sel[p] != sel[q] {
      assert sel[q] == tail[q - 1];
      if p > 0 { assert sel[p] == tail[p - 1]; } else { assert sel[q] in tail; }
    }
  }

  /** From a partly consumed state the selection picks exactly the positions not yet consumed. */
  lemma {:induction false} SelectionMembers(r: seq<int>, cur: seq<int>, steps: nat)
    requires PartlyConsumed(r, cur)
    requires steps == CountBelow(cur)
    ensures forall i :: 0 <= i < |r| ==> (i in Selection(cur, steps) <==> cur[i] < CONSUMED)
    decreases steps
  {
    CountBelowFacts(cur);
    if steps > 0 {
      var i0 := FirstMinIndex(cur);
      ConsumeFirst(r, cur);
      SelectionMembers(r, cur[i0 := CONSUMED], steps - 1);
      var tail := Selection(cur[i0 := CONSUMED], steps - 1);
      assert Selection(cur, steps) == [i0] + tail;
      forall i | 0 <= i < |r|
        ensures i in Selection(cur, steps) <==> cur[i] < CONSUMED
      {
        assert i in Selection(cur, steps) <==> i == i0 || i in tail;
      }
    }
  }

  /** From a partly consumed state the selection picks no position twice. */
  lemma {:induction false} SelectionNoRepeats(r: seq<int>, cur: seq<int>, steps: nat)
    requires PartlyConsumed(r, cur)
    requires steps == CountBelow(cur)
    ensures NoRepeats(Selection(cur, steps))
    decreases steps
  {
    if steps > 0 {
      var i0 := FirstMinIndex(cur);
      ConsumeFirst(r, cur);
      var next := cur[i0 := CONSUMED];
      SelectionNoRepeats(r, next, steps - 1);
      SelectionMembers(r, next, steps - 1);
      NoRepeatsCons(i0, Selection(next, steps - 1));
    }
  }

  /** Every pick of `tail` has at least the rank of position i0, and a greater position when the ranks tie. */
  predicate HeadFirst(r: seq<int>, i0: nat, tail: seq<nat>)
    requires i0 < |r| && forall k :: 0 <= k < |tail| ==> tail[k] < |r|
  {
    forall q :: 0 <= q < |tail| ==> r[i0] <= r[tail[q]] && (r[i0] == r[tail[q]] ==> i0 < tail[q])
  }

  /** After the first pick, every later pick has at least its rank, and a greater position when the ranks tie. */
  lemma HeadBeforeTail(r: seq<int>, cur: seq<int>, steps: nat, i0: nat, tail: seq<nat>)
    requires PartlyConsumed(r, cur)
    requires steps == CountBelow(cur) && steps > 0
    requires i0 == FirstMinIndex(cur) && tail == Selection(cur[i0 := CONSUMED], steps - 1)
    ensures HeadFirst(r, i0, tail)
  {
    FirstPick(r, cur);
    ConsumeFirst(r, cur);
    var next := cur[i0 := CONSUMED];
    SelectionMembers(r, next, steps - 1);
    forall q | 0 <= q < |tail|
      ensures r[i0] <= r[tail[q]] && (r[i0] == r[tail[q]] ==> i0 < tail[q])
    {
      var j := tail[q];
      assert j in tail;
      assert next[j] < CONSUMED;
      assert j != i0 && cur[j] == next[j];
    }
  }

  /** From a partly consumed state the selection picks ranks in non-decreasing order, equal ranks in table order. */
  lemma {:induction false} SelectionOrdered(r: seq<int>, cur: seq<int>, steps: nat)
    requires PartlyConsumed(r, cur)
    requires steps == CountBelow(cur)
    ensures StablyOrdered(r, Selection(cur, steps))
    decreases steps
  {
    if steps > 0 {
      var i0 := FirstMinIndex(cur);
      ConsumeFirst(r, cur);
      SelectionOrdered(r, cur[i0 := CONSUMED], steps - 1);
      OrderedStep(r, cur, steps);
    }
  }

  /** One round keeps the order: the first pick placed before an ordered rest gives an ordered selection. */
  lemma OrderedStep(r: seq<int>, cur: seq<int>, steps: nat)
    requires PartlyConsumed(r, cur)
    requires steps == CountBelow(cur) && steps > 0
    requires FirstMinIndex(cur) < |r|
    requires StablyOrdered(r, Selection(cur[FirstMinIndex(cur) := CONSUMED], steps - 1))
    ensures StablyOrdered(r, Selection(cur, steps))
  {
    var i0 := FirstMinIndex(cur);
    var tail := Selection(cur[i0 := CONSUMED], steps - 1);
    HeadBeforeTail(r, cur, steps, i0, tail);
    OrderedCons(r, i0, tail);
  }

  lemma OrderedCons(r: seq<int>, i0: nat, tail: seq<nat>)
    requires i0 < |r| && forall k :: 0 <= k < |tail| ==> tail[k] < |r|
    requires StablyOrdered(r, tail) && HeadFirst(r, i0, tail)
    ensures StablyOrdered(r, [i0] + tail)
  {
    var sel := [i0] + tail;
    forall p, q | 0 <= p < q < |sel|
      ensures r[sel[p]] <= r[sel[q]]
    {
      if p > 0 { assert r[tail[p - 1]] <= r[tail[q - 1]]; }
    }
    forall p, q | 0 <= p < q < |sel| && r[sel[p]] == r[sel[q]]
      ensures sel[p] < sel[q]
    {
      if p > 0 { assert r[tail[p - 1]] == r[tail[q - 1]]; }
    }
  }

  /**
   * When every rank is below the sentinel, `routes_order` lists every priority row exactly once
   * (the picked positions are a permutation of the rows), ranks never decrease along it, and
   * rows of equal rank keep their table order.
   */
  lemma SelectionIsStableSort(rows: seq<PriorityRow>)
    requires RanksParse(rows)
    requires forall i :: 0 <= i < |rows| ==> Ranks(rows)[i] < CONSUMED
    ensures |Selection(Ranks(rows), |rows|)| == |rows|
    ensures forall i :: 0 <= i < |rows| ==> i in Selection(Ranks(rows), |rows|)
    ensures NoRepeats(Selection(Ranks(rows), |rows|))
    ensures StablyOrdered(Ranks(rows), Selection(Ranks(rows), |rows|))
    ensures forall k :: 0 <= k < |rows| ==> RoutesOrder(rows)[k] == rows[Selection(Ranks(rows), |rows|)[k]].route
  {
    var r := Ranks(rows);
    CountBelowFacts(r);
    SelectionMembers(r, r, |rows|);
    SelectionNoRepeats(r, r, |rows|);
    SelectionOrdered(r, r, |rows|);
  }

  /** A real rank of 20 or more breaks the sentinel: with ranks 25 and 5 the second row is picked twice. */
  lemma SentinelCollision()
    ensures Selection([25, 5], 2) == [1, 1]
  {
    assert FirstMinIndex([25, 5]) == 1;
    assert [25, 5][1 := CONSUMED] == [25, 20];
    assert FirstMinIndex([25, 20]) == 1;
  }

  /** `int(p[1]) == rank` */
  predicate HasRank(row: PriorityRow, rank: int)
  {
    IntOf(row.rank) == Some(rank)
  }

  /** Bucket `rank` of `getOrderedRoutes`: route ids of that rank, in input order, each added only once. */
  function Bucket(rows: seq<PriorityRow>, rank: int): seq<string>
  {
    if rows == [] then []
    else
      var b := Bucket(rows[..|rows| - 1], rank);
      var p := rows[|rows| - 1];
      if HasRank(p, rank) && p.route !in b then b + [p.route] else b
  }

  /** The value `getOrderedRoutes(rows)` returns, or the ValueError that `int()` raises on a rank that is not a number. */
  function OrderedRoutes(rows: seq<PriorityRow>): (r: Result<map<int, seq<string>>>)
    ensures r.Ok? ==> forall k :: k in r.value <==> 1 <= k <= LOWEST_RANK
  {
    if RanksParse(rows) then Ok(map k | 1 <= k <= LOWEST_RANK :: Bucket(rows, k)) else Err(ValueError)
  }

  /** Some row before row i (strictly) has route `x` and rank `rank`. */
  predicate QualifiesBy(rows: seq<PriorityRow>, x: string, rank: int, i: int)
  {
    exists j :: 0 <= j < i && j < |rows| && rows[j].route == x && HasRank(rows[j], rank)
  }

  /** Route x has a row of rank `rank` at or before the first such row of route y. */
  predicate Precedes(rows: seq<PriorityRow>, x: string, y: string, rank: int)
  {
    exists i :: 0 <= i < |rows| && rows[i].route == x && HasRank(rows[i], rank) && !QualifiesBy(rows, y, rank, i + 1)
  }

  /** Rows before the last one qualify the same way in the list and in the list without its last row. */
  lemma QualifiesInit(rows: seq<PriorityRow>, x: string, rank: int, i: int)
    requires rows != [] && i <= |rows| - 1
    ensures QualifiesBy(rows[..|rows| - 1], x, rank, i) <==> QualifiesBy(rows, x, rank, i)
  {
    var init := rows[..|rows| - 1];
    if QualifiesBy(init, x, rank, i) {
      var j :| 0 <= j < i && j < |init| && init[j].route == x && HasRank(init[j], rank);
      assert rows[j] == init[j];
    }
    if QualifiesBy(rows, x, rank, i) {
      var j :| 0 <= j < i && j < |rows| && rows[j].route == x && HasRank(rows[j], rank);
      assert init[j] == rows[j];
    }
  }

  /** A route qualifies by the end of the list when it did before the last row or the last row is its own, of that rank. */
  lemma QualifiesLast(rows: seq<PriorityRow>, x: string, rank: int)
    requires rows != []
    ensures QualifiesBy(rows, x, rank, |rows|) <==>
      QualifiesBy(rows[..|rows| - 1], x, rank, |rows| - 1) || (rows[|rows| - 1].route == x && HasRank(rows[|rows| - 1], rank))
  {
    QualifiesInit(rows, x, rank, |rows| - 1);
    if QualifiesBy(rows, x, rank, |rows|) && !QualifiesBy(rows, x, rank, |rows| - 1) {
      var j :| 0 <= j < |rows| && rows[j].route == x && HasRank(rows[j], rank);
      assert j == |rows| - 1;
    }
  }

  /** A bucket holds exactly the route ids that have a row of its rank. */
  lemma {:induction false} BucketMembers(rows: seq<PriorityRow>, rank: int)
    ensures forall x :: x in Bucket(rows, rank) <==> QualifiesBy(rows, x, rank, |rows|)
  {
    if rows != [] {
      BucketMembers(rows[..|rows| - 1], rank);
      forall x ensures x in Bucket(rows, rank) <==> QualifiesBy(rows, x, rank, |rows|) {
        QualifiesLast(rows, x, rank);
      }
    }
  }

  /** A bucket holds no route id twice. */
  lemma {:induction false} BucketDistinct(rows: seq<PriorityRow>, rank: int)
    ensures forall p, q :: 0 <= p < q < |Bucket(rows, rank)| ==> Bucket(rows, rank)[p] != Bucket(rows, rank)[q]
  {
    if rows != [] {
      BucketDistinct(rows[..|rows| - 1], rank);
    }
  }

  /** A bucket lists its route ids in the order in which they first appear with its rank. */
  lemma {:induction false} BucketOrder(rows: seq<PriorityRow>, rank: int)
    ensures forall p, q :: 0 <= p < q < |Bucket(rows, rank)| ==> Precedes(rows, Bucket(rows, rank)[p], Bucket(rows, rank)[q], rank)
  {
    if rows != [] {
      var init := rows[..|rows| - 1];
      var last := rows[|rows| - 1];
      var b0 := Bucket(init, rank);
      BucketOrder(init, rank);
      forall p, q | 0 <= p < q < |b0| ensures Precedes(rows, b0[p], b0[q], rank) {
        PrecedesInit(rows, b0[p], b0[q], rank);
      }
      if HasRank(last, rank) && last.route !in b0 {
        BucketMembers(init, rank);
        forall p | 0 <= p < |b0| ensures Precedes(rows, b0[p], last.route, rank) {
          assert b0[p] in b0;
          var i :| 0 <= i < |init| && init[i].route == b0[p] && HasRank(init[i], rank);
          QualifiesInit(rows, last.route, rank, i + 1);
          QualifiesGrows(init, last.route, rank, i + 1, |init|);
          assert rows[i] == init[i];
        }
      }
    }
  }

  lemma PrecedesInit(rows: seq<PriorityRow>, x: string, y: string, rank: int)
    requires rows != [] && Precedes(rows[..|rows| - 1], x, y, rank)
    ensures Precedes(rows, x, y, rank)
  {
    var init := rows[..|rows| - 1];
    var i :| 0 <= i < |init| && init[i].route == x && HasRank(init[i], rank) && !QualifiesBy(init, y, rank, i + 1);
    QualifiesInit(rows, y, rank, i + 1);
    assert rows[i] == init[i];
  }

  lemma QualifiesGrows(rows: seq<PriorityRow>, x: string, rank: int, i: int, j: int)
    requires i <= j
    ensures QualifiesBy(rows, x, rank, i) ==> QualifiesBy(rows, x, rank, j)
  {
  }

  /** A route whose rows all have ranks outside 1..19 is in no bucket. */
  lemma OutOfRangeRanksIgnored(rows: seq<PriorityRow>, x: string)
    requires RanksParse(rows)
    requires forall i :: 0 <= i < |rows| && rows[i].route == x ==> !(1 <= Ranks(rows)[i] <= LOWEST_RANK)
    ensures forall k :: k in OrderedRoutes(rows).value ==> x !in OrderedRoutes(rows).value[k]
  {
    forall k | k in OrderedRoutes(rows).value
      ensures x !in OrderedRoutes(rows).value[k]
    {
      BucketMembers(rows, k);
      forall j | 0 <= j < |rows| && rows[j].route == x
        ensures !HasRank(rows[j], k)
      {
        assert Some(Ranks(rows)[j]) == IntOf(rows[j].rank);
      }
      assert !QualifiesBy(rows, x, k, |rows|);
      assert OrderedRoutes(rows).value[k] == Bucket(rows, k);
    }
  }

  lemma BucketStep(rows: seq<PriorityRow>, i: nat, rank: int)
    requires i < |rows|
    ensures Bucket(rows[..i + 1], rank) ==
      var b := Bucket(rows[..i], rank);
      if HasRank(rows[i], rank) && rows[i].route !in b then b + [rows[i].route] else b
  {
    assert rows[..i + 1][..i] == rows[..i];
  }

  /**
   * One round of `getOrderedRoutes`: the pass over the rows that fills the bucket of `rank`, or the
   * ValueError `int()` raises on the first rank that is not a number.
   */
  method CollectRank(rows: seq<PriorityRow>, rank: int) returns (res: Result<seq<string>>)
    ensures res == (if RanksParse(rows) then Ok(Bucket(rows, rank)) else Err(ValueError))
  {
    var bucket := [];
    for i := 0 to |rows|
      invariant bucket == Bucket(rows[..i], rank)
      invariant forall j :: 0 <= j < i ==> IntOf(rows[j].rank).Some?
    {
      var p := rows[i];
      var r := IntOf(p.rank);
      if r.None? {
        return Err(ValueError);
      }
      BucketStep(rows, i, rank);
      if r.value == rank && p.route !in bucket {
        bucket := bucket + [p.route];
      }
    }
    assert rows[..|rows|] == rows;
    return Ok(bucket);
  }

  /** `getOrderedRoutes`: always 19 rounds, one bucket per rank 1..19, each filled by a pass over the rows. */
  method GetOrderedRoutes(priorityRoutes: seq<PriorityRow>) returns (res: Result<map<int, seq<string>>>)
    ensures res == OrderedRoutes(priorityRoutes)
  {
    var singlePriority: map<int, seq<string>> := map[];
    var priorityNum := 1;
    while true
      invariant 1 <= priorityNum <= LOWEST_RANK && (priorityNum > 1 ==> RanksParse(priorityRoutes))
      invariant singlePriority == map k | 1 <= k < priorityNum :: Bucket(priorityRoutes, k)
      decreases LOWEST_RANK - priorityNum
    {
      var bucket := CollectRank(priorityRoutes, priorityNum);
      if bucket.Err? {
        return Err(ValueError);
      }
      singlePriority := singlePriority[priorityNum := bucket.value];
      priorityNum := priorityNum + 1;
      if priorityNum == LOWEST_RANK + 1 {
        break;
      }
    }
    assert singlePriority == map k | 1 <= k <= LOWEST_RANK :: Bucket(priorityRoutes, k);
    return Ok(singlePriority);
  }
}
