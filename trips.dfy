/**
 * Trips: the stop-by-stop times `generateTrip` records, the trip ids, and `shiftTripTime`.
 * A trip is a Python dict from stop id to "HH:MM:SS" text.
 */
module Trips {
  import opened Common
  import opened PyStr
  import opened PyDict
  import opened TimeOfDay
  import opened Priority

  /** stop id -> "HH:MM:SS", in stop order. */
  type Trip = Dict<string, string>

  /** `"%s%04d" % (route, n)` */
  function TripId(route: string, n: nat): string
  {
    route + ZeroPad(n, 4)
  }

  /** Trip ids of one route differ exactly when their counters differ. */
  lemma TripIdInjective(route: string, a: nat, b: nat)
    ensures TripId(route, a) == TripId(route, b) <==> a == b
  {
    if TripId(route, a) == TripId(route, b) {
      assert TripId(route, a)[|route|..] == ZeroPad(a, 4);
      assert TripId(route, b)[|route|..] == ZeroPad(b, 4);
      ZeroPadInjective(a, b, 4);
    }
  }

  /**
   * `generateTrip` part way through its stop list: the running clock recorded at each stop so far,
   * the running clock itself and any exception. Clocks are seconds from midnight of the start day;
   * the trip dict holds them as clock times of day (see Render).
   */
  datatype TripProgress = TripProgress(times: Dict<string, int>, time: int, err: Option<Error>)

  /** The trip dict for recorded clocks: each one as the "HH:MM:SS" text of `str(trip_time.time())`. */
  function Render(times: Dict<string, int>): (trip: Trip)
    ensures trip.keys == times.keys && trip.vals.Keys == times.vals.Keys
  {
    Dict(times.keys, map k | k in times.vals :: Format(times.vals[k] % DAY))
  }

  /** Recording a clock at a stop writes its text into the trip dict. */
  lemma RenderPut(times: Dict<string, int>, k: string, t: int)
    ensures Render(Put(times, k, t)) == Put(Render(times), k, Format(t % DAY))
  {
    assert Render(Put(times, k, t)).vals == Render(times).vals[k := Format(t % DAY)];
  }

  /** The text the trip dict holds at a recorded stop. */
  lemma RenderAt(times: Dict<string, int>, k: string)
    requires k in times.vals
    ensures k in Render(times).vals && Render(times).vals[k] == Format(times.vals[k] % DAY)
  {
  }

  /** `int(travel)` of each stop, in stop order; None where `int` raises ValueError. */
  function Travels(stops: seq<Stop>): (tv: seq<Option<int>>)
    ensures |tv| == |stops|
  {
    seq(|stops|, i requires 0 <= i < |stops| => IntOf(stops[i].travel))
  }

  lemma TravelsAt(stops: seq<Stop>, i: nat)
    requires i < |stops|
    ensures Travels(stops)[i] == IntOf(stops[i].travel)
  {
  }

  /** tv holds, from stop k on, what `int(travel)` gives for each stop. */
  predicate TravelsFrom(stops: seq<Stop>, tv: seq<Option<int>>, k: nat)
    requires |tv| == |stops|
    decreases |stops| - k
  {
    k >= |stops| || (tv[k] == IntOf(stops[k].travel) && TravelsFrom(stops, tv, k + 1))
  }

  lemma {:induction false} TravelsFromAll(stops: seq<Stop>, k: nat)
    ensures TravelsFrom(stops, Travels(stops), k)
    decreases |stops| - k
  {
    if k < |stops| {
      TravelsAt(stops, k);
      TravelsFromAll(stops, k + 1);
    }
  }

  /**
   * The stop loop of `generateTrip`: from the start time, each stop advances the clock by its travel
   * time and records the clock under the stop id; the first travel field that is not a number raises
   * ValueError and leaves the clocks of the stops before it. The trip dict is `Render` of the clocks.
   */
  method FillStops(stops: seq<Stop>, start: int, ghost tv: seq<Option<int>>) returns (times: Dict<string, int>, err: Option<Error>)
    requires |tv| == |stops| && TravelsFrom(stops, tv, 0)
    ensures times == TripRun(stops, tv, start, |stops|).times && err == TripRun(stops, tv, start, |stops|).err
  {
    times := Empty();
    var tripTime := start;
    for i := 0 to |stops|
      invariant TripRun(stops, tv, start, i) == TripProgress(times, tripTime, None)
      invariant TravelsFrom(stops, tv, i)
    {
      var travel := IntOf(stops[i].travel);
      if travel.None? {
        RunBad(stops, tv, start, i);
        return times, Some(ValueError);
      }
      RunStep(stops, tv, start, i, travel.value);
      times := Put(times, stops[i].id, tripTime + travel.value);
      tripTime := tripTime + travel.value;
    }
    err := None;
  }

  /**
   * The first n turns of the loop of `generateTrip` from the start time `start`, when the travel
   * fields read as tv: each stop first advances the clock by its travel time and then records the
   * clock at its stop id; a travel field that is not a number raises ValueError.
   */
  function TripRun(stops: seq<Stop>, tv: seq<Option<int>>, start: int, n: nat): TripProgress
    requires |tv| == |stops| && n <= |stops|
  {
    if n == 0 then TripProgress(Empty(), start, None)
    else
      var pr := TripRun(stops, tv, start, n - 1);
      if pr.err.Some? then pr
      else match tv[n - 1]
        case None => TripProgress(pr.times, pr.time, Some(ValueError))
        case Some(x) => TripProgress(Put(pr.times, stops[n - 1].id, pr.time + x), pr.time + x, None)
  }

  /** The whole stop loop of `generateTrip`. */
  function TripLoop(stops: seq<Stop>, start: int): TripProgress
  {
    TripRun(stops, Travels(stops), start, |stops|)
  }

  /** Every travel field of the stop list is a number. */
  predicate TravelsParse(stops: seq<Stop>)
  {
    forall i :: 0 <= i < |stops| ==> IntOf(stops[i].travel).Some?
  }

  /** The first n travel values are the numbers xs[..n]. */
  predicate ParsedTo(tv: seq<Option<int>>, xs: seq<int>, n: nat)
  {
    n <= |tv| && n <= |xs| && forall i :: 0 <= i < n ==> tv[i] == Some(xs[i])
  }

  /** The travel fields of the stops denote the numbers xs. */
  predicate TravelsAre(stops: seq<Stop>, xs: seq<int>)
  {
    |xs| == |stops| && ParsedTo(Travels(stops), xs, |stops|)
  }

  function Sum(xs: seq<int>): int
  {
    if xs == [] then 0 else Sum(xs[..|xs| - 1]) + xs[|xs| - 1]
  }

  function StopIds(stops: seq<Stop>): (ids: seq<string>)
    ensures |ids| == |stops| && forall i :: 0 <= i < |stops| ==> ids[i] == stops[i].id
  {
    seq(|stops|, i requires 0 <= i < |stops| => stops[i].id)
  }

  /** No later stop of the list has the same id as stop i (a repeated stop keeps its last time). */
  predicate LastVisit(stops: seq<Stop>, i: int)
    requires 0 <= i < |stops|
  {
    stops[i].id !in StopIds(stops)[i + 1..]
  }

  /** Once a travel field fails, later stops change nothing. */
  lemma {:induction false} RunSticky(stops: seq<Stop>, tv: seq<Option<int>>, start: int, n: nat)
    requires |tv| == |stops| && n <= |stops| && TripRun(stops, tv, start, n).err.Some?
    ensures TripRun(stops, tv, start, |stops|) == TripRun(stops, tv, start, n)
    decreases |stops| - n
  {
    if n < |stops| {
      RunSticky(stops, tv, start, n + 1);
    }
  }

  /** While the travel values are the numbers xs, the loop raises nothing and the clock is the start plus their sum. */
  lemma {:induction false} RunNoError(stops: seq<Stop>, tv: seq<Option<int>>, start: int, xs: seq<int>, n: nat)
    requires |tv| == |stops| && n <= |stops| && ParsedTo(tv, xs, n)
    ensures TripRun(stops, tv, start, n).err == None
    ensures TripRun(stops, tv, start, n).time == start + Sum(xs[..n])
  {
    if n > 0 {
      RunNoError(stops, tv, start, xs, n - 1);
      assert xs[..n][..n - 1] == xs[..n - 1];
    }
  }

  /** One turn of the loop at stop n, after turns that raised nothing, when its travel time is x. */
  lemma RunStep(stops: seq<Stop>, tv: seq<Option<int>>, start: int, n: nat, x: int)
    requires |tv| == |stops| && n < |stops| && TripRun(stops, tv, start, n).err == None && tv[n] == Some(x)
    ensures TripRun(stops, tv, start, n + 1)
         == TripProgress(Put(TripRun(stops, tv, start, n).times, stops[n].id, TripRun(stops, tv, start, n).time + x),
                         TripRun(stops, tv, start, n).time + x, None)
  {
  }

  /** One turn of the loop at stop n, after turns that raised nothing, when its travel field is not a number: the loop ends with ValueError. */
  lemma RunBad(stops: seq<Stop>, tv: seq<Option<int>>, start: int, n: nat)
    requires |tv| == |stops| && n < |stops| && TripRun(stops, tv, start, n).err == None && tv[n].None?
    ensures TripRun(stops, tv, start, |stops|)
         == TripProgress(TripRun(stops, tv, start, n).times, TripRun(stops, tv, start, n).time, Some(ValueError))
  {
    RunSticky(stops, tv, start, n + 1);
  }

  /** While every travel value is a number, the trip's keys are the ids of the stops seen so far. */
  lemma {:induction false} RunKeys(stops: seq<Stop>, tv: seq<Option<int>>, start: int, xs: seq<int>, n: nat)
    requires |tv| == |stops| && n <= |stops| && ParsedTo(tv, xs, n)
    ensures Valid(TripRun(stops, tv, start, n).times)
    ensures forall k :: k in TripRun(stops, tv, start, n).times.vals <==> k in StopIds(stops)[..n]
  {
    if n > 0 {
      var pr := TripRun(stops, tv, start, n - 1);
      RunKeys(stops, tv, start, xs, n - 1);
      RunNoError(stops, tv, start, xs, n - 1);
      RunStep(stops, tv, start, n - 1, xs[n - 1]);
      TakeSnoc(StopIds(stops), n - 1);
      PutMembers(pr.times, stops[n - 1].id, pr.time + xs[n - 1], StopIds(stops)[..n - 1]);
    }
  }

  /** With distinct stop ids the trip lists the ids of the stops seen so far, in stop order. */
  lemma {:induction false} RunOrder(stops: seq<Stop>, tv: seq<Option<int>>, start: int, xs: seq<int>, n: nat)
    requires |tv| == |stops| && n <= |stops| && ParsedTo(tv, xs, n) && Distinct(StopIds(stops))
    ensures TripRun(stops, tv, start, n).times.keys == StopIds(stops)[..n]
  {
    if n > 0 {
      RunOrder(stops, tv, start, xs, n - 1);
      RunKeys(stops, tv, start, xs, n - 1);
      RunNoError(stops, tv, start, xs, n - 1);
      RunStep(stops, tv, start, n - 1, xs[n - 1]);
      assert StopIds(stops)[n - 1] !in StopIds(stops)[..n - 1];
      TakeSnoc(StopIds(stops), n - 1);
    }
  }

  /**
   * The clock recorded at stop i is the start plus the travel times of all stops up to and including
   * it, as long as no stop seen after it has the same id.
   */
  lemma {:induction false} RunTimes(stops: seq<Stop>, tv: seq<Option<int>>, start: int, xs: seq<int>, i: nat, n: nat)
    requires |tv| == |stops| && i < n <= |stops| && ParsedTo(tv, xs, n)
    requires stops[i].id !in StopIds(stops)[i + 1..n]
    ensures stops[i].id in TripRun(stops, tv, start, n).times.vals
    ensures TripRun(stops, tv, start, n).times.vals[stops[i].id] == start + Sum(xs[..i + 1])
  {
    var pr := TripRun(stops, tv, start, n - 1);
    RunNoError(stops, tv, start, xs, n - 1);
    RunStep(stops, tv, start, n - 1, xs[n - 1]);
    if i < n - 1 {
      SliceSnoc(StopIds(stops), i + 1, n - 1);
      RunTimes(stops, tv, start, xs, i, n - 1);
    } else {
      assert xs[..n][..n - 1] == xs[..n - 1];
    }
  }

  /** The first travel value that is not a number ends the loop: the trip holds exactly the stops before it, and the error is ValueError. */
  lemma RunFails(stops: seq<Stop>, tv: seq<Option<int>>, start: int, xs: seq<int>, f: nat)
    requires |tv| == |stops| && f < |stops| && tv[f].None? && ParsedTo(tv, xs, f)
    ensures TripRun(stops, tv, start, |stops|)
         == TripProgress(TripRun(stops, tv, start, f).times, TripRun(stops, tv, start, f).time, Some(ValueError))
  {
    RunNoError(stops, tv, start, xs, f);
    RunBad(stops, tv, start, f);
  }

  /** The loop of `generateTrip` raises exactly when some travel field is not a number, and then raises ValueError. */
  lemma TripLoopErrors(stops: seq<Stop>, start: int)
    ensures TripLoop(stops, start).err.None? <==> TravelsParse(stops)
    ensures TripLoop(stops, start).err.Some? ==> TripLoop(stops, start).err == Some(ValueError)
  {
    var tv := Travels(stops);
    if TravelsParse(stops) {
      var xs := seq(|stops|, i requires 0 <= i < |stops| => IntOf(stops[i].travel).value);
      assert ParsedTo(tv, xs, |stops|) by {
        forall i | 0 <= i < |stops| ensures tv[i] == Some(xs[i]) {
          TravelsAt(stops, i);
        }
      }
      RunNoError(stops, tv, start, xs, |stops|);
    } else {
      var f := FirstBadTravel(stops);
      TravelsAt(stops, f);
      var xs := seq(f, i requires 0 <= i < f => IntOf(stops[i].travel).value);
      assert ParsedTo(tv, xs, f) by {
        forall i | 0 <= i < f ensures tv[i] == Some(xs[i]) {
          TravelsAt(stops, i);
        }
      }
      RunFails(stops, tv, start, xs, f);
    }
  }

  /** When the travel fields denote the numbers xs, the loop raises nothing and the clock ends at the start plus their sum. */
  lemma TripLoopNoError(stops: seq<Stop>, start: int, xs: seq<int>)
    requires TravelsAre(stops, xs)
    ensures TripLoop(stops, start).err == None
    ensures TripLoop(stops, start).time == start + Sum(xs)
  {
    RunNoError(stops, Travels(stops), start, xs, |stops|);
    assert xs[..|stops|] == xs;
  }

  /** When every travel field is a number, the trip's keys are exactly the stop ids; with distinct ids they come in stop order. */
  lemma TripLoopKeys(stops: seq<Stop>, start: int, xs: seq<int>)
    requires TravelsAre(stops, xs)
    ensures Valid(Render(TripLoop(stops, start).times))
    ensures forall k :: k in Render(TripLoop(stops, start).times).vals <==> k in StopIds(stops)
    ensures Distinct(StopIds(stops)) ==> Render(TripLoop(stops, start).times).keys == StopIds(stops)
  {
    RunKeys(stops, Travels(stops), start, xs, |stops|);
    if Distinct(StopIds(stops)) {
      RunOrder(stops, Travels(stops), start, xs, |stops|);
    }
    assert StopIds(stops)[..|stops|] == StopIds(stops);
  }

  /**
   * The time recorded at a stop is the start plus the travel times of all stops up to and including
   * it, wrapped to a clock time; a repeated stop keeps the time of its last visit.
   */
  lemma TripLoopTimes(stops: seq<Stop>, start: int, xs: seq<int>, i: nat, arrival: int)
    requires TravelsAre(stops, xs) && i < |stops| && LastVisit(stops, i)
    requires arrival == (start + Sum(xs[..i + 1])) % DAY
    ensures stops[i].id in Render(TripLoop(stops, start).times).vals
    ensures Render(TripLoop(stops, start).times).vals[stops[i].id] == Format(arrival)
  {
    var times := TripLoop(stops, start).times;
    assert stops[i].id in times.vals && times.vals[stops[i].id] == start + Sum(xs[..i + 1]) by {
      RunTimes(stops, Travels(stops), start, xs, i, |stops|);
    }
    RenderAt(times, stops[i].id);
  }

  /** The first stop whose travel field is not a number. */
  function FirstBadTravel(stops: seq<Stop>): (f: nat)
    requires !TravelsParse(stops)
    ensures f < |stops| && IntOf(stops[f].travel).None?
    ensures forall i :: 0 <= i < f ==> IntOf(stops[i].travel).Some?
  {
    if IntOf(stops[0].travel).None? then 0
    else
      assert !TravelsParse(stops[1..]) by {
        var j :| 0 <= j < |stops| && IntOf(stops[j].travel).None?;
        assert stops[1..][j - 1] == stops[j];
      }
      1 + FirstBadTravel(stops[1..])
  }

  /**
   * The worked example: three distinct stops whose travel times are 0, 120 and 90 seconds, starting at
   * 03:00, are recorded at 03:00:00, 03:02:00 and 03:03:30, in stop order.
   */
  lemma TripExample(a: Stop, b: Stop, c: Stop)
    requires a.travel == "0" && b.travel == "120" && c.travel == "90"
    requires a.id != b.id && b.id != c.id && a.id != c.id
    ensures Render(TripLoop([a, b, c], 3 * 3600).times)
            == Dict([a.id, b.id, c.id], map[a.id := "03:00:00", b.id := "03:02:00", c.id := "03:03:30"])
  {
    var stops := [a, b, c];
    TravelsExample(a, b, c);
    RunExample(stops, Travels(stops));
    RenderExample(a.id, b.id, c.id);
  }

  lemma TravelsExample(a: Stop, b: Stop, c: Stop)
    requires a.travel == "0" && b.travel == "120" && c.travel == "90"
    ensures Travels([a, b, c]) == [Some(0), Some(120), Some(90)]
  {
    TravelExamples();
    TravelsAt([a, b, c], 0);
    TravelsAt([a, b, c], 1);
    TravelsAt([a, b, c], 2);
  }

  lemma RenderExample(x: string, y: string, z: string)
    requires x != y && y != z && x != z
    ensures Render(Put(Put(Put(Empty(), x, 10800), y, 10920), z, 11010))
         == Dict([x, y, z], map[x := "03:00:00", y := "03:02:00", z := "03:03:30"])
  {
    var e: Dict<string, int> := Empty();
    assert Render(e) == Empty();
    assert 10800 % DAY == 10800 && 10920 % DAY == 10920 && 11010 % DAY == 11010;
    RenderPut(e, x, 10800);
    RenderPut(Put(e, x, 10800), y, 10920);
    RenderPut(Put(Put(e, x, 10800), y, 10920), z, 11010);
    FormatExamples();
    PutThree(x, y, z, "03:00:00", "03:02:00", "03:03:30");
  }

  /** The worked example over travel values already read as 0, 120 and 90: the clocks 10800, 10920 and 11010. */
  lemma RunExample(stops: seq<Stop>, tv: seq<Option<int>>)
    requires |stops| == 3 && tv == [Some(0), Some(120), Some(90)]
    requires stops[0].id != stops[1].id && stops[1].id != stops[2].id && stops[0].id != stops[2].id
    ensures TripRun(stops, tv, 3 * 3600, 3).times
         == Put(Put(Put(Empty(), stops[0].id, 10800), stops[1].id, 10920), stops[2].id, 11010)
  {
    var start := 3 * 3600;
    RunStep(stops, tv, start, 0, 0);
    RunStep(stops, tv, start, 1, 120);
    RunStep(stops, tv, start, 2, 90);
  }

  /** Three writes of distinct keys into an empty dict list them in writing order. */
  lemma PutThree<V>(ka: string, kb: string, kc: string, va: V, vb: V, vc: V)
    requires ka != kb && kb != kc && ka != kc
    ensures Put(Put(Put(Empty(), ka, va), kb, vb), kc, vc) == Dict([ka, kb, kc], map[ka := va, kb := vb, kc := vc])
  {
  }

  lemma TravelExamples()
    ensures IntOf("0") == Some(0) && IntOf("120") == Some(120) && IntOf("90") == Some(90)
  {
    assert "120"[..2] == "12" && "12"[..1] == "1" && "1"[..0] == "";
    assert "90"[..1] == "9" && "9"[..0] == "";
  }

  lemma FormatExamples()
    ensures Format(10800) == "03:00:00" && Format(10920) == "03:02:00" && Format(11010) == "03:03:30"
  {
    assert Format(10800) == "03:00:00" by {
      assert 10800 / 3600 == 3 && 10800 % 3600 == 0;
    }
    assert Format(10920) == "03:02:00" by {
      assert 10920 / 3600 == 3 && 10920 % 3600 == 120 && 120 / 60 == 2 && 120 % 60 == 0;
    }
    assert Format(11010) == "03:03:30" by {
      assert 11010 / 3600 == 3 && 11010 % 3600 == 210 && 210 / 60 == 3 && 210 % 60 == 30;
    }
  }

  /** What the loop of `shiftTripTime` has made of the trip, and the exception it raised, if any. */
  datatype Shifted = Shifted(trip: Trip, err: Option<Error>)

  /** The text `shiftTripTime` writes in place of one time: the time moved by `seconds`, or None where strptime raises ValueError. */
  function Moved(text: string, seconds: int): Option<string>
  {
    match Parse(text)
    case None => None
    case Some(v) => Some(Format(Shift(v, seconds)))
  }

  /** The text written at each key, in key order. */
  function NewTexts(trip: Trip, seconds: int): (tx: seq<Option<string>>)
    ensures |tx| == |trip.keys|
  {
    seq(|trip.keys|, i requires 0 <= i < |trip.keys| => if trip.keys[i] in trip.vals then Moved(trip.vals[trip.keys[i]], seconds) else None)
  }

  lemma NewTextsAt(trip: Trip, seconds: int, i: nat)
    requires Valid(trip) && i < |trip.keys|
    ensures NewTexts(trip, seconds)[i] == Moved(trip.vals[trip.keys[i]], seconds)
  {
  }

  /**
   * The loop of `shiftTripTime` over the first n keys, when the texts it writes are tx: each key
   * gets its new text; a missing text is a time strptime rejects, which raises ValueError.
   */
  function ShiftRun(trip: Trip, tx: seq<Option<string>>, n: nat): Shifted
    requires |tx| == |trip.keys| && n <= |trip.keys|
  {
    if n == 0 then Shifted(trip, None)
    else
      var r := ShiftRun(trip, tx, n - 1);
      if r.err.Some? then r
      else match tx[n - 1]
        case None => Shifted(r.trip, Some(ValueError))
        case Some(text) => Shifted(Put(r.trip, trip.keys[n - 1], text), None)
  }

  /** `shiftTripTime(trip, seconds)`: every time of the trip moved by `seconds`, or the ValueError strptime raises. */
  function ShiftTrip(trip: Trip, seconds: int): Shifted
  {
    ShiftRun(trip, NewTexts(trip, seconds), |trip.keys|)
  }

  /** Every value is a time that strptime accepts. */
  predicate TimesParse(trip: Trip)
  {
    forall k {:trigger Parse(trip.vals[k])} :: k in trip.vals ==> Parse(trip.vals[k]).Some?
  }

  /** Every value is a time in canonical "HH:MM:SS" form. */
  predicate CanonicalTimes(trip: Trip)
  {
    forall k {:trigger Parse(trip.vals[k])} :: k in trip.vals ==> Parse(trip.vals[k]).Some? && |trip.vals[k]| == 8
  }

  /** Shifting keeps the keys and their order. */
  lemma {:induction false} ShiftRunShape(trip: Trip, tx: seq<Option<string>>, n: nat)
    requires Valid(trip) && |tx| == |trip.keys| && n <= |trip.keys|
    ensures ShiftRun(trip, tx, n).trip.keys == trip.keys
    ensures ShiftRun(trip, tx, n).trip.vals.Keys == trip.vals.Keys
  {
    if n > 0 {
      ShiftRunShape(trip, tx, n - 1);
    }
  }

  /** A key the loop has not reached yet still holds its original time. */
  lemma {:induction false} ShiftRunUntouched(trip: Trip, tx: seq<Option<string>>, n: nat, j: nat)
    requires Valid(trip) && |tx| == |trip.keys| && n <= j < |trip.keys|
    ensures trip.keys[j] in ShiftRun(trip, tx, n).trip.vals
    ensures ShiftRun(trip, tx, n).trip.vals[trip.keys[j]] == trip.vals[trip.keys[j]]
  {
    if n > 0 {
      assert trip.keys[j] != trip.keys[n - 1];
      ShiftRunUntouched(trip, tx, n - 1, j);
    }
  }

  /** The loop raises exactly when one of the first n times has no new text, and then raises ValueError. */
  lemma {:induction false} ShiftRunError(trip: Trip, tx: seq<Option<string>>, n: nat)
    requires |tx| == |trip.keys| && n <= |trip.keys|
    ensures ShiftRun(trip, tx, n).err.None? <==> forall j :: 0 <= j < n ==> tx[j].Some?
    ensures ShiftRun(trip, tx, n).err.Some? ==> ShiftRun(trip, tx, n).err == Some(ValueError)
  {
    if n > 0 {
      ShiftRunError(trip, tx, n - 1);
    }
  }

  /** Without an error, key j (one of the first n) holds its new text. */
  lemma {:induction false} ShiftRunValue(trip: Trip, tx: seq<Option<string>>, n: nat, j: nat)
    requires Valid(trip) && |tx| == |trip.keys| && j < n <= |trip.keys| && ShiftRun(trip, tx, n).err.None?
    ensures tx[j].Some? && trip.keys[j] in ShiftRun(trip, tx, n).trip.vals
    ensures ShiftRun(trip, tx, n).trip.vals[trip.keys[j]] == tx[j].value
  {
    if j < n - 1 {
      assert trip.keys[j] != trip.keys[n - 1];
      ShiftRunValue(trip, tx, n - 1, j);
    }
  }

  /** One turn of the loop of `shiftTripTime` at key n, after n keys without an error. */
  lemma ShiftRunStep(trip: Trip, tx: seq<Option<string>>, n: nat)
    requires |tx| == |trip.keys| && n < |trip.keys| && ShiftRun(trip, tx, n).err.None?
    ensures tx[n].None? ==> ShiftRun(trip, tx, n + 1) == Shifted(ShiftRun(trip, tx, n).trip, Some(ValueError))
    ensures tx[n].Some? ==> ShiftRun(trip, tx, n + 1) == Shifted(Put(ShiftRun(trip, tx, n).trip, trip.keys[n], tx[n].value), None)
  {
  }

  /** Once a time fails to parse, the rest of the loop is never run. */
  lemma {:induction false} ShiftRunSticky(trip: Trip, tx: seq<Option<string>>, n: nat)
    requires |tx| == |trip.keys| && n <= |trip.keys| && ShiftRun(trip, tx, n).err.Some?
    ensures ShiftRun(trip, tx, |trip.keys|) == ShiftRun(trip, tx, n)
    decreases |trip.keys| - n
  {
    if n < |trip.keys| {
      ShiftRunSticky(trip, tx, n + 1);
    }
  }

  /** Without an error, each key of the trip holds its original time moved by `seconds`. */
  lemma ShiftTripValueAt(trip: Trip, seconds: int, k: string)
    requires Valid(trip) && ShiftTrip(trip, seconds).err.None? && k in trip.vals
    ensures Parse(trip.vals[k]).Some? && k in ShiftTrip(trip, seconds).trip.vals
    ensures ShiftTrip(trip, seconds).trip.vals[k] == Format(Shift(Parse(trip.vals[k]).value, seconds))
  {
    var j :| 0 <= j < |trip.keys| && trip.keys[j] == k;
    ShiftRunValue(trip, NewTexts(trip, seconds), |trip.keys|, j);
    NewTextsAt(trip, seconds, j);
  }

  /** `shiftTripTime` raises exactly when some time does not parse, and then raises ValueError. */
  lemma ShiftTripErrors(trip: Trip, seconds: int)
    requires Valid(trip)
    ensures ShiftTrip(trip, seconds).err.None? <==> TimesParse(trip)
    ensures ShiftTrip(trip, seconds).err.Some? ==> ShiftTrip(trip, seconds).err == Some(ValueError)
  {
    var tx := NewTexts(trip, seconds);
    ShiftRunError(trip, tx, |trip.keys|);
    if TimesParse(trip) {
      forall j | 0 <= j < |trip.keys| ensures tx[j].Some? {
        NewTextsAt(trip, seconds, j);
        assert Parse(trip.vals[trip.keys[j]]).Some?;
      }
    } else {
      var k :| k in trip.vals && Parse(trip.vals[k]).None?;
      var j :| 0 <= j < |trip.keys| && trip.keys[j] == k;
      NewTextsAt(trip, seconds, j);
    }
  }

  /**
   * t is the trip with every time moved by `seconds`: the same keys in the same order, and at each
   * key the time read back, moved and written again as "HH:MM:SS".
   */
  predicate ShiftedTimes(trip: Trip, seconds: int, t: Trip)
  {
    && Valid(t) && t.keys == trip.keys && t.vals.Keys == trip.vals.Keys
    && forall k :: k in trip.vals ==>
         Parse(trip.vals[k]).Some? && t.vals[k] == Format(Shift(Parse(trip.vals[k]).value, seconds))
  }

  /**
   * `shiftTripTime` keeps the keys and their order; when every time parses it replaces each time t by
   * (t + seconds) mod one day, and otherwise it raises ValueError.
   */
  lemma ShiftTripValues(trip: Trip, seconds: int)
    requires Valid(trip)
    ensures ShiftTrip(trip, seconds).trip.keys == trip.keys && Valid(ShiftTrip(trip, seconds).trip)
    ensures ShiftTrip(trip, seconds).err.None? <==> TimesParse(trip)
    ensures ShiftTrip(trip, seconds).err.Some? ==> ShiftTrip(trip, seconds).err == Some(ValueError)
    ensures ShiftTrip(trip, seconds).err.None? ==> ShiftedTimes(trip, seconds, ShiftTrip(trip, seconds).trip)
  {
    ShiftRunShape(trip, NewTexts(trip, seconds), |trip.keys|);
    ShiftTripErrors(trip, seconds);
    if ShiftTrip(trip, seconds).err.None? {
      forall k | k in trip.vals
        ensures Parse(trip.vals[k]).Some? && ShiftTrip(trip, seconds).trip.vals[k] == Format(Shift(Parse(trip.vals[k]).value, seconds))
      {
        ShiftTripValueAt(trip, seconds, k);
      }
    }
  }

  /** One canonical time moved by s reads back, and moving it back by -s gives the same text. */
  lemma ShiftTextBack(text: string, seconds: int)
    requires Parse(text).Some? && |text| == 8
    ensures Parse(Format(Shift(Parse(text).value, seconds))) == Some(Shift(Parse(text).value, seconds))
    ensures Format(Shift(Shift(Parse(text).value, seconds), -seconds)) == text
  {
    var v := Parse(text).value;
    ParseFormat(Shift(v, seconds));
    ShiftBack(v, seconds);
    FormatParse(text);
  }

  /** Moving canonical times gives canonical times. */
  lemma ShiftedCanonical(trip: Trip, seconds: int, t: Trip)
    requires CanonicalTimes(trip) && ShiftedTimes(trip, seconds, t)
    ensures CanonicalTimes(t)
  {
    forall k | k in t.vals ensures Parse(t.vals[k]).Some? && |t.vals[k]| == 8 {
      ShiftTextBack(trip.vals[k], seconds);
    }
  }

  /**
   * Moving canonical times by s and then by -s gives back the same trip. The round trip of
   * `shiftTripTime` itself follows from ShiftTripCanonical (the first shift gives t with
   * ShiftedTimes(trip, s, t)), ShiftedInverse (so ShiftedTimes(t, -s, trip)) and ShiftTripIs
   * (so the second shift gives exactly the trip back, with no exception).
   */
  lemma ShiftedBack(trip: Trip, seconds: int, t: Trip, u: Trip)
    requires Valid(trip) && CanonicalTimes(trip)
    requires ShiftedTimes(trip, seconds, t) && ShiftedTimes(t, -seconds, u)
    ensures u == trip
  {
    forall k | k in trip.vals ensures u.vals[k] == trip.vals[k] {
      ShiftTextBack(trip.vals[k], seconds);
    }
    assert u.vals == trip.vals;
  }

  /** Canonical times moved by s are, in turn, the times of t moved by -s. */
  lemma ShiftedInverse(trip: Trip, seconds: int, t: Trip)
    requires Valid(trip) && CanonicalTimes(trip) && ShiftedTimes(trip, seconds, t)
    ensures ShiftedTimes(t, -seconds, trip)
  {
    forall k | k in t.vals
      ensures Parse(t.vals[k]).Some? && trip.vals[k] == Format(Shift(Parse(t.vals[k]).value, -seconds))
    {
      ShiftTextBack(trip.vals[k], seconds);
    }
  }

  /** A trip whose times all move by s to the times of u is shifted by `shiftTripTime` to exactly u. */
  lemma ShiftTripIs(t: Trip, seconds: int, u: Trip)
    requires Valid(t) && ShiftedTimes(t, seconds, u)
    ensures ShiftTrip(t, seconds) == Shifted(u, None)
  {
    ShiftTripValues(t, seconds);
    var r := ShiftTrip(t, seconds);
    assert r.trip.vals == u.vals;
    assert r == Shifted(r.trip, r.err);
  }

  /** Moving canonical times by a whole number of days leaves them as they are. */
  lemma ShiftedWholeDays(trip: Trip, days: int, t: Trip)
    requires Valid(trip) && CanonicalTimes(trip) && ShiftedTimes(trip, DAY * days, t)
    ensures t == trip
  {
    forall k | k in trip.vals ensures t.vals[k] == trip.vals[k] {
      ShiftWholeDays(Parse(trip.vals[k]).value, days);
      FormatParse(trip.vals[k]);
    }
    assert t.vals == trip.vals;
  }

  /** Shifting a canonical trip raises nothing and gives a canonical trip: the trip with every time moved. */
  lemma ShiftTripCanonical(trip: Trip, seconds: int)
    requires Valid(trip) && CanonicalTimes(trip)
    ensures ShiftTrip(trip, seconds).err == None
    ensures ShiftedTimes(trip, seconds, ShiftTrip(trip, seconds).trip)
    ensures CanonicalTimes(ShiftTrip(trip, seconds).trip)
  {
    ShiftTripValues(trip, seconds);
    ShiftedCanonical(trip, seconds, ShiftTrip(trip, seconds).trip);
  }

  /** Shifting by a whole number of days (zero included) leaves a canonical trip as it is. */
  lemma ShiftTripWholeDays(trip: Trip, days: int)
    requires Valid(trip) && CanonicalTimes(trip)
    ensures ShiftTrip(trip, DAY * days) == Shifted(trip, None)
  {
    ShiftTripCanonical(trip, DAY * days);
    ShiftedWholeDays(trip, days, ShiftTrip(trip, DAY * days).trip);
  }

  /** tx holds, from key k on, the text `shiftTripTime` writes at each key. */
  predicate TextsFrom(trip: Trip, seconds: int, tx: seq<Option<string>>, k: nat)
    requires Valid(trip) && |tx| == |trip.keys|
    decreases |trip.keys| - k
  {
    k >= |trip.keys| || (tx[k] == Moved(trip.vals[trip.keys[k]], seconds) && TextsFrom(trip, seconds, tx, k + 1))
  }

  lemma {:induction false} NewTextsFrom(trip: Trip, seconds: int, k: nat)
    requires Valid(trip)
    ensures TextsFrom(trip, seconds, NewTexts(trip, seconds), k)
    decreases |trip.keys| - k
  {
    if k < |trip.keys| {
      NewTextsAt(trip, seconds, k);
      NewTextsFrom(trip, seconds, k + 1);
    }
  }

  /** `shiftTripTime`: rewrites the time at every key in key order; a malformed time raises ValueError part way. */
  method ShiftTripTime(trip: Trip, seconds: int) returns (shifted: Trip, err: Option<Error>)
    requires Valid(trip)
    ensures Shifted(shifted, err) == ShiftTrip(trip, seconds)
  {
    NewTextsFrom(trip, seconds, 0);
    shifted, err := ShiftLoop(trip, seconds, NewTexts(trip, seconds));
  }

  method ShiftLoop(trip: Trip, seconds: int, ghost tx: seq<Option<string>>) returns (shifted: Trip, err: Option<Error>)
    requires Valid(trip) && |tx| == |trip.keys| && TextsFrom(trip, seconds, tx, 0)
    ensures Shifted(shifted, err) == ShiftRun(trip, tx, |trip.keys|)
  {
    shifted := trip;
    var i := 0;
    while i < |trip.keys|
      invariant i <= |trip.keys| && ShiftRun(trip, tx, i) == Shifted(shifted, None) && TextsFrom(trip, seconds, tx, i)
    {
      var next := ShiftTurn(trip, seconds, tx, i, shifted);
      if next.None? {
        ShiftRunSticky(trip, tx, i + 1);
        return shifted, Some(ValueError);
      }
      shifted := next.value;
      i := i + 1;
    }
    err := None;
  }

  /** One turn of the loop of `shiftTripTime`, at key i: the trip with that key's time moved, or None where strptime raises. */
  method ShiftTurn(trip: Trip, seconds: int, ghost tx: seq<Option<string>>, i: nat, shifted: Trip) returns (next: Option<Trip>)
    requires Valid(trip) && |tx| == |trip.keys| && i < |trip.keys| && TextsFrom(trip, seconds, tx, i)
    requires ShiftRun(trip, tx, i) == Shifted(shifted, None)
    ensures TextsFrom(trip, seconds, tx, i + 1)
    ensures next.None? ==> ShiftRun(trip, tx, i + 1) == Shifted(shifted, Some(ValueError))
    ensures next.Some? ==> ShiftRun(trip, tx, i + 1) == Shifted(next.value, None)
  {
    var stop := trip.keys[i];
    ShiftRunUntouched(trip, tx, i, i);
    ShiftRunStep(trip, tx, i);
    var moved := MoveTime(shifted.vals[stop], seconds);
    if moved.None? {
      return None;
    }
    next := Some(Put(shifted, stop, moved.value));
  }

  /** The body of the loop of `shiftTripTime` for one time: strptime, add the seconds, `str` of the time of day. */
  method MoveTime(text: string, seconds: int) returns (moved: Option<string>)
    ensures moved == Moved(text, seconds)
    ensures moved.Some? ==> Parse(moved.value) == Some(Shift(Parse(text).value, seconds))
  {
    var timeStart := Parse(text);
    if timeStart.None? {
      return None;
    }
    var timeFinish := Shift(timeStart.value, seconds);
    ParseFormat(timeFinish);
    moved := Some(Format(timeFinish));
  }
}
