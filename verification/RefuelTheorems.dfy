/** What every refuel plan guarantees: energy, stock and write-back. */
module RefuelTheorems {
  import opened Common
  import opened Refuel

  ghost predicate NonNegative(dist: Distance)
  {
    forall a, b :: dist(a, b) >= 0.0
  }

  // -------------------------------------------------- energy safety, conservation

  /** Units of a list of refuels together. */
  function Units(es: seq<Event>): (u: real)
  {
    if es == [] then 0.0 else Units(es[..|es| - 1]) + es[|es| - 1].units
  }

  /** Right after refuel `e`, taken with `e.before` km of range left, the tank is
      no fuller than its capacity. */
  ghost predicate FitsTank(bus: Bus, e: Event)
  {
    e.units >= 0.0 && EnergyFor(bus, e.before) + e.units <= Capacity(bus)
  }

  /** `startEnergy` units on board plus what was taken is what is on board now
      plus what the kilometres consumed; the tank is never negative, nor over-full
      now or right after any refuel; every arrival so far left at least the safety
      range. */
  ghost predicate Sound(bus: Bus, t: Trip, startEnergy: real)
  {
    && t.remaining >= 0.0
    && EnergyFor(bus, t.remaining) <= Capacity(bus)
    && startEnergy + t.taken == EnergyFor(bus, t.remaining) + Consumption(bus) * t.km
    && t.taken == Units(t.refuels)
    && (forall j :: 0 <= j < |t.refuels| ==> FitsTank(bus, t.refuels[j]))
    && (forall i :: 0 <= i < |t.arrivals| ==> t.arrivals[i] >= SAFETY)
  }

  ghost predicate StockOk(sts: seq<Station>)
  {
    forall i :: 0 <= i < |sts| ==> sts[i].kg >= 0.0 && (sts[i].kwh.Some? ==> sts[i].kwh.value >= 0.0)
  }

  lemma DriveEnergy(c: real, remaining: real, d: real, units: real, km: real)
    requires c > 0.0
    ensures ((remaining - d) + units / c) * c + c * (km + d) == remaining * c + c * km + units
    ensures d >= 0.0 ==> c * d >= 0.0
    ensures ((remaining - d) + units / c) * c == remaining * c - c * d + units
  {
    assert units / c * c == units;
    assert ((remaining - d) + units / c) * c == (remaining - d) * c + units / c * c;
    assert (remaining - d) * c == remaining * c - c * d;
    assert c * (km + d) == c * km + c * d;
  }

  lemma ArriveSound(dist: Distance, bus: Bus, t: Trip, target: Point, e0: real)
    requires NonNegative(dist) && Sound(bus, t, e0) && t.remaining - dist(t.cur, target) >= SAFETY
    ensures Sound(bus, Arrive(dist, t, target), e0)
  {
    var d := dist(t.cur, target);
    DriveEnergy(Consumption(bus), t.remaining, d, 0.0, t.km);
    assert 0.0 / Consumption(bus) == 0.0;
  }

  lemma VisitSound(dist: Distance, bus: Bus, t: Trip, i: nat, seqNo: nat, e0: real)
    requires NonNegative(dist) && Sound(bus, t, e0) && StockOk(t.stations)
    requires i < |t.stations| && Qualifies(dist, NeedOf(bus, t), t.stations[i])
    ensures Sound(bus, Visit(dist, bus, t, i, seqNo), e0) && StockOk(Visit(dist, bus, t, i, seqNo).stations)
  {
    var st := t.stations[i];
    var d := dist(t.cur, st.pos);
    var units := MinReal(NeedOf(bus, t).needed, Stock(st, bus.energy));
    DriveEnergy(Consumption(bus), t.remaining, d, units, t.km);
    assert 0.0 <= units <= Stock(st, bus.energy);
    assert Visit(dist, bus, t, i, seqNo).refuels[..|t.refuels|] == t.refuels;
    assert FitsTank(bus, Event(i, units, bus.energy.Battery?, seqNo, t.remaining));
    assert units / Consumption(bus) >= 0.0;
  }

  lemma LegSound(dist: Distance, bus: Bus, t: Trip, target: Point, seqNo: nat, e0: real)
    requires NonNegative(dist) && Sound(bus, t, e0) && StockOk(t.stations)
    ensures Sound(bus, Leg(dist, bus, t, target, seqNo).0, e0)
    ensures StockOk(Leg(dist, bus, t, target, seqNo).0.stations)
  {
    if t.remaining - dist(t.cur, target) >= SAFETY {
      ArriveSound(dist, bus, t, target, e0);
    } else {
      var n := NeedOf(bus, t);
      ChoiceIsBest(dist, n, t.stations, |t.stations|);
      var choice := Best(dist, n, t.stations, |t.stations|);
      if choice.Some? {
        VisitSound(dist, bus, t, choice.value, seqNo, e0);
        var v := Visit(dist, bus, t, choice.value, seqNo);
        if v.remaining - dist(v.cur, target) >= SAFETY {
          ArriveSound(dist, bus, v, target, e0);
        }
      }
    }
  }

  lemma {:induction false} WalkSound(dist: Distance, bus: Bus, t: Trip, waypoints: seq<Point>, i: nat, e0: real)
    requires i <= |waypoints| && NonNegative(dist) && Sound(bus, t, e0) && StockOk(t.stations)
    ensures Sound(bus, Walk(dist, bus, t, waypoints, i).0, e0)
    ensures StockOk(Walk(dist, bus, t, waypoints, i).0.stations)
    decreases |waypoints| - i
  {
    if i < |waypoints| {
      LegSound(dist, bus, t, waypoints[i], i, e0);
      var (u, status) := Leg(dist, bus, t, waypoints[i], i);
      if status.Going? {
        WalkSound(dist, bus, u, waypoints, i + 1, e0);
      }
    }
  }

  /** A level between 0 and 100 percent of a non-negative capacity. */
  predicate PlausibleBus(bus: Bus)
  {
    Capacity(bus) >= 0.0 && 0.0 <= bus.levelPct <= 100.0
  }

  lemma DepartSound(bus: Bus, sts: seq<Station>)
    requires PlausibleBus(bus)
    ensures Sound(bus, Depart(bus, sts), LevelUnits(bus))
  {
    var c, cap, pct := Consumption(bus), Capacity(bus), bus.levelPct;
    assert RangeKm(bus) * c == LevelUnits(bus);
    assert cap * pct >= 0.0 && cap * (100.0 - pct) >= 0.0;
    assert cap * pct <= cap * 100.0;
    assert LevelUnits(bus) >= 0.0;
    assert RangeKm(bus) >= 0.0;
  }

  lemma PlanSound(dist: Distance, bus: Bus, sts: seq<Station>, stops: seq<Point>, depot: Point)
    requires NonNegative(dist) && PlausibleBus(bus) && StockOk(sts)
    ensures var t := Plan(dist, bus, sts, stops, depot).0; Sound(bus, t, LevelUnits(bus)) && StockOk(t.stations)
  {
    DepartSound(bus, sts);
    WalkSound(dist, bus, Depart(bus, sts), stops + [depot], 0, LevelUnits(bus));
  }

  /** Every arrival at a stop, station or depot has at least the safety range left;
      the tank exceeds capacity neither at the end nor right after any refuel; the
      end energy is not negative; start energy plus the units of the refuels equals
      end energy plus consumption times distance. */
  ghost predicate EnergySafe(bus: Bus, t: Trip)
  {
    var end := EnergyFor(bus, t.remaining);
    && (forall i :: 0 <= i < |t.arrivals| ==> t.arrivals[i] >= 20.0)
    && 0.0 <= end <= Capacity(bus)
    && (forall j :: 0 <= j < |t.refuels| ==> FitsTank(bus, t.refuels[j]))
    && Capacity(bus) * bus.levelPct / 100.0 + Units(t.refuels) == end + Consumption(bus) * t.km
  }

  /** Route energy safety and conservation, on all three ways a plan can end. */
  lemma RouteEnergySafe(dist: Distance, bus: Bus, sts: seq<Station>, stops: seq<Point>, depot: Point)
    requires NonNegative(dist) && PlausibleBus(bus) && StockOk(sts)
    ensures var t := Plan(dist, bus, sts, stops, depot).0; EnergySafe(bus, t) && StockOk(t.stations)
  {
    PlanSound(dist, bus, sts, stops, depot);
    SoundIsSafe(bus, Plan(dist, bus, sts, stops, depot).0);
  }

  lemma SoundIsSafe(bus: Bus, t: Trip)
    requires Sound(bus, t, LevelUnits(bus))
    ensures EnergySafe(bus, t)
  {
  }

  // ------------------------------------------------------------------ shared stock

  /** Whose column an event was drawn from when planned. */
  predicate PlannedKwh(sts: seq<Station>, e: Event)
  {
    e.kwh && e.station < |sts| && sts[e.station].kwh.Some?
  }

  /** Units drawn from one column of one station by a list of events. */
  function Drawn(sts: seq<Station>, es: seq<Event>, i: nat, kwh: bool): (u: real)
  {
    if es == [] then 0.0
    else
      var e := es[|es| - 1];
      Drawn(sts, es[..|es| - 1], i, kwh) + (if e.station == i && PlannedKwh(sts, e) == kwh then e.units else 0.0)
  }

  function Level(st: Station, kwh: bool): (u: real)
  {
    if !kwh then st.kg else if st.kwh.Some? then st.kwh.value else 0.0
  }

  /** What stations keep through planning: their number and which columns exist. */
  predicate SameShape(a: seq<Station>, b: seq<Station>)
  {
    |a| == |b| && forall i :: 0 <= i < |a| ==> a[i].kwh.Some? == b[i].kwh.Some?
  }

  /** `es` accounts for the difference between `before` and `after`. */
  ghost predicate Balanced(before: seq<Station>, after: seq<Station>, es: seq<Event>)
  {
    && SameShape(before, after)
    && (forall j :: 0 <= j < |es| ==> es[j].station < |before| && es[j].units >= 0.0)
    && (forall i, kwh :: 0 <= i < |before| ==>
          Level(before[i], kwh) - Level(after[i], kwh) == Drawn(before, es, i, kwh))
  }

  lemma VisitBalanced(dist: Distance, bus: Bus, t: Trip, i: nat, seqNo: nat, before: seq<Station>)
    requires i < |t.stations| && Balanced(before, t.stations, t.refuels)
    requires MinReal(NeedOf(bus, t).needed, Stock(t.stations[i], bus.energy)) >= 0.0
    ensures var v := Visit(dist, bus, t, i, seqNo); Balanced(before, v.stations, v.refuels)
  {
    var v := Visit(dist, bus, t, i, seqNo);
    assert v.refuels[..|t.refuels|] == t.refuels;
    forall j, kwh | 0 <= j < |before|
      ensures Level(before[j], kwh) - Level(v.stations[j], kwh) == Drawn(before, v.refuels, j, kwh)
    {
      assert Level(before[j], kwh) - Level(t.stations[j], kwh) == Drawn(before, t.refuels, j, kwh);
    }
  }

  lemma LegBalanced(dist: Distance, bus: Bus, t: Trip, target: Point, seqNo: nat, e0: real, before: seq<Station>)
    requires Sound(bus, t, e0) && StockOk(t.stations) && Balanced(before, t.stations, t.refuels)
    ensures var u := Leg(dist, bus, t, target, seqNo).0; Balanced(before, u.stations, u.refuels)
  {
    var n := NeedOf(bus, t);
    var choice := Best(dist, n, t.stations, |t.stations|);
    if t.remaining - dist(t.cur, target) < SAFETY && choice.Some? {
      VisitBalanced(dist, bus, t, choice.value, seqNo, before);
    }
  }

  lemma {:induction false} WalkBalanced(dist: Distance, bus: Bus, t: Trip, waypoints: seq<Point>, i: nat, e0: real, before: seq<Station>)
    requires i <= |waypoints| && NonNegative(dist) && Sound(bus, t, e0) && StockOk(t.stations)
    requires Balanced(before, t.stations, t.refuels)
    ensures var u := Walk(dist, bus, t, waypoints, i).0; Balanced(before, u.stations, u.refuels)
    decreases |waypoints| - i
  {
    if i < |waypoints| {
      LegSound(dist, bus, t, waypoints[i], i, e0);
      LegBalanced(dist, bus, t, waypoints[i], i, e0, before);
      var (u, status) := Leg(dist, bus, t, waypoints[i], i);
      if status.Going? {
        WalkBalanced(dist, bus, u, waypoints, i + 1, e0, before);
      }
    }
  }

  /** One bus, its stops and the depot. */
  datatype Route = Route(bus: Bus, stops: seq<Point>)

  /** All routes planned one after another against the same stations. */
  function PlanAll(dist: Distance, routes: seq<Route>, depot: Point, sts: seq<Station>): (r: (seq<Station>, seq<Event>))
  {
    if routes == [] then (sts, [])
    else
      var n := |routes| - 1;
      var (mid, es) := PlanAll(dist, routes[..n], depot, sts);
      var (t, _) := Plan(dist, routes[n].bus, mid, routes[n].stops, depot);
      (t.stations, es + t.refuels)
  }

  lemma {:induction false} DrawnConcat(before: seq<Station>, mid: seq<Station>, a: seq<Event>, b: seq<Event>, i: nat, kwh: bool)
    requires SameShape(before, mid)
    ensures Drawn(before, a + b, i, kwh) == Drawn(before, a, i, kwh) + Drawn(mid, b, i, kwh)
  {
    if b == [] {
      assert a + b == a;
    } else {
      var n := |b| - 1;
      assert (a + b)[..|a + b| - 1] == a + b[..n];
      assert (a + b)[|a + b| - 1] == b[n];
      DrawnConcat(before, mid, a, b[..n], i, kwh);
    }
  }

  lemma BalancedConcat(before: seq<Station>, mid: seq<Station>, after: seq<Station>, a: seq<Event>, b: seq<Event>)
    requires Balanced(before, mid, a) && Balanced(mid, after, b)
    ensures Balanced(before, after, a + b)
  {
    forall i, kwh | 0 <= i < |before|
      ensures Level(before[i], kwh) - Level(after[i], kwh) == Drawn(before, a + b, i, kwh)
    {
      DrawnConcat(before, mid, a, b, i, kwh);
      assert Level(before[i], kwh) - Level(mid[i], kwh) == Drawn(before, a, i, kwh);
      assert Level(mid[i], kwh) - Level(after[i], kwh) == Drawn(mid, b, i, kwh);
    }
  }

  /** Shared stock across buses: planning any list of routes keeps every ledger
      non-negative, and what each column of each station lost is exactly the
      units planned from it. */
  lemma {:induction false} SharedStockConserved(dist: Distance, routes: seq<Route>, depot: Point, sts: seq<Station>)
    requires NonNegative(dist) && StockOk(sts)
    requires forall i :: 0 <= i < |routes| ==> PlausibleBus(routes[i].bus)
    ensures var (after, es) := PlanAll(dist, routes, depot, sts); StockOk(after) && Balanced(sts, after, es)
  {
    if routes != [] {
      var n := |routes| - 1;
      SharedStockConserved(dist, routes[..n], depot, sts);
      var (mid, es) := PlanAll(dist, routes[..n], depot, sts);
      var bus := routes[n].bus;
      var waypoints := routes[n].stops + [depot];
      DepartSound(bus, mid);
      WalkSound(dist, bus, Depart(bus, mid), waypoints, 0, LevelUnits(bus));
      WalkBalanced(dist, bus, Depart(bus, mid), waypoints, 0, LevelUnits(bus), mid);
      var t := Plan(dist, bus, mid, routes[n].stops, depot).0;
      BalancedConcat(sts, mid, t.stations, es, t.refuels);
    }
  }

  // ------------------------------------------------------------------- write-back

  /** May this event's conditional decrement go through? A missing kWh column or
      figure matches no row. */
  predicate Applies(hasKwh: bool, db: seq<Station>, e: Event)
  {
    && e.station < |db|
    && (if e.kwh then hasKwh && db[e.station].kwh.Some? && db[e.station].kwh.value >= e.units
        else db[e.station].kg >= e.units)
  }

  function Decrement(db: seq<Station>, e: Event): (r: seq<Station>)
    requires e.station < |db| && (e.kwh ==> db[e.station].kwh.Some?)
  {
    var st := db[e.station];
    db[e.station := if e.kwh then st.(kwh := Some(st.kwh.value - e.units)) else st.(kg := st.kg - e.units)]
  }

  /** The stock after write-back and the events it skipped. */
  function WriteBack(hasKwh: bool, db: seq<Station>, es: seq<Event>): (r: (seq<Station>, seq<Event>))
    ensures |r.0| == |db|
  {
    if es == [] then (db, [])
    else
      var n := |es| - 1;
      var (mid, skipped) := WriteBack(hasKwh, db, es[..n]);
      if Applies(hasKwh, mid, es[n]) then (Decrement(mid, es[n]), skipped) else (mid, skipped + [es[n]])
  }

  method WriteBackInventory(hasKwh: bool, stock: array<Station>, es: seq<Event>) returns (skipped: seq<Event>)
    modifies stock
    ensures (stock[..], skipped) == WriteBack(hasKwh, old(stock[..]), es)
  {
    skipped := [];
    for k := 0 to |es|
      invariant (stock[..], skipped) == WriteBack(hasKwh, old(stock[..]), es[..k])
    {
      var e := es[k];
      assert es[..k + 1][..k] == es[..k];
      if e.station < stock.Length && !e.kwh && stock[e.station].kg >= e.units {
        var st := stock[e.station];
        stock[e.station] := st.(kg := st.kg - e.units);
      } else if e.station < stock.Length && e.kwh && hasKwh && stock[e.station].kwh.Some?
                && stock[e.station].kwh.value >= e.units {
        var st := stock[e.station];
        stock[e.station] := st.(kwh := Some(st.kwh.value - e.units));
      } else {
        skipped := skipped + [e];
      }
    }
    assert es[..|es|] == es;
  }

  /** The column the refuel names exists and covers it. */
  predicate Covers(hasKwh: bool, db: seq<Station>, e: Event)
  {
    if e.station >= |db| then false
    else match db[e.station].kwh
      case Some(kwh) => if e.kwh then hasKwh && kwh >= e.units else db[e.station].kg >= e.units
      case None => !e.kwh && db[e.station].kg >= e.units
  }

  /** A refuel is skipped if and only if, at its turn, its column is missing or
      holds less. */
  lemma SkipsIff(hasKwh: bool, db: seq<Station>, es: seq<Event>, e: Event)
    ensures var before := WriteBack(hasKwh, db, es);
            WriteBack(hasKwh, db, es + [e]).1 == if Covers(hasKwh, before.0, e) then before.1 else before.1 + [e]
  {
    assert (es + [e])[..|es|] == es;
  }

  lemma {:induction false} WriteBackStockOk(hasKwh: bool, db: seq<Station>, es: seq<Event>)
    requires StockOk(db)
    ensures StockOk(WriteBack(hasKwh, db, es).0)
  {
    if es != [] {
      WriteBackStockOk(hasKwh, db, es[..|es| - 1]);
    }
  }

  /** Whatever is skipped: places, kinds and columns stay, and every level falls by
      exactly the units asked of it that were not skipped. */
  lemma {:induction false} WriteBackBooks(hasKwh: bool, db: seq<Station>, es: seq<Event>, i: nat, kwh: bool)
    requires i < |db|
    ensures var (after, skipped) := WriteBack(hasKwh, db, es);
            && after[i].pos == db[i].pos && after[i].kind == db[i].kind && after[i].kwh.Some? == db[i].kwh.Some?
            && Level(after[i], kwh) == Level(db[i], kwh) - (Asked(es, i, kwh) - Asked(skipped, i, kwh))
  {
    if es != [] {
      var n := |es| - 1;
      WriteBackBooks(hasKwh, db, es[..n], i, kwh);
      AskedSnoc(WriteBack(hasKwh, db, es[..n]).1, es[n], i, kwh);
    }
  }

  lemma AskedSnoc(es: seq<Event>, e: Event, i: nat, kwh: bool)
    ensures Asked(es + [e], i, kwh) == Asked(es, i, kwh) + if e.station == i && e.kwh == kwh then e.units else 0.0
  {
    assert (es + [e])[..|es|] == es;
  }

  /** Units asked of one column of one station, by label. */
  function Asked(es: seq<Event>, i: nat, kwh: bool): (u: real)
  {
    if es == [] then 0.0
    else
      var e := es[|es| - 1];
      Asked(es[..|es| - 1], i, kwh) + (if e.station == i && e.kwh == kwh then e.units else 0.0)
  }

  predicate Sane(db: seq<Station>, es: seq<Event>)
  {
    forall j :: 0 <= j < |es| ==> es[j].station < |db| && es[j].units >= 0.0
  }

  /** Every event names a column that exists. */
  predicate ColumnsExist(hasKwh: bool, db: seq<Station>, es: seq<Event>)
  {
    forall j :: 0 <= j < |es| && es[j].kwh ==>
      es[j].station < |db| && hasKwh && db[es[j].station].kwh.Some?
  }

  ghost predicate Affordable(db: seq<Station>, es: seq<Event>)
  {
    forall i, kwh :: 0 <= i < |db| && (kwh ==> db[i].kwh.Some?) ==> Asked(es, i, kwh) <= Level(db[i], kwh)
  }

  /** While nothing is skipped, the stock left is what was there less what was asked. */
  lemma {:induction false} WriteBackLevels(hasKwh: bool, db: seq<Station>, es: seq<Event>)
    requires Sane(db, es) && WriteBack(hasKwh, db, es).1 == []
    ensures SameShape(db, WriteBack(hasKwh, db, es).0)
    ensures forall i, kwh :: 0 <= i < |db| && (kwh ==> db[i].kwh.Some?) ==>
              Level(WriteBack(hasKwh, db, es).0[i], kwh) == Level(db[i], kwh) - Asked(es, i, kwh)
  {
    if es != [] {
      WriteBackLevels(hasKwh, db, es[..|es| - 1]);
    }
  }

  lemma {:induction false} AskedGrows(es: seq<Event>, n: nat, i: nat, kwh: bool)
    requires n <= |es| && forall j :: 0 <= j < |es| ==> es[j].units >= 0.0
    ensures 0.0 <= Asked(es[..n], i, kwh) <= Asked(es, i, kwh)
  {
    if n < |es| {
      AskedGrows(es[..|es| - 1], n, i, kwh);
      assert es[..|es| - 1][..n] == es[..n];
    } else {
      assert es[..n] == es;
      if es != [] {
        AskedGrows(es[..|es| - 1], |es| - 1, i, kwh);
        assert es[..|es| - 1][..|es| - 1] == es[..|es| - 1];
      }
    }
  }

  lemma AffordablePrefix(db: seq<Station>, es: seq<Event>, n: nat)
    requires Sane(db, es) && n <= |es| && Affordable(db, es)
    ensures Affordable(db, es[..n])
  {
    forall i, kwh | 0 <= i < |db| && (kwh ==> db[i].kwh.Some?) ensures Asked(es[..n], i, kwh) <= Level(db[i], kwh) {
      AskedGrows(es, n, i, kwh);
      assert Asked(es, i, kwh) <= Level(db[i], kwh);
    }
  }

  lemma {:induction false} AffordableSkipsNone(hasKwh: bool, db: seq<Station>, es: seq<Event>)
    requires Sane(db, es) && ColumnsExist(hasKwh, db, es) && Affordable(db, es)
    ensures WriteBack(hasKwh, db, es).1 == []
  {
    if es != [] {
      var n := |es| - 1;
      var e := es[n];
      AffordablePrefix(db, es, n);
      AffordableSkipsNone(hasKwh, db, es[..n]);
      WriteBackLevels(hasKwh, db, es[..n]);
      assert Asked(es, e.station, e.kwh) <= Level(db[e.station], e.kwh);
    }
  }

  lemma {:induction false} SkipsNoneIsAffordable(hasKwh: bool, db: seq<Station>, es: seq<Event>)
    requires Sane(db, es) && StockOk(db) && WriteBack(hasKwh, db, es).1 == []
    ensures ColumnsExist(hasKwh, db, es) && Affordable(db, es)
  {
    if es != [] {
      var n := |es| - 1;
      var e := es[n];
      SkipsNoneIsAffordable(hasKwh, db, es[..n]);
      WriteBackLevels(hasKwh, db, es[..n]);
      forall j | 0 <= j < |es| && es[j].kwh
        ensures es[j].station < |db| && hasKwh && db[es[j].station].kwh.Some?
      {
        if j < n {
          assert es[..n][j] == es[j];
        }
      }
      forall i, kwh | 0 <= i < |db| && (kwh ==> db[i].kwh.Some?) ensures Asked(es, i, kwh) <= Level(db[i], kwh) {
        assert Asked(es[..n], i, kwh) <= Level(db[i], kwh);
      }
    } else {
      forall i, kwh | 0 <= i < |db| && (kwh ==> db[i].kwh.Some?) ensures Asked(es, i, kwh) <= Level(db[i], kwh) {
        assert Asked(es, i, kwh) == 0.0;
      }
    }
  }

  /** Write-back skips no refuel if and only if every kWh refuel names a station
      with a kWh figure (and the column exists) and, for every column of every
      station, the amounts add up to no more than the stock. The amounts are any,
      so rounded ones are covered. */
  lemma WriteBackSkipsNoneIff(hasKwh: bool, db: seq<Station>, es: seq<Event>)
    requires Sane(db, es) && StockOk(db)
    ensures WriteBack(hasKwh, db, es).1 == [] <==> ColumnsExist(hasKwh, db, es) && Affordable(db, es)
  {
    if WriteBack(hasKwh, db, es).1 == [] {
      SkipsNoneIsAffordable(hasKwh, db, es);
    } else if ColumnsExist(hasKwh, db, es) && Affordable(db, es) {
      AffordableSkipsNone(hasKwh, db, es);
    }
  }

  lemma {:induction false} AskedIsDrawn(hasKwh: bool, sts: seq<Station>, es: seq<Event>, i: nat, kwh: bool)
    requires ColumnsExist(hasKwh, sts, es)
    ensures Asked(es, i, kwh) == Drawn(sts, es, i, kwh)
  {
    if es != [] {
      AskedIsDrawn(hasKwh, sts, es[..|es| - 1], i, kwh);
    }
  }

  /** Writing exact planned amounts back to the stock they were planned from
      skips nothing if and only if every battery refuel used a station with a
      kWh figure. */
  lemma PlannedWriteBackIff(hasKwh: bool, dist: Distance, routes: seq<Route>, depot: Point, sts: seq<Station>)
    requires NonNegative(dist) && StockOk(sts)
    requires forall i :: 0 <= i < |routes| ==> PlausibleBus(routes[i].bus)
    ensures var (after, es) := PlanAll(dist, routes, depot, sts);
            WriteBack(hasKwh, sts, es).1 == [] <==> ColumnsExist(hasKwh, sts, es)
  {
    SharedStockConserved(dist, routes, depot, sts);
    var (after, es) := PlanAll(dist, routes, depot, sts);
    WriteBackSkipsNoneIff(hasKwh, sts, es);
    if ColumnsExist(hasKwh, sts, es) {
      forall i, kwh | 0 <= i < |sts| && (kwh ==> sts[i].kwh.Some?) ensures Asked(es, i, kwh) <= Level(sts[i], kwh) {
        AskedIsDrawn(hasKwh, sts, es, i, kwh);
        assert Level(sts[i], kwh) - Level(after[i], kwh) == Drawn(sts, es, i, kwh);
      }
    }
  }

  // ---------------------------------------------------- amounts as they are recorded

  /** The nearest whole number of hundredths, the even one of two equally near. */
  function Cents(x: real): (cents: int)
  {
    var low := (x * 100.0).Floor;
    var over := x * 100.0 - low as real;
    if over < 0.5 || (over == 0.5 && low % 2 == 0) then low else low + 1
  }

  /** `round(x, 2)`. */
  function Round2(x: real): (r: real)
    ensures x - 0.005 <= r <= x + 0.005
    ensures x >= 0.0 ==> r >= 0.0
  {
    Cents(x) as real / 100.0
  }

  /** No other number of hundredths is nearer, and of two equally near the even one
      is taken. */
  lemma RoundingMeans(x: real, other: int)
    requires other != Cents(x)
    ensures || Away(x, Cents(x)) < Away(x, other)
            || (Away(x, Cents(x)) == Away(x, other) && Cents(x) % 2 == 0)
  {
    var low := (x * 100.0).Floor;
    assert other < low || other == low || other == low + 1 || other > low + 1;
  }

  /** How far `x` is from that many hundredths, in hundredths. */
  function Away(x: real, cents: int): (d: real)
  {
    if x * 100.0 >= cents as real then x * 100.0 - cents as real else cents as real - x * 100.0
  }

  /** The refuels as a plan reports them and write-back reads them. */
  function Recorded(es: seq<Event>): (rs: seq<Event>)
    ensures |rs| == |es|
  {
    seq(|es|, i requires 0 <= i < |es| => es[i].(units := Round2(es[i].units)))
  }

  /** Recorded amounts written back to the stock they were planned from: nothing is
      skipped if and only if every battery refuel used a station with a kWh figure
      and, per column and station, the rounded amounts fit the stock. */
  lemma RecordedWriteBackIff(hasKwh: bool, dist: Distance, routes: seq<Route>, depot: Point, sts: seq<Station>)
    requires NonNegative(dist) && StockOk(sts)
    requires forall i :: 0 <= i < |routes| ==> PlausibleBus(routes[i].bus)
    ensures var es := PlanAll(dist, routes, depot, sts).1;
            WriteBack(hasKwh, sts, Recorded(es)).1 == [] <==>
            ColumnsExist(hasKwh, sts, es) && Affordable(sts, Recorded(es))
  {
    SharedStockConserved(dist, routes, depot, sts);
    var es := PlanAll(dist, routes, depot, sts).1;
    WriteBackSkipsNoneIff(hasKwh, sts, Recorded(es));
    RecordedColumns(hasKwh, sts, es);
  }

  lemma RecordedColumns(hasKwh: bool, sts: seq<Station>, es: seq<Event>)
    ensures ColumnsExist(hasKwh, sts, Recorded(es)) <==> ColumnsExist(hasKwh, sts, es)
  {
    if ColumnsExist(hasKwh, sts, Recorded(es)) {
      forall j | 0 <= j < |es| && es[j].kwh ensures es[j].station < |sts| && hasKwh && sts[es[j].station].kwh.Some? {
        assert Recorded(es)[j].kwh;
      }
    }
  }

  /** Refuels drawn from one column of one station. */
  function Count(es: seq<Event>, i: nat, kwh: bool): (n: nat)
  {
    if es == [] then 0
    else Count(es[..|es| - 1], i, kwh) + (if es[|es| - 1].station == i && es[|es| - 1].kwh == kwh then 1 else 0)
  }

  lemma {:induction false} RoundingAdds(es: seq<Event>, i: nat, kwh: bool)
    ensures Asked(Recorded(es), i, kwh) <= Asked(es, i, kwh) + 0.005 * Count(es, i, kwh) as real
  {
    if es != [] {
      var n := |es| - 1;
      RoundingAdds(es[..n], i, kwh);
      assert Recorded(es)[..n] == Recorded(es[..n]);
    }
  }

  /** It is enough that planning leaves half a hundredth per refuel in each column. */
  lemma SlackSuffices(hasKwh: bool, sts: seq<Station>, after: seq<Station>, es: seq<Event>)
    requires StockOk(sts) && Balanced(sts, after, es) && ColumnsExist(hasKwh, sts, es)
    requires forall i, kwh :: 0 <= i < |after| && (kwh ==> after[i].kwh.Some?) ==>
               Level(after[i], kwh) >= 0.005 * Count(es, i, kwh) as real
    ensures WriteBack(hasKwh, sts, Recorded(es)).1 == []
  {
    RecordedColumns(hasKwh, sts, es);
    WriteBackSkipsNoneIff(hasKwh, sts, Recorded(es));
    forall i, kwh | 0 <= i < |sts| && (kwh ==> sts[i].kwh.Some?)
      ensures Asked(Recorded(es), i, kwh) <= Level(sts[i], kwh)
    {
      RoundingAdds(es, i, kwh);
      AskedIsDrawn(hasKwh, sts, es, i, kwh);
      assert Level(sts[i], kwh) - Level(after[i], kwh) == Drawn(sts, es, i, kwh);
    }
  }

  // ------------------------------------------------------------ plans that are skipped

  /** Any two different places are 24 km apart. */
  function Hop(a: Point, b: Point): (km: real)
  {
    if a == b then 0.0 else 24.0
  }

  /** A bus with 40 of 100 units on board, using one per km. */
  function FortyUnits(energy: Energy, pos: Point): (bus: Bus)
    ensures PlausibleBus(bus) && RangeKm(bus) == 40.0 && Capacity(bus) == 100.0 && Consumption(bus) == 1.0
  {
    Bus(pos, energy, 100.0, 40.0, None, Some(100.0))
  }

  /** It stands at a station, 24 km from the depot, and takes what is there. */
  lemma OneRefuel(energy: Energy, st: Station, depot: Point)
    requires st.pos != depot && Serves(st.kind, energy) && 5.0 <= Stock(st, energy) <= 60.0
    ensures var route := Route(FortyUnits(energy, st.pos), []);
            PlanAll(Hop, [route], depot, [st]).1 == [Event(0, Stock(st, energy), energy.Battery?, 0, 40.0)]
  {
    var bus, sts := FortyUnits(energy, st.pos), [st];
    var t := Depart(bus, sts);
    var n := NeedOf(bus, t);
    assert n.needed == 60.0;
    assert Qualifies(Hop, n, st);
    assert Best(Hop, n, sts, 0) == None && Best(Hop, n, sts, 1) == Some(0);
    var v := Visit(Hop, bus, t, 0, 0);
    assert v.refuels == [Event(0, Stock(st, energy), energy.Battery?, 0, 40.0)];
    var waypoints := [] + [depot];
    var (u, status) := Leg(Hop, bus, t, waypoints[0], 0);
    assert u.refuels == v.refuels;
    assert status.Going? ==> Walk(Hop, bus, u, waypoints, 1) == (u, Going);
    assert Plan(Hop, bus, sts, [], depot) == (u, status);
    var route := Route(bus, []);
    assert PlanAll(Hop, [route][..0], depot, sts) == (sts, []);
  }

  lemma WriteBackOne(hasKwh: bool, st: Station, e: Event)
    ensures WriteBack(hasKwh, [st], [e]).1 == if Applies(hasKwh, [st], e) then [] else [e]
  {
    assert [e][..0] == [];
    assert WriteBack(hasKwh, [st], []) == ([st], []);
  }

  /** Rounding can skip a planned refuel: all 5.006 kg of a station are planned,
      recorded as 5.01 and refused, where the exact amount goes through. */
  lemma RoundedPlanIsSkipped(pos: Point, depot: Point)
    requires pos != depot
    ensures var st := Station(pos, H2Station, 5.006, None);
            var es := PlanAll(Hop, [Route(FortyUnits(H2, pos), [])], depot, [st]).1;
            && |es| == 1 && es[0].units == 5.006 && Recorded(es)[0].units == 5.01
            && WriteBack(true, [st], es).1 == [] && WriteBack(true, [st], Recorded(es)).1 == Recorded(es)
  {
    var st := Station(pos, H2Station, 5.006, None);
    OneRefuel(H2, st, depot);
    var e := Event(0, 5.006, false, 0, 40.0);
    assert (500.6).Floor == 500 && Round2(5.006) == 5.01;
    assert Recorded([e]) == [e.(units := 5.01)];
    WriteBackOne(true, st, e);
    WriteBackOne(true, st, e.(units := 5.01));
  }

  /** A battery bus at a charger without a kWh figure is planned from its kg and
      skipped by write-back, which looks for kWh. */
  lemma MissingKwhIsSkipped(pos: Point, depot: Point)
    requires pos != depot
    ensures var st := Station(pos, EvCharger, 50.0, None);
            var es := PlanAll(Hop, [Route(FortyUnits(Battery, pos), [])], depot, [st]).1;
            |es| == 1 && es[0].units == 50.0 && WriteBack(true, [st], es).1 == es
  {
    var st := Station(pos, EvCharger, 50.0, None);
    OneRefuel(Battery, st, depot);
    WriteBackOne(true, st, Event(0, 50.0, true, 0, 40.0));
  }
}
