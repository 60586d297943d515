/** Where a refuel plan goes and why: every leg driven, every detour taken and
    every way of giving up, in terms of the route, the stations as they were and
    the refuels returned. */
module RefuelRoutes {
  import opened Common
  import opened Refuel

  // ------------------------------------------------------------- in plain terms

  /** What a litre, kilogram or kilowatt-hour on board is worth: 100 km use the
      learned rate, or 8 kg, 110 kWh, 40 l, 30 kg; a level of `pct` percent is that
      share of the tank, and the range is how far it goes. */
  lemma RangeMeans(bus: Bus)
    ensures EnergyFor(bus, 100.0) ==
            if bus.learned.Some? && bus.learned.value > 0.0 then bus.learned.value
            else if bus.energy.Battery? then 110.0
            else if bus.energy.Diesel? then 40.0
            else if bus.energy.Cng? then 30.0
            else 8.0
    ensures EnergyFor(bus, RangeKm(bus)) * 100.0 == Capacity(bus) * bus.levelPct
    ensures bus.energyCapacity.None? || bus.energy.H2? ==> Capacity(bus) == bus.h2Capacity
    ensures bus.energyCapacity.Some? && !bus.energy.H2? ==> Capacity(bus) == bus.energyCapacity.value
  {
    var c := Consumption(bus);
    assert LevelUnits(bus) / c * c == LevelUnits(bus);
  }

  /** What the station has for this kind of bus. */
  function OnHand(st: Station, energy: Energy): (u: real)
  {
    match st.kwh
    case Some(kwh) => if energy == Battery then kwh else st.kg
    case None => st.kg
  }

  /** Compatible, reachable with 20 km to spare, and with 5 units or all that is
      needed on hand. */
  predicate Suits(dist: Distance, n: Need, st: Station)
  {
    && (|| st.kind == Mixed
        || (n.energy == Battery && st.kind == EvCharger)
        || (n.energy == Diesel && st.kind == DieselStation)
        || (n.energy == Cng && st.kind == CngStation)
        || ((n.energy == H2 || n.energy == OtherEnergy) && st.kind == H2Station))
    && dist(n.cur, st.pos) + 20.0 <= n.remaining
    && (OnHand(st, n.energy) >= 5.0 || OnHand(st, n.energy) >= n.needed)
  }

  /** A mixed station counts as a quarter farther than it is. */
  function Detour(dist: Distance, n: Need, st: Station): (km: real)
  {
    if st.kind == Mixed then 1.25 * dist(n.cur, st.pos) else dist(n.cur, st.pos)
  }

  /** Station `i` suits, and every other that suits is a longer detour, or as long
      and farther, or as long and as far and later in the list. */
  ghost predicate Chosen(dist: Distance, n: Need, sts: seq<Station>, i: nat)
  {
    && i < |sts| && Suits(dist, n, sts[i])
    && forall j :: 0 <= j < |sts| && j != i && Suits(dist, n, sts[j]) ==>
         || Detour(dist, n, sts[i]) < Detour(dist, n, sts[j])
         || (Detour(dist, n, sts[i]) == Detour(dist, n, sts[j])
             && (dist(n.cur, sts[i].pos) < dist(n.cur, sts[j].pos)
                 || (dist(n.cur, sts[i].pos) == dist(n.cur, sts[j].pos) && i < j)))
  }

  lemma SuitsIff(dist: Distance, n: Need, st: Station)
    ensures Qualifies(dist, n, st) <==> Suits(dist, n, st)
  {
  }

  lemma NearerIff(dist: Distance, n: Need, a: Station, b: Station)
    ensures Nearer(dist, n, a, b) <==>
            || Detour(dist, n, a) < Detour(dist, n, b)
            || (Detour(dist, n, a) == Detour(dist, n, b) && dist(n.cur, a.pos) < dist(n.cur, b.pos))
  {
  }

  /** The planner picks station `i` if and only if it is the chosen one, and picks
      none if and only if no station suits. */
  lemma ChoiceIff(dist: Distance, n: Need, sts: seq<Station>, i: nat)
    ensures Best(dist, n, sts, |sts|) == Some(i) <==> Chosen(dist, n, sts, i)
    ensures Best(dist, n, sts, |sts|) == None <==> forall j :: 0 <= j < |sts| ==> !Suits(dist, n, sts[j])
  {
    ChoiceIsBest(dist, n, sts, |sts|);
    forall st: Station ensures Qualifies(dist, n, st) <==> Suits(dist, n, st) {
      SuitsIff(dist, n, st);
    }
    var b := Best(dist, n, sts, |sts|);
    if b.Some? {
      BestIsChosen(dist, n, sts, b.value);
    }
  }

  lemma BestIsChosen(dist: Distance, n: Need, sts: seq<Station>, i: nat)
    requires IsBest(dist, n, sts, |sts|, i)
    ensures Chosen(dist, n, sts, i)
  {
    SuitsIff(dist, n, sts[i]);
    forall j | 0 <= j < |sts| && j != i && Suits(dist, n, sts[j])
      ensures || Detour(dist, n, sts[i]) < Detour(dist, n, sts[j])
              || (Detour(dist, n, sts[i]) == Detour(dist, n, sts[j])
                  && (dist(n.cur, sts[i].pos) < dist(n.cur, sts[j].pos)
                      || (dist(n.cur, sts[i].pos) == dist(n.cur, sts[j].pos) && i < j)))
    {
      SuitsIff(dist, n, sts[j]);
      NearerIff(dist, n, sts[j], sts[i]);
      NearerIff(dist, n, sts[i], sts[j]);
    }
  }

  // -------------------------------------------------------------- stock and route

  function TakenAt(es: seq<Event>, i: nat): (u: real)
  {
    if es == [] then 0.0
    else TakenAt(es[..|es| - 1], i) + (if es[|es| - 1].station == i then es[|es| - 1].units else 0.0)
  }

  function Reduced(st: Station, energy: Energy, units: real): (r: Station)
  {
    if energy == Battery && st.kwh.Some? then Station(st.pos, st.kind, st.kg, Some(st.kwh.value - units))
    else Station(st.pos, st.kind, st.kg - units, st.kwh)
  }

  /** The stations once the refuels `es` of one bus have been taken. */
  function Left(sts: seq<Station>, energy: Energy, es: seq<Event>): (r: seq<Station>)
    ensures |r| == |sts|
  {
    seq(|sts|, i requires 0 <= i < |sts| => Reduced(sts[i], energy, TakenAt(es, i)))
  }

  lemma LeftSnoc(sts: seq<Station>, energy: Energy, es: seq<Event>, e: Event)
    requires e.station < |sts|
    ensures Left(sts, energy, es + [e]) ==
            Left(sts, energy, es)[e.station := Take(Left(sts, energy, es)[e.station], energy, e.units)]
  {
    assert (es + [e])[..|es|] == es;
  }

  /** A place the bus comes to, with the range it has left there. */
  datatype Stopover = Stopover(place: Point, range: real)

  /** Where the bus stands after a journey, and with what range. */
  function Standing(bus: Bus, js: seq<Stopover>): (s: Stopover)
  {
    if js == [] then Stopover(bus.pos, RangeKm(bus)) else js[|js| - 1]
  }

  function Drive(dist: Distance, from: Stopover, to: Point): (s: Stopover)
  {
    Stopover(to, from.range - dist(from.place, to))
  }

  /** The stopovers up to and with the first `i` waypoints, a refuel marked for a
      waypoint being made on the way to it. */
  function Journey(dist: Distance, bus: Bus, sts: seq<Station>, waypoints: seq<Point>, i: nat, es: seq<Event>): (js: seq<Stopover>)
    requires i <= |waypoints|
  {
    if i == 0 then []
    else if es != [] && es[|es| - 1].at == i - 1 && es[|es| - 1].station < |sts| then
      var e := es[|es| - 1];
      var js := Journey(dist, bus, sts, waypoints, i - 1, es[..|es| - 1]);
      var there := Drive(dist, Standing(bus, js), sts[e.station].pos);
      js + [there, Drive(dist, there.(range := there.range + e.units / Consumption(bus)), waypoints[i - 1])]
    else
      var js := Journey(dist, bus, sts, waypoints, i - 1, es);
      js + [Drive(dist, Standing(bus, js), waypoints[i - 1])]
  }

  function PathKm(dist: Distance, bus: Bus, js: seq<Stopover>): (km: real)
  {
    if js == [] then 0.0
    else PathKm(dist, bus, js[..|js| - 1]) + dist(Standing(bus, js[..|js| - 1]).place, js[|js| - 1].place)
  }

  lemma PathKmSnoc(dist: Distance, bus: Bus, js: seq<Stopover>, s: Stopover)
    ensures PathKm(dist, bus, js + [s]) == PathKm(dist, bus, js) + dist(Standing(bus, js).place, s.place)
  {
    assert (js + [s])[..|js|] == js;
  }

  /** The places of the first `i` waypoints are all visited, in order. */
  lemma {:induction false} JourneyVisits(dist: Distance, bus: Bus, sts: seq<Station>, waypoints: seq<Point>, i: nat, es: seq<Event>, k: nat)
    requires k < i <= |waypoints|
    ensures exists j :: 0 <= j < |Journey(dist, bus, sts, waypoints, i, es)|
                        && Journey(dist, bus, sts, waypoints, i, es)[j].place == waypoints[k]
  {
    var js := Journey(dist, bus, sts, waypoints, i, es);
    if k == i - 1 {
      assert js[|js| - 1].place == waypoints[k];
    } else {
      var rest := if es != [] && es[|es| - 1].at == i - 1 && es[|es| - 1].station < |sts| then es[..|es| - 1] else es;
      JourneyVisits(dist, bus, sts, waypoints, i - 1, rest, k);
      var front := Journey(dist, bus, sts, waypoints, i - 1, rest);
      assert front <= js;
      var j :| 0 <= j < |front| && front[j].place == waypoints[k];
      assert js[j] == front[j];
    }
  }

  function Ranges(js: seq<Stopover>): (rs: seq<real>)
    ensures |rs| == |js|
  {
    seq(|js|, i requires 0 <= i < |js| => js[i].range)
  }

  // ----------------------------------------------------------- what a plan has done

  function NeedAt(bus: Bus, from: Stopover): (n: Need)
  {
    Need(bus.energy, from.place, from.range, Capacity(bus) - EnergyFor(bus, from.range))
  }

  /** Refuel `e`, made from where the bus stood on the way to `target` when `before`
      had been made: the leg would have left under 20 km, the station was the chosen
      one, and the bus filled up or took all there was. */
  ghost predicate Justified(dist: Distance, bus: Bus, sts: seq<Station>, target: Point, from: Stopover, before: seq<Event>, e: Event)
  {
    var n, now := NeedAt(bus, from), Left(sts, bus.energy, before);
    && from.range - dist(from.place, target) < 20.0
    && Chosen(dist, n, now, e.station)
    && e.units == (if n.needed <= OnHand(now[e.station], bus.energy) then n.needed else OnHand(now[e.station], bus.energy))
    && e.before == from.range && (e.kwh <==> bus.energy == Battery)
  }

  /** Every refuel is marked for one of the first `i` waypoints, at most one for
      each, and is justified. */
  ghost predicate AllJustified(dist: Distance, bus: Bus, sts: seq<Station>, waypoints: seq<Point>, i: nat, es: seq<Event>)
    requires i <= |waypoints|
    decreases |es|
  {
    es == []
    || (var e, before := es[|es| - 1], es[..|es| - 1];
        && e.at < i
        && Justified(dist, bus, sts, waypoints[e.at],
                     Standing(bus, Journey(dist, bus, sts, waypoints, e.at, before)), before, e)
        && AllJustified(dist, bus, sts, waypoints, e.at, before))
  }

  /** The first `i` waypoints have been reached by the journey the refuels spell
      out: position, range, arrivals, kilometres and stock are those of it. */
  ghost predicate Drove(dist: Distance, bus: Bus, sts: seq<Station>, waypoints: seq<Point>, i: nat, t: Trip)
    requires i <= |waypoints|
  {
    var js := Journey(dist, bus, sts, waypoints, i, t.refuels);
    && Standing(bus, js) == Stopover(t.cur, t.remaining)
    && t.arrivals == Ranges(js)
    && t.km == PathKm(dist, bus, js)
    && t.stations == Left(sts, bus.energy, t.refuels)
    && AllJustified(dist, bus, sts, waypoints, i, t.refuels)
  }

  /** Given up before waypoint `k`: it is out of safe reach and no station suits. */
  ghost predicate GaveUp(dist: Distance, bus: Bus, sts: seq<Station>, waypoints: seq<Point>, k: nat, t: Trip)
  {
    && k < |waypoints| && Drove(dist, bus, sts, waypoints, k, t)
    && t.remaining - dist(t.cur, waypoints[k]) < 20.0
    && forall j :: 0 <= j < |t.stations| ==> !Suits(dist, NeedAt(bus, Stopover(t.cur, t.remaining)), t.stations[j])
  }

  /** Given up at a station on the way to waypoint `k`, which is out of safe reach
      even after the refuel made there. */
  ghost predicate FellShort(dist: Distance, bus: Bus, sts: seq<Station>, waypoints: seq<Point>, k: nat, t: Trip)
  {
    && k < |waypoints| && t.refuels != []
    && var e, before := t.refuels[|t.refuels| - 1], t.refuels[..|t.refuels| - 1];
       && e.at == k && e.station < |sts|
       && AllJustified(dist, bus, sts, waypoints, k + 1, t.refuels)
       && t.stations == Left(sts, bus.energy, t.refuels)
       && var js := Journey(dist, bus, sts, waypoints, k, before);
          var there := Drive(dist, Standing(bus, js), sts[e.station].pos);
          && t.cur == there.place && t.remaining == there.range + e.units / Consumption(bus)
          && t.arrivals == Ranges(js + [there]) && t.km == PathKm(dist, bus, js + [there])
          && t.remaining - dist(t.cur, waypoints[k]) < 20.0
  }

  // ------------------------------------------------------------------ step by step

  lemma {:induction false} JustifiedLonger(dist: Distance, bus: Bus, sts: seq<Station>, waypoints: seq<Point>, i: nat, es: seq<Event>)
    requires i < |waypoints| && AllJustified(dist, bus, sts, waypoints, i, es)
    ensures AllJustified(dist, bus, sts, waypoints, i + 1, es)
  {
  }

  lemma NotMarked(dist: Distance, bus: Bus, sts: seq<Station>, waypoints: seq<Point>, i: nat, es: seq<Event>)
    requires i < |waypoints| && AllJustified(dist, bus, sts, waypoints, i, es)
    ensures var js := Journey(dist, bus, sts, waypoints, i, es);
            Journey(dist, bus, sts, waypoints, i + 1, es) == js + [Drive(dist, Standing(bus, js), waypoints[i])]
  {
  }

  lemma DirectLeg(dist: Distance, bus: Bus, sts: seq<Station>, waypoints: seq<Point>, i: nat, t: Trip)
    requires i < |waypoints| && Drove(dist, bus, sts, waypoints, i, t)
    ensures Drove(dist, bus, sts, waypoints, i + 1, Arrive(dist, t, waypoints[i]))
  {
    var js := Journey(dist, bus, sts, waypoints, i, t.refuels);
    NotMarked(dist, bus, sts, waypoints, i, t.refuels);
    JustifiedLonger(dist, bus, sts, waypoints, i, t.refuels);
    PathKmSnoc(dist, bus, js, Drive(dist, Standing(bus, js), waypoints[i]));
    RangesSnoc(js, Drive(dist, Standing(bus, js), waypoints[i]));
  }

  lemma RangesSnoc(js: seq<Stopover>, s: Stopover)
    ensures Ranges(js + [s]) == Ranges(js) + [s.range]
  {
  }

  /** A visit to the chosen station, before the leg that follows it. */
  ghost predicate AtStation(dist: Distance, bus: Bus, sts: seq<Station>, waypoints: seq<Point>, i: nat, t: Trip, v: Trip)
    requires i < |waypoints|
  {
    var js := Journey(dist, bus, sts, waypoints, i, t.refuels);
    && |v.refuels| == |t.refuels| + 1 && v.refuels[..|t.refuels|] == t.refuels
    && var e := v.refuels[|t.refuels|];
       && e.at == i && e.station < |sts|
       && v.stations == Left(sts, bus.energy, v.refuels)
       && AllJustified(dist, bus, sts, waypoints, i + 1, v.refuels)
       && var there := Drive(dist, Standing(bus, js), sts[e.station].pos);
          && v.cur == there.place && v.remaining == there.range + e.units / Consumption(bus)
          && v.arrivals == Ranges(js + [there]) && v.km == PathKm(dist, bus, js + [there])
  }

  lemma VisitJustified(dist: Distance, bus: Bus, sts: seq<Station>, waypoints: seq<Point>, i: nat, t: Trip, c: nat)
    requires i < |waypoints| && Drove(dist, bus, sts, waypoints, i, t)
    requires t.remaining - dist(t.cur, waypoints[i]) < SAFETY
    requires Best(dist, NeedOf(bus, t), t.stations, |t.stations|) == Some(c)
    ensures var e := Event(c, MinReal(NeedOf(bus, t).needed, Stock(t.stations[c], bus.energy)), bus.energy.Battery?, i, t.remaining);
            && AllJustified(dist, bus, sts, waypoints, i + 1, t.refuels + [e])
            && Left(sts, bus.energy, t.refuels + [e]) == t.stations[c := Take(t.stations[c], bus.energy, e.units)]
  {
    var e := Event(c, MinReal(NeedOf(bus, t).needed, Stock(t.stations[c], bus.energy)), bus.energy.Battery?, i, t.remaining);
    LeftSnoc(sts, bus.energy, t.refuels, e);
    RefuelJustified(dist, bus, sts, waypoints[i], Stopover(t.cur, t.remaining), t.refuels, e);
    JustifiedSnoc(dist, bus, sts, waypoints, i, t.refuels, e);
  }

  lemma RefuelJustified(dist: Distance, bus: Bus, sts: seq<Station>, target: Point, from: Stopover, before: seq<Event>, e: Event)
    requires from.range - dist(from.place, target) < SAFETY
    requires var n, now := NeedAt(bus, from), Left(sts, bus.energy, before);
             && Best(dist, n, now, |now|) == Some(e.station)
             && e.units == MinReal(n.needed, Stock(now[e.station], bus.energy))
    requires e.before == from.range && e.kwh == bus.energy.Battery?
    ensures Justified(dist, bus, sts, target, from, before, e)
  {
    ChoiceIff(dist, NeedAt(bus, from), Left(sts, bus.energy, before), e.station);
  }

  lemma JustifiedSnoc(dist: Distance, bus: Bus, sts: seq<Station>, waypoints: seq<Point>, i: nat, es: seq<Event>, e: Event)
    requires i < |waypoints| && AllJustified(dist, bus, sts, waypoints, i, es) && e.at == i
    requires Justified(dist, bus, sts, waypoints[i], Standing(bus, Journey(dist, bus, sts, waypoints, i, es)), es, e)
    ensures AllJustified(dist, bus, sts, waypoints, i + 1, es + [e])
  {
    assert (es + [e])[..|es|] == es;
  }

  lemma VisitDrove(dist: Distance, bus: Bus, sts: seq<Station>, waypoints: seq<Point>, i: nat, t: Trip, c: nat)
    requires i < |waypoints| && Drove(dist, bus, sts, waypoints, i, t)
    requires t.remaining - dist(t.cur, waypoints[i]) < SAFETY
    requires Best(dist, NeedOf(bus, t), t.stations, |t.stations|) == Some(c)
    ensures AtStation(dist, bus, sts, waypoints, i, t, Visit(dist, bus, t, c, i))
  {
    var e := Event(c, MinReal(NeedOf(bus, t).needed, Stock(t.stations[c], bus.energy)), bus.energy.Battery?, i, t.remaining);
    VisitJustified(dist, bus, sts, waypoints, i, t, c);
    assert t.stations[c].pos == sts[c].pos;
    VisitMoves(dist, bus, sts, Journey(dist, bus, sts, waypoints, i, t.refuels), t, e);
    assert (t.refuels + [e])[..|t.refuels|] == t.refuels;
  }

  lemma VisitMoves(dist: Distance, bus: Bus, sts: seq<Station>, js: seq<Stopover>, t: Trip, e: Event)
    requires e.station < |t.stations| == |sts| && t.stations[e.station].pos == sts[e.station].pos
    requires e.units == MinReal(NeedOf(bus, t).needed, Stock(t.stations[e.station], bus.energy))
    requires e.kwh == bus.energy.Battery? && e.before == t.remaining
    requires Standing(bus, js) == Stopover(t.cur, t.remaining) && t.arrivals == Ranges(js) && t.km == PathKm(dist, bus, js)
    ensures var v := Visit(dist, bus, t, e.station, e.at);
            var there := Drive(dist, Standing(bus, js), sts[e.station].pos);
            && v.refuels == t.refuels + [e]
            && v.stations == t.stations[e.station := Take(t.stations[e.station], bus.energy, e.units)]
            && v.cur == there.place && v.remaining == there.range + e.units / Consumption(bus)
            && v.arrivals == Ranges(js + [there]) && v.km == PathKm(dist, bus, js + [there])
  {
    var there := Drive(dist, Standing(bus, js), sts[e.station].pos);
    PathKmSnoc(dist, bus, js, there);
    RangesSnoc(js, there);
  }

  lemma MarkedLeg(dist: Distance, bus: Bus, sts: seq<Station>, waypoints: seq<Point>, i: nat, t: Trip, v: Trip)
    requires i < |waypoints| && AtStation(dist, bus, sts, waypoints, i, t, v)
    ensures Drove(dist, bus, sts, waypoints, i + 1, Arrive(dist, v, waypoints[i]))
  {
    var js, e := Journey(dist, bus, sts, waypoints, i, t.refuels), v.refuels[|t.refuels|];
    var there := Drive(dist, Standing(bus, js), sts[e.station].pos);
    var last := Drive(dist, there.(range := there.range + e.units / Consumption(bus)), waypoints[i]);
    assert Journey(dist, bus, sts, waypoints, i + 1, v.refuels) == js + [there, last];
    assert js + [there, last] == (js + [there]) + [last];
    PathKmSnoc(dist, bus, js + [there], last);
    RangesSnoc(js + [there], last);
  }

  /** How a walk ended, in terms of the waypoints. */
  ghost predicate Ended(dist: Distance, bus: Bus, sts: seq<Station>, waypoints: seq<Point>, t: Trip, status: Status)
  {
    match status
    case Going => Drove(dist, bus, sts, waypoints, |waypoints|, t)
    case NoStation => exists k: nat :: GaveUp(dist, bus, sts, waypoints, k, t)
    case StillShort => exists k: nat :: FellShort(dist, bus, sts, waypoints, k, t)
  }

  lemma LegFollows(dist: Distance, bus: Bus, sts: seq<Station>, waypoints: seq<Point>, i: nat, t: Trip)
    requires i < |waypoints| && Drove(dist, bus, sts, waypoints, i, t)
    ensures var (u, status) := Leg(dist, bus, t, waypoints[i], i);
            if status.Going? then Drove(dist, bus, sts, waypoints, i + 1, u)
            else Ended(dist, bus, sts, waypoints, u, status)
  {
    var target := waypoints[i];
    if t.remaining - dist(t.cur, target) >= SAFETY {
      DirectLeg(dist, bus, sts, waypoints, i, t);
    } else {
      var n := NeedOf(bus, t);
      var choice := Best(dist, n, t.stations, |t.stations|);
      if choice.None? {
        ChoiceIff(dist, n, t.stations, 0);
        assert GaveUp(dist, bus, sts, waypoints, i, t);
      } else {
        var v := Visit(dist, bus, t, choice.value, i);
        VisitDrove(dist, bus, sts, waypoints, i, t, choice.value);
        if v.remaining - dist(v.cur, target) < SAFETY {
          assert FellShort(dist, bus, sts, waypoints, i, v);
        } else {
          MarkedLeg(dist, bus, sts, waypoints, i, t, v);
        }
      }
    }
  }

  lemma {:induction false} WalkFollows(dist: Distance, bus: Bus, sts: seq<Station>, waypoints: seq<Point>, i: nat, t: Trip)
    requires i <= |waypoints| && Drove(dist, bus, sts, waypoints, i, t)
    ensures var (u, status) := Walk(dist, bus, t, waypoints, i); Ended(dist, bus, sts, waypoints, u, status)
    decreases |waypoints| - i
  {
    if i < |waypoints| {
      LegFollows(dist, bus, sts, waypoints, i, t);
      var (u, status) := Leg(dist, bus, t, waypoints[i], i);
      if status.Going? {
        WalkFollows(dist, bus, sts, waypoints, i + 1, u);
      }
    }
  }

  /** Every plan follows its route: a feasible one has driven to every stop in order
      and to the depot, an infeasible one up to the leg it names; detours are made
      only where the leg would have left under 20 km, to the chosen station, for a
      full tank or all there was; range, kilometres and stock are those of that
      journey. */
  lemma PlanFollowsRoute(dist: Distance, bus: Bus, sts: seq<Station>, stops: seq<Point>, depot: Point)
    ensures var (t, status) := Plan(dist, bus, sts, stops, depot); Ended(dist, bus, sts, stops + [depot], t, status)
  {
    var t := Depart(bus, sts);
    assert Left(sts, bus.energy, []) == sts;
    WalkFollows(dist, bus, sts, stops + [depot], 0, t);
  }

  lemma {:induction false} JourneyLength(dist: Distance, bus: Bus, sts: seq<Station>, waypoints: seq<Point>, i: nat, es: seq<Event>)
    requires i <= |waypoints| && AllJustified(dist, bus, sts, waypoints, i, es)
    ensures |Journey(dist, bus, sts, waypoints, i, es)| == i + |es|
  {
    if i > 0 {
      if es != [] && es[|es| - 1].at == i - 1 {
        JourneyLength(dist, bus, sts, waypoints, i - 1, es[..|es| - 1]);
      } else {
        JourneyLength(dist, bus, sts, waypoints, i - 1, es);
      }
    }
  }

  /** So a feasible plan ends at the depot after one arrival per stop, refuel and
      depot, has visited every stop, and has driven exactly that path. */
  lemma FeasiblePlanVisitsAll(dist: Distance, bus: Bus, sts: seq<Station>, stops: seq<Point>, depot: Point)
    requires Plan(dist, bus, sts, stops, depot).1.Going?
    ensures var t := Plan(dist, bus, sts, stops, depot).0;
            var js := Journey(dist, bus, sts, stops + [depot], |stops| + 1, t.refuels);
            && t.cur == depot && |t.arrivals| == |stops| + 1 + |t.refuels| && t.km == PathKm(dist, bus, js)
            && forall k :: 0 <= k < |stops| ==> exists j :: 0 <= j < |js| && js[j].place == stops[k]
  {
    var t, waypoints := Plan(dist, bus, sts, stops, depot).0, stops + [depot];
    PlanFollowsRoute(dist, bus, sts, stops, depot);
    JourneyLength(dist, bus, sts, waypoints, |waypoints|, t.refuels);
    var js := Journey(dist, bus, sts, waypoints, |waypoints|, t.refuels);
    forall k | 0 <= k < |stops| ensures exists j :: 0 <= j < |js| && js[j].place == stops[k] {
      JourneyVisits(dist, bus, sts, waypoints, |waypoints|, t.refuels, k);
      assert waypoints[k] == stops[k];
    }
  }
}
