/** Phase 2 of the route optimizer: walk a route, insert refuels against shared
    station stock, and write the planned draw-down back. Distances are any
    function of two points; amounts are exact reals. A station is named by its
    position in the list of stations. */
module Refuel {
  import opened Common

  type Point = (real, real)
  type Distance = (Point, Point) -> real

  datatype Energy = H2 | Battery | Diesel | Cng | OtherEnergy
  datatype StationType = H2Station | EvCharger | DieselStation | CngStation | Mixed | OtherStation

  datatype Bus = Bus(pos: Point, energy: Energy, h2Capacity: real, levelPct: real,
                     energyCapacity: Option<real>, learned: Option<real>)

  datatype Station = Station(pos: Point, kind: StationType, kg: real, kwh: Option<real>)

  const SAFETY: real := 20.0
  const MIXED_FACTOR: real := 1.25
  const WORTHWHILE: real := 5.0

  function MinReal(a: real, b: real): (m: real)
  {
    if a <= b then a else b
  }

  /** Learned rate when there is a positive one, else the fleet default. */
  function Consumption(bus: Bus): (c: real)
    ensures c > 0.0
  {
    if bus.learned.Some? && bus.learned.value > 0.0 then bus.learned.value / 100.0
    else match bus.energy
      case Battery => 1.1
      case Diesel => 0.40
      case Cng => 0.30
      case _ => 0.08
  }

  /** Energy for `km` kilometres. */
  function EnergyFor(bus: Bus, km: real): (u: real)
  {
    km * Consumption(bus)
  }

  function Capacity(bus: Bus): (u: real)
  {
    if bus.energy.H2? || bus.energyCapacity.None? then bus.h2Capacity else bus.energyCapacity.value
  }

  function LevelUnits(bus: Bus): (u: real)
  {
    Capacity(bus) * bus.levelPct / 100.0
  }

  function RangeKm(bus: Bus): (km: real)
  {
    LevelUnits(bus) / Consumption(bus)
  }

  predicate Serves(kind: StationType, energy: Energy)
  {
    || kind.Mixed?
    || kind == match energy
        case Battery => EvCharger
        case Diesel => DieselStation
        case Cng => CngStation
        case _ => H2Station
  }

  predicate DrawsKwh(st: Station, energy: Energy)
  {
    energy.Battery? && st.kwh.Some?
  }

  function Stock(st: Station, energy: Energy): (u: real)
  {
    if DrawsKwh(st, energy) then st.kwh.value else st.kg
  }

  function Take(st: Station, energy: Energy, units: real): (t: Station)
  {
    if DrawsKwh(st, energy) then st.(kwh := Some(st.kwh.value - units)) else st.(kg := st.kg - units)
  }

  function Weight(st: Station): (w: real)
  {
    if st.kind.Mixed? then MIXED_FACTOR else 1.0
  }

  // ------------------------------------------------------------------ choosing

  /** Where the bus is, what it may still drive, and what it would take. */
  datatype Need = Need(energy: Energy, cur: Point, remaining: real, needed: real)

  predicate Qualifies(dist: Distance, n: Need, st: Station)
  {
    && Serves(st.kind, n.energy)
    && dist(n.cur, st.pos) <= n.remaining - SAFETY
    && Stock(st, n.energy) >= MinReal(n.needed, WORTHWHILE)
  }

  function Weighted(dist: Distance, n: Need, st: Station): (d: real)
  {
    dist(n.cur, st.pos) * Weight(st)
  }

  /** Nearer after weighting, then nearer outright. */
  predicate Nearer(dist: Distance, n: Need, a: Station, b: Station)
  {
    || Weighted(dist, n, a) < Weighted(dist, n, b)
    || (Weighted(dist, n, a) == Weighted(dist, n, b) && dist(n.cur, a.pos) < dist(n.cur, b.pos))
  }

  /** The station chosen among the first `k`. */
  function Best(dist: Distance, n: Need, sts: seq<Station>, k: nat): (r: Option<nat>)
    requires k <= |sts|
    ensures r.Some? ==> r.value < k
  {
    if k == 0 then None
    else
      var b := Best(dist, n, sts, k - 1);
      if !Qualifies(dist, n, sts[k - 1]) then b
      else if b.None? || Nearer(dist, n, sts[k - 1], sts[b.value]) then Some(k - 1)
      else b
  }

  /** The candidate loop and the minimum taken over it. */
  method ChooseStation(dist: Distance, n: Need, sts: seq<Station>) returns (r: Option<nat>)
    ensures r == Best(dist, n, sts, |sts|)
  {
    r := None;
    for k := 0 to |sts|
      invariant r == Best(dist, n, sts, k)
    {
      var st := sts[k];
      if !Serves(st.kind, n.energy) { continue; }
      if dist(n.cur, st.pos) > n.remaining - SAFETY { continue; }
      if Stock(st, n.energy) < MinReal(n.needed, WORTHWHILE) { continue; }
      if r.None? || Nearer(dist, n, st, sts[r.value]) {
        r := Some(k);
      }
    }
  }

  /** `i` qualifies, nothing that qualifies is nearer, and it is the first such. */
  ghost predicate IsBest(dist: Distance, n: Need, sts: seq<Station>, k: nat, i: nat)
    requires k <= |sts|
  {
    && i < k && Qualifies(dist, n, sts[i])
    && forall j :: 0 <= j < k && Qualifies(dist, n, sts[j]) ==>
         !Nearer(dist, n, sts[j], sts[i]) && (j < i ==> Nearer(dist, n, sts[i], sts[j]))
  }

  /** The planner's choice is sound and complete: it names a compatible, safely
      reachable, sufficiently stocked station of least weighted distance, and
      it names none exactly when no station in the list qualifies. */
  lemma {:induction false} ChoiceIsBest(dist: Distance, n: Need, sts: seq<Station>, k: nat)
    requires k <= |sts|
    ensures Best(dist, n, sts, k).None? <==> forall j :: 0 <= j < k ==> !Qualifies(dist, n, sts[j])
    ensures Best(dist, n, sts, k).Some? ==> IsBest(dist, n, sts, k, Best(dist, n, sts, k).value)
  {
    if k > 0 {
      ChoiceIsBest(dist, n, sts, k - 1);
      var b := Best(dist, n, sts, k - 1);
      if Qualifies(dist, n, sts[k - 1]) {
        if b.Some? && Nearer(dist, n, sts[k - 1], sts[b.value]) {
          NewBest(dist, n, sts, k, b.value);
        } else if b.Some? {
          OldBest(dist, n, sts, k, b.value);
        }
      }
    }
  }

  lemma NewBest(dist: Distance, n: Need, sts: seq<Station>, k: nat, b: nat)
    requires 0 < k <= |sts| && IsBest(dist, n, sts, k - 1, b)
    requires Qualifies(dist, n, sts[k - 1]) && Nearer(dist, n, sts[k - 1], sts[b])
    ensures IsBest(dist, n, sts, k, k - 1)
  {
    forall j | 0 <= j < k && Qualifies(dist, n, sts[j])
      ensures !Nearer(dist, n, sts[j], sts[k - 1]) && (j < k - 1 ==> Nearer(dist, n, sts[k - 1], sts[j]))
    {
      if j < k - 1 {
        NearerTotal(dist, n, sts[k - 1], sts[b], sts[j]);
      }
    }
  }

  lemma OldBest(dist: Distance, n: Need, sts: seq<Station>, k: nat, b: nat)
    requires 0 < k <= |sts| && IsBest(dist, n, sts, k - 1, b)
    requires !Nearer(dist, n, sts[k - 1], sts[b])
    ensures IsBest(dist, n, sts, k, b)
  {
  }

  lemma NearerTotal(dist: Distance, n: Need, a: Station, b: Station, c: Station)
    requires Nearer(dist, n, a, b) && !Nearer(dist, n, c, b)
    ensures Nearer(dist, n, a, c)
  {
  }

  // ------------------------------------------------------------------- walking

  /** One planned refuel. `kwh` is its unit label, set by the bus's energy type. */
  datatype Event = Event(station: nat, units: real, kwh: bool, at: nat, before: real)

  /** The planner's variables, with a record of the trip so far: the range left
      on each arrival, the kilometres driven and the units taken. */
  datatype Trip = Trip(remaining: real, cur: Point, stations: seq<Station>, refuels: seq<Event>,
                       arrivals: seq<real>, km: real, taken: real)

  datatype Status = Going | NoStation | StillShort

  function NeedOf(bus: Bus, t: Trip): (n: Need)
  {
    Need(bus.energy, t.cur, t.remaining, Capacity(bus) - EnergyFor(bus, t.remaining))
  }

  function Arrive(dist: Distance, t: Trip, target: Point): (r: Trip)
  {
    var leg := dist(t.cur, target);
    t.(remaining := t.remaining - leg, cur := target, arrivals := t.arrivals + [t.remaining - leg], km := t.km + leg)
  }

  function Visit(dist: Distance, bus: Bus, t: Trip, i: nat, seqNo: nat): (r: Trip)
    requires i < |t.stations|
  {
    var st := t.stations[i];
    var d := dist(t.cur, st.pos);
    var units := MinReal(NeedOf(bus, t).needed, Stock(st, bus.energy));
    Trip((t.remaining - d) + units / Consumption(bus), st.pos,
         t.stations[i := Take(st, bus.energy, units)],
         t.refuels + [Event(i, units, bus.energy.Battery?, seqNo, t.remaining)],
         t.arrivals + [t.remaining - d], t.km + d, t.taken + units)
  }

  function Leg(dist: Distance, bus: Bus, t: Trip, target: Point, seqNo: nat): (r: (Trip, Status))
  {
    if t.remaining - dist(t.cur, target) >= SAFETY then (Arrive(dist, t, target), Going)
    else
      var choice := Best(dist, NeedOf(bus, t), t.stations, |t.stations|);
      if choice.None? then (t, NoStation)
      else
        var v := Visit(dist, bus, t, choice.value, seqNo);
        if v.remaining - dist(v.cur, target) < SAFETY then (v, StillShort)
        else (Arrive(dist, v, target), Going)
  }

  /** The rest of the route from waypoint `i` on. */
  function Walk(dist: Distance, bus: Bus, t: Trip, waypoints: seq<Point>, i: nat): (r: (Trip, Status))
    requires i <= |waypoints|
    decreases |waypoints| - i
  {
    if i == |waypoints| then (t, Going)
    else
      var (u, status) := Leg(dist, bus, t, waypoints[i], i);
      if status.Going? then Walk(dist, bus, u, waypoints, i + 1) else (u, status)
  }

  function Depart(bus: Bus, stations: seq<Station>): (t: Trip)
  {
    Trip(RangeKm(bus), bus.pos, stations, [], [], 0.0, 0.0)
  }

  function Plan(dist: Distance, bus: Bus, stations: seq<Station>, stops: seq<Point>, depot: Point): (r: (Trip, Status))
  {
    Walk(dist, bus, Depart(bus, stations), stops + [depot], 0)
  }

  /** Decrements one station's stock in place: the stock the bus draws on falls by
      `units`; the other column, the place and kind, and all other stations stay. */
  method TakeFrom(stations: array<Station>, i: nat, energy: Energy, units: real)
    requires i < stations.Length
    modifies stations
    ensures Stock(stations[i], energy) == Stock(old(stations[i]), energy) - units
    ensures DrawsKwh(stations[i], energy) == DrawsKwh(old(stations[i]), energy)
    ensures if DrawsKwh(stations[i], energy) then stations[i].kg == old(stations[i].kg)
            else stations[i].kwh == old(stations[i].kwh)
    ensures stations[i].pos == old(stations[i].pos) && stations[i].kind == old(stations[i].kind)
    ensures forall j :: 0 <= j < stations.Length && j != i ==> stations[j] == old(stations[j])
  {
    stations[i] := Take(stations[i], energy, units);
  }

  /** The detour before a leg: choose a station, take from it in place, and
      return the refuel with the range and position after it. */
  method RefuelBefore(dist: Distance, bus: Bus, stations: array<Station>, remaining: real, cur: Point, seqNo: nat, ghost t: Trip)
    returns (found: bool, event: Event, range: real, at: Point)
    requires t.remaining == remaining && t.cur == cur && t.stations == stations[..]
    modifies stations
    ensures found == Best(dist, NeedOf(bus, t), t.stations, |t.stations|).Some?
    ensures !found ==> stations[..] == t.stations
    ensures found ==>
              var v := Visit(dist, bus, t, Best(dist, NeedOf(bus, t), t.stations, |t.stations|).value, seqNo);
              stations[..] == v.stations && v.refuels == t.refuels + [event] && v.remaining == range && v.cur == at
  {
    event, range, at := Event(0, 0.0, false, seqNo, remaining), remaining, cur;
    var need := Need(bus.energy, cur, remaining, Capacity(bus) - EnergyFor(bus, remaining));
    assert need == NeedOf(bus, t);
    var choice := ChooseStation(dist, need, stations[..]);
    found := choice.Some?;
    if found {
      var st := stations[choice.value];
      var units := MinReal(need.needed, Stock(st, bus.energy));
      event := Event(choice.value, units, bus.energy.Battery?, seqNo, remaining);
      range := (remaining - dist(cur, st.pos)) + units / Consumption(bus);
      at := st.pos;
      TakeFrom(stations, choice.value, bus.energy, units);
      assert stations[choice.value] == Take(st, bus.energy, units);
    }
  }

  /** `plan_refuels`, updating the shared stations in place. */
  method PlanRefuels(dist: Distance, bus: Bus, stations: array<Station>, stops: seq<Point>, depot: Point)
    returns (refuels: seq<Event>, energyEnd: real, feasible: bool)
    modifies stations
    ensures var (t, status) := Plan(dist, bus, old(stations[..]), stops, depot);
            && stations[..] == t.stations && refuels == t.refuels
            && energyEnd == EnergyFor(bus, t.remaining) && feasible == status.Going?
  {
    var waypoints := stops + [depot];
    var remaining, cur := RangeKm(bus), bus.pos;
    refuels := [];
    ghost var t := Depart(bus, stations[..]);
    ghost var planned := Walk(dist, bus, t, waypoints, 0);
    for seqNo := 0 to |waypoints|
      invariant t.remaining == remaining && t.cur == cur && t.stations == stations[..] && t.refuels == refuels
      invariant Walk(dist, bus, t, waypoints, seqNo) == planned
    {
      var target := waypoints[seqNo];
      var leg := dist(cur, target);
      ghost var step := Leg(dist, bus, t, target, seqNo);
      if remaining - leg < SAFETY {
        ghost var choice := Best(dist, NeedOf(bus, t), t.stations, |t.stations|);
        var found, event, range, at := RefuelBefore(dist, bus, stations, remaining, cur, seqNo, t);
        if !found {
          assert planned == (t, NoStation);
          return refuels, EnergyFor(bus, remaining), false;
        }
        t := Visit(dist, bus, t, choice.value, seqNo);
        refuels, remaining, cur := refuels + [event], range, at;
        leg := dist(cur, target);
        if remaining - leg < SAFETY {
          assert planned == (t, StillShort);
          return refuels, EnergyFor(bus, remaining), false;
        }
      }
      t := Arrive(dist, t, target);
      assert step == (t, Going);
      remaining, cur := remaining - leg, target;
    }
    energyEnd, feasible := EnergyFor(bus, remaining), true;
  }
}
