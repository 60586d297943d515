/** Per-bus learned fuel consumption: pairs of consecutive readings with genuine
    distance and a genuine drop feed a running mean. */
module Fuel {
  import opened Common

  const MIN_PAIR_KM: real := 1.0
  const MAX_DROP_PCT: real := 30.0

  /** A fuel.reading message; either figure may be missing. */
  datatype Message = Message(bus: int, pct: Option<real>, odo: Option<real>)

  datatype Reading = Reading(pct: real, odo: real)
  datatype Row = Row(rate: real, km: real, samples: nat)
  datatype Pair = Pair(rate: real, km: real)

  /** `fleet.vehicles.h2_capacity_kg` by bus, 0 when unknown. */
  type Capacities = int -> real

  function RateOf(prev: Reading, next: Reading, capacity: real): (r: Option<real>)
  {
    var km, drop := next.odo - prev.odo, prev.pct - next.pct;
    if capacity <= 0.0 || km < MIN_PAIR_KM then None
    else if drop <= 0.0 || drop > MAX_DROP_PCT then None
    else Some(capacity * (drop / 100.0) / km * 100.0)
  }

  /** Which pairs are accepted, and what the rate means: per 100 km, times the
      distance, it is the energy used. */
  lemma RateMeans(prev: Reading, next: Reading, capacity: real)
    ensures var r := RateOf(prev, next, capacity);
            && (r.Some? <==> capacity > 0.0 && next.odo >= prev.odo + 1.0 && 0.0 < prev.pct - next.pct <= 30.0)
            && (r.Some? ==> r.value > 0.0 && r.value * (next.odo - prev.odo) == capacity * (prev.pct - next.pct))
  {
    if RateOf(prev, next, capacity).Some? {
      var used := capacity * ((prev.pct - next.pct) / 100.0);
      assert used > 0.0;
      RateTimesDistance(used, next.odo - prev.odo);
    }
  }

  lemma RateTimesDistance(used: real, km: real)
    requires km > 0.0 && used > 0.0
    ensures used / km * 100.0 * km == used * 100.0 && used / km * 100.0 > 0.0
  {
    assert used / km * km == used;
  }

  function Upsert(row: Option<Row>, rate: real, km: real): (r: Row)
  {
    match row
    case None => Row(rate, km, 1)
    case Some(o) => Row((o.rate * o.samples as real + rate) / (o.samples + 1) as real, o.km + km, o.samples + 1)
  }

  datatype State = State(last: map<int, Reading>, rows: map<int, Row>)

  function LastOf(s: State, bus: int): (r: Option<Reading>)
  {
    if bus in s.last then Some(s.last[bus]) else None
  }

  function RowOf(s: State, bus: int): (r: Option<Row>)
  {
    if bus in s.rows then Some(s.rows[bus]) else None
  }

  function Observe(caps: Capacities, s: State, m: Message): (t: State)
  {
    if m.pct.None? || m.odo.None? then s
    else
      var next := Reading(m.pct.value, m.odo.value);
      var prev := LastOf(s, m.bus);
      var rate := if prev.Some? then RateOf(prev.value, next, caps(m.bus)) else None;
      State(s.last[m.bus := next],
            if rate.Some? then s.rows[m.bus := Upsert(RowOf(s, m.bus), rate.value, next.odo - prev.value.odo)]
            else s.rows)
  }

  const EMPTY: State := State(map[], map[])

  /** One process run over the messages `ms`. */
  function ObserveAll(caps: Capacities, s: State, ms: seq<Message>): (t: State)
  {
    if ms == [] then s else Observe(caps, ObserveAll(caps, s, ms[..|ms| - 1]), ms[|ms| - 1])
  }

  /** A restarted consumer has forgotten the last readings; the rows stay. */
  function Restarted(s: State): (t: State)
  {
    State(map[], s.rows)
  }

  /** Any number of process runs, one after another. */
  function ObserveRuns(caps: Capacities, runs: seq<seq<Message>>): (s: State)
  {
    if runs == [] then EMPTY
    else ObserveAll(caps, Restarted(ObserveRuns(caps, runs[..|runs| - 1])), runs[|runs| - 1])
  }

  // ------------------------------------------------------------ the simple spec

  /** One bus's complete readings, in order. */
  function ReadingsOf(ms: seq<Message>, bus: int): (rs: seq<Reading>)
  {
    if ms == [] then []
    else
      var m := ms[|ms| - 1];
      ReadingsOf(ms[..|ms| - 1], bus)
      + (if m.bus == bus && m.pct.Some? && m.odo.Some? then [Reading(m.pct.value, m.odo.value)] else [])
  }

  /** The accepted pairs among consecutive readings. */
  function PairsOf(rs: seq<Reading>, capacity: real): (ps: seq<Pair>)
  {
    if |rs| < 2 then []
    else
      var n := |rs| - 1;
      var rate := RateOf(rs[n - 1], rs[n], capacity);
      PairsOf(rs[..n], capacity) + (if rate.Some? then [Pair(rate.value, rs[n].odo - rs[n - 1].odo)] else [])
  }

  /** The accepted pairs of one bus, each within one process run. */
  function PairsOfRuns(runs: seq<seq<Message>>, bus: int, capacity: real): (ps: seq<Pair>)
  {
    if runs == [] then []
    else PairsOfRuns(runs[..|runs| - 1], bus, capacity) + PairsOf(ReadingsOf(runs[|runs| - 1], bus), capacity)
  }

  function SumRate(ps: seq<Pair>): (x: real)
  {
    if ps == [] then 0.0 else SumRate(ps[..|ps| - 1]) + ps[|ps| - 1].rate
  }

  function SumKm(ps: seq<Pair>): (x: real)
  {
    if ps == [] then 0.0 else SumKm(ps[..|ps| - 1]) + ps[|ps| - 1].km
  }

  /** The row is the exact mean, distance and count of the pairs. */
  predicate Summarises(row: Option<Row>, ps: seq<Pair>)
  {
    match row
    case None => ps == []
    case Some(r) =>
      ps != [] && r.samples == |ps| && r.km == SumKm(ps) && r.rate * |ps| as real == SumRate(ps)
  }

  lemma UpsertSummarises(row: Option<Row>, ps: seq<Pair>, p: Pair)
    requires Summarises(row, ps)
    ensures Summarises(Some(Upsert(row, p.rate, p.km)), ps + [p])
  {
    var qs := ps + [p];
    assert qs[..|ps|] == ps;
    if row.Some? {
      var n := (row.value.samples + 1) as real;
      var x := row.value.rate * row.value.samples as real + p.rate;
      assert x / n * n == x;
    }
  }

  /** Each bus's row, after any number of process runs over any interleaved
      streams, depends only on that bus's own readings and is the exact mean, count
      and distance of its accepted pairs of consecutive readings within a run. */
  lemma {:induction false} RowIsExactMean(caps: Capacities, runs: seq<seq<Message>>, bus: int)
    ensures Summarises(RowOf(ObserveRuns(caps, runs), bus), PairsOfRuns(runs, bus, caps(bus)))
  {
    if runs != [] {
      var before := runs[..|runs| - 1];
      RowIsExactMean(caps, before, bus);
      RunSummarises(caps, Restarted(ObserveRuns(caps, before)), PairsOfRuns(before, bus, caps(bus)), runs[|runs| - 1], bus);
    }
  }

  /** One process run adds exactly the pairs of its own readings. */
  lemma {:induction false} RunSummarises(caps: Capacities, s: State, ps: seq<Pair>, ms: seq<Message>, bus: int)
    requires LastOf(s, bus) == None && Summarises(RowOf(s, bus), ps)
    ensures var t := ObserveAll(caps, s, ms);
            var rs := ReadingsOf(ms, bus);
            && Summarises(RowOf(t, bus), ps + PairsOf(rs, caps(bus)))
            && LastOf(t, bus) == if rs == [] then None else Some(rs[|rs| - 1])
    decreases |ms|
  {
    if ms == [] {
      assert ps + [] == ps;
    } else {
      var before, m := ms[..|ms| - 1], ms[|ms| - 1];
      RunSummarises(caps, s, ps, before, bus);
      if m.bus == bus && m.pct.Some? && m.odo.Some? {
        ObserveSummarises(caps, ObserveAll(caps, s, before), ps, ReadingsOf(before, bus), m);
      } else {
        ObserveOther(caps, ObserveAll(caps, s, before), m, bus);
        assert ReadingsOf(ms, bus) == ReadingsOf(before, bus) + [] == ReadingsOf(before, bus);
      }
    }
  }

  lemma ObserveOther(caps: Capacities, s: State, m: Message, bus: int)
    requires m.bus != bus || m.pct.None? || m.odo.None?
    ensures var t := Observe(caps, s, m); RowOf(t, bus) == RowOf(s, bus) && LastOf(t, bus) == LastOf(s, bus)
  {
  }

  function NextRow(row: Option<Row>, rate: Option<real>, km: real): (r: Option<Row>)
  {
    if rate.Some? then Some(Upsert(row, rate.value, km)) else row
  }

  function NextPairs(ps: seq<Pair>, rate: Option<real>, km: real): (r: seq<Pair>)
  {
    ps + (if rate.Some? then [Pair(rate.value, km)] else [])
  }

  /** What a complete message does to its bus's row and last reading. */
  lemma ObserveRow(caps: Capacities, s: State, m: Message, prev: Option<Reading>, next: Reading)
    requires m.pct.Some? && m.odo.Some? && next == Reading(m.pct.value, m.odo.value) && prev == LastOf(s, m.bus)
    ensures LastOf(Observe(caps, s, m), m.bus) == Some(next)
    ensures RowOf(Observe(caps, s, m), m.bus) ==
            if prev.None? then RowOf(s, m.bus)
            else NextRow(RowOf(s, m.bus), RateOf(prev.value, next, caps(m.bus)), next.odo - prev.value.odo)
  {
  }

  lemma SummaryStep(row: Option<Row>, ps: seq<Pair>, pairs: seq<Pair>, rate: Option<real>, km: real)
    requires Summarises(row, ps + pairs)
    ensures Summarises(NextRow(row, rate, km), ps + NextPairs(pairs, rate, km))
  {
    if rate.Some? {
      UpsertSummarises(row, ps + pairs, Pair(rate.value, km));
      Associate(ps, pairs, [Pair(rate.value, km)]);
    } else {
      assert pairs + [] == pairs;
    }
  }

  lemma PairsSnoc(rs: seq<Reading>, next: Reading, capacity: real)
    ensures rs == [] ==> PairsOf(rs + [next], capacity) == PairsOf(rs, capacity)
    ensures rs != [] ==>
              var prev := rs[|rs| - 1];
              PairsOf(rs + [next], capacity)
              == NextPairs(PairsOf(rs, capacity), RateOf(prev, next, capacity), next.odo - prev.odo)
  {
    var all := rs + [next];
    assert all[..|all| - 1] == rs;
  }

  lemma ObserveSummarises(caps: Capacities, s: State, ps: seq<Pair>, rs: seq<Reading>, m: Message)
    requires m.pct.Some? && m.odo.Some?
    requires Summarises(RowOf(s, m.bus), ps + PairsOf(rs, caps(m.bus)))
    requires LastOf(s, m.bus) == if rs == [] then None else Some(rs[|rs| - 1])
    ensures var t := Observe(caps, s, m);
            var next := Reading(m.pct.value, m.odo.value);
            Summarises(RowOf(t, m.bus), ps + PairsOf(rs + [next], caps(m.bus))) && LastOf(t, m.bus) == Some(next)
  {
    var next := Reading(m.pct.value, m.odo.value);
    ObserveRow(caps, s, m, LastOf(s, m.bus), next);
    PairsSnoc(rs, next, caps(m.bus));
    if rs != [] {
      var prev := rs[|rs| - 1];
      SummaryStep(RowOf(s, m.bus), ps, PairsOf(rs, caps(m.bus)), RateOf(prev, next, caps(m.bus)), next.odo - prev.odo);
    }
  }

  lemma Associate(a: seq<Pair>, b: seq<Pair>, c: seq<Pair>)
    ensures a + b + c == a + (b + c)
  {
  }

  /** The consumer loop's state: last readings in memory, rows in the database,
      capacities fetched once per bus. */
  class FuelLearner {
    const caps: Capacities
    var fuelState: map<int, Reading>
    var capacityCache: map<int, real>
    var rows: map<int, Row>

    ghost predicate Valid()
      reads this
    {
      forall b :: b in capacityCache ==> capacityCache[b] == caps(b)
    }

    /** A consumer starting on the rows that are stored. */
    constructor (caps: Capacities, stored: State)
      ensures Valid() && this.caps == caps && State(fuelState, rows) == Restarted(stored)
    {
      this.caps := caps;
      fuelState, capacityCache, rows := map[], map[], stored.rows;
    }

    method Handle(m: Message)
      requires Valid()
      modifies this
      ensures Valid() && State(fuelState, rows) == Observe(caps, old(State(fuelState, rows)), m)
    {
      if m.pct.None? || m.odo.None? { return; }
      var next := Reading(m.pct.value, m.odo.value);
      if m.bus in fuelState {
        var prev := fuelState[m.bus];
        if m.bus !in capacityCache {
          capacityCache := capacityCache[m.bus := caps(m.bus)];
        }
        var rate := RateOf(prev, next, capacityCache[m.bus]);
        if rate.Some? {
          var row := if m.bus in rows then Some(rows[m.bus]) else None;
          rows := rows[m.bus := Upsert(row, rate.value, next.odo - prev.odo)];
        }
      }
      fuelState := fuelState[m.bus := next];
    }
  }
}
