/** OCPP 1.6 transactions of one charge-point connection over the shared table of
    charging sessions, while other connections work on sessions of their own. */
module Ocpp {
  import opened Common

  datatype Session = Session(meterStart: real, meterStop: Option<real>, kwh: Option<real>, completed: bool)

  type Sessions = map<nat, Session>

  /** `started` is not stored by the program: the sessions this connection began. */
  datatype Conn = Conn(nextTx: nat, open: map<nat, nat>, table: Sessions, started: set<nat>)

  /** `id` is the fresh row id the database hands out on an insert. */
  datatype Event =
    | Start(authorized: bool, known: bool, id: nat, meter: real)
    | Meter(sampled: Option<nat>, value: Option<real>)
    | Stop(tx: nat, meter: real)
    | OtherStart(id: nat, meter: real)
    | OtherMeter(id: nat, register: real)
    | OtherStop(id: nat, meter: real)

  const CONNECTED: Conn := Conn(1, map[], map[], {})

  // ----------------------------------------------------------- guarded row updates

  function Insert(t: Sessions, id: nat, meter: real): (r: Sessions)
  {
    t[id := Session(meter, None, None, false)]
  }

  /** Energy between two meter readings, in kWh. */
  function Energy(start: real, stop: real, factor: real): (kwh: real)
  {
    (stop - start) * factor
  }

  function UpdateKwh(t: Sessions, id: nat, register: real, factor: real): (r: Sessions)
  {
    if id in t && !t[id].completed then t[id := t[id].(kwh := Some(Energy(t[id].meterStart, register, factor)))] else t
  }

  function Complete(t: Sessions, id: nat, meter: real, factor: real): (r: Sessions)
  {
    if id in t && !t[id].completed
    then t[id := t[id].(meterStop := Some(meter), kwh := Some(Energy(t[id].meterStart, meter, factor)), completed := true)]
    else t
  }

  // --------------------------------------------------------------------- handlers

  predicate Accepted(c: Conn, e: Event)
  {
    e.Start? && e.authorized && e.known && e.id !in c.table
  }

  function StartStep(c: Conn, e: Event): (r: Conn)
    requires e.Start?
  {
    if !Accepted(c, e) then c
    else Conn(c.nextTx + 1, c.open[c.nextTx := e.id], Insert(c.table, e.id, e.meter), c.started + {e.id})
  }

  function MeterStep(c: Conn, tx: Option<nat>, register: Option<real>, factor: real): (r: Conn)
  {
    if tx.Some? && tx.value in c.open && register.Some?
    then c.(table := UpdateKwh(c.table, c.open[tx.value], register.value, factor)) else c
  }

  function StopStep(c: Conn, tx: nat, meter: real, factor: real): (r: Conn)
  {
    if tx !in c.open then c
    else c.(open := c.open - {tx}, table := Complete(c.table, c.open[tx], meter, factor))
  }

  function Step(c: Conn, e: Event, factor: real): (r: Conn)
  {
    match e
    case Start(_, _, _, _) => StartStep(c, e)
    case Meter(tx, register) => MeterStep(c, tx, register, factor)
    case Stop(tx, meter) => StopStep(c, tx, meter, factor)
    case OtherStart(id, meter) => if id in c.table then c else c.(table := Insert(c.table, id, meter))
    case OtherMeter(id, register) =>
      if id in c.started then c else c.(table := UpdateKwh(c.table, id, register, factor))
    case OtherStop(id, meter) =>
      if id in c.started then c else c.(table := Complete(c.table, id, meter, factor))
  }

  function Exec(c: Conn, es: seq<Event>, factor: real): (r: Conn)
    decreases |es|
  {
    if es == [] then c else Exec(Step(c, es[0], factor), es[1..], factor)
  }

  // ------------------------------------------------------------------- invariant

  /** The sessions this connection started that are still active. */
  function Active(c: Conn): (ids: set<nat>)
  {
    set id | id in c.started && id in c.table && !c.table[id].completed
  }

  predicate Injective(m: map<nat, nat>)
  {
    forall x, y :: x in m && y in m && m[x] == m[y] ==> x == y
  }

  /** A completed session carries the energy between its two meter readings. */
  predicate EnergyRecorded(t: Sessions, factor: real)
  {
    forall id :: id in t && t[id].completed ==>
      t[id].meterStop.Some? && t[id].kwh == Some(Energy(t[id].meterStart, t[id].meterStop.value, factor))
  }

  /** The transaction map is injective onto exactly the sessions this connection
      started that are still active. */
  predicate Tracks(c: Conn, factor: real)
  {
    && c.nextTx >= 1
    && (forall tx :: tx in c.open ==> 1 <= tx < c.nextTx)
    && Injective(c.open)
    && c.open.Values == Active(c)
    && (forall id :: id in c.started ==> id in c.table)
    && EnergyRecorded(c.table, factor)
  }

  lemma ValuesAdd(m: map<nat, nat>, k: nat, v: nat)
    requires k !in m
    ensures m[k := v].Values == m.Values + {v}
  {
    var n := m[k := v];
    forall x | x in m.Values + {v} ensures x in n.Values {
      if x == v {
        assert n[k] == v;
      } else {
        var j :| j in m && m[j] == x;
        assert n[j] == x;
      }
    }
  }

  lemma ValuesRemove(m: map<nat, nat>, k: nat)
    requires k in m && Injective(m)
    ensures (m - {k}).Values == m.Values - {m[k]} && Injective(m - {k})
  {
    var n := m - {k};
    forall x | x in m.Values - {m[k]} ensures x in n.Values {
      var j :| j in m && m[j] == x;
      assert j in n && n[j] == x;
    }
  }

  lemma StartTracks(c: Conn, e: Event, factor: real)
    requires e.Start? && Tracks(c, factor)
    ensures Tracks(StartStep(c, e), factor)
  {
    if Accepted(c, e) {
      var r := StartStep(c, e);
      ValuesAdd(c.open, c.nextTx, e.id);
      assert Active(r) == Active(c) + {e.id};
      forall x, y | x in r.open && y in r.open && r.open[x] == r.open[y] ensures x == y {
        assert x in c.open ==> c.open[x] in c.open.Values;
        assert y in c.open ==> c.open[y] in c.open.Values;
      }
    }
  }

  lemma StopTracks(c: Conn, tx: nat, meter: real, factor: real)
    requires Tracks(c, factor)
    ensures Tracks(StopStep(c, tx, meter, factor), factor)
  {
    if tx in c.open {
      var r := StopStep(c, tx, meter, factor);
      ValuesRemove(c.open, tx);
      assert c.open[tx] in c.open.Values;
      assert Active(r) == Active(c) - {c.open[tx]};
    }
  }

  /** A row update that completes none of this connection's sessions. */
  lemma TableTracks(c: Conn, t: Sessions, factor: real)
    requires Tracks(c, factor) && EnergyRecorded(t, factor)
    requires forall id :: id in c.started ==> id in t && t[id].completed == c.table[id].completed
    ensures Tracks(c.(table := t), factor)
  {
    assert Active(c.(table := t)) == Active(c);
  }

  lemma StepTracks(c: Conn, e: Event, factor: real)
    requires Tracks(c, factor)
    ensures Tracks(Step(c, e, factor), factor)
  {
    match e {
      case Start(_, _, _, _) => StartTracks(c, e, factor);
      case Stop(tx, meter) => StopTracks(c, tx, meter, factor);
      case _ => TableTracks(c, Step(c, e, factor).table, factor);
    }
  }

  /** After any run, this connection's and others' events interleaved, the map
      is injective onto the still-active sessions it started. */
  lemma {:induction false} TransactionsTrackSessions(c: Conn, es: seq<Event>, factor: real)
    requires Tracks(c, factor)
    ensures Tracks(Exec(c, es, factor), factor)
    decreases |es|
  {
    if es != [] {
      StepTracks(c, es[0], factor);
      TransactionsTrackSessions(Step(c, es[0], factor), es[1..], factor);
    }
  }

  /** A fresh connection tracks nothing, whatever sessions the table holds. */
  lemma FreshConnectionTracks(table: Sessions, factor: real)
    requires EnergyRecorded(table, factor)
    ensures Tracks(CONNECTED.(table := table), factor)
  {
  }

  /** A completed session never changes again, so each completes at most once. */
  lemma {:induction false} CompletedForever(c: Conn, es: seq<Event>, factor: real, id: nat)
    requires id in c.table && c.table[id].completed
    ensures id in Exec(c, es, factor).table && Exec(c, es, factor).table[id] == c.table[id]
    decreases |es|
  {
    if es != [] {
      CompletedForever(Step(c, es[0], factor), es[1..], factor, id);
    }
  }

  /** The transaction ids handed out over a run. */
  function Issued(c: Conn, es: seq<Event>, factor: real): (txs: seq<nat>)
    decreases |es|
  {
    if es == [] then []
    else (if Accepted(c, es[0]) then [c.nextTx] else []) + Issued(Step(c, es[0], factor), es[1..], factor)
  }

  /** Ids are handed out in sequence and never reused on the connection. */
  lemma {:induction false} IdsNeverReused(c: Conn, es: seq<Event>, factor: real)
    ensures var txs := Issued(c, es, factor);
            && (forall i :: 0 <= i < |txs| ==> txs[i] == c.nextTx + i)
            && Exec(c, es, factor).nextTx == c.nextTx + |txs|
    decreases |es|
  {
    if es != [] {
      IdsNeverReused(Step(c, es[0], factor), es[1..], factor);
    }
  }

  // ------------------------------------------------------------- a session's energy

  /** Transaction `tx` is open on session `id`, which started at reading `start`. */
  predicate Running(c: Conn, tx: nat, id: nat, start: real)
  {
    && tx in c.open && c.open[tx] == id && id in c.started && id in c.table
    && c.table[id].meterStart == start && c.table[id].meterStop == None && !c.table[id].completed
    && (forall x :: x in c.open && c.open[x] == id ==> x == tx)
    && tx < c.nextTx
    && (forall x :: x in c.open ==> c.open[x] in c.table)
  }

  lemma {:induction false} StaysRunning(c: Conn, es: seq<Event>, factor: real, tx: nat, id: nat, start: real)
    requires Running(c, tx, id, start)
    requires forall i :: 0 <= i < |es| && es[i].Stop? ==> es[i].tx != tx
    ensures Running(Exec(c, es, factor), tx, id, start)
    decreases |es|
  {
    if es != [] {
      StepRunning(c, es[0], factor, tx, id, start);
      StaysRunning(Step(c, es[0], factor), es[1..], factor, tx, id, start);
    }
  }

  lemma StepRunning(c: Conn, e: Event, factor: real, tx: nat, id: nat, start: real)
    requires Running(c, tx, id, start) && (e.Stop? ==> e.tx != tx)
    ensures Running(Step(c, e, factor), tx, id, start)
  {
  }

  lemma StartRuns(c: Conn, e: Event, factor: real)
    requires Tracks(c, factor) && Accepted(c, e)
    ensures Running(Step(c, e, factor), c.nextTx, e.id, e.meter)
  {
    forall x | x in c.open ensures c.open[x] in c.table && x != c.nextTx {
      assert c.open[x] in c.open.Values;
    }
  }

  /** A whole session: started at reading `m0`, with anything in between but a stop
      of its own, each sample `r` shows (r - m0) * factor so far, and the stop at
      `m1` completes it with both readings and (m1 - m0) * factor. */
  lemma SessionEnergy(c: Conn, start: Event, es: seq<Event>, r: real, m1: real, factor: real)
    requires Tracks(c, factor) && Accepted(c, start)
    requires forall i :: 0 <= i < |es| && es[i].Stop? ==> es[i].tx != c.nextTx
    ensures var tx, id, m0 := c.nextTx, start.id, start.meter;
            var mid := Exec(Step(c, start, factor), es, factor);
            var sampled := Step(mid, Meter(Some(tx), Some(r)), factor);
            var stopped := Step(mid, Stop(tx, m1), factor);
            && id in sampled.table && sampled.table[id] == Session(m0, None, Some((r - m0) * factor), false)
            && id in stopped.table && stopped.table[id] == Session(m0, Some(m1), Some((m1 - m0) * factor), true)
            && tx !in stopped.open
  {
    StartRuns(c, start, factor);
    StaysRunning(Step(c, start, factor), es, factor, c.nextTx, start.id, start.meter);
  }

  /** A sample for an unknown transaction, or without a figure, changes nothing; nor
      does a stop of an unknown transaction; nor a refused start. */
  lemma IgnoredEvents(c: Conn, e: Event, factor: real)
    requires || (e.Meter? && (e.sampled.None? || e.sampled.value !in c.open || e.value.None?))
             || (e.Stop? && e.tx !in c.open)
             || (e.Start? && (!e.authorized || !e.known))
    ensures Step(c, e, factor) == c
  {
  }

  // ------------------------------------------------------------------- the handler

  class ChargePointHandler {
    const factor: real
    var nextTx: nat
    var transactions: map<nat, nat>
    var table: Sessions
    ghost var started: set<nat>

    ghost function View(): (c: Conn)
      reads this
    {
      Conn(nextTx, transactions, table, started)
    }

    constructor (factor: real, table: Sessions)
      ensures this.factor == factor && View() == CONNECTED.(table := table)
    {
      this.factor := factor;
      nextTx, transactions := 1, map[];
      this.table := table;
      started := {};
    }

    method OnStartTransaction(authorized: bool, known: bool, id: nat, meter: real) returns (tx: nat)
      requires id !in table  // a fresh row id
      modifies this
      ensures View() == StartStep(old(View()), Start(authorized, known, id, meter))
      ensures tx == if authorized && known then old(nextTx) else 0
    {
      if !authorized { return 0; }
      if !known { return 0; }
      table := Insert(table, id, meter);
      started := started + {id};
      tx := nextTx;
      nextTx := nextTx + 1;
      transactions := transactions[tx := id];
    }

    method OnMeterValues(tx: Option<nat>, register: Option<real>)
      modifies this
      ensures View() == MeterStep(old(View()), tx, register, factor)
    {
      if tx.Some? && tx.value in transactions {
        if register.Some? {
          table := UpdateKwh(table, transactions[tx.value], register.value, factor);
        }
      }
    }

    method OnStopTransaction(tx: nat, meter: real)
      modifies this
      ensures View() == StopStep(old(View()), tx, meter, factor)
    {
      if tx !in transactions { return; }
      var id := transactions[tx];
      transactions := transactions - {tx};
      table := Complete(table, id, meter, factor);
    }
  }
}
