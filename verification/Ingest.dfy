/** telemetry-ingest: consume, batch, insert with first-write-wins dedup on
    (bus_id, ts), commit offsets after the write. */
module Ingest {
  import opened Common

  const MAX_FLUSH_ATTEMPTS: nat := 10

  datatype Key = Key(bus: int, ts: int)
  type Row = seq<real>

  /** What a consumed message turns out to be: no payload at all, an envelope
      that does not parse or validate, or a telemetry record. */
  datatype Msg = Tombstone | Poison | Good(key: Key, row: Row)

  type Partition = int
  type Log = map<Partition, seq<Msg>>
  type Table = map<Key, Row>

  /** A buffered record, named by where it was read. */
  datatype Pending = Pending(partition: Partition, offset: nat)

  /** `reach` is not stored by the program: per partition, the end of the log
      prefix it has finished with, by a flush or a commit past a poison record. */
  datatype State = State(
    table: Table,
    committed: map<Partition, nat>,
    dlq: set<Pending>,
    position: map<Partition, nat>,
    batch: seq<Pending>,
    reach: map<Partition, nat>)

  /** One insert_batch call: it succeeds, or it reports an error after the rows
      were (applied) or were not written. */
  datatype Attempt = Inserted | Refused(applied: bool)

  datatype Event =
    | Poll(partition: Partition, lost: bool)          // lost: the poison commit did not reach the broker
    | Flush(attempts: seq<Attempt>, lost: bool)       // lost: the batch commit did not reach the broker
    | Crash                                           // and restart from the committed offsets

  const START: State := State(map[], map[], {}, map[], [], map[])

  function At(m: map<Partition, nat>, p: Partition): (n: nat)
  {
    if p in m then m[p] else 0
  }

  function Part(log: Log, p: Partition): (msgs: seq<Msg>)
  {
    if p in log then log[p] else []
  }

  function MsgAt(log: Log, q: Pending): (m: Msg)
  {
    if q.offset < |Part(log, q.partition)| then Part(log, q.partition)[q.offset] else Tombstone
  }

  // ------------------------------------------------------------------- inserts

  /** ON CONFLICT DO NOTHING. */
  function Insert(t: Table, m: Msg): (r: Table)
  {
    if m.Good? && m.key !in t then t[m.key := m.row] else t
  }

  function InsertAll(log: Log, t: Table, batch: seq<Pending>): (r: Table)
    decreases |batch|
  {
    if batch == [] then t else InsertAll(log, Insert(t, MsgAt(log, batch[0])), batch[1..])
  }

  function Lookup(t: Table, k: Key): (r: Option<Row>)
  {
    if k in t then Some(t[k]) else None
  }

  predicate HasKey(m: Msg, k: Key)
  {
    m.Good? && m.key == k
  }

  /** The row of the first buffered record with key `k`. */
  function FirstIn(log: Log, batch: seq<Pending>, k: Key): (r: Option<Row>)
  {
    if batch == [] then None
    else if HasKey(MsgAt(log, batch[0]), k) then Some(MsgAt(log, batch[0]).row)
    else FirstIn(log, batch[1..], k)
  }

  lemma {:induction false} InsertAllLookup(log: Log, t: Table, batch: seq<Pending>, k: Key)
    ensures Lookup(InsertAll(log, t, batch), k) == if k in t then Some(t[k]) else FirstIn(log, batch, k)
    decreases |batch|
  {
    if batch != [] {
      InsertAllLookup(log, Insert(t, MsgAt(log, batch[0])), batch[1..], k);
    }
  }

  lemma {:induction false} FirstInAt(log: Log, batch: seq<Pending>, k: Key, i: nat)
    requires i < |batch| && HasKey(MsgAt(log, batch[i]), k)
    requires forall j :: 0 <= j < i ==> !HasKey(MsgAt(log, batch[j]), k)
    ensures FirstIn(log, batch, k) == Some(MsgAt(log, batch[i]).row)
    decreases |batch|
  {
    if i > 0 {
      assert !HasKey(MsgAt(log, batch[0]), k);
      FirstInAt(log, batch[1..], k, i - 1);
    }
  }

  lemma {:induction false} FirstInNone(log: Log, batch: seq<Pending>, k: Key)
    requires forall j :: 0 <= j < |batch| ==> !HasKey(MsgAt(log, batch[j]), k)
    ensures FirstIn(log, batch, k) == None
    decreases |batch|
  {
    if batch != [] {
      assert !HasKey(MsgAt(log, batch[0]), k);
      FirstInNone(log, batch[1..], k);
    }
  }

  /** Inserting a batch twice is inserting it once. */
  lemma InsertAllAgain(log: Log, t: Table, batch: seq<Pending>)
    ensures InsertAll(log, InsertAll(log, t, batch), batch) == InsertAll(log, t, batch)
  {
    var once := InsertAll(log, t, batch);
    var twice := InsertAll(log, once, batch);
    forall k ensures Lookup(twice, k) == Lookup(once, k) {
      InsertAllLookup(log, t, batch, k);
      InsertAllLookup(log, once, batch, k);
    }
    SameLookups(twice, once);
  }

  lemma SameLookups(a: Table, b: Table)
    requires forall k :: Lookup(a, k) == Lookup(b, k)
    ensures a == b
  {
    forall k ensures k in a <==> k in b {
      assert Lookup(a, k) == Lookup(b, k);
    }
    forall k | k in a ensures a[k] == b[k] {
      assert Lookup(a, k) == Lookup(b, k);
    }
  }

  // ------------------------------------------------------------- batch commits

  /** Highest offset per partition of a batch. */
  function High(batch: seq<Pending>): (h: map<Partition, nat>)
  {
    if batch == [] then map[]
    else
      var last := batch[|batch| - 1];
      var h := High(batch[..|batch| - 1]);
      h[last.partition := if last.partition in h then Max(h[last.partition], last.offset) else last.offset]
  }

  /** The map holds the greatest offset, for exactly the partitions present in the
      batch. */
  lemma {:induction false} HighIsGreatest(batch: seq<Pending>, p: Partition)
    ensures p in High(batch) <==> exists i :: 0 <= i < |batch| && batch[i].partition == p
    ensures p in High(batch) ==> Pending(p, High(batch)[p]) in batch
    ensures forall i :: 0 <= i < |batch| && batch[i].partition == p ==> p in High(batch) && batch[i].offset <= High(batch)[p]
  {
    if batch != [] {
      var n := |batch| - 1;
      var front := batch[..n];
      HighIsGreatest(front, p);
      assert batch == front + [batch[n]];
      if batch[n].partition == p {
        assert exists i :: 0 <= i < |batch| && batch[i].partition == p;
        assert batch[n] == Pending(p, batch[n].offset);
      } else if p in High(front) {
        var i :| 0 <= i < |front| && front[i].partition == p;
        assert batch[i].partition == p;
      }
    }
  }

  function Committed(committed: map<Partition, nat>, batch: seq<Pending>): (r: map<Partition, nat>)
  {
    committed + map p | p in High(batch) :: High(batch)[p] + 1
  }

  // -------------------------------------------------------------------- steps

  function AttemptAt(attempts: seq<Attempt>, i: nat): (a: Attempt)
  {
    if i < |attempts| then attempts[i] else Refused(false)
  }

  datatype Outcome = Outcome(written: bool, acked: bool)

  /** The bounded retry loop from attempt `i` on. */
  function Retry(attempts: seq<Attempt>, i: nat, written: bool): (o: Outcome)
    requires i <= MAX_FLUSH_ATTEMPTS
    ensures o.acked ==> o.written
    decreases MAX_FLUSH_ATTEMPTS - i
  {
    if i == MAX_FLUSH_ATTEMPTS then Outcome(written, false)
    else match AttemptAt(attempts, i)
      case Inserted => Outcome(true, true)
      case Refused(applied) => Retry(attempts, i + 1, written || applied)
  }

  function PollStep(log: Log, s: State, p: Partition, lost: bool): (t: State)
  {
    var pos := At(s.position, p);
    if pos >= |Part(log, p)| then s
    else
      var next := s.(position := s.position[p := pos + 1]);
      match Part(log, p)[pos]
      case Tombstone => next
      case Good(_, _) => next.(batch := s.batch + [Pending(p, pos)])
      case Poison =>
        if lost then next
        else next.(committed := s.committed[p := pos + 1], reach := s.reach[p := Max(At(s.reach, p), pos + 1)])
  }

  /** The end of the finished prefix after a flush. */
  function Advanced(reach: map<Partition, nat>, position: map<Partition, nat>): (r: map<Partition, nat>)
  {
    map p | p in reach.Keys + position.Keys :: Max(At(reach, p), At(position, p))
  }

  function FlushStep(log: Log, s: State, attempts: seq<Attempt>, lost: bool): (t: State)
  {
    if s.batch == [] then s
    else
      var o := Retry(attempts, 0, false);
      s.(table := if o.written then InsertAll(log, s.table, s.batch) else s.table,
         reach := Advanced(s.reach, s.position),
         dlq := if o.acked then s.dlq else s.dlq + (set q | q in s.batch),
         committed := if lost then s.committed else Committed(s.committed, s.batch),
         batch := [])
  }

  function CrashStep(s: State): (t: State)
  {
    s.(batch := [], position := s.committed)
  }

  function Step(log: Log, s: State, e: Event): (t: State)
  {
    match e
    case Poll(p, lost) => PollStep(log, s, p, lost)
    case Flush(attempts, lost) => FlushStep(log, s, attempts, lost)
    case Crash => CrashStep(s)
  }

  function Exec(log: Log, s: State, es: seq<Event>): (t: State)
    decreases |es|
  {
    if es == [] then s else Exec(log, Step(log, s, es[0]), es[1..])
  }

  // ------------------------------------------------ accounting with dead letters

  /** The table already has a row for the key of `q`. */
  predicate KeyWritten(log: Log, s: State, q: Pending)
  {
    MsgAt(log, q).Good? ==> MsgAt(log, q).key in s.table
  }

  predicate Accounted(log: Log, s: State, q: Pending)
  {
    MsgAt(log, q).Good? ==> MsgAt(log, q).key in s.table || q in s.dlq
  }

  /** Every record below a committed offset is in the table or dead-lettered. */
  ghost predicate CommitsAccounted(log: Log, s: State)
  {
    forall q: Pending :: q.offset < At(s.committed, q.partition) ==> Accounted(log, s, q)
  }

  /** Everything the consumer has read is accounted for or buffered. */
  ghost predicate ReadAccounted(log: Log, s: State)
  {
    forall q: Pending :: q.offset < At(s.position, q.partition) ==> Accounted(log, s, q) || q in s.batch
  }

  predicate BatchBehind(s: State)
  {
    forall i :: 0 <= i < |s.batch| ==> s.batch[i].offset < At(s.position, s.batch[i].partition)
  }

  ghost predicate Ledger(log: Log, s: State)
  {
    CommitsAccounted(log, s) && ReadAccounted(log, s) && BatchBehind(s)
  }

  predicate PoisonFree(log: Log)
  {
    forall p, i :: p in log && 0 <= i < |log[p]| ==> !log[p][i].Poison?
  }

  lemma PollRead(log: Log, s: State, p: Partition, lost: bool)
    requires ReadAccounted(log, s)
    ensures ReadAccounted(log, PollStep(log, s, p, lost))
  {
    var t, pos := PollStep(log, s, p, lost), At(s.position, p);
    forall q: Pending | q.offset < At(t.position, q.partition) ensures Accounted(log, t, q) || q in t.batch {
      if q.offset < At(s.position, q.partition) {
        assert Accounted(log, s, q) || q in s.batch;
      } else {
        assert q == Pending(p, pos);
      }
    }
  }

  lemma PollLedger(log: Log, s: State, p: Partition, lost: bool)
    requires Ledger(log, s)
    requires lost || !MsgAt(log, Pending(p, At(s.position, p))).Poison?
    ensures Ledger(log, PollStep(log, s, p, lost))
  {
    var t := PollStep(log, s, p, lost);
    PollRead(log, s, p, lost);
    forall q: Pending | q.offset < At(t.committed, q.partition) ensures Accounted(log, t, q) {
      assert Accounted(log, s, q);
    }
  }

  lemma FlushAccounts(log: Log, s: State, attempts: seq<Attempt>, lost: bool, q: Pending)
    ensures var t := FlushStep(log, s, attempts, lost);
            Accounted(log, s, q) || q in s.batch ==> Accounted(log, t, q)
  {
    var m := MsgAt(log, q);
    if m.Good? && s.batch != [] {
      InsertAllLookup(log, s.table, s.batch, m.key);
      if q in s.batch && m.key !in s.table {
        BatchHasKey(log, s.batch, q);
      }
    }
  }

  lemma {:induction false} BatchHasKey(log: Log, batch: seq<Pending>, q: Pending)
    requires q in batch && MsgAt(log, q).Good?
    ensures FirstIn(log, batch, MsgAt(log, q).key).Some?
    decreases |batch|
  {
    if q != batch[0] {
      BatchHasKey(log, batch[1..], q);
    }
  }

  lemma FlushLedger(log: Log, s: State, attempts: seq<Attempt>, lost: bool)
    requires Ledger(log, s)
    ensures Ledger(log, FlushStep(log, s, attempts, lost))
  {
    var t := FlushStep(log, s, attempts, lost);
    forall q: Pending | Accounted(log, s, q) || q in s.batch ensures Accounted(log, t, q) {
      FlushAccounts(log, s, attempts, lost, q);
    }
    forall q: Pending | q.offset < At(t.committed, q.partition) ensures Accounted(log, t, q) {
      HighIsGreatest(s.batch, q.partition);
      if t.committed != s.committed && q.partition in High(s.batch) {
        var last := Pending(q.partition, High(s.batch)[q.partition]);
        assert last in s.batch;
        assert q.offset < At(s.position, q.partition);
        assert Accounted(log, s, q) || q in s.batch;
      } else {
        assert Accounted(log, s, q);
      }
    }
    forall q: Pending | q.offset < At(t.position, q.partition) ensures Accounted(log, t, q) {
      assert Accounted(log, s, q) || q in s.batch;
    }
  }

  lemma CrashLedger(log: Log, s: State)
    requires Ledger(log, s)
    ensures Ledger(log, CrashStep(s))
  {
    var t := CrashStep(s);
    forall q: Pending | q.offset < At(t.committed, q.partition) ensures Accounted(log, t, q) {
      assert Accounted(log, s, q);
    }
  }

  lemma {:induction false} RunLedger(log: Log, s: State, es: seq<Event>)
    requires PoisonFree(log) && Ledger(log, s)
    ensures Ledger(log, Exec(log, s, es))
    decreases |es|
  {
    if es != [] {
      match es[0] {
        case Poll(p, lost) => PollLedger(log, s, p, lost);
        case Flush(attempts, lost) => FlushLedger(log, s, attempts, lost);
        case Crash => CrashLedger(log, s);
      }
      RunLedger(log, Step(log, s, es[0]), es[1..]);
    }
  }

  /** On a poison-free log over any partitions, after any schedule of polls,
      flushes with failing or half-failing inserts, lost commits and crashes,
      every record below a committed offset is in the table or dead-lettered. */
  lemma IngestAccounting(log: Log, es: seq<Event>, q: Pending)
    requires PoisonFree(log)
    ensures var s := Exec(log, START, es);
            q.offset < At(s.committed, q.partition) && MsgAt(log, q).Good?
            ==> MsgAt(log, q).key in s.table || q in s.dlq
  {
    RunLedger(log, START, es);
    var s := Exec(log, START, es);
    if q.offset < At(s.committed, q.partition) {
      assert Accounted(log, s, q);
    }
  }

  /** Committing past a poison record is safe if and only if no record of its
      partition is still buffered unaccounted. */
  lemma PoisonCommitSafeIff(log: Log, s: State, p: Partition)
    requires Ledger(log, s) && MsgAt(log, Pending(p, At(s.position, p))).Poison?
    ensures CommitsAccounted(log, PollStep(log, s, p, false)) <==>
            forall i :: 0 <= i < |s.batch| && s.batch[i].partition == p ==> Accounted(log, s, s.batch[i])
  {
    var t, pos := PollStep(log, s, p, false), At(s.position, p);
    assert forall q :: Accounted(log, t, q) == Accounted(log, s, q);
    if CommitsAccounted(log, t) {
      forall i | 0 <= i < |s.batch| && s.batch[i].partition == p ensures Accounted(log, s, s.batch[i]) {
        assert s.batch[i].offset < At(t.committed, p);
        assert Accounted(log, t, s.batch[i]);
      }
    } else {
      var q: Pending :| q.offset < At(t.committed, q.partition) && !Accounted(log, t, q);
      assert q.partition == p && q.offset <= pos;
      assert q != Pending(p, pos);
      assert Accounted(log, s, q) || q in s.batch;
      var i :| 0 <= i < |s.batch| && s.batch[i] == q;
    }
  }

  /** If this event commits past a poison record, nothing of that partition is
      buffered unaccounted. */
  ghost predicate PoisonPassesAccounted(log: Log, s: State, e: Event)
  {
    e.Poll? && !e.lost && MsgAt(log, Pending(e.partition, At(s.position, e.partition))).Poison? ==>
      forall i :: 0 <= i < |s.batch| && s.batch[i].partition == e.partition ==> Accounted(log, s, s.batch[i])
  }

  ghost predicate PoisonAlwaysPassesAccounted(log: Log, s: State, es: seq<Event>)
    decreases |es|
  {
    es == [] || (PoisonPassesAccounted(log, s, es[0]) && PoisonAlwaysPassesAccounted(log, Step(log, s, es[0]), es[1..]))
  }

  ghost predicate AlwaysAccounted(log: Log, s: State, es: seq<Event>)
    decreases |es|
  {
    CommitsAccounted(log, s) && (es == [] || AlwaysAccounted(log, Step(log, s, es[0]), es[1..]))
  }

  lemma PollBehind(log: Log, s: State, p: Partition, lost: bool)
    requires BatchBehind(s)
    ensures BatchBehind(PollStep(log, s, p, lost))
  {
  }

  lemma StepAccountedIff(log: Log, s: State, e: Event)
    requires Ledger(log, s)
    ensures CommitsAccounted(log, Step(log, s, e)) <==> PoisonPassesAccounted(log, s, e)
    ensures PoisonPassesAccounted(log, s, e) ==> Ledger(log, Step(log, s, e))
  {
    match e {
      case Poll(p, lost) =>
        if !lost && MsgAt(log, Pending(p, At(s.position, p))).Poison? {
          PoisonCommitSafeIff(log, s, p);
          PollRead(log, s, p, lost);
          PollBehind(log, s, p, lost);
        } else {
          PollLedger(log, s, p, lost);
        }
      case Flush(attempts, lost) => FlushLedger(log, s, attempts, lost);
      case Crash => CrashLedger(log, s);
    }
  }

  lemma {:induction false} RunAccountedIff(log: Log, s: State, es: seq<Event>)
    requires Ledger(log, s)
    ensures AlwaysAccounted(log, s, es) <==> PoisonAlwaysPassesAccounted(log, s, es)
    decreases |es|
  {
    if es != [] {
      StepAccountedIff(log, s, es[0]);
      if PoisonPassesAccounted(log, s, es[0]) {
        RunAccountedIff(log, Step(log, s, es[0]), es[1..]);
      } else {
        NotAccountedNow(log, Step(log, s, es[0]), es[1..]);
      }
    }
  }

  lemma NotAccountedNow(log: Log, s: State, es: seq<Event>)
    requires !CommitsAccounted(log, s)
    ensures !AlwaysAccounted(log, s, es)
  {
  }

  /** Any log, poison included: every record below a committed offset is in the
      table or dead-lettered in every state of a run if and only if each poison
      commit passes only accounted records of its partition. */
  lemma AccountingIffPoisonPassesAccounted(log: Log, es: seq<Event>)
    ensures AlwaysAccounted(log, START, es) <==> PoisonAlwaysPassesAccounted(log, START, es)
  {
    RunAccountedIff(log, START, es);
  }

  // ---------------------------------- the condition as a guard before the commit

  /** Dead-lettered records have been read, and none of them is buffered again. */
  ghost predicate LettersBehind(s: State)
  {
    && BatchBehind(s)
    && (forall q :: q in s.dlq ==> q.offset < At(s.position, q.partition))
    && (forall i :: 0 <= i < |s.batch| ==> s.batch[i] !in s.dlq)
  }

  lemma StepLetters(log: Log, s: State, e: Event)
    requires LettersBehind(s) && !e.Crash?
    ensures LettersBehind(Step(log, s, e))
  {
    if e.Poll? {
      PollBehind(log, s, e.partition, e.lost);
    }
  }

  /** The guard: a poison commit finds no buffered record of its partition whose
      key the table lacks. */
  ghost predicate PoisonPassesWritten(log: Log, s: State, e: Event)
  {
    e.Poll? && !e.lost && MsgAt(log, Pending(e.partition, At(s.position, e.partition))).Poison? ==>
      forall i :: 0 <= i < |s.batch| && s.batch[i].partition == e.partition ==> KeyWritten(log, s, s.batch[i])
  }

  ghost predicate PoisonAlwaysPassesWritten(log: Log, s: State, es: seq<Event>)
    decreases |es|
  {
    es == [] || (PoisonPassesWritten(log, s, es[0]) && PoisonAlwaysPassesWritten(log, Step(log, s, es[0]), es[1..]))
  }

  lemma {:induction false} WrittenIffAccounted(log: Log, s: State, es: seq<Event>)
    requires LettersBehind(s) && forall i :: 0 <= i < |es| ==> !es[i].Crash?
    ensures PoisonAlwaysPassesWritten(log, s, es) <==> PoisonAlwaysPassesAccounted(log, s, es)
    decreases |es|
  {
    if es != [] {
      StepLetters(log, s, es[0]);
      WrittenIffAccounted(log, Step(log, s, es[0]), es[1..]);
    }
  }

  /** Within one process run the exact condition is a guard on the table and the
      buffer alone: no poison commit while the buffer holds a record of that
      partition whose key is missing from the table. */
  lemma AccountingIffPoisonPassesWritten(log: Log, es: seq<Event>)
    requires forall i :: 0 <= i < |es| ==> !es[i].Crash?
    ensures AlwaysAccounted(log, START, es) <==> PoisonAlwaysPassesWritten(log, START, es)
  {
    AccountingIffPoisonPassesAccounted(log, es);
    WrittenIffAccounted(log, START, es);
  }

  /** A good record, a poison one and a crash: the good record is gone. */
  lemma PoisonLosesARecord(k: Key, row: Row)
    ensures var log := map[0 := [Good(k, row), Poison]];
            var s := Exec(log, START, [Poll(0, false), Poll(0, false), Crash]);
            At(s.committed, 0) == 2 && At(s.position, 0) == 2 && s.table == map[] && s.dlq == {} && s.batch == []
  {
    var log: Log := map[0 := [Good(k, row), Poison]];
    var e := Poll(0, false);
    var s1 := START.(position := map[0 := 1], batch := [Pending(0, 0)]);
    var s2 := s1.(position := map[0 := 2], committed := map[0 := 2], reach := map[0 := 2]);
    assert Step(log, START, e) == s1;
    assert Step(log, s1, e) == s2;
    assert [e, e, Crash][1..] == [e, Crash] && [e, Crash][1..] == [Crash];
    assert Exec(log, s2, [Crash]) == CrashStep(s2);
    assert Exec(log, s1, [e, Crash]) == CrashStep(s2);
  }
}
