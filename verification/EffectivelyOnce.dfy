/** telemetry-ingest writes each record effectively once: redelivery, crashes
    and lost commits never change what the table ends up holding. */
module EffectivelyOnce {
  import opened Common
  import opened Ingest

  /** The row a first-write-wins fold of the first `n` messages holds for `k`. */
  function FirstRow(part: seq<Msg>, n: nat, k: Key): (r: Option<Row>)
    requires n <= |part|
  {
    if n == 0 then None
    else
      var r := FirstRow(part, n - 1, k);
      if r.Some? then r else if HasKey(part[n - 1], k) then Some(part[n - 1].row) else None
  }

  /** That fold as a table. */
  function Written(part: seq<Msg>, n: nat): (t: Table)
    requires n <= |part|
  {
    if n == 0 then map[] else Insert(Written(part, n - 1), part[n - 1])
  }

  lemma {:induction false} WrittenIsFirstRow(part: seq<Msg>, n: nat, k: Key)
    requires n <= |part|
    ensures Lookup(Written(part, n), k) == FirstRow(part, n, k)
  {
    if n > 0 {
      WrittenIsFirstRow(part, n - 1, k);
    }
  }

  lemma {:induction false} FirstRowNone(part: seq<Msg>, n: nat, k: Key)
    requires n <= |part|
    ensures FirstRow(part, n, k) == None <==> forall i :: 0 <= i < n ==> !HasKey(part[i], k)
  {
    if n > 0 {
      FirstRowNone(part, n - 1, k);
    }
  }

  lemma {:induction false} FirstRowStays(part: seq<Msg>, m: nat, n: nat, k: Key)
    requires m <= n <= |part| && FirstRow(part, m, k).Some?
    ensures FirstRow(part, n, k) == FirstRow(part, m, k)
  {
    if m < n {
      FirstRowStays(part, m, n - 1, k);
    }
  }

  lemma FirstRowAt(part: seq<Msg>, n: nat, k: Key, i: nat)
    requires i < n <= |part| && HasKey(part[i], k)
    requires forall j :: 0 <= j < i ==> !HasKey(part[j], k)
    ensures FirstRow(part, n, k) == Some(part[i].row)
  {
    FirstRowNone(part, i, k);
    FirstRowStays(part, i + 1, n, k);
  }

  // ---------------------------------------------------------------- invariant

  /** Records with the same key are produced to the same partition. */
  ghost predicate Keyed(log: Log, home: Key -> Partition)
  {
    forall q: Pending :: MsgAt(log, q).Good? ==> home(MsgAt(log, q).key) == q.partition
  }

  predicate Sorted(batch: seq<Pending>)
  {
    forall i, j :: 0 <= i < j < |batch| && batch[i].partition == batch[j].partition
                   ==> batch[i].offset < batch[j].offset
  }

  ghost predicate InLog(log: Log, s: State)
  {
    forall p :: At(s.committed, p) <= At(s.reach, p) <= |Part(log, p)| && At(s.position, p) <= |Part(log, p)|
  }

  /** Every record read but not yet finished with is buffered. */
  ghost predicate Covered(log: Log, s: State)
  {
    forall q: Pending :: At(s.reach, q.partition) <= q.offset < At(s.position, q.partition) && MsgAt(log, q).Good?
                         ==> q in s.batch
  }

  /** What holds in every state of every run, whatever is given up on. */
  ghost predicate Tidy(log: Log, s: State)
  {
    InLog(log, s) && Covered(log, s) && BatchBehind(s) && Sorted(s.batch)
  }

  /** What the fold of the finished prefixes holds for `k`. */
  ghost function Expected(log: Log, home: Key -> Partition, s: State, k: Key): (r: Option<Row>)
    requires InLog(log, s)
  {
    FirstRow(Part(log, home(k)), At(s.reach, home(k)), k)
  }

  /** The table is the first-write-wins fold of the finished prefixes. */
  ghost predicate TableIsFold(log: Log, home: Key -> Partition, s: State)
    requires InLog(log, s)
  {
    forall k :: Lookup(s.table, k) == Expected(log, home, s, k)
  }

  // ------------------------------------------------------------ states stay tidy

  lemma PollSorted(log: Log, s: State, p: Partition, lost: bool)
    requires BatchBehind(s) && Sorted(s.batch)
    ensures var t := PollStep(log, s, p, lost); BatchBehind(t) && Sorted(t.batch)
  {
  }

  lemma PollCovered(log: Log, s: State, p: Partition, lost: bool)
    requires Covered(log, s)
    ensures Covered(log, PollStep(log, s, p, lost))
  {
    var t, pos := PollStep(log, s, p, lost), At(s.position, p);
    if pos < |Part(log, p)| {
      forall q: Pending | At(t.reach, q.partition) <= q.offset < At(t.position, q.partition) && MsgAt(log, q).Good?
        ensures q in t.batch
      {
        if q == Pending(p, pos) {
          assert MsgAt(log, q) == Part(log, p)[pos];
          assert t.batch[|s.batch|] == q;
        } else {
          assert q.offset < At(s.position, q.partition);
          assert q in s.batch;
        }
      }
    }
  }

  lemma PollInLog(log: Log, s: State, p: Partition, lost: bool)
    requires InLog(log, s)
    ensures InLog(log, PollStep(log, s, p, lost))
  {
    var t := PollStep(log, s, p, lost);
    forall q ensures At(t.committed, q) <= At(t.reach, q) <= |Part(log, q)| && At(t.position, q) <= |Part(log, q)| {
      assert At(s.committed, q) <= At(s.reach, q) <= |Part(log, q)| && At(s.position, q) <= |Part(log, q)|;
    }
  }

  lemma FlushInLog(log: Log, s: State, attempts: seq<Attempt>, lost: bool)
    requires InLog(log, s) && BatchBehind(s)
    ensures InLog(log, FlushStep(log, s, attempts, lost))
  {
    var t := FlushStep(log, s, attempts, lost);
    forall p ensures At(t.committed, p) <= At(t.reach, p) <= |Part(log, p)| && At(t.position, p) <= |Part(log, p)| {
      HighIsGreatest(s.batch, p);
      assert At(s.committed, p) <= At(s.reach, p) <= |Part(log, p)| && At(s.position, p) <= |Part(log, p)|;
      if p in High(s.batch) {
        assert Pending(p, High(s.batch)[p]) in s.batch;
      }
    }
  }

  lemma StepTidy(log: Log, s: State, e: Event)
    requires Tidy(log, s)
    ensures Tidy(log, Step(log, s, e))
  {
    match e {
      case Poll(p, lost) =>
        PollInLog(log, s, p, lost);
        PollSorted(log, s, p, lost);
        PollCovered(log, s, p, lost);
      case Flush(attempts, lost) => FlushInLog(log, s, attempts, lost);
      case Crash =>
    }
  }

  // -------------------------------------------------------- a batch that is stored

  lemma {:induction false} FirstIndex(log: Log, batch: seq<Pending>, k: Key) returns (i: nat)
    requires FirstIn(log, batch, k).Some?
    ensures i < |batch| && HasKey(MsgAt(log, batch[i]), k)
    ensures forall j :: 0 <= j < i ==> !HasKey(MsgAt(log, batch[j]), k)
    decreases |batch|
  {
    if HasKey(MsgAt(log, batch[0]), k) {
      i := 0;
    } else {
      var r := FirstIndex(log, batch[1..], k);
      i := r + 1;
      forall j | 0 <= j < i ensures !HasKey(MsgAt(log, batch[j]), k) {
        if j > 0 {
          assert batch[1..][j - 1] == batch[j];
        }
      }
    }
  }

  /** For a key not written yet, the first buffered record with that key is the
      first in the log between the finished prefix and the position. */
  lemma BatchContinuesFold(log: Log, home: Key -> Partition, s: State, k: Key, end: nat)
    requires Keyed(log, home) && Tidy(log, s) && TableIsFold(log, home, s) && k !in s.table
    requires end == Max(At(s.reach, home(k)), At(s.position, home(k)))
    ensures FirstIn(log, s.batch, k) == FirstRow(Part(log, home(k)), end, k)
  {
    var p, part := home(k), Part(log, home(k));
    var r := At(s.reach, p);
    assert Lookup(s.table, k) == Expected(log, home, s, k);
    FirstRowNone(part, r, k);
    if FirstIn(log, s.batch, k).None? {
      forall j | 0 <= j < end ensures !HasKey(part[j], k) {
        var q := Pending(p, j);
        assert MsgAt(log, q) == part[j];
        if HasKey(part[j], k) {
          assert q in s.batch;
          BatchHasKey(log, s.batch, q);
        }
      }
      FirstRowNone(part, end, k);
    } else {
      var i := FirstIndex(log, s.batch, k);
      var q := s.batch[i];
      assert q.partition == p && MsgAt(log, q) == part[q.offset];
      FirstInAt(log, s.batch, k, i);
      forall j | 0 <= j < q.offset ensures !HasKey(part[j], k) {
        EarlierIsEarlier(log, s, k, i, j);
      }
      FirstRowAt(part, end, k, q.offset);
    }
  }

  lemma EarlierIsEarlier(log: Log, s: State, k: Key, i: nat, j: nat)
    requires Covered(log, s) && Sorted(s.batch) && BatchBehind(s)
    requires i < |s.batch| && forall m :: 0 <= m < i ==> !HasKey(MsgAt(log, s.batch[m]), k)
    requires j < s.batch[i].offset < |Part(log, s.batch[i].partition)|
    requires forall m :: 0 <= m < At(s.reach, s.batch[i].partition) && m < |Part(log, s.batch[i].partition)|
                         ==> !HasKey(Part(log, s.batch[i].partition)[m], k)
    ensures !HasKey(Part(log, s.batch[i].partition)[j], k)
  {
    var q := Pending(s.batch[i].partition, j);
    assert MsgAt(log, q) == Part(log, q.partition)[j];
    if q in s.batch {
      var m :| 0 <= m < |s.batch| && s.batch[m] == q;
      assert m < i;
    }
  }

  lemma FlushTable(log: Log, home: Key -> Partition, s: State, k: Key)
    requires Keyed(log, home) && Tidy(log, s) && TableIsFold(log, home, s)
    ensures At(Advanced(s.reach, s.position), home(k)) <= |Part(log, home(k))|
    ensures Lookup(InsertAll(log, s.table, s.batch), k) ==
            FirstRow(Part(log, home(k)), At(Advanced(s.reach, s.position), home(k)), k)
  {
    var end := Max(At(s.reach, home(k)), At(s.position, home(k)));
    assert At(Advanced(s.reach, s.position), home(k)) == end;
    InsertAllLookup(log, s.table, s.batch, k);
    assert Lookup(s.table, k) == Expected(log, home, s, k);
    if k in s.table {
      FirstRowStays(Part(log, home(k)), At(s.reach, home(k)), end, k);
    } else {
      BatchContinuesFold(log, home, s, k, end);
    }
  }

  // ------------------------------------------- records passed without being stored

  /** `t` has the table of `s` and counts more of the log as finished, the
      records in between being buffered in `s`. */
  ghost predicate PassedOver(log: Log, s: State, t: State)
  {
    && t.table == s.table && InLog(log, t)
    && (forall p :: At(s.reach, p) <= At(t.reach, p))
    && (forall q: Pending :: At(s.reach, q.partition) <= q.offset < At(t.reach, q.partition) && MsgAt(log, q).Good?
                             ==> q in s.batch)
  }

  /** Passing records over keeps the table the fold if and only if the table
      already has the keys of all buffered records passed. */
  lemma PassedOverIff(log: Log, home: Key -> Partition, s: State, t: State)
    requires Keyed(log, home) && InLog(log, s) && TableIsFold(log, home, s) && PassedOver(log, s, t)
    ensures TableIsFold(log, home, t) <==>
            forall q :: q in s.batch && q.offset < At(t.reach, q.partition) ==> KeyWritten(log, s, q)
  {
    if TableIsFold(log, home, t) {
      forall q | q in s.batch && q.offset < At(t.reach, q.partition) ensures KeyWritten(log, s, q) {
        if MsgAt(log, q).Good? {
          FinishedIsWritten(log, home, t, q);
        }
      }
    }
    if forall q :: q in s.batch && q.offset < At(t.reach, q.partition) ==> KeyWritten(log, s, q) {
      forall k ensures Lookup(t.table, k) == Expected(log, home, t, k) {
        PassedKey(log, home, s, t, k);
      }
    }
  }

  /** Where the table is the fold, it has every key of the finished prefixes. */
  lemma FinishedIsWritten(log: Log, home: Key -> Partition, s: State, q: Pending)
    requires Keyed(log, home) && InLog(log, s) && TableIsFold(log, home, s)
    requires q.offset < At(s.reach, q.partition)
    ensures KeyWritten(log, s, q)
  {
    var m := MsgAt(log, q);
    if m.Good? {
      assert home(m.key) == q.partition;
      FirstRowNone(Part(log, q.partition), At(s.reach, q.partition), m.key);
      assert Part(log, q.partition)[q.offset] == m;
      assert Lookup(s.table, m.key) == Expected(log, home, s, m.key);
    }
  }

  lemma PassedKey(log: Log, home: Key -> Partition, s: State, t: State, k: Key)
    requires Keyed(log, home) && InLog(log, s) && TableIsFold(log, home, s) && PassedOver(log, s, t)
    requires forall q :: q in s.batch && q.offset < At(t.reach, q.partition) ==> KeyWritten(log, s, q)
    ensures Lookup(t.table, k) == Expected(log, home, t, k)
  {
    var p, part := home(k), Part(log, home(k));
    var r, end := At(s.reach, p), At(t.reach, p);
    assert Lookup(s.table, k) == Expected(log, home, s, k);
    if FirstRow(part, r, k).Some? {
      FirstRowStays(part, r, end, k);
    } else {
      FirstRowNone(part, r, k);
      forall j | 0 <= j < end ensures !HasKey(part[j], k) {
        var q := Pending(p, j);
        assert MsgAt(log, q) == part[j];
        if q in s.batch {
          assert KeyWritten(log, s, q);
        }
      }
      FirstRowNone(part, end, k);
    }
  }

  // ------------------------------------------------------------- the exact condition

  /** The guard: a poison commit finds no buffered record of its partition whose
      key the table lacks, and a batch given up on after ten refused attempts
      holds no record whose key the table lacks. */
  ghost predicate PassesOnlyWritten(log: Log, s: State, e: Event)
  {
    match e
    case Poll(p, lost) =>
      !lost && MsgAt(log, Pending(p, At(s.position, p))).Poison? ==>
        forall q :: q in s.batch && q.partition == p ==> KeyWritten(log, s, q)
    case Flush(attempts, _) =>
      !Retry(attempts, 0, false).written ==> forall q :: q in s.batch ==> KeyWritten(log, s, q)
    case Crash => true
  }

  ghost predicate AlwaysPassesOnlyWritten(log: Log, s: State, es: seq<Event>)
    decreases |es|
  {
    es == [] || (PassesOnlyWritten(log, s, es[0]) && AlwaysPassesOnlyWritten(log, Step(log, s, es[0]), es[1..]))
  }

  /** The table is the fold now and after every event. */
  ghost predicate AlwaysFold(log: Log, home: Key -> Partition, s: State, es: seq<Event>)
    requires Tidy(log, s)
    decreases |es|
  {
    TableIsFold(log, home, s)
    && (es == [] || (StepTidy(log, s, es[0]); AlwaysFold(log, home, Step(log, s, es[0]), es[1..])))
  }

  lemma SameTable(log: Log, home: Key -> Partition, s: State, t: State)
    requires InLog(log, s) && InLog(log, t) && TableIsFold(log, home, s)
    requires t.table == s.table && t.reach == s.reach
    ensures TableIsFold(log, home, t)
  {
    forall k ensures Lookup(t.table, k) == Expected(log, home, t, k) {
      assert Lookup(s.table, k) == Expected(log, home, s, k);
    }
  }

  lemma PollFoldIff(log: Log, home: Key -> Partition, s: State, p: Partition, lost: bool)
    requires Keyed(log, home) && Tidy(log, s) && TableIsFold(log, home, s)
    requires Tidy(log, PollStep(log, s, p, lost))
    ensures TableIsFold(log, home, PollStep(log, s, p, lost)) <==> PassesOnlyWritten(log, s, Poll(p, lost))
  {
    if !lost && MsgAt(log, Pending(p, At(s.position, p))).Poison? {
      PoisonFoldIff(log, home, s, p);
    } else {
      SameTable(log, home, s, PollStep(log, s, p, lost));
    }
  }

  lemma PoisonFoldIff(log: Log, home: Key -> Partition, s: State, p: Partition)
    requires Keyed(log, home) && Tidy(log, s) && TableIsFold(log, home, s)
    requires MsgAt(log, Pending(p, At(s.position, p))).Poison? && InLog(log, PollStep(log, s, p, false))
    ensures TableIsFold(log, home, PollStep(log, s, p, false)) <==>
            forall q :: q in s.batch && q.partition == p ==> KeyWritten(log, s, q)
  {
    var t := PollStep(log, s, p, false);
    PoisonPassesOver(log, s, p);
    PassedOverIff(log, home, s, t);
    PoisonReach(log, s, p);
    forall q | q in s.batch && q.partition != p && q.offset < At(t.reach, q.partition) ensures KeyWritten(log, s, q) {
      FinishedIsWritten(log, home, s, q);
    }
  }

  lemma PoisonReach(log: Log, s: State, p: Partition)
    requires BatchBehind(s) && MsgAt(log, Pending(p, At(s.position, p))).Poison?
    ensures var t := PollStep(log, s, p, false);
            && (forall q :: q in s.batch && q.partition == p ==> q.offset < At(t.reach, p))
            && (forall r :: r != p ==> At(t.reach, r) == At(s.reach, r))
  {
  }

  lemma PoisonPassesOver(log: Log, s: State, p: Partition)
    requires Tidy(log, s) && MsgAt(log, Pending(p, At(s.position, p))).Poison?
    ensures PassedOver(log, s, PollStep(log, s, p, false))
  {
    var t, pos := PollStep(log, s, p, false), At(s.position, p);
    PollInLog(log, s, p, false);
    forall q: Pending | At(s.reach, q.partition) <= q.offset < At(t.reach, q.partition) && MsgAt(log, q).Good?
      ensures q in s.batch
    {
      assert q.partition == p && q != Pending(p, pos);
    }
  }

  lemma FlushFoldIff(log: Log, home: Key -> Partition, s: State, attempts: seq<Attempt>, lost: bool)
    requires Keyed(log, home) && Tidy(log, s) && TableIsFold(log, home, s)
    requires Tidy(log, FlushStep(log, s, attempts, lost))
    ensures TableIsFold(log, home, FlushStep(log, s, attempts, lost)) <==> PassesOnlyWritten(log, s, Flush(attempts, lost))
  {
    var t := FlushStep(log, s, attempts, lost);
    if s.batch != [] {
      if Retry(attempts, 0, false).written {
        forall k ensures Lookup(t.table, k) == Expected(log, home, t, k) {
          FlushTable(log, home, s, k);
        }
      } else {
        GivenUpPassesOver(log, s, attempts, lost);
        PassedOverIff(log, home, s, t);
      }
    }
  }

  lemma GivenUpPassesOver(log: Log, s: State, attempts: seq<Attempt>, lost: bool)
    requires Tidy(log, s) && s.batch != [] && !Retry(attempts, 0, false).written
    ensures var t := FlushStep(log, s, attempts, lost);
            PassedOver(log, s, t) && forall q :: q in s.batch ==> q.offset < At(t.reach, q.partition)
  {
    FlushInLog(log, s, attempts, lost);
  }

  lemma StepFoldIff(log: Log, home: Key -> Partition, s: State, e: Event)
    requires Keyed(log, home) && Tidy(log, s) && TableIsFold(log, home, s)
    ensures Tidy(log, Step(log, s, e))
    ensures TableIsFold(log, home, Step(log, s, e)) <==> PassesOnlyWritten(log, s, e)
  {
    StepTidy(log, s, e);
    match e {
      case Poll(p, lost) => PollFoldIff(log, home, s, p, lost);
      case Flush(attempts, lost) => FlushFoldIff(log, home, s, attempts, lost);
      case Crash => SameTable(log, home, s, CrashStep(s));
    }
  }

  lemma {:induction false} RunFoldIff(log: Log, home: Key -> Partition, s: State, es: seq<Event>)
    requires Keyed(log, home) && Tidy(log, s) && TableIsFold(log, home, s)
    ensures AlwaysFold(log, home, s, es) <==> AlwaysPassesOnlyWritten(log, s, es)
    decreases |es|
  {
    if es != [] {
      StepFoldIff(log, home, s, es[0]);
      if PassesOnlyWritten(log, s, es[0]) {
        RunFoldIff(log, home, Step(log, s, es[0]), es[1..]);
      }
    }
  }

  lemma {:induction false} RunFold(log: Log, home: Key -> Partition, s: State, es: seq<Event>)
    requires Keyed(log, home) && Tidy(log, s) && TableIsFold(log, home, s) && AlwaysPassesOnlyWritten(log, s, es)
    ensures Tidy(log, Exec(log, s, es)) && TableIsFold(log, home, Exec(log, s, es))
    decreases |es|
  {
    if es != [] {
      StepFoldIff(log, home, s, es[0]);
      RunFold(log, home, Step(log, s, es[0]), es[1..]);
    }
  }

  // ----------------------------------------------------------------- theorems

  lemma StartIsFold(log: Log, home: Key -> Partition)
    ensures Tidy(log, START) && TableIsFold(log, home, START)
  {
  }

  /** Effectively once, exactly: on any log, poison included, and any schedule of
      batching, crashes, refused and half-applied inserts, dead letters, lost
      commits and redelivery, the table is the first-write-wins fold of the
      finished log prefixes in every state if and only if no poison commit and no
      batch given up on passes a record whose key the table lacks. */
  lemma EffectivelyOnceIff(log: Log, home: Key -> Partition, es: seq<Event>)
    requires Keyed(log, home)
    ensures Tidy(log, START)
    ensures AlwaysFold(log, home, START, es) <==> AlwaysPassesOnlyWritten(log, START, es)
  {
    StartIsFold(log, home);
    RunFoldIff(log, home, START, es);
  }

  /** So in such runs the table holds for every key exactly what that fold holds,
      and no commit is beyond the finished prefix. */
  lemma EffectivelyOnceIngest(log: Log, home: Key -> Partition, es: seq<Event>, k: Key)
    requires Keyed(log, home) && AlwaysPassesOnlyWritten(log, START, es)
    ensures var s := Exec(log, START, es);
            && At(s.committed, home(k)) <= At(s.reach, home(k)) <= |Part(log, home(k))|
            && Lookup(s.table, k) == FirstRow(Part(log, home(k)), At(s.reach, home(k)), k)
  {
    StartIsFold(log, home);
    RunFold(log, home, START, es);
    var s := Exec(log, START, es);
    assert Lookup(s.table, k) == Expected(log, home, s, k);
  }

  /** With one partition, the table itself is the fold of the prefix. */
  lemma OnePartitionTable(log: Log, p: Partition, es: seq<Event>)
    requires log.Keys <= {p} && AlwaysPassesOnlyWritten(log, START, es)
    ensures var s := Exec(log, START, es);
            At(s.reach, p) <= |Part(log, p)| && s.table == Written(Part(log, p), At(s.reach, p))
  {
    var home := (k: Key) => p;
    StartIsFold(log, home);
    RunFold(log, home, START, es);
    var s := Exec(log, START, es);
    forall k ensures Lookup(s.table, k) == Lookup(Written(Part(log, p), At(s.reach, p)), k) {
      assert Lookup(s.table, k) == Expected(log, home, s, k);
      WrittenIsFirstRow(Part(log, p), At(s.reach, p), k);
    }
    SameLookups(s.table, Written(Part(log, p), At(s.reach, p)));
  }

  /** Once a partition is read to its end and the buffer is flushed, the table
      has everything the partition's whole log would write. */
  lemma CaughtUpIsComplete(log: Log, home: Key -> Partition, es: seq<Event>, k: Key)
    requires Keyed(log, home) && AlwaysPassesOnlyWritten(log, START, es)
    ensures var s := Exec(log, START, es);
            var part := Part(log, home(k));
            At(s.position, home(k)) == |part| && s.batch == [] ==> Lookup(s.table, k) == FirstRow(part, |part|, k)
  {
    StartIsFold(log, home);
    RunFold(log, home, START, es);
    var s, part := Exec(log, START, es), Part(log, home(k));
    var r := At(s.reach, home(k));
    assert Lookup(s.table, k) == Expected(log, home, s, k);
    if At(s.position, home(k)) == |part| && s.batch == [] {
      if FirstRow(part, r, k).Some? {
        FirstRowStays(part, r, |part|, k);
      } else {
        FirstRowNone(part, r, k);
        forall j | 0 <= j < |part| ensures !HasKey(part[j], k) {
          assert MsgAt(log, Pending(home(k), j)) == part[j];
        }
        FirstRowNone(part, |part|, k);
      }
    }
  }

  /** Every flush that finds records buffered stores them. */
  ghost predicate FlushesStore(log: Log, s: State, es: seq<Event>)
    decreases |es|
  {
    es == []
    || ((es[0].Flush? && s.batch != [] ==> Retry(es[0].attempts, 0, false).written)
        && FlushesStore(log, Step(log, s, es[0]), es[1..]))
  }

  /** The condition needs no check where nothing is ever given up on: logs without
      poison on which every flush of a non-empty buffer writes its batch. */
  lemma {:induction false} NothingGivenUp(log: Log, s: State, es: seq<Event>)
    requires PoisonFree(log) && FlushesStore(log, s, es)
    ensures AlwaysPassesOnlyWritten(log, s, es)
    decreases |es|
  {
    if es != [] {
      NothingGivenUp(log, Step(log, s, es[0]), es[1..]);
    }
  }

  /** A batch dead-lettered between two records of one key leaves the later row
      in the table, where the fold has the earlier one. */
  lemma DeadLetterChangesTheWinner(k: Key, first: Row, second: Row)
    requires first != second
    ensures var log: Log := map[0 := [Good(k, first), Good(k, second)]];
            var s := Exec(log, START, [Poll(0, false), Flush([], false), Poll(0, false), Flush([Inserted], false)]);
            Lookup(s.table, k) == Some(second) && FirstRow(Part(log, 0), 2, k) == Some(first)
  {
    var log: Log := map[0 := [Good(k, first), Good(k, second)]];
    var e, give, store := Poll(0, false), Flush([], false), Flush([Inserted], false);
    var s1 := Step(log, START, e);
    var s2 := Step(log, s1, give);
    assert s1.batch == [Pending(0, 0)] && s1.table == map[] && At(s1.position, 0) == 1;
    assert s2 == s2.(table := map[], batch := []) && s2.position == s1.position by {
      GivenUp(0, false);
    }
    StoresSecond(log, s2, k, second);
    ExecFour(log, START, e, give, e, store);
    FirstRowAt(Part(log, 0), 2, k, 0);
  }

  lemma ExecFour(log: Log, s: State, a: Event, b: Event, c: Event, d: Event)
    ensures Exec(log, s, [a, b, c, d]) == Step(log, Step(log, Step(log, Step(log, s, a), b), c), d)
  {
    var s1 := Step(log, s, a);
    var s2 := Step(log, s1, b);
    var s3 := Step(log, s2, c);
    assert [a, b, c, d][1..] == [b, c, d] && [b, c, d][1..] == [c, d] && [c, d][1..] == [d];
    assert Exec(log, s3, [d]) == Step(log, s3, d);
    assert Exec(log, s2, [c, d]) == Exec(log, s3, [d]);
    assert Exec(log, s1, [b, c, d]) == Exec(log, s2, [c, d]);
  }

  lemma StoresSecond(log: Log, s: State, k: Key, second: Row)
    requires s.table == map[] && s.batch == [] && At(s.position, 0) == 1
    requires |Part(log, 0)| == 2 && Part(log, 0)[1] == Good(k, second)
    ensures var t := Step(log, Step(log, s, Poll(0, false)), Flush([Inserted], false)); Lookup(t.table, k) == Some(second)
  {
    var mid := Step(log, s, Poll(0, false));
    assert mid.batch == [Pending(0, 1)] && mid.table == map[];
    InsertAllLookup(log, mid.table, mid.batch, k);
  }

  lemma {:induction false} GivenUp(i: nat, written: bool)
    requires i <= MAX_FLUSH_ATTEMPTS
    ensures Retry([], i, written) == Outcome(written, false)
    decreases MAX_FLUSH_ATTEMPTS - i
  {
    if i < MAX_FLUSH_ATTEMPTS {
      GivenUp(i + 1, written);
    }
  }
}
