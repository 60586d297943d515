/** What the ingest loop does, step by step and over runs: where it reads, what it
    buffers, what a flush writes, dead-letters and commits. */
module IngestProgress {
  import opened Common
  import opened Ingest

  // ------------------------------------------------------------------- the retry loop

  /** Among the attempts `i`, ..., 9 one succeeds. */
  predicate OneInserts(attempts: seq<Attempt>, i: nat)
  {
    exists j :: i <= j < 10 && j < |attempts| && attempts[j].Inserted?
  }

  /** Among the attempts `i`, ..., 9 one reaches the database. */
  predicate OneApplies(attempts: seq<Attempt>, i: nat)
  {
    exists j :: i <= j < 10 && j < |attempts| && (attempts[j].Inserted? || attempts[j].applied)
  }

  /** A flush is acknowledged if and only if one of its first ten attempts succeeds,
      and its rows are written if and only if one of them reaches the database. */
  lemma {:induction false} RetryIff(attempts: seq<Attempt>, i: nat, written: bool)
    requires i <= MAX_FLUSH_ATTEMPTS
    ensures var o := Retry(attempts, i, written);
            (o.acked <==> OneInserts(attempts, i)) && (o.written <==> written || OneApplies(attempts, i))
    decreases MAX_FLUSH_ATTEMPTS - i
  {
    if i < MAX_FLUSH_ATTEMPTS {
      match AttemptAt(attempts, i) {
        case Inserted =>
          assert i < |attempts| && attempts[i].Inserted?;
        case Refused(applied) =>
          RetryIff(attempts, i + 1, written || applied);
          FromNext(attempts, i);
      }
    }
  }

  lemma FromNext(attempts: seq<Attempt>, i: nat)
    requires i < 10 && AttemptAt(attempts, i).Refused?
    ensures OneInserts(attempts, i) <==> OneInserts(attempts, i + 1)
    ensures OneApplies(attempts, i) <==> AttemptAt(attempts, i).applied || OneApplies(attempts, i + 1)
  {
    if AttemptAt(attempts, i).applied {
      assert i < |attempts| && attempts[i].applied;
    }
    if OneApplies(attempts, i) && !AttemptAt(attempts, i).applied {
      var j :| i <= j < 10 && j < |attempts| && (attempts[j].Inserted? || attempts[j].applied);
      assert j != i;
    }
    if OneInserts(attempts, i) {
      var j :| i <= j < 10 && j < |attempts| && attempts[j].Inserted?;
      assert j != i;
    }
  }

  // -------------------------------------------------------------------------- flush

  /** The commit of a flush: for exactly the partitions in the batch, the offset
      right after the greatest one of the batch. */
  lemma FlushCommits(log: Log, s: State, attempts: seq<Attempt>, p: Partition)
    ensures var c := FlushStep(log, s, attempts, false).committed;
            if exists i :: 0 <= i < |s.batch| && s.batch[i].partition == p then
              && p in c && c[p] > 0 && Pending(p, c[p] - 1) in s.batch
              && (forall i :: 0 <= i < |s.batch| && s.batch[i].partition == p ==> s.batch[i].offset < c[p])
            else At(c, p) == At(s.committed, p)
    ensures FlushStep(log, s, attempts, true).committed == s.committed
  {
    HighIsGreatest(s.batch, p);
  }

  /** What a flush leaves: the buffer is empty; a key without a row gets that of the
      first buffered record with it if an attempt reached the database; the batch is
      dead-lettered if and only if none of the ten attempts succeeded. */
  lemma FlushLeaves(log: Log, s: State, attempts: seq<Attempt>, lost: bool, k: Key, q: Pending)
    requires s.batch != []
    ensures var t := FlushStep(log, s, attempts, lost);
            && t.batch == [] && t.position == s.position
            && Lookup(t.table, k) ==
               (if k in s.table then Some(s.table[k]) else if OneApplies(attempts, 0) then FirstIn(log, s.batch, k) else None)
            && (q in t.dlq <==> q in s.dlq || (q in s.batch && !OneInserts(attempts, 0)))
  {
    RetryIff(attempts, 0, false);
    InsertAllLookup(log, s.table, s.batch, k);
  }

  // ------------------------------------------------------------------------- reading

  /** The message a poll reads, if there is one. */
  function ReadBy(log: Log, s: State, e: Event): (qs: seq<Pending>)
  {
    if e.Poll? && At(s.position, e.partition) < |Part(log, e.partition)|
    then [Pending(e.partition, At(s.position, e.partition))] else []
  }

  function ReadIn(log: Log, s: State, es: seq<Event>): (qs: seq<Pending>)
    decreases |es|
  {
    if es == [] then [] else ReadBy(log, s, es[0]) + ReadIn(log, Step(log, s, es[0]), es[1..])
  }

  function OffsetsOf(qs: seq<Pending>, p: Partition): (os: seq<nat>)
  {
    if qs == [] then []
    else (if qs[0].partition == p then [qs[0].offset] else []) + OffsetsOf(qs[1..], p)
  }

  predicate Consecutive(os: seq<nat>, from: nat)
  {
    forall i :: 0 <= i < |os| ==> os[i] == from + i
  }

  lemma {:induction false} ReadsInOrder(log: Log, s: State, es: seq<Event>, p: Partition)
    requires forall j :: 0 <= j < |es| ==> !es[j].Crash?
    ensures Consecutive(OffsetsOf(ReadIn(log, s, es), p), At(s.position, p))
    decreases |es|
  {
    if es != [] {
      var t := Step(log, s, es[0]);
      ReadsInOrder(log, t, es[1..], p);
      ReadOne(log, s, es[0], p);
      InOrderAfter(ReadBy(log, s, es[0]), ReadIn(log, t, es[1..]), p, At(s.position, p), At(t.position, p));
    }
  }

  lemma InOrderAfter(first: seq<Pending>, rest: seq<Pending>, p: Partition, from: nat, next: nat)
    requires Consecutive(OffsetsOf(first, p), from) && next == from + |OffsetsOf(first, p)|
    requires Consecutive(OffsetsOf(rest, p), next)
    ensures Consecutive(OffsetsOf(first + rest, p), from)
  {
    OffsetsConcat(first, rest, p);
  }

  lemma {:induction false} OffsetsConcat(a: seq<Pending>, b: seq<Pending>, p: Partition)
    ensures OffsetsOf(a + b, p) == OffsetsOf(a, p) + OffsetsOf(b, p)
  {
    if a == [] {
      assert a + b == b;
    } else {
      assert (a + b)[1..] == a[1..] + b;
      OffsetsConcat(a[1..], b, p);
      var first := if a[0].partition == p then [a[0].offset] else [];
      assert first + (OffsetsOf(a[1..], p) + OffsetsOf(b, p)) == (first + OffsetsOf(a[1..], p)) + OffsetsOf(b, p);
    }
  }

  lemma ReadOne(log: Log, s: State, e: Event, p: Partition)
    requires !e.Crash?
    ensures var os := OffsetsOf(ReadBy(log, s, e), p);
            && Consecutive(os, At(s.position, p))
            && At(Step(log, s, e).position, p) == At(s.position, p) + |os|
  {
  }

  /** A restarted consumer reads each partition from its committed offset on,
      without a gap, and starts with an empty buffer. */
  lemma ResumesAtCommitted(log: Log, s: State, es: seq<Event>, p: Partition)
    requires forall j :: 0 <= j < |es| ==> !es[j].Crash?
    ensures var t := Step(log, s, Crash);
            var os := OffsetsOf(ReadIn(log, t, es), p);
            && t.batch == [] && t.table == s.table && t.committed == s.committed && t.dlq == s.dlq
            && forall i :: 0 <= i < |os| ==> os[i] == (if p in s.committed then s.committed[p] else 0) + i
  {
    ReadsInOrder(log, Step(log, s, Crash), es, p);
  }

  function GoodOnes(log: Log, qs: seq<Pending>): (gs: seq<Pending>)
  {
    if qs == [] then [] else (if MsgAt(log, qs[0]).Good? then [qs[0]] else []) + GoodOnes(log, qs[1..])
  }

  /** Between flushes the buffer grows by exactly the good records read, in order:
      tombstones and poison are never buffered. */
  lemma {:induction false} BuffersGoodReads(log: Log, s: State, es: seq<Event>)
    requires forall i :: 0 <= i < |es| ==> es[i].Poll?
    ensures Exec(log, s, es).batch == s.batch + GoodOnes(log, ReadIn(log, s, es))
    decreases |es|
  {
    if es != [] {
      var t := Step(log, s, es[0]);
      BuffersGoodReads(log, t, es[1..]);
      PollBuffers(log, s, es[0]);
      BufferGrows(log, s.batch, t.batch, Exec(log, t, es[1..]).batch, ReadBy(log, s, es[0]), ReadIn(log, t, es[1..]));
    }
  }

  lemma BufferGrows(log: Log, b0: seq<Pending>, b1: seq<Pending>, b2: seq<Pending>, first: seq<Pending>, rest: seq<Pending>)
    requires b1 == b0 + GoodOnes(log, first) && b2 == b1 + GoodOnes(log, rest)
    ensures b2 == b0 + GoodOnes(log, first + rest)
  {
    GoodConcat(log, first, rest);
  }

  lemma {:induction false} GoodConcat(log: Log, a: seq<Pending>, b: seq<Pending>)
    ensures GoodOnes(log, a + b) == GoodOnes(log, a) + GoodOnes(log, b)
  {
    if a == [] {
      assert a + b == b;
    } else {
      assert (a + b)[1..] == a[1..] + b;
      GoodConcat(log, a[1..], b);
      var first := if MsgAt(log, a[0]).Good? then [a[0]] else [];
      assert first + (GoodOnes(log, a[1..]) + GoodOnes(log, b)) == (first + GoodOnes(log, a[1..])) + GoodOnes(log, b);
    }
  }

  lemma PollBuffers(log: Log, s: State, e: Event)
    requires e.Poll?
    ensures Step(log, s, e).batch == s.batch + GoodOnes(log, ReadBy(log, s, e))
  {
  }

  /** A poll commits only past a poison record that it reads, to the next offset. */
  lemma PollCommits(log: Log, s: State, p: Partition, lost: bool, q: Partition)
    ensures var t, read := PollStep(log, s, p, lost), ReadBy(log, s, Poll(p, lost));
            At(t.committed, q) ==
            if q == p && !lost && read != [] && MsgAt(log, read[0]).Poison? then read[0].offset + 1 else At(s.committed, q)
  {
  }
}
