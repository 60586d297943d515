/** Ordering and accounting of the agent between two crashes. */
module Fifo {
  import opened Spools
  import opened EdgeAgent
  import opened AgentTheorems

  /** Everything the process run has taken on, oldest first. */
  function Pipeline(a: Agent): (xs: seq<nat>)
  {
    a.delivered + Live(a) + a.batch + a.channel
  }

  /** No crash, and the broker's successes in each attempt form a prefix. */
  predicate Orderly(e: Event)
  {
    && !e.Crash?
    && (e.Flush? ==> PrefixShaped(e.out))
    && (e.Drain? ==> PrefixShaped(e.out))
  }

  function SentBy(env: Env, a: Agent, e: Event): (xs: seq<nat>)
  {
    if e.Send? && CanSend(env, a) then [a.cursor] else []
  }

  ghost function SentIn(env: Env, a: Agent, es: seq<Event>): (xs: seq<nat>)
    decreases |es|
  {
    if es == [] then [] else SentBy(env, a, es[0]) + SentIn(env, Step(env, a, es[0]), es[1..])
  }

  lemma Regroup(d: seq<nat>, c: seq<nat>, l: seq<nat>, f: seq<nat>, b: seq<nat>, ch: seq<nat>)
    requires c + l + f == l + b
    ensures (d + c) + (l + f) + [] + ch == d + l + b + ch
  {
    assert (d + c) + (l + f) + [] + ch == d + (c + l + f) + ch;
    assert d + l + b + ch == d + (l + b) + ch;
  }

  lemma FlushSplits(env: Env, a: Agent, out: seq<bool>)
    requires Named(env, a) && PrefixShaped(out)
    ensures FlushConfirmed(a, out) + Live(a) + FlushFailed(a, out) == Live(a) + a.batch
  {
    if a.store.queue == [] {
      PrefixOutcomes(a.batch, out);
      assert |a.tags| == |a.store.acked + a.store.queue|;
      assert Live(a) == [];
    }
  }

  lemma FlushPipeline(env: Env, a: Agent, now: int, out: seq<bool>, stored: bool)
    requires Named(env, a) && PrefixShaped(out)
    ensures var t := FlushStep(env, a, now, out, stored); Named(env, t) && Pipeline(t) == Pipeline(a)
  {
    if a.batch != [] {
      var t := FlushStep(env, a, now, out, stored);
      var c, f := FlushConfirmed(a, out), FlushFailed(a, out);
      FlushNamed(env, a, now, out, stored);
      FlushedLive(env, a, now, out, stored);
      FlushSplits(env, a, out);
      Regroup(a.delivered, c, Live(a), f, a.batch, a.channel);
    }
  }

  lemma FrontMoves(d: seq<nat>, live: seq<nat>, chunk: seq<nat>, ok: nat)
    requires ok <= |chunk| && chunk <= live
    ensures (d + chunk[..ok]) + live[ok..] == d + live
  {
    assert chunk[..ok] == live[..ok];
  }

  lemma DrainPipeline(env: Env, a: Agent, now: int, out: seq<bool>)
    requires Named(env, a) && PrefixShaped(out)
    ensures var t := DrainStep(env, a, now, out); Named(env, t) && Pipeline(t) == Pipeline(a)
  {
    if DrainActive(env, a, now) {
      var t, chunk := DrainStep(env, a, now, out), Chunk(env, a);
      var ok := |Confirmed(chunk, out)|;
      DrainNamed(env, a, now, out);
      assert |a.tags| == |a.store.acked + a.store.queue|;
      DrainedLive(env, a, now, out);
      PrefixOutcomes(chunk, out);
      FrontMoves(a.delivered, Live(a), chunk, ok);
    }
  }

  lemma StepPipeline(env: Env, a: Agent, e: Event)
    requires Named(env, a) && Orderly(e)
    ensures Named(env, Step(env, a, e)) && Pipeline(Step(env, a, e)) == Pipeline(a) + SentBy(env, a, e)
  {
    match e {
      case Flush(now, out, stored) => FlushPipeline(env, a, now, out, stored);
      case Drain(now, out) => DrainPipeline(env, a, now, out);
      case Recv =>
        if !BatchFull(env, a) && a.channel != [] {
          assert a.batch + [a.channel[0]] + a.channel[1..] == a.batch + a.channel;
        }
      case _ =>
    }
  }

  /** FIFO, each record exactly once: over any crash-free run, what Kafka
      confirmed, then the spool queue, then the batch, then the channel, is what
      was there at the start followed by what the source sent. */
  lemma {:induction false} FifoExactlyOnce(env: Env, a: Agent, es: seq<Event>)
    requires Named(env, a) && forall i :: 0 <= i < |es| ==> Orderly(es[i])
    ensures Named(env, Exec(env, a, es))
    ensures Pipeline(Exec(env, a, es)) == Pipeline(a) + SentIn(env, a, es)
    decreases |es|
  {
    if es != [] {
      var t := Step(env, a, es[0]);
      assert Orderly(es[0]);
      StepPipeline(env, a, es[0]);
      FifoExactlyOnce(env, t, es[1..]);
      assert Pipeline(a) + SentBy(env, a, es[0]) + SentIn(env, t, es[1..])
          == Pipeline(a) + (SentBy(env, a, es[0]) + SentIn(env, t, es[1..]));
    }
  }

  /** The same of the records themselves: those Kafka confirmed, then the records
      in the spool queue, then those of batch and channel, are the records of what
      was there at the start and of what the source sent, in order. */
  lemma RecordsInOrder(env: Env, a: Agent, es: seq<Event>)
    requires Named(env, a) && forall i :: 0 <= i < |es| ==> Orderly(es[i])
    ensures var t := Exec(env, a, es);
            Records(env.src, t.delivered) + t.store.queue + Records(env.src, Inflight(t))
            == Records(env.src, Pipeline(a) + SentIn(env, a, es))
  {
    FifoExactlyOnce(env, a, es);
    PipelineRecords(env, Exec(env, a, es));
  }

  lemma PipelineRecords(env: Env, a: Agent)
    requires Named(env, a)
    ensures Records(env.src, a.delivered) + a.store.queue + Records(env.src, Inflight(a))
            == Records(env.src, Pipeline(a))
  {
    LiveNamed(env, a);
    RecordsConcat(env.src, a.delivered, Live(a));
    RecordsConcat(env.src, a.delivered + Live(a), Inflight(a));
    Grouping(a.delivered + Live(a), a.batch, a.channel);
  }

  lemma Grouping(x: seq<nat>, y: seq<nat>, z: seq<nat>)
    ensures x + (y + z) == x + y + z
  {
  }

  lemma LiveNamed(env: Env, a: Agent)
    requires Named(env, a)
    ensures Records(env.src, Live(a)) == a.store.queue
  {
    assert |a.tags| == |a.store.acked + a.store.queue|;
    DroppedNames(env.src, a.tags, a.store.acked + a.store.queue, |a.store.acked|);
  }

  function UpTo(n: nat): (xs: seq<nat>)
  {
    seq(n, i requires 0 <= i < n => i)
  }

  lemma {:induction false} SentInOrder(env: Env, a: Agent, es: seq<Event>)
    requires forall i :: 0 <= i < |es| ==> Orderly(es[i]) && !es[i].Reconnect?
    ensures a.cursor <= Exec(env, a, es).cursor
    ensures UpTo(a.cursor) + SentIn(env, a, es) == UpTo(Exec(env, a, es).cursor)
    decreases |es|
  {
    if es != [] {
      assert Orderly(es[0]) && !es[0].Reconnect?;
      var t := Step(env, a, es[0]);
      assert UpTo(a.cursor) + SentBy(env, a, es[0]) == UpTo(t.cursor);
      SentInOrder(env, t, es[1..]);
      assert UpTo(a.cursor) + (SentBy(env, a, es[0]) + SentIn(env, t, es[1..]))
          == UpTo(t.cursor) + SentIn(env, t, es[1..]);
    }
  }

  /** In the first process run, without a reconnect, Kafka confirms offsets
      0, 1, 2, ... in order, and the rest up to the cursor is still held. */
  lemma FirstRunDeliversInOrder(env: Env, es: seq<Event>)
    requires forall i :: 0 <= i < |es| ==> Orderly(es[i]) && !es[i].Reconnect?
    ensures var a := Exec(env, FRESH, es);
            Pipeline(a) == UpTo(a.cursor) && forall i :: 0 <= i < |a.delivered| ==> a.delivered[i] == i
  {
    var a := Exec(env, FRESH, es);
    assert forall i :: 0 <= i < |es| ==> Orderly(es[i]);
    FifoExactlyOnce(env, FRESH, es);
    SentInOrder(env, FRESH, es);
    assert Pipeline(FRESH) == UpTo(0) == [];
    forall i | 0 <= i < |a.delivered| ensures a.delivered[i] == i {
      assert a.delivered[i] == Pipeline(a)[i];
    }
  }

  /** A produced batch of distinct records keeps its order if and only if the
      successes are a prefix: a failure in the middle lets later records overtake. */
  lemma FlushKeepsOrderIffPrefix(batch: seq<nat>, out: seq<bool>)
    requires Distinct(batch) && |out| == |batch|
    ensures Confirmed(batch, out) + Failed(batch, out) == batch <==> PrefixShaped(out)
  {
    var c, f := Confirmed(batch, out), Failed(batch, out);
    if PrefixShaped(out) {
      PrefixOutcomes(batch, out);
    } else if c + f == batch {
      forall i | 0 <= i < |batch| ensures batch[i] in c <==> out[i] {
        ConfirmedAt(batch, out, i);
      }
      FrontMeansPrefix(batch, out, c);
    }
  }

  lemma FrontMeansPrefix(batch: seq<nat>, out: seq<bool>, c: seq<nat>)
    requires Distinct(batch) && |out| == |batch| && c <= batch
    requires forall i :: 0 <= i < |batch| ==> (batch[i] in c <==> out[i])
    ensures PrefixShaped(out)
  {
    forall i | 0 <= i < |batch| ensures out[i] <==> i < |c| {
      if i < |c| {
        assert c[i] == batch[i];
      }
    }
  }

  // ------------------------------------------------- exactly which runs keep order

  /** Confirmed, queued, batched and in the channel are 0, 1, 2, ... in order. */
  predicate InSequence(a: Agent)
  {
    Pipeline(a) == UpTo(a.cursor)
  }

  /** The guard: every produce attempt succeeds on a prefix of what it produces. */
  predicate ProducesOnPrefix(env: Env, a: Agent, e: Event)
  {
    && (e.Flush? && a.store.queue == [] ==> PrefixOn(e.out, |a.batch|))
    && (e.Drain? && DrainActive(env, a, e.now) ==> PrefixOn(e.out, |Chunk(env, a)|))
  }

  lemma Cancel(d: seq<nat>, x: seq<nat>, y: seq<nat>, rest: seq<nat>)
    requires |x| == |y|
    ensures d + x + rest == d + y + rest <==> x == y
  {
    if d + x + rest == d + y + rest {
      assert x == (d + x + rest)[|d|..|d| + |x|];
      assert y == (d + y + rest)[|d|..|d| + |y|];
    }
  }

  lemma SequenceParts(a: Agent)
    requires InSequence(a)
    ensures Distinct(Live(a)) && Distinct(a.batch)
  {
    var p, d, l := Pipeline(a), |a.delivered|, |Live(a)|;
    forall i | 0 <= i < l ensures Live(a)[i] == d + i {
      assert p[d + i] == Live(a)[i];
    }
    forall i | 0 <= i < |a.batch| ensures a.batch[i] == d + l + i {
      assert p[d + l + i] == a.batch[i];
    }
  }

  lemma OrderIffPrefixOn(xs: seq<nat>, out: seq<bool>)
    requires Distinct(xs)
    ensures Confirmed(xs, out) + Failed(xs, out) == xs <==> PrefixOn(out, |xs|)
    ensures Confirmed(xs, out) == xs[..|Confirmed(xs, out)|] <==> PrefixOn(out, |xs|)
  {
    var p := Padded(out, |xs|);
    PaddedPrefix(out, |xs|);
    SameOutcomes(xs, out, p);
    FlushKeepsOrderIffPrefix(xs, p);
    if Confirmed(xs, p) == xs[..|Confirmed(xs, p)|] {
      forall i | 0 <= i < |xs| ensures xs[i] in Confirmed(xs, p) <==> p[i] {
        ConfirmedAt(xs, p, i);
      }
      FrontMeansPrefix(xs, p, Confirmed(xs, p));
    }
    if PrefixShaped(p) {
      PrefixOutcomes(xs, p);
    }
  }

  lemma FlushSequenceIff(env: Env, a: Agent, now: int, out: seq<bool>, stored: bool)
    requires Named(env, a) && InSequence(a)
    ensures var t := FlushStep(env, a, now, out, stored);
            Pipeline(t) == Pipeline(a) <==> (a.store.queue == [] ==> PrefixOn(out, |a.batch|))
  {
    if a.batch != [] {
      var c, f := FlushConfirmed(a, out), FlushFailed(a, out);
      FlushPieces(env, a, now, out, stored);
      SequenceParts(a);
      if a.store.queue == [] {
        LiveNamed(env, a);
        OrderIffPrefixOn(a.batch, out);
        OutcomesPartition(a.batch, out);
        Cancel(a.delivered, c + f, a.batch, a.channel);
      }
    }
  }

  lemma FlushPieces(env: Env, a: Agent, now: int, out: seq<bool>, stored: bool)
    requires Named(env, a) && a.batch != []
    ensures var t := FlushStep(env, a, now, out, stored);
            var c, f := FlushConfirmed(a, out), FlushFailed(a, out);
            && (a.store.queue == [] ==> Pipeline(t) == a.delivered + (c + f) + a.channel
                                        && Pipeline(a) == a.delivered + a.batch + a.channel)
            && (a.store.queue != [] ==> Pipeline(t) == Pipeline(a))
  {
    var c, f := FlushConfirmed(a, out), FlushFailed(a, out);
    FlushedLive(env, a, now, out, stored);
    if a.store.queue == [] {
      LiveNamed(env, a);
      assert Live(a) == [];
      Squeeze(a.delivered, c, f, a.batch, a.channel);
    } else {
      assert c + Live(a) + f == Live(a) + a.batch;
      Regroup(a.delivered, c, Live(a), f, a.batch, a.channel);
    }
  }

  lemma FlushedLive(env: Env, a: Agent, now: int, out: seq<bool>, stored: bool)
    requires Named(env, a) && a.batch != []
    ensures var t := FlushStep(env, a, now, out, stored);
            && Live(t) == Live(a) + FlushFailed(a, out)
            && Pipeline(t) == (a.delivered + FlushConfirmed(a, out)) + (Live(a) + FlushFailed(a, out)) + [] + a.channel
  {
    assert |a.tags| == |a.store.acked + a.store.queue|;
  }

  lemma Squeeze(d: seq<nat>, c: seq<nat>, f: seq<nat>, b: seq<nat>, ch: seq<nat>)
    ensures (d + c) + ([] + f) + [] + ch == d + (c + f) + ch
    ensures d + [] + b + ch == d + b + ch
  {
    assert [] + f == f && d + [] == d;
  }

  lemma DrainSequenceIff(env: Env, a: Agent, now: int, out: seq<bool>)
    requires Named(env, a) && InSequence(a) && DrainActive(env, a, now)
    ensures Pipeline(DrainStep(env, a, now, out)) == Pipeline(a) <==> PrefixOn(out, |Chunk(env, a)|)
  {
    var t, chunk, live := DrainStep(env, a, now, out), Chunk(env, a), Live(a);
    var c := Confirmed(chunk, out);
    assert |a.tags| == |a.store.acked + a.store.queue|;
    DrainedLive(env, a, now, out);
    SequenceParts(a);
    OrderIffPrefixOn(chunk, out);
    var rest := live[|c|..] + a.batch + a.channel;
    Cancel(a.delivered, c, live[..|c|], rest);
    DrainPieces(a.delivered, c, live, a.batch, a.channel);
  }

  lemma DrainPieces(d: seq<nat>, c: seq<nat>, live: seq<nat>, b: seq<nat>, ch: seq<nat>)
    requires |c| <= |live|
    ensures d + c + live[|c|..] + b + ch == d + c + (live[|c|..] + b + ch)
    ensures d + live + b + ch == d + live[..|c|] + (live[|c|..] + b + ch)
  {
    assert live == live[..|c|] + live[|c|..];
  }

  lemma StepSequenceIff(env: Env, a: Agent, e: Event)
    requires Named(env, a) && InSequence(a) && !e.Crash? && !e.Reconnect?
    ensures InSequence(Step(env, a, e)) <==> ProducesOnPrefix(env, a, e)
  {
    match e {
      case Flush(now, out, stored) => FlushSequenceIff(env, a, now, out, stored);
      case Drain(now, out) =>
        if DrainActive(env, a, now) {
          DrainSequenceIff(env, a, now, out);
        }
      case Send =>
        StepPipeline(env, a, e);
        assert UpTo(a.cursor) + SentBy(env, a, e) == UpTo(Step(env, a, e).cursor);
      case Recv => StepPipeline(env, a, e);
      case Hint(_) => StepPipeline(env, a, e);
    }
  }

  ghost predicate AllProduceOnPrefix(env: Env, a: Agent, es: seq<Event>)
    decreases |es|
  {
    es == [] || (ProducesOnPrefix(env, a, es[0]) && AllProduceOnPrefix(env, Step(env, a, es[0]), es[1..]))
  }

  ghost predicate AlwaysInSequence(env: Env, a: Agent, es: seq<Event>)
    decreases |es|
  {
    InSequence(a) && (es == [] || AlwaysInSequence(env, Step(env, a, es[0]), es[1..]))
  }

  lemma {:induction false} RunSequenceIff(env: Env, a: Agent, es: seq<Event>)
    requires Named(env, a) && InSequence(a)
    requires forall i :: 0 <= i < |es| ==> !es[i].Crash? && !es[i].Reconnect?
    ensures AlwaysInSequence(env, a, es) <==> AllProduceOnPrefix(env, a, es)
    decreases |es|
  {
    if es != [] {
      var t := Step(env, a, es[0]);
      StepSequenceIff(env, a, es[0]);
      StepNamed(env, a, es[0]);
      if ProducesOnPrefix(env, a, es[0]) {
        RunSequenceIff(env, t, es[1..]);
      } else {
        NotInSequenceNow(env, t, es[1..]);
      }
    }
  }

  lemma NotInSequenceNow(env: Env, a: Agent, es: seq<Event>)
    requires !InSequence(a)
    ensures !AlwaysInSequence(env, a, es)
  {
  }

  /** Until the first crash or reconnect, what Kafka confirmed, the queue, the batch
      and the channel are the offsets 0, 1, 2, ... in order in every state if and
      only if every produce attempt, of a flush or a drain, succeeds on a prefix. */
  lemma FifoIffProducesOnPrefix(env: Env, es: seq<Event>)
    requires forall i :: 0 <= i < |es| ==> !es[i].Crash? && !es[i].Reconnect?
    ensures AlwaysInSequence(env, FRESH, es) <==> AllProduceOnPrefix(env, FRESH, es)
  {
    RunSequenceIff(env, FRESH, es);
  }

  lemma FirstFails(x: nat, y: nat, out: seq<bool>)
    requires out == [false, true]
    ensures Confirmed([x, y], out) == [y] && Failed([x, y], out) == [x]
  {
    assert [x, y][..1] == [x] && [x][..0] == [];
    assert Confirmed([x], out) == [] && Failed([x], out) == [x];
  }

  lemma FlushParts(env: Env, a: Agent, now: int, out: seq<bool>, c: seq<nat>, f: seq<nat>)
    requires a.batch != [] && c == FlushConfirmed(a, out) && f == FlushFailed(a, out) != []
    ensures var t := FlushStep(env, a, now, out, true);
            && t.delivered == a.delivered + c && t.tags == a.tags + f && t.batch == []
            && t.store == AppendTo(a.store, Records(env.src, f)) && t.stats.lastOk == a.stats.lastOk
  {
  }

  lemma Overtaking(env: Env, a: Agent, out: seq<bool>)
    requires a == FRESH.(batch := [0, 1], cursor := 2) && out == [false, true]
    ensures var t := FlushStep(env, a, 0, out, true);
            && t.delivered == [1] && t.tags == [0] && t.batch == [] && t.stats.lastOk == 0
            && t.store.acked == [] && |t.store.queue| == 1
  {
    FirstFails(0, 1, out);
    FlushParts(env, a, 0, out, [1], [0]);
  }

  lemma Overtaken(env: Env, a: Agent, out: seq<bool>)
    requires env.batchMax == 2 && out == [true]
    requires a.delivered == [1] && a.tags == [0] && a.batch == [] && a.stats.lastOk == 0
    requires a.store.acked == [] && |a.store.queue| == 1
    ensures DrainStep(env, a, 9, out).delivered == [1, 0]
  {
    assert Chunk(env, a) == [0];
    AllConfirmed(Chunk(env, a), out);
  }

  lemma OvertakingRun(env: Env, first: seq<bool>, second: seq<bool>)
    requires |env.src| == 2 && env.batchMax == 2 && first == [false, true] && second == [true]
    ensures Exec(env, FRESH, OUTAGE + [Event.Flush(0, first, true)] + [Drain(9, second)]).delivered == [1, 0]
  {
    var full := FRESH.(batch := [0, 1], cursor := 2);
    var f, d := Event.Flush(0, first, true), Drain(9, second);
    var a := FlushStep(env, full, 0, first, true);
    OutageFills(env);
    TwoMore(env, FRESH, OUTAGE, f, d);
    Overtaking(env, full, first);
    Overtaken(env, a, second);
  }

  lemma TwoMore(env: Env, a: Agent, es: seq<Event>, e: Event, f: Event)
    ensures Exec(env, a, es + [e] + [f]) == Step(env, Step(env, Exec(env, a, es), e), f)
  {
    ExecConcat(env, a, es + [e], [f]);
    ExecConcat(env, a, es, [e]);
    ExecOne(env, Exec(env, a, es), e);
    ExecOne(env, Step(env, Exec(env, a, es), e), f);
  }

  /** The first of two records fails and is spooled, the second goes through, and
      the drain sends the first: Kafka confirms 1 before 0. */
  lemma LaterRecordOvertakes(env: Env)
    requires |env.src| == 2 && env.batchMax == 2
    ensures var es := OUTAGE + [Event.Flush(0, [false, true], true)] + [Drain(9, [true])];
            Exec(env, FRESH, es).delivered == [1, 0]
  {
    OvertakingRun(env, [false, true], [true]);
  }

  // ----------------------------------------------------------------- counters

  /** `depth` is the queue length and `forwarded` has grown exactly with the
      confirmed records. */
  predicate CountersAgree(a: Agent, forwarded0: int)
  {
    a.stats.depth == |a.store.queue| && a.stats.forwarded - |a.delivered| == forwarded0
  }

  /** The health counters stay true over any crash-free run, whatever the
      outcomes of the produce attempts. */
  lemma {:induction false} CountersStayTrue(env: Env, a: Agent, es: seq<Event>, forwarded0: int)
    requires Named(env, a) && CountersAgree(a, forwarded0)
    requires forall i :: 0 <= i < |es| ==> !es[i].Crash?
    ensures CountersAgree(Exec(env, a, es), forwarded0)
    decreases |es|
  {
    if es != [] {
      var t := Step(env, a, es[0]);
      StepCounters(env, a, es[0], forwarded0);
      StepNamed(env, a, es[0]);
      CountersStayTrue(env, t, es[1..], forwarded0);
    }
  }

  lemma StepNamed(env: Env, a: Agent, e: Event)
    requires Named(env, a) && !e.Crash?
    ensures Named(env, Step(env, a, e))
  {
    match e {
      case Flush(now, out, stored) => FlushNamed(env, a, now, out, stored);
      case Drain(now, out) => DrainNamed(env, a, now, out);
      case _ =>
    }
  }

  lemma StepCounters(env: Env, a: Agent, e: Event, forwarded0: int)
    requires Named(env, a) && CountersAgree(a, forwarded0) && !e.Crash?
    ensures CountersAgree(Step(env, a, e), forwarded0)
  {
    match e {
      case Drain(now, out) =>
        assert |a.tags| == |a.store.acked + a.store.queue|;
        var ok := |Confirmed(Chunk(env, a), out)|;
        if DrainActive(env, a, now) && ok > 0 {
          AckDrops(a.store, ok);
        }
      case _ =>
    }
  }
}
