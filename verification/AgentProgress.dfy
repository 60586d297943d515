/** What the agent does, as opposed to what it must not lose: where it resumes,
    what it drains, how far the source runs ahead, what /healthz reports. */
module AgentProgress {
  import opened Common
  import opened Frames
  import opened Spools
  import opened EdgeAgent
  import opened AgentTheorems
  import opened Fifo

  // ------------------------------------------------------------------- resuming

  predicate Restarts(a: Agent, e: Event)
  {
    e.Crash? || (e.Reconnect? && !a.hintDue)
  }

  predicate Steady(es: seq<Event>)
  {
    forall i :: 0 <= i < |es| ==> !es[i].Crash? && !es[i].Reconnect?
  }

  lemma {:induction false} SentFromCursor(env: Env, a: Agent, es: seq<Event>, i: nat)
    requires Steady(es) && i < |SentIn(env, a, es)|
    ensures SentIn(env, a, es)[i] == a.cursor + i
    decreases |es|
  {
    var first := SentBy(env, a, es[0]);
    if i >= |first| {
      SentFromCursor(env, Step(env, a, es[0]), es[1..], i - |first|);
    }
  }

  /** After a crash or a reconnect the source sends the persisted offset next, then
      the following ones without a gap, until it is interrupted again. */
  lemma ResumesAtCheckpoint(env: Env, a: Agent, e: Event, es: seq<Event>)
    requires Restarts(a, e) && Steady(es)
    ensures var xs := SentIn(env, Step(env, a, e), es);
            forall i :: 0 <= i < |xs| ==> xs[i] == (if a.checkpoint.Some? then a.checkpoint.value else 0) + i
  {
    var t := Step(env, a, e);
    forall i | 0 <= i < |SentIn(env, t, es)| ensures SentIn(env, t, es)[i] == Resume(a) + i {
      SentFromCursor(env, t, es, i);
    }
  }

  /** A restarted agent has nothing in flight and knows only what is durable: the
      checkpoint file, and the spool file, all of whose records are queued again. */
  lemma RestartsFromDisk(env: Env, a: Agent, at: CrashPoint)
    ensures var t := CrashStep(env, a, at);
            && t.batch == [] && t.channel == [] && !t.hintDue
            && t.checkpoint == a.checkpoint
            && t.store.acked == [] && t.store.appended == []
            && t.store.queue == Replay(env.crc, Disk(env.crc, t.store)).records
            && t.stats == Stats(false, 0, |t.store.queue|, 0, 0)
            && a.delivered <= t.delivered && a.tags <= t.tags
            && (at.Between? ==> t.store.queue == Replay(env.crc, Disk(env.crc, a.store)).records
                                && t.delivered == a.delivered && t.tags == a.tags)
  {
    var t := CrashStep(env, a, at);
    var image := match at
      case InFlush(out, k) =>
        var frames := EncodeAll(env.crc, Records(env.src, FlushFailed(a, out)));
        Disk(env.crc, a.store) + frames[..Min(k, |frames|)]
      case _ => Disk(env.crc, a.store);
    assert t.store == OpenFile(env.crc, image);
    OpenOk(env.crc, image);
    ReopenIsStable(env.crc, image);
  }

  /** A crash after `k` bytes of a flush's append: what Kafka took stays taken, and
      the queue is all that was in the file followed by the unconfirmed records whose
      whole frames are among those bytes. */
  lemma CrashInsideFlush(env: Env, a: Agent, out: seq<bool>, k: nat)
    requires Consistent(env.crc, a.store) && AllFit(a.store.appended) && AllFit(env.src)
    ensures var t, failed := CrashStep(env, a, InFlush(out, k)), FlushFailed(a, out);
            var recs := Records(env.src, failed);
            var m := Surviving(env.crc, recs, Min(k, |EncodeAll(env.crc, recs)|));
            && t.store.queue == a.store.acked + a.store.queue + recs[..m]
            && t.tags == a.tags + failed[..m]
            && t.delivered == a.delivered + FlushConfirmed(a, out)
  {
    var recs := Records(env.src, FlushFailed(a, out));
    CrashInAppend(env.crc, a.store, recs, Min(k, |EncodeAll(env.crc, recs)|));
  }

  /** A crash inside a drain, before its ack is durable: what Kafka took is queued
      again all the same. */
  lemma CrashInsideDrain(env: Env, a: Agent, now: int, out: seq<bool>)
    requires Consistent(env.crc, a.store) && AllFit(a.store.appended) && DrainActive(env, a, now)
    ensures var t := CrashStep(env, a, InDrain(now, out));
            && t.store.queue == a.store.acked + a.store.queue && t.tags == a.tags
            && t.delivered == a.delivered + Confirmed(Chunk(env, a), out)
  {
    DiskRecoversIffFits(env.crc, a.store);
  }

  // ------------------------------------------------------- the checkpoint flush writes

  /** A stored flush writes the offset right after the greatest one of the batch. */
  lemma FlushCheckpoint(env: Env, a: Agent, now: int, out: seq<bool>, o: nat)
    requires a.batch != []
    ensures var c := FlushStep(env, a, now, out, true).checkpoint;
            && c.Some? && c.value > 0 && c.value - 1 in a.batch
            && (o in a.batch ==> o < c.value)
    ensures FlushStep(env, a, now, out, false).checkpoint == a.checkpoint
  {
  }

  /** Everything is stored and no hint is written. */
  predicate OnlyFlushStores(e: Event)
  {
    && !e.Crash? && !e.Reconnect?
    && (e.Flush? ==> e.stored)
    && (e.Hint? ==> !e.ok)
  }

  predicate Exact(a: Agent)
  {
    Ahead(a) && Resume(a) == a.cursor - |Inflight(a)|
  }

  lemma FlushExactly(env: Env, a: Agent, now: int, out: seq<bool>)
    requires Exact(a)
    ensures Exact(FlushStep(env, a, now, out, true))
  {
    FlushAhead(env, a, now, out, true);
    if a.batch != [] {
      var n := |a.batch|;
      forall i | 0 <= i < n ensures a.batch[i] == a.cursor - |Inflight(a)| + i {
        assert Inflight(a)[i] == a.batch[i];
      }
      MaxOfIs(a.batch, a.batch[n - 1]);
    }
  }

  lemma StepExactly(env: Env, a: Agent, e: Event)
    requires Exact(a) && OnlyFlushStores(e)
    ensures Exact(Step(env, a, e))
  {
    StepAhead(env, a, e);
    if e.Flush? {
      FlushExactly(env, a, e.now, e.out);
    }
  }

  lemma {:induction false} RunExactly(env: Env, a: Agent, es: seq<Event>)
    requires Exact(a) && forall i :: 0 <= i < |es| ==> OnlyFlushStores(es[i])
    ensures Exact(Exec(env, a, es))
    decreases |es|
  {
    if es != [] {
      StepExactly(env, a, es[0]);
      RunExactly(env, Step(env, a, es[0]), es[1..]);
    }
  }

  /** Where every checkpoint write of flush succeeds and no hint is written, a crash
      makes the source resume exactly at the oldest record in flight: nothing
      confirmed or spooled is read again, nothing in flight is passed over. */
  lemma ResumesAtFirstInFlight(env: Env, es: seq<Event>)
    requires forall i :: 0 <= i < |es| ==> OnlyFlushStores(es[i])
    ensures var a := Exec(env, FRESH, es);
            var t := Step(env, a, Crash(Between));
            && t.cursor == a.cursor - |Inflight(a)|
            && (Inflight(a) != [] ==> t.cursor == Inflight(a)[0])
            && (forall o :: o in a.delivered || o in a.tags ==> o < t.cursor)
  {
    RunExactly(env, FRESH, es);
  }

  // ------------------------------------------------------------- hints, backpressure

  /** The source asks for a hint after every 64th offset, and the hint it writes is
      the next offset. */
  lemma HintAfterSend(env: Env, a: Agent, ok: bool)
    requires !a.hintDue && |a.channel| < 4 * env.batchMax && a.cursor < |env.src|
    ensures var t := HintStep(SendStep(env, a), ok);
            && t.cursor == a.cursor + 1 && t.channel == a.channel + [a.cursor] && !t.hintDue
            && t.checkpoint == if ok && a.cursor % 64 == 0 then Some(a.cursor + 1) else a.checkpoint
  {
  }

  /** The source writes a hint it owes before anything else, and no hint it does
      not owe. */
  lemma HintComesFirst(env: Env, a: Agent, ok: bool)
    ensures a.hintDue ==> SendStep(env, a) == a && ReconnectStep(a) == a && !HintStep(a, ok).hintDue
    ensures !a.hintDue ==> HintStep(a, ok) == a
  {
  }

  function Sends(n: nat): (es: seq<Event>)
  {
    if n == 0 then [] else Sends(n - 1) + [Send, Hint(false)]
  }

  lemma SendOnce(env: Env, a: Agent)
    ensures Exec(env, a, [Send, Hint(false)]) == HintStep(SendStep(env, a), false)
  {
    assert [Send, Hint(false)][1..] == [Hint(false)];
    ExecOne(env, SendStep(env, a), Hint(false));
  }

  /** Backpressure: with nothing received, the source gets exactly four batches
      ahead, or to the end of the topic, and no farther. */
  lemma {:induction false} SourceFillsChannel(env: Env, n: nat)
    ensures var m := Min(n, Min(4 * env.batchMax, |env.src|));
            Exec(env, FRESH, Sends(n)) == FRESH.(channel := UpTo(m), cursor := m)
  {
    if n == 0 {
      assert UpTo(0) == [];
    } else {
      SourceFillsChannel(env, n - 1);
      var k := Min(n - 1, Min(4 * env.batchMax, |env.src|));
      var a := FRESH.(channel := UpTo(k), cursor := k);
      ExecConcat(env, FRESH, Sends(n - 1), [Send, Hint(false)]);
      SendOnce(env, a);
      assert UpTo(k) + [k] == UpTo(k + 1);
    }
  }

  // ------------------------------------------------------------------- draining

  /** With records queued, a batch that is not full, and the uplink healthy or five
      seconds passed since it last was, a drain in which all succeed confirms and
      removes one batch from the front of the queue, or all of it if it is shorter. */
  lemma DrainMakesProgress(env: Env, a: Agent, now: int, out: seq<bool>)
    requires |a.tags| == |a.store.acked| + |a.store.queue|
    requires a.store.queue != [] && |a.batch| < env.batchMax
    requires a.stats.kafkaOk || now - a.stats.lastOk >= 5
    requires forall i :: 0 <= i < Min(env.batchMax, |a.store.queue|) ==> Succeeded(out, i)
    ensures var t := DrainStep(env, a, now, out);
            var n := Min(env.batchMax, |a.store.queue|);
            && n > 0 && t.delivered == a.delivered + Live(a)[..n] && t.store.queue == a.store.queue[n..]
            && t.stats.kafkaOk && t.stats.lastOk == now && t.stats.forwarded == a.stats.forwarded + n
  {
    AllConfirmed(Chunk(env, a), out);
  }

  /** Otherwise it waits. */
  lemma DrainWaits(env: Env, a: Agent, now: int, out: seq<bool>)
    requires a.store.queue == [] || (!a.stats.kafkaOk && now - a.stats.lastOk < 5)
    ensures DrainStep(env, a, now, out) == a
  {
  }

  // -------------------------------------------------------------------- health

  /** What /healthz shows after a flush: with a spool nothing is tried and the batch
      is counted as spooled; otherwise the uplink is healthy exactly if all went
      through, and every record is counted as forwarded or as spooled. */
  lemma HealthAfterFlush(env: Env, a: Agent, now: int, out: seq<bool>, stored: bool)
    requires a.batch != []
    ensures var s, t := a.stats, FlushStep(env, a, now, out, stored).stats;
            var ok := |Confirmed(a.batch, out)|;
            if a.store.queue != [] then
              t == s.(spooled := s.spooled + |a.batch|, depth := |a.store.queue| + |a.batch|)
            else
              && (t.kafkaOk <==> ok == |a.batch|)
              && t.lastOk == (if ok == |a.batch| then now else s.lastOk)
              && t.forwarded == s.forwarded + ok && t.spooled == s.spooled + |a.batch| - ok
              && (ok < |a.batch| ==> t.depth == |a.batch| - ok)
  {
    OutcomesPartition(a.batch, out);
  }

  /** And after a drain: healthy exactly if the whole chunk went through. */
  lemma HealthAfterDrain(env: Env, a: Agent, now: int, out: seq<bool>)
    requires DrainActive(env, a, now)
    ensures var s, t := a.stats, DrainStep(env, a, now, out);
            var ok := |Confirmed(Chunk(env, a), out)|;
            && (t.stats.kafkaOk <==> ok == |Chunk(env, a)|)
            && t.stats.lastOk == (if ok == |Chunk(env, a)| then now else s.lastOk)
            && t.stats.forwarded == s.forwarded + ok && t.stats.spooled == s.spooled
            && t.stats.depth == |t.store.queue|
  {
  }
}
