/** What the agent never loses: an invariant over every run of the state
    machine, with reconnects and crashes anywhere. */
module NoLoss {
  import opened Common
  import opened Frames
  import opened Spools
  import opened EdgeAgent

  /** Confirmed by Kafka, or in the spool file. */
  predicate Handled(a: Agent, o: nat)
  {
    o in a.delivered || o in a.tags
  }

  /** Every offset below `c` is handled, among `xs`, or in `lost`. */
  predicate Below(a: Agent, lost: set<nat>, c: nat, xs: seq<nat>)
  {
    forall o: nat :: o < c ==> o in lost || Handled(a, o) || o in xs
  }

  /** Every in-flight record comes after all records below it. */
  predicate InOrder(a: Agent, lost: set<nat>)
  {
    var fl := Inflight(a);
    forall i :: 0 <= i < |fl| ==> Below(a, lost, fl[i], fl[..i])
  }

  /** The spool is sound and its file holds the records named by `tags`; what
      has been acknowledged was confirmed. */
  ghost predicate SpoolSound(env: Env, a: Agent)
  {
    && Consistent(env.crc, a.store)
    && AllFit(a.store.appended)
    && PendingBounded(a.store)
    && |a.tags| == |a.store.acked| + |a.store.queue|
    && Named(env, a)
    && (forall i :: 0 <= i < |a.store.acked| ==> a.tags[i] in a.delivered)
  }

  predicate InRange(env: Env, a: Agent)
  {
    && a.cursor <= |env.src| && Resume(a) <= |env.src|
    && (forall i :: 0 <= i < |a.batch| ==> a.batch[i] < |env.src|)
    && (forall i :: 0 <= i < |a.channel| ==> a.channel[i] < |env.src|)
  }

  predicate Bounded(env: Env, a: Agent)
  {
    |a.batch| <= env.batchMax && |a.channel| <= 4 * env.batchMax
  }

  /** The invariant: apart from `lost`, everything below the source cursor and
      everything below the checkpoint is handled or in flight. */
  ghost predicate Inv(env: Env, a: Agent, lost: set<nat>)
  {
    && SpoolSound(env, a) && InRange(env, a) && Bounded(env, a)
    && InOrder(a, lost)
    && Below(a, lost, a.cursor, Inflight(a))
    && Below(a, lost, Resume(a), Inflight(a))
  }

  /** Everything below the checkpoint is handled already. */
  predicate Safe(a: Agent, lost: set<nat>)
  {
    Below(a, lost, Resume(a), [])
  }

  // ---------------------------------------------------------- step by step

  lemma SendInv(env: Env, a: Agent, lost: set<nat>)
    requires Inv(env, a, lost)
    ensures Inv(env, SendStep(env, a), lost)
    ensures Safe(a, lost) ==> Safe(SendStep(env, a), lost)
  {
    if CanSend(env, a) {
      var t, fl := SendStep(env, a), Inflight(a);
      assert Inflight(t) == fl + [a.cursor];
      forall i | 0 <= i < |Inflight(t)| ensures Below(t, lost, Inflight(t)[i], Inflight(t)[..i]) {
        if i < |fl| {
          assert Inflight(t)[..i] == fl[..i] && Below(a, lost, fl[i], fl[..i]);
        } else {
          assert Inflight(t)[..i] == fl;
        }
      }
    }
  }

  lemma RecvInv(env: Env, a: Agent, lost: set<nat>)
    requires Inv(env, a, lost)
    ensures Inv(env, RecvStep(env, a), lost)
    ensures Safe(a, lost) ==> Safe(RecvStep(env, a), lost)
  {
    var t := RecvStep(env, a);
    assert Inflight(t) == Inflight(a);
    forall i | 0 <= i < |Inflight(t)| ensures Below(t, lost, Inflight(t)[i], Inflight(t)[..i]) {
      assert Below(a, lost, Inflight(a)[i], Inflight(a)[..i]);
    }
  }

  lemma HintInv(env: Env, a: Agent, lost: set<nat>, ok: bool)
    requires Inv(env, a, lost)
    ensures Inv(env, HintStep(a, ok), lost)
    ensures Safe(a, lost) && !ok ==> Safe(HintStep(a, ok), lost)
  {
    SameRecords(a, HintStep(a, ok), lost);
  }

  lemma ReconnectInv(env: Env, a: Agent, lost: set<nat>)
    requires Inv(env, a, lost)
    ensures Inv(env, ReconnectStep(a), lost)
    ensures Safe(a, lost) ==> Safe(ReconnectStep(a), lost)
  {
    SameRecords(a, ReconnectStep(a), lost);
  }

  lemma SameRecords(a: Agent, t: Agent, lost: set<nat>)
    requires InOrder(a, lost) && t.tags == a.tags && t.delivered == a.delivered
    requires t.batch == a.batch && t.channel == a.channel
    ensures InOrder(t, lost)
  {
    forall i | 0 <= i < |Inflight(t)| ensures Below(t, lost, Inflight(t)[i], Inflight(t)[..i]) {
      assert Below(a, lost, Inflight(a)[i], Inflight(a)[..i]);
    }
  }

  lemma RecordsFit(env: Env, offsets: seq<nat>)
    requires AllFit(env.src)
    ensures AllFit(Records(env.src, offsets))
  {
  }

  lemma FlushHandles(a: Agent, env: Env, now: int, out: seq<bool>, stored: bool, o: nat)
    requires Handled(a, o) || o in a.batch
    ensures Handled(FlushStep(env, a, now, out, stored), o)
  {
    if o in a.batch && a.store.queue == [] {
      OutcomesCover(a.batch, out, o);
    }
  }

  lemma FlushSpool(env: Env, a: Agent, now: int, out: seq<bool>, stored: bool)
    requires AllFit(env.src) && SpoolSound(env, a)
    ensures SpoolSound(env, FlushStep(env, a, now, out, stored))
  {
    if a.batch != [] {
      var failed := FlushFailed(a, out);
      AppendOk(env.crc, a.store, Records(env.src, failed));
      RecordsFit(env, failed);
      RecordsConcat(env.src, a.tags, failed);
    }
  }

  lemma BelowAfter(a: Agent, t: Agent, lost: set<nat>, c: nat, xs: seq<nat>, ys: seq<nat>)
    requires Below(a, lost, c, xs)
    requires forall o :: Handled(a, o) ==> Handled(t, o)
    requires forall o :: o in xs ==> Handled(t, o) || o in ys
    ensures Below(t, lost, c, ys)
  {
  }

  /** Once a whole batch is handled, so is everything up to its greatest offset. */
  lemma BatchHandled(a: Agent, t: Agent, lost: set<nat>)
    requires InOrder(a, lost) && t.batch == [] && t.channel == a.channel
    requires forall o :: Handled(a, o) || o in a.batch ==> Handled(t, o)
    ensures InOrder(t, lost)
    ensures a.batch != [] ==> Below(t, lost, MaxOf(a.batch) + 1, [])
  {
    var fl, b := Inflight(a), |a.batch|;
    forall i | 0 <= i < |Inflight(t)| ensures Below(t, lost, Inflight(t)[i], Inflight(t)[..i]) {
      assert fl[b + i] == a.channel[i] && fl[..b + i] == a.batch + a.channel[..i];
      assert Inflight(t)[..i] == a.channel[..i];
      BelowAfter(a, t, lost, fl[b + i], fl[..b + i], a.channel[..i]);
    }
    if a.batch != [] {
      var j :| 0 <= j < b && a.batch[j] == MaxOf(a.batch);
      assert fl[j] == a.batch[j] && fl[..j] == a.batch[..j];
      BelowAfter(a, t, lost, fl[j], fl[..j], []);
    }
  }

  lemma FlushInv(env: Env, a: Agent, lost: set<nat>, now: int, out: seq<bool>, stored: bool)
    requires AllFit(env.src) && Inv(env, a, lost)
    ensures Inv(env, FlushStep(env, a, now, out, stored), lost)
    ensures Safe(a, lost) ==> Safe(FlushStep(env, a, now, out, stored), lost)
  {
    if a.batch != [] {
      var t := FlushStep(env, a, now, out, stored);
      FlushSpool(env, a, now, out, stored);
      forall o | Handled(a, o) || o in a.batch ensures Handled(t, o) {
        FlushHandles(a, env, now, out, stored, o);
      }
      BatchHandled(a, t, lost);
      BelowAfter(a, t, lost, a.cursor, Inflight(a), Inflight(t));
      BelowAfter(a, t, lost, Resume(a), Inflight(a), Inflight(t));
    }
  }

  /** Dropping the first `dropped` records from file and tags alike, once the
      first `done` of them are confirmed, keeps the spool sound. */
  lemma DroppedSound(env: Env, a: Agent, t: Agent, done: nat, dropped: nat)
    requires SpoolSound(env, a) && dropped <= done <= |a.tags|
    requires Consistent(env.crc, t.store) && AllFit(t.store.appended) && PendingBounded(t.store)
    requires t.store.acked + t.store.queue == (a.store.acked + a.store.queue)[dropped..]
    requires |t.store.acked| <= done - dropped
    requires t.tags == a.tags[dropped..] && a.delivered <= t.delivered
    requires forall i :: 0 <= i < done ==> a.tags[i] in t.delivered
    ensures SpoolSound(env, t)
    ensures forall o :: Handled(a, o) ==> Handled(t, o)
  {
    assert |t.tags| == |t.store.acked + t.store.queue|;
    assert Records(env.src, t.tags) == Records(env.src, a.tags)[dropped..];
    assert a.tags == a.tags[..dropped] + t.tags;
  }

  /** A drain whose successes are a prefix drops only confirmed records. */
  lemma DrainSpool(env: Env, a: Agent, now: int, out: seq<bool>)
    requires SpoolSound(env, a) && PrefixShaped(out) && DrainActive(env, a, now)
    ensures SpoolSound(env, DrainStep(env, a, now, out))
    ensures forall o :: Handled(a, o) ==> Handled(DrainStep(env, a, now, out), o)
  {
    var t, chunk := DrainStep(env, a, now, out), Chunk(env, a);
    var ok, p := |Confirmed(chunk, out)|, |a.store.acked|;
    PrefixOutcomes(chunk, out);
    if ok > 0 {
      AckedFit(env.crc, a.store, ok);
      AckDrops(a.store, ok);
      ConfirmedTags(env, a, chunk, ok);
      DroppedSound(env, a, t, p + ok, |a.tags| - |t.tags|);
    } else {
      DroppedSound(env, a, t, p, 0);
    }
  }

  lemma ConfirmedTags(env: Env, a: Agent, chunk: seq<nat>, ok: nat)
    requires SpoolSound(env, a) && chunk == Chunk(env, a) && ok <= |chunk|
    ensures forall i :: 0 <= i < |a.store.acked| + ok ==> a.tags[i] in a.delivered + chunk[..ok]
  {
    var p := |a.store.acked|;
    forall i | 0 <= i < p + ok ensures a.tags[i] in a.delivered + chunk[..ok] {
      if p <= i {
        assert a.tags[i] == chunk[..ok][i - p];
      }
    }
  }

  lemma DrainInv(env: Env, a: Agent, lost: set<nat>, now: int, out: seq<bool>)
    requires Inv(env, a, lost) && PrefixShaped(out)
    ensures Inv(env, DrainStep(env, a, now, out), lost)
    ensures Safe(a, lost) ==> Safe(DrainStep(env, a, now, out), lost)
  {
    if DrainActive(env, a, now) {
      var t := DrainStep(env, a, now, out);
      DrainSpool(env, a, now, out);
      forall i | 0 <= i < |Inflight(t)| ensures Below(t, lost, Inflight(t)[i], Inflight(t)[..i]) {
        assert Below(a, lost, Inflight(a)[i], Inflight(a)[..i]);
      }
    }
  }

  /** A crash keeps every handled record: what was in the spool file is in the
      reopened queue, whatever part of an append had reached the disk. */
  lemma CrashSpool(env: Env, a: Agent, at: CrashPoint)
    requires AllFit(env.src) && SpoolSound(env, a)
    ensures SpoolSound(env, CrashStep(env, a, at))
    ensures forall o :: Handled(a, o) ==> Handled(CrashStep(env, a, at), o)
  {
    DiskRecoversIffFits(env.crc, a.store);
    var failed := if at.InFlush? then FlushFailed(a, at.out) else [];
    var recs := Records(env.src, failed);
    var frames := EncodeAll(env.crc, recs);
    var j := if at.InFlush? then Min(at.k, |frames|) else 0;
    var image := Disk(env.crc, a.store) + frames[..j];
    RecordsFit(env, failed);
    CrashInAppend(env.crc, a.store, recs, j);
    OpenOk(env.crc, image);
    var m := Surviving(env.crc, recs, j);
    RecordsConcat(env.src, a.tags, failed[..m]);
    assert Records(env.src, failed[..m]) == recs[..m];
    if !at.InFlush? {
      assert image == Disk(env.crc, a.store);
    }
  }

  lemma CrashInv(env: Env, a: Agent, lost: set<nat>, at: CrashPoint)
    requires AllFit(env.src) && Inv(env, a, lost) && Safe(a, lost)
    ensures Inv(env, CrashStep(env, a, at), lost) && Safe(CrashStep(env, a, at), lost)
  {
    CrashSpool(env, a, at);
  }

  // ------------------------------------------------------------------- runs

  /** Drains succeed on a prefix; the source's hint writes, if any, fail. */
  predicate Admissible(e: Event)
  {
    && (e.Drain? ==> PrefixShaped(e.out))
    && (e.Hint? ==> !e.ok)
  }

  lemma {:induction false} RunInv(env: Env, a: Agent, lost: set<nat>, es: seq<Event>)
    requires AllFit(env.src) && Inv(env, a, lost) && Safe(a, lost)
    requires forall i :: 0 <= i < |es| ==> Admissible(es[i])
    ensures Inv(env, Exec(env, a, es), lost) && Safe(Exec(env, a, es), lost)
    decreases |es|
  {
    if es != [] {
      assert Admissible(es[0]);
      match es[0] {
        case Send => SendInv(env, a, lost);
        case Hint(ok) => HintInv(env, a, lost, ok);
        case Reconnect => ReconnectInv(env, a, lost);
        case Recv => RecvInv(env, a, lost);
        case Flush(now, out, stored) => FlushInv(env, a, lost, now, out, stored);
        case Drain(now, out) => DrainInv(env, a, lost, now, out);
        case Crash(at) => CrashInv(env, a, lost, at);
      }
      RunInv(env, Step(env, a, es[0]), lost, es[1..]);
    }
  }
}
