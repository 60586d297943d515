/** The agent's guarantees over whole runs, and exactly where they stop. */
module AgentTheorems {
  import opened Common
  import opened Scan
  import opened Frames
  import opened Spools
  import opened EdgeAgent
  import opened NoLoss

  lemma FreshInv(env: Env)
    ensures Inv(env, FRESH, {}) && Safe(FRESH, {})
  {
    CompactedOk(env.crc, FRESH.store);
  }

  /** No loss across crashes: in every reachable state of every run of sends,
      reconnects, flushes, drains and crashes in which only flush moves the
      checkpoint and drain successes form a prefix, the disk bytes replay to
      exactly the source records named by `tags`, position by position, and every
      offset below the persisted one is confirmed by Kafka or among those names. */
  lemma NoLossAcrossCrashes(env: Env, es: seq<Event>, o: nat)
    requires AllFit(env.src)
    requires forall i :: 0 <= i < |es| ==> Admissible(es[i])
    ensures var a := Exec(env, FRESH, es);
            && Resume(a) <= |env.src|
            && Replay(env.crc, Disk(env.crc, a.store)).records == Records(env.src, a.tags)
            && (o < Resume(a) ==> o in a.delivered || o in a.tags)
  {
    FreshInv(env);
    RunInv(env, FRESH, {}, es);
    var a := Exec(env, FRESH, es);
    DiskRecoversIffFits(env.crc, a.store);
    if o < Resume(a) {
      assert Handled(a, o);
    }
  }

  /** Once the source is read to its end and nothing is in flight or spooled,
      Kafka has confirmed every record of the source, whatever crashed before. */
  lemma QuiescentMeansDelivered(env: Env, es: seq<Event>, o: nat)
    requires AllFit(env.src) && o < |env.src|
    requires forall i :: 0 <= i < |es| ==> Admissible(es[i])
    ensures var a := Exec(env, FRESH, es);
            a.cursor == |env.src| && Inflight(a) == [] && a.store.queue == [] ==> o in a.delivered
  {
    FreshInv(env);
    RunInv(env, FRESH, {}, es);
    var a := Exec(env, FRESH, es);
    if a.cursor == |env.src| && Inflight(a) == [] {
      assert Below(a, {}, a.cursor, []);
      assert Handled(a, o);
    }
  }

  // ----------------------------------------------------- the source's hint file

  /** A hint write keeps the checkpoint safe if and only if every in-flight
      record it skips past repeats one already confirmed or spooled. */
  lemma HintSafeIff(env: Env, a: Agent, lost: set<nat>)
    requires Inv(env, a, lost) && a.hintDue
    ensures Safe(HintStep(a, true), lost) <==>
            forall o :: o in Inflight(a) && o < a.cursor ==> o in lost || Handled(a, o)
  {
    var t := HintStep(a, true);
    assert Below(a, lost, a.cursor, Inflight(a));
    if Safe(t, lost) {
      forall o | o in Inflight(a) && o < a.cursor ensures o in lost || Handled(a, o) {
        assert Handled(t, o) == Handled(a, o);
      }
    } else {
      var o: nat :| o < Resume(t) && o !in lost && !Handled(t, o);
      assert o in Inflight(a) && !Handled(a, o);
    }
  }

  predicate DrainsPrefix(e: Event)
  {
    e.Drain? ==> PrefixShaped(e.out)
  }

  /** A hint that is written passes only records already confirmed or spooled. */
  ghost predicate HintPassesHandled(a: Agent, e: Event)
  {
    e.Hint? && e.ok && a.hintDue ==> forall o :: o in Inflight(a) && o < a.cursor ==> Handled(a, o)
  }

  ghost predicate HintsPassHandled(env: Env, a: Agent, es: seq<Event>)
    decreases |es|
  {
    es == [] || (HintPassesHandled(a, es[0]) && HintsPassHandled(env, Step(env, a, es[0]), es[1..]))
  }

  /** The checkpoint is safe now and after every event. */
  ghost predicate AlwaysSafe(env: Env, a: Agent, es: seq<Event>)
    decreases |es|
  {
    Safe(a, {}) && (es == [] || AlwaysSafe(env, Step(env, a, es[0]), es[1..]))
  }

  lemma StepSafeIff(env: Env, a: Agent, e: Event)
    requires AllFit(env.src) && Inv(env, a, {}) && Safe(a, {}) && DrainsPrefix(e)
    ensures Inv(env, Step(env, a, e), {})
    ensures Safe(Step(env, a, e), {}) <==> HintPassesHandled(a, e)
  {
    match e {
      case Send => SendInv(env, a, {});
      case Hint(ok) =>
        HintInv(env, a, {}, ok);
        if ok && a.hintDue {
          HintSafeIff(env, a, {});
        }
      case Reconnect => ReconnectInv(env, a, {});
      case Recv => RecvInv(env, a, {});
      case Flush(now, out, stored) => FlushInv(env, a, {}, now, out, stored);
      case Drain(now, out) => DrainInv(env, a, {}, now, out);
      case Crash(at) => CrashInv(env, a, {}, at);
    }
  }

  lemma {:induction false} RunSafeIff(env: Env, a: Agent, es: seq<Event>)
    requires AllFit(env.src) && Inv(env, a, {}) && Safe(a, {})
    requires forall i :: 0 <= i < |es| ==> DrainsPrefix(es[i])
    ensures AlwaysSafe(env, a, es) <==> HintsPassHandled(env, a, es)
    decreases |es|
  {
    if es != [] {
      StepSafeIff(env, a, es[0]);
      if HintPassesHandled(a, es[0]) {
        RunSafeIff(env, Step(env, a, es[0]), es[1..]);
      } else {
        NotSafeNow(env, Step(env, a, es[0]), es[1..]);
      }
    }
  }

  lemma NotSafeNow(env: Env, a: Agent, es: seq<Event>)
    requires !Safe(a, {})
    ensures !AlwaysSafe(env, a, es)
  {
  }

  /** Exactly which runs lose nothing: with prefix-shaped drains, every state of a
      run from the start has a safe checkpoint if and only if every hint the
      source writes passes only records already confirmed or spooled. */
  lemma NoLossIffHintsPassHandled(env: Env, es: seq<Event>)
    requires AllFit(env.src)
    requires forall i :: 0 <= i < |es| ==> DrainsPrefix(es[i])
    ensures AlwaysSafe(env, FRESH, es) <==> HintsPassHandled(env, FRESH, es)
  {
    FreshInv(env);
    RunSafeIff(env, FRESH, es);
  }

  // ------------------------------ the condition as a guard on batch and channel

  /** In-flight records are the last ones sent, and none of them is handled yet. */
  predicate Ahead(a: Agent)
  {
    var fl := Inflight(a);
    && |fl| <= a.cursor
    && (forall i :: 0 <= i < |fl| ==> fl[i] == a.cursor - |fl| + i)
    && (forall o :: o in a.delivered ==> o < a.cursor - |fl|)
    && (forall o :: o in a.tags ==> o < a.cursor - |fl|)
  }

  /** A flush confirms and spools only records of the batch. */
  lemma FlushNames(env: Env, a: Agent, now: int, out: seq<bool>, stored: bool, o: nat)
    ensures var t := FlushStep(env, a, now, out, stored);
            o in t.delivered || o in t.tags ==> o in a.delivered || o in a.tags || o in a.batch
  {
    OutcomesCover(a.batch, out, o);
  }

  lemma FlushAhead(env: Env, a: Agent, now: int, out: seq<bool>, stored: bool)
    requires Ahead(a)
    ensures Ahead(FlushStep(env, a, now, out, stored))
  {
    if a.batch != [] {
      var t := FlushStep(env, a, now, out, stored);
      var fl, n := Inflight(a), |a.batch|;
      assert Inflight(t) == a.channel;
      forall i | 0 <= i < |a.channel| ensures a.channel[i] == a.cursor - |a.channel| + i {
        assert fl[n + i] == a.channel[i];
      }
      forall o | o in a.batch ensures o < a.cursor - |a.channel| {
        var i :| 0 <= i < n && a.batch[i] == o;
        assert fl[i] == o;
      }
      forall o | o in t.delivered || o in t.tags ensures o < a.cursor - |a.channel| {
        FlushNames(env, a, now, out, stored, o);
        assert |fl| == n + |a.channel|;
      }
    }
  }

  /** A drain confirms only spooled records and adds none to the spool. */
  lemma DrainNames(env: Env, a: Agent, now: int, out: seq<bool>, o: nat)
    ensures o in DrainStep(env, a, now, out).delivered ==> o in a.delivered || o in a.tags
    ensures o in DrainStep(env, a, now, out).tags ==> o in a.tags
  {
    OutcomesCover(Chunk(env, a), out, o);
  }

  lemma DrainAhead(env: Env, a: Agent, now: int, out: seq<bool>)
    requires Ahead(a)
    ensures Ahead(DrainStep(env, a, now, out))
  {
    var t := DrainStep(env, a, now, out);
    assert Inflight(t) == Inflight(a);
    forall o | o in t.delivered || o in t.tags ensures o in a.delivered || o in a.tags {
      DrainNames(env, a, now, out, o);
    }
  }

  lemma StepAhead(env: Env, a: Agent, e: Event)
    requires Ahead(a) && !e.Crash? && !e.Reconnect?
    ensures Ahead(Step(env, a, e))
  {
    match e {
      case Send => assert CanSend(env, a) ==> Inflight(SendStep(env, a)) == Inflight(a) + [a.cursor];
      case Recv => assert Inflight(RecvStep(env, a)) == Inflight(a);
      case Hint(ok) => assert Inflight(HintStep(a, ok)) == Inflight(a);
      case Flush(now, out, stored) => FlushAhead(env, a, now, out, stored);
      case Drain(now, out) => DrainAhead(env, a, now, out);
    }
  }

  /** The guard: a hint is written only with an empty batch and an empty channel. */
  predicate HintFindsEmpty(a: Agent, e: Event)
  {
    e.Hint? && e.ok && a.hintDue ==> a.batch == [] && a.channel == []
  }

  ghost predicate HintsFindEmpty(env: Env, a: Agent, es: seq<Event>)
    decreases |es|
  {
    es == [] || (HintFindsEmpty(a, es[0]) && HintsFindEmpty(env, Step(env, a, es[0]), es[1..]))
  }

  lemma EmptyIffHandled(a: Agent, e: Event)
    requires Ahead(a)
    ensures HintFindsEmpty(a, e) <==> HintPassesHandled(a, e)
  {
    var fl := Inflight(a);
    if fl != [] {
      assert fl[0] in fl && fl[0] < a.cursor && !Handled(a, fl[0]);
      assert a.batch != [] || a.channel != [];
    }
  }

  lemma {:induction false} GuardIffHandled(env: Env, a: Agent, es: seq<Event>)
    requires Ahead(a) && forall i :: 0 <= i < |es| ==> !es[i].Crash? && !es[i].Reconnect?
    ensures HintsFindEmpty(env, a, es) <==> HintsPassHandled(env, a, es)
    decreases |es|
  {
    if es != [] {
      EmptyIffHandled(a, es[0]);
      StepAhead(env, a, es[0]);
      GuardIffHandled(env, Step(env, a, es[0]), es[1..]);
    }
  }

  /** Until the first crash or reconnect, the exact condition is one the program
      can test before it writes: the checkpoint is safe in every state if and
      only if every hint written finds the batch and the channel empty. */
  lemma NoLossIffHintsFindEmpty(env: Env, es: seq<Event>)
    requires AllFit(env.src)
    requires forall i :: 0 <= i < |es| ==> DrainsPrefix(es[i]) && !es[i].Crash? && !es[i].Reconnect?
    ensures AlwaysSafe(env, FRESH, es) <==> HintsFindEmpty(env, FRESH, es)
  {
    NoLossIffHintsPassHandled(env, es);
    GuardIffHandled(env, FRESH, es);
  }

  /** One send, its hint and a crash lose the record. */
  lemma HintLosesARecord(env: Env)
    requires |env.src| > 0 && env.batchMax > 0
    ensures var a := Exec(env, FRESH, [Send, Hint(true), Crash(Between)]);
            Resume(a) == 1 && a.delivered == [] && a.store.queue == [] && Disk(env.crc, a.store) == []
  {
    var a1 := Step(env, FRESH, Send);
    var a2 := Step(env, a1, Hint(true));
    var a3 := Step(env, a2, Crash(Between));
    assert [Send, Hint(true), Crash(Between)][1..] == [Hint(true), Crash(Between)];
    assert [Hint(true), Crash(Between)][1..] == [Crash(Between)];
    assert Exec(env, FRESH, [Send, Hint(true), Crash(Between)]) == a3;
    CompactedOk(env.crc, FRESH.store);
    assert Disk(env.crc, a2.store) == [];
    OpenOk(env.crc, []);
    FrameReaderIsLocal(env.crc);
    assert UsesInput(FrameReader(env.crc), []);
  }

  // ------------------------------------------------------ bounded run-ahead

  function Crashes(es: seq<Event>): (n: nat)
  {
    if es == [] then 0 else (if es[0].Crash? then 1 else 0) + Crashes(es[1..])
  }

  function ToSet(xs: seq<nat>): (s: set<nat>)
  {
    set x | x in xs
  }

  lemma {:induction false} ToSetSize(xs: seq<nat>)
    ensures |ToSet(xs)| <= |xs|
  {
    if xs == [] {
      assert ToSet(xs) == {};
    } else {
      ToSetSize(xs[1..]);
      assert ToSet(xs) == {xs[0]} + ToSet(xs[1..]);
    }
  }

  /** Counting hints too, a crash can lose at most what was in flight. */
  lemma CrashLosesInflight(env: Env, a: Agent, lost: set<nat>, at: CrashPoint)
    requires AllFit(env.src) && Inv(env, a, lost)
    ensures Inv(env, CrashStep(env, a, at), lost + ToSet(Inflight(a)))
    ensures |lost + ToSet(Inflight(a))| <= |lost| + 5 * env.batchMax
  {
    CrashSpool(env, a, at);
    ToSetSize(Inflight(a));
  }

  lemma StepBounded(env: Env, a: Agent, lost: set<nat>, e: Event) returns (after: set<nat>)
    requires AllFit(env.src) && Inv(env, a, lost) && DrainsPrefix(e)
    ensures Inv(env, Step(env, a, e), after)
    ensures |after| <= |lost| + (if e.Crash? then 5 * env.batchMax else 0)
  {
    after := lost;
    match e {
      case Send => SendInv(env, a, lost);
      case Hint(ok) => HintInv(env, a, lost, ok);
      case Reconnect => ReconnectInv(env, a, lost);
      case Recv => RecvInv(env, a, lost);
      case Flush(now, out, stored) => FlushInv(env, a, lost, now, out, stored);
      case Drain(now, out) => DrainInv(env, a, lost, now, out);
      case Crash(at) =>
        CrashLosesInflight(env, a, lost, at);
        after := lost + ToSet(Inflight(a));
    }
  }

  function Budget(perCrash: nat, es: seq<Event>): (n: nat)
  {
    if es == [] then 0 else (if es[0].Crash? then perCrash else 0) + Budget(perCrash, es[1..])
  }

  lemma {:induction false} BudgetIs(perCrash: nat, es: seq<Event>)
    ensures Budget(perCrash, es) == perCrash * Crashes(es)
  {
    if es != [] {
      BudgetIs(perCrash, es[1..]);
    }
  }

  lemma {:induction false} RunBounded(env: Env, a: Agent, lost: set<nat>, es: seq<Event>) returns (after: set<nat>)
    requires AllFit(env.src) && Inv(env, a, lost)
    requires forall i :: 0 <= i < |es| ==> DrainsPrefix(es[i])
    ensures Inv(env, Exec(env, a, es), after)
    ensures |after| <= |lost| + Budget(5 * env.batchMax, es)
    decreases |es|
  {
    if es == [] {
      after := lost;
    } else {
      var mid := StepBounded(env, a, lost, es[0]);
      after := RunBounded(env, Step(env, a, es[0]), mid, es[1..]);
    }
  }

  /** Offsets below the checkpoint whose records are neither delivered nor spooled. */
  function Unaccounted(a: Agent): (s: set<nat>)
  {
    set o: nat | o < Resume(a) && !Handled(a, o)
  }

  /** Checkpoint run-ahead is bounded, the source's hints and reconnects
      included: a full channel plus one batch per process run. */
  lemma CheckpointRunAhead(env: Env, es: seq<Event>)
    requires AllFit(env.src)
    requires forall i :: 0 <= i < |es| ==> DrainsPrefix(es[i])
    ensures |Unaccounted(Exec(env, FRESH, es))| <= 5 * env.batchMax * (Crashes(es) + 1)
  {
    FreshInv(env);
    var lost := RunBounded(env, FRESH, {}, es);
    BudgetIs(5 * env.batchMax, es);
    var a := Exec(env, FRESH, es);
    assert Below(a, lost, Resume(a), Inflight(a));
    assert Unaccounted(a) <= lost + ToSet(Inflight(a));
    ToSetSize(Inflight(a));
    SubsetSize(Unaccounted(a), lost + ToSet(Inflight(a)));
  }

  lemma {:induction false} SubsetSize(a: set<nat>, b: set<nat>)
    requires a <= b
    ensures |a| <= |b|
  {
    if a != {} {
      var x :| x in a;
      SubsetSize(a - {x}, b - {x});
    }
  }

  // ------------------------------------------------------------ partial drains

  /** A drain attempt keeps every peeked record, confirmed or still queued, if
      and only if its successes come before its failures: the code acknowledges
      as many records from the front as succeeded anywhere. */
  lemma DrainKeepsAllIffPrefix(chunk: seq<nat>, out: seq<bool>)
    requires |out| == |chunk|
    ensures var ok := |Confirmed(chunk, out)|;
            (forall i :: 0 <= i < |chunk| ==> out[i] || ok <= i) <==> PrefixShaped(out)
  {
    var ok := |Confirmed(chunk, out)|;
    ConfirmedCount(chunk, out);
    if PrefixShaped(out) {
      if i :| 0 <= i < |chunk| && !out[i] && i < ok {
        CountAfterFailure(out, i, |chunk|);
      }
    } else {
      var i, j :| 0 <= i < j < |out| && out[j] && !out[i];
      if forall i :: 0 <= i < |chunk| ==> out[i] || ok <= i {
        CountPrefix(out, ok, j, |chunk|);
      }
    }
  }

  predicate Distinct(xs: seq<nat>)
  {
    forall i, j :: 0 <= i < j < |xs| ==> xs[i] != xs[j]
  }

  lemma {:induction false} ConfirmedAt(xs: seq<nat>, out: seq<bool>, i: nat)
    requires Distinct(xs) && i < |xs|
    ensures xs[i] in Confirmed(xs, out) <==> Succeeded(out, i)
  {
    var n := |xs| - 1;
    if i == n {
      OutcomesCover(xs[..n], out, xs[i]);
    } else {
      ConfirmedAt(xs[..n], out, i);
    }
  }

  lemma {:induction false} ConfirmedIff(xs: seq<nat>, out: seq<bool>, x: nat)
    ensures x in Confirmed(xs, out) <==> exists j :: 0 <= j < |xs| && Succeeded(out, j) && xs[j] == x
  {
    if xs != [] {
      var n := |xs| - 1;
      ConfirmedIff(xs[..n], out, x);
      assert forall j :: 0 <= j < n ==> xs[..n][j] == xs[j];
    }
  }

  /** The offset that failed at position `i` also stands where it is kept: it was
      delivered before, succeeds at another position, or is queued again behind
      the acknowledged ones. */
  predicate KeptElsewhere(delivered: seq<nat>, live: seq<nat>, chunk: seq<nat>, out: seq<bool>, ok: nat, i: nat)
    requires ok <= |live| && i < |live|
  {
    || live[i] in delivered
    || (exists j :: 0 <= j < |chunk| && Succeeded(out, j) && chunk[j] == live[i])
    || (exists j :: ok <= j < |live| && live[j] == live[i])
  }

  /** On any queue, repeats after a reconnect included: a drain step leaves every
      queued record confirmed or still queued if and only if each record that
      failed among the first `ok` positions is kept elsewhere. */
  lemma DrainLosesNothingIff(env: Env, a: Agent, now: int, out: seq<bool>)
    requires |a.tags| == |a.store.acked| + |a.store.queue| && DrainActive(env, a, now)
    ensures var t := DrainStep(env, a, now, out);
            var ok := |Confirmed(Chunk(env, a), out)|;
            (forall o :: o in Live(a) ==> o in t.delivered || o in Live(t)) <==>
            forall i :: 0 <= i < ok && !Succeeded(out, i) ==> KeptElsewhere(a.delivered, Live(a), Chunk(env, a), out, ok, i)
  {
    var live, chunk := Live(a), Chunk(env, a);
    var c := Confirmed(chunk, out);
    DrainedLive(env, a, now, out);
    forall i | 0 <= i < |live|
      ensures live[i] in a.delivered + c || live[i] in live[|c|..] <==>
              (i < |c| && !Succeeded(out, i) ==> KeptElsewhere(a.delivered, live, chunk, out, |c|, i))
    {
      KeptAt(a.delivered, live, chunk, out, i);
    }
  }

  lemma KeptAt(delivered: seq<nat>, live: seq<nat>, chunk: seq<nat>, out: seq<bool>, i: nat)
    requires chunk <= live && i < |live|
    ensures var c := Confirmed(chunk, out);
            live[i] in delivered + c || live[i] in live[|c|..] <==>
            (i < |c| && !Succeeded(out, i) ==> KeptElsewhere(delivered, live, chunk, out, |c|, i))
  {
    var ok := |Confirmed(chunk, out)|;
    ConfirmedIff(chunk, out, live[i]);
    BehindIff(live, ok, live[i]);
    if i < ok {
      assert live[i] == chunk[i];
    }
  }

  lemma BehindIff(live: seq<nat>, ok: nat, x: nat)
    requires ok <= |live|
    ensures x in live[ok..] <==> exists j :: ok <= j < |live| && live[j] == x
  {
    if j :| ok <= j < |live| && live[j] == x {
      assert live[ok..][j - ok] == x;
    }
  }

  /** The same on the agent: when no queued record is a repeat, a drain step
      leaves every queued record confirmed or still queued if and only if its
      successes are a prefix. */
  lemma DrainLosesNothingIffPrefix(env: Env, a: Agent, now: int, out: seq<bool>)
    requires |a.tags| == |a.store.acked| + |a.store.queue|
    requires DrainActive(env, a, now) && |out| == |Chunk(env, a)|
    requires Distinct(Live(a)) && forall o :: o in Live(a) ==> o !in a.delivered
    ensures var t := DrainStep(env, a, now, out);
            (forall o :: o in Live(a) ==> o in t.delivered || o in Live(t)) <==> PrefixShaped(out)
  {
    DrainedLive(env, a, now, out);
    KeptIffPrefix(a.delivered, Live(a), Chunk(env, a), out);
  }

  lemma KeptIffPrefix(delivered: seq<nat>, live: seq<nat>, chunk: seq<nat>, out: seq<bool>)
    requires Distinct(live) && chunk <= live && |out| == |chunk|
    requires forall o :: o in live ==> o !in delivered
    ensures var c := Confirmed(chunk, out);
            (forall o :: o in live ==> o in delivered + c || o in live[|c|..]) <==> PrefixShaped(out)
  {
    var c := Confirmed(chunk, out);
    DrainKeepsAllIffPrefix(chunk, out);
    forall i | 0 <= i < |live|
      ensures live[i] in c || live[i] in live[|c|..] <==> (i < |chunk| && out[i]) || |c| <= i
    {
      DrainedAt(live, chunk, out, |c|, i);
    }
    if PrefixShaped(out) {
      forall o | o in live ensures o in delivered + c || o in live[|c|..] {
        var i :| 0 <= i < |live| && live[i] == o;
      }
    } else {
      var i :| 0 <= i < |chunk| && !out[i] && i < |c|;
      assert live[i] in live;
    }
  }

  lemma DrainedLive(env: Env, a: Agent, now: int, out: seq<bool>)
    requires |a.tags| == |a.store.acked| + |a.store.queue| && DrainActive(env, a, now)
    ensures var t := DrainStep(env, a, now, out);
            var ok := |Confirmed(Chunk(env, a), out)|;
            && |t.tags| == |t.store.acked| + |t.store.queue|
            && Live(t) == Live(a)[ok..]
            && t.delivered == a.delivered + Confirmed(Chunk(env, a), out)
  {
    var ok := |Confirmed(Chunk(env, a), out)|;
    if ok > 0 {
      AckDrops(a.store, ok);
    }
  }

  lemma DrainedAt(live: seq<nat>, chunk: seq<nat>, out: seq<bool>, ok: nat, i: nat)
    requires Distinct(live) && chunk <= live && |out| == |chunk| && ok <= |chunk| && i < |live|
    ensures live[i] in Confirmed(chunk, out) || live[i] in live[ok..] <==> (i < |chunk| && out[i]) || ok <= i
  {
    if i < |chunk| {
      ConfirmedAt(chunk, out, i);
    } else if live[i] in Confirmed(chunk, out) {
      OutcomesCover(chunk, out, live[i]);
    }
    if ok <= i {
      assert live[ok..][i - ok] == live[i];
    }
  }

  lemma {:induction false} ExecConcat(env: Env, a: Agent, es: seq<Event>, fs: seq<Event>)
    ensures Exec(env, a, es + fs) == Exec(env, Exec(env, a, es), fs)
    decreases |es|
  {
    if es == [] {
      assert es + fs == fs;
    } else {
      assert (es + fs)[1..] == es[1..] + fs;
      ExecConcat(env, Step(env, a, es[0]), es[1..], fs);
    }
  }

  lemma ExecOne(env: Env, a: Agent, e: Event)
    ensures Exec(env, a, [e]) == Step(env, a, e)
  {
    assert Exec(env, Step(env, a, e), []) == Step(env, a, e);
  }

  /** Both records of a two-record source are sent, received and, with the
      uplink down, spooled. */
  function Spooled(src: seq<Record>): (a: Agent)
    requires |src| == 2
  {
    Agent(Store([], src, [], src), [0, 1], Some(2), [], [], Stats(false, 0, 2, 0, 2), [], 2, false)
  }

  const SENDS: seq<Event> := [Send, Hint(false), Send]
  const RECEIVES: seq<Event> := [Recv, Recv]
  const OUTAGE: seq<Event> := SENDS + RECEIVES

  lemma OutageSends(env: Env)
    requires |env.src| == 2 && env.batchMax == 2
    ensures Exec(env, FRESH, SENDS) == FRESH.(channel := [0, 1], cursor := 2)
  {
    var a1 := FRESH.(channel := [0], cursor := 1, hintDue := true);
    var a2 := a1.(hintDue := false);
    assert SENDS[1..] == [Hint(false), Send] && SENDS[1..][1..] == [Send];
    ExecOne(env, a2, Send);
    assert Exec(env, a1, [Hint(false), Send]) == Exec(env, a2, [Send]);
  }

  lemma OutageReceives(env: Env)
    requires |env.src| == 2 && env.batchMax == 2
    ensures Exec(env, FRESH.(channel := [0, 1], cursor := 2), RECEIVES) == FRESH.(batch := [0, 1], cursor := 2)
  {
    var a := FRESH.(batch := [0], channel := [1], cursor := 2);
    assert RECEIVES[1..] == [Recv];
    ExecOne(env, a, Recv);
  }

  lemma OutageFills(env: Env)
    requires |env.src| == 2 && env.batchMax == 2
    ensures Exec(env, FRESH, OUTAGE) == FRESH.(batch := [0, 1], cursor := 2)
  {
    OutageSends(env);
    OutageReceives(env);
    ExecConcat(env, FRESH, SENDS, RECEIVES);
  }

  lemma OutageSpools(env: Env, a: Agent, out: seq<bool>)
    requires |env.src| == 2 && env.batchMax == 2
    requires a == FRESH.(batch := [0, 1], cursor := 2) && out == []
    ensures FlushStep(env, a, 0, out, true) == Spooled(env.src)
  {
    SpoolsAll(a, out);
    MaxOfIs(a.batch, 1);
    assert Records(env.src, a.batch) == env.src;
    SpoolsAllStep(env, a, 0, out, env.src, 1);
  }

  lemma MaxOfIs(xs: seq<nat>, m: nat)
    requires m in xs && forall i :: 0 <= i < |xs| ==> xs[i] <= m
    ensures MaxOf(xs) == m
  {
    var j :| 0 <= j < |xs| && xs[j] == m;
    assert xs[j] <= MaxOf(xs);
  }

  /** With the uplink down, a flush onto an empty spool spools the whole batch. */
  lemma SpoolsAll(a: Agent, out: seq<bool>)
    requires a.store.queue == [] && forall i :: 0 <= i < |a.batch| ==> !Succeeded(out, i)
    ensures FlushConfirmed(a, out) == [] && FlushFailed(a, out) == a.batch
  {
    NoneConfirmed(a.batch, out);
  }

  lemma SpoolsAllStep(env: Env, a: Agent, now: int, out: seq<bool>, recs: seq<Record>, last: nat)
    requires a.batch != [] && FlushConfirmed(a, out) == [] && FlushFailed(a, out) == a.batch
    requires recs == Records(env.src, a.batch) && last == MaxOf(a.batch)
    ensures var t := FlushStep(env, a, now, out, true);
            && t.store == AppendTo(a.store, recs) && t.tags == a.tags + a.batch
            && t.checkpoint == Some(last + 1) && t.delivered == a.delivered && t.batch == []
            && t.stats == FlushStats(a, now, 0, |a.batch|)
            && t.channel == a.channel && t.cursor == a.cursor && t.hintDue == a.hintDue
  {
  }

  lemma SecondSucceeds(x: nat, y: nat)
    ensures Confirmed([x, y], [false, true]) == [y] && Confirmed([y], [true]) == [y]
  {
    assert [x, y][..1] == [x] && [x][..0] == [] && [y][..0] == [];
    assert Confirmed([x], [false, true]) == [];
  }

  lemma FirstDrain(env: Env)
    requires |env.src| == 2 && env.batchMax == 2
    ensures var t := Step(env, Spooled(env.src), Drain(9, [false, true]));
            && t.store == Store([], env.src, env.src[..1], env.src[1..])
            && t.tags == [0, 1] && t.delivered == [1] && Resume(t) == 2
            && t.batch == [] && t.stats.lastOk == 0
  {
    var a := Spooled(env.src);
    assert Chunk(env, a) == [0, 1];
    SecondSucceeds(0, 1);
    assert AckIn(a.store, 1) == Store([], env.src, env.src[..1], env.src[1..]);
  }

  lemma SecondDrain(env: Env, a: Agent)
    requires |env.src| == 2 && env.batchMax == 2
    requires a.store == Store([], env.src, env.src[..1], env.src[1..]) && a.tags == [0, 1]
    requires a.delivered == [1] && a.batch == [] && a.stats.lastOk == 0
    ensures var t := Step(env, a, Drain(9, [true]));
            t.store == Store([], [], [], []) && t.tags == [] && t.delivered == [1, 1] && Resume(t) == Resume(a)
  {
    assert Chunk(env, a) == [1];
    SecondSucceeds(0, 1);
    assert AckIn(a.store, 1) == Store([], [], [], []);
  }

  /** Two records are spooled; a drain in which only the second succeeds
      acknowledges the first, and the next drain compacts it away: record 0 is
      below the checkpoint, unconfirmed and no longer on disk. */
  lemma OutOfOrderDrainLosesARecord(env: Env)
    requires |env.src| == 2 && env.batchMax == 2
    ensures var es := OUTAGE + [Flush(0, [], true)] + [Drain(9, [false, true])] + [Drain(9, [true])];
            var a := Exec(env, FRESH, es);
            Resume(a) == 2 && a.delivered == [1, 1] && a.tags == [] && Disk(env.crc, a.store) == []
  {
    var full, spooled := FRESH.(batch := [0, 1], cursor := 2), Spooled(env.src);
    var f, d1, d2 := [Flush(0, [], true)], [Drain(9, [false, true])], [Drain(9, [true])];
    OutageFills(env);
    OutageSpools(env, full, []);
    FirstDrain(env);
    SecondDrain(env, Step(env, spooled, d1[0]));
    ExecConcat(env, FRESH, OUTAGE + f + d1, d2);
    ExecConcat(env, FRESH, OUTAGE + f, d1);
    ExecConcat(env, FRESH, OUTAGE, f);
    ExecOne(env, full, f[0]);
    ExecOne(env, spooled, d1[0]);
    ExecOne(env, Step(env, spooled, d1[0]), d2[0]);
  }

  /** Successes among the first `n` records. */
  function Count(out: seq<bool>, n: nat): (c: nat)
    ensures c <= n
  {
    if n == 0 then 0 else Count(out, n - 1) + (if Succeeded(out, n - 1) then 1 else 0)
  }

  lemma {:induction false} ConfirmedCount<T>(xs: seq<T>, out: seq<bool>)
    ensures |Confirmed(xs, out)| == Count(out, |xs|)
  {
    if xs != [] {
      ConfirmedCount(xs[..|xs| - 1], out);
    }
  }

  lemma {:induction false} CountAfterFailure(out: seq<bool>, i: nat, n: nat)
    requires PrefixShaped(out) && i <= n && !Succeeded(out, i)
    ensures Count(out, n) <= i
  {
    if i < n {
      CountAfterFailure(out, i, n - 1);
    }
  }

  lemma {:induction false} CountPrefix(out: seq<bool>, k: nat, j: nat, n: nat)
    requires forall i :: 0 <= i < k ==> Succeeded(out, i)
    requires k <= j < n && Succeeded(out, j)
    ensures Count(out, n) > k
  {
    if n == j + 1 {
      CountFront(out, k, j);
    } else {
      CountPrefix(out, k, j, n - 1);
    }
  }

  lemma {:induction false} CountFront(out: seq<bool>, k: nat, n: nat)
    requires k <= n && forall i :: 0 <= i < k ==> Succeeded(out, i)
    ensures Count(out, n) >= k
  {
    if k < n {
      CountFront(out, k, n - 1);
    } else if k > 0 {
      CountFront(out, k - 1, n - 1);
    }
  }
}
