/** When draining loses nothing over a whole run. */
module DrainRuns {
  import opened EdgeAgent
  import opened AgentTheorems

  /** Every offset sent so far is confirmed, in the spool queue or in flight. */
  predicate AllHeld(a: Agent)
  {
    forall o: nat :: o < a.cursor ==> o in a.delivered || o in Live(a) || o in Inflight(a)
  }

  /** Nothing is queued twice, and nothing queued is confirmed already. */
  predicate Clean(a: Agent)
  {
    && Ahead(a)
    && |a.tags| == |a.store.acked| + |a.store.queue|
    && Distinct(Live(a))
    && (forall o :: o in Live(a) ==> o !in a.delivered)
  }

  /** The guard: an active drain succeeds on a prefix of the records it peeked at. */
  predicate DrainsOnPrefix(env: Env, a: Agent, e: Event)
  {
    e.Drain? && DrainActive(env, a, e.now) ==> PrefixOn(e.out, |Chunk(env, a)|)
  }

  // -------------------------------------------------------------------- flush

  lemma {:induction false} FailedApart(xs: seq<nat>, out: seq<bool>)
    requires Distinct(xs)
    ensures Distinct(Failed(xs, out))
    ensures forall o :: o in Failed(xs, out) ==> o !in Confirmed(xs, out)
  {
    if xs != [] {
      var n := |xs| - 1;
      FailedApart(xs[..n], out);
      OutcomesCover(xs[..n], out, xs[n]);
    }
  }

  lemma FailedNamesApart(a: Agent, out: seq<bool>)
    requires Ahead(a)
    ensures Distinct(FlushFailed(a, out))
    ensures forall o :: o in FlushFailed(a, out) ==> o in a.batch && o !in FlushConfirmed(a, out)
    ensures forall o :: o in FlushConfirmed(a, out) ==> o in a.batch
  {
    forall i | 0 <= i < |a.batch| ensures a.batch[i] == a.cursor - |Inflight(a)| + i {
      assert Inflight(a)[i] == a.batch[i];
    }
    FailedApart(a.batch, out);
    forall o | o in FlushFailed(a, out) || o in FlushConfirmed(a, out) ensures o in a.batch {
      OutcomesCover(a.batch, out, o);
    }
  }

  lemma BatchAhead(a: Agent, o: nat)
    requires Ahead(a) && o in a.batch
    ensures o !in a.delivered && o !in a.tags
  {
    var i :| 0 <= i < |a.batch| && a.batch[i] == o;
    assert Inflight(a)[i] == o;
  }

  lemma LiveTagged(a: Agent, o: nat)
    ensures o in Live(a) ==> o in a.tags
  {
  }

  lemma FlushLive(env: Env, a: Agent, now: int, out: seq<bool>, stored: bool)
    requires Clean(a) && a.batch != []
    ensures var t := FlushStep(env, a, now, out, stored);
            && Live(t) == Live(a) + FlushFailed(a, out)
            && t.delivered == a.delivered + FlushConfirmed(a, out)
            && Inflight(t) == a.channel && t.cursor == a.cursor
            && |t.tags| == |t.store.acked| + |t.store.queue|
  {
  }

  lemma DistinctConcat(xs: seq<nat>, ys: seq<nat>)
    requires Distinct(xs) && Distinct(ys) && forall o :: o in ys ==> o !in xs
    ensures Distinct(xs + ys)
  {
    forall i, j | 0 <= i < j < |xs + ys| ensures (xs + ys)[i] != (xs + ys)[j] {
      if i < |xs| <= j {
        assert ys[j - |xs|] in ys && xs[i] in xs;
      }
    }
  }

  lemma FlushClean(env: Env, a: Agent, now: int, out: seq<bool>, stored: bool)
    requires Clean(a) && a.batch != []
    ensures Clean(FlushStep(env, a, now, out, stored))
  {
    var t, f := FlushStep(env, a, now, out, stored), FlushFailed(a, out);
    FlushAhead(env, a, now, out, stored);
    FlushLive(env, a, now, out, stored);
    FailedNamesApart(a, out);
    forall o | o in a.batch ensures o !in Live(a) && o !in a.delivered {
      BatchAhead(a, o);
      LiveTagged(a, o);
    }
    DistinctConcat(Live(a), f);
  }

  lemma FlushHeld(env: Env, a: Agent, now: int, out: seq<bool>, stored: bool)
    requires Clean(a) && AllHeld(a) && a.batch != []
    ensures AllHeld(FlushStep(env, a, now, out, stored))
  {
    var t := FlushStep(env, a, now, out, stored);
    FlushLive(env, a, now, out, stored);
    forall o: nat | o < t.cursor ensures o in t.delivered || o in Live(t) || o in Inflight(t) {
      OutcomesCover(a.batch, out, o);
    }
  }

  // -------------------------------------------------------------------- drain

  lemma DrainPadded(env: Env, a: Agent, now: int, out: seq<bool>, p: seq<bool>)
    requires p == Padded(out, |Chunk(env, a)|)
    ensures DrainStep(env, a, now, out) == DrainStep(env, a, now, p)
  {
    SameOutcomes(Chunk(env, a), out, p);
  }

  /** An active drain keeps everything held if and only if it succeeds on a prefix. */
  lemma DrainHeldIff(env: Env, a: Agent, now: int, out: seq<bool>)
    requires Clean(a) && AllHeld(a) && DrainActive(env, a, now)
    ensures AllHeld(DrainStep(env, a, now, out)) <==> PrefixOn(out, |Chunk(env, a)|)
  {
    var p := Padded(out, |Chunk(env, a)|);
    PaddedPrefix(out, |Chunk(env, a)|);
    DrainPadded(env, a, now, out, p);
    DrainLosesNothingIffPrefix(env, a, now, p);
    HeldIffKept(env, a, now, p);
  }

  lemma HeldIffKept(env: Env, a: Agent, now: int, out: seq<bool>)
    requires Clean(a) && AllHeld(a) && DrainActive(env, a, now)
    ensures var t := DrainStep(env, a, now, out);
            AllHeld(t) <==> forall o :: o in Live(a) ==> o in t.delivered || o in Live(t)
  {
    var t := DrainStep(env, a, now, out);
    DrainedLive(env, a, now, out);
    assert Inflight(t) == Inflight(a) && t.cursor == a.cursor;
    if AllHeld(t) {
      forall o | o in Live(a) ensures o in t.delivered || o in Live(t) {
        LiveTagged(a, o);
        NotInFlight(a, o);
      }
    }
  }

  lemma NotInFlight(a: Agent, o: nat)
    requires Ahead(a) && o in a.tags
    ensures o < a.cursor && o !in Inflight(a)
  {
  }

  lemma DrainClean(env: Env, a: Agent, now: int, out: seq<bool>)
    requires Clean(a) && DrainActive(env, a, now) && PrefixOn(out, |Chunk(env, a)|)
    ensures Clean(DrainStep(env, a, now, out))
  {
    var chunk := Chunk(env, a);
    var p := Padded(out, |chunk|);
    PaddedPrefix(out, |chunk|);
    DrainPadded(env, a, now, out, p);
    DrainAhead(env, a, now, p);
    DrainedLive(env, a, now, p);
    PrefixOutcomes(chunk, p);
    RestIsClean(a.delivered, Live(a), |Confirmed(chunk, p)|);
    assert chunk[..|Confirmed(chunk, p)|] == Live(a)[..|Confirmed(chunk, p)|];
  }

  lemma RestIsClean(delivered: seq<nat>, live: seq<nat>, ok: nat)
    requires Distinct(live) && ok <= |live| && forall o :: o in live ==> o !in delivered
    ensures Distinct(live[ok..]) && forall o :: o in live[ok..] ==> o !in delivered + live[..ok]
  {
    forall o | o in live[ok..] ensures o !in delivered + live[..ok] {
      var i :| ok <= i < |live| && live[i] == o;
      assert live[i] in live;
    }
  }

  // --------------------------------------------------------------------- runs

  lemma StepHeldIff(env: Env, a: Agent, e: Event)
    requires Clean(a) && AllHeld(a) && !e.Crash? && !e.Reconnect?
    ensures AllHeld(Step(env, a, e)) <==> DrainsOnPrefix(env, a, e)
    ensures DrainsOnPrefix(env, a, e) ==> Clean(Step(env, a, e))
  {
    match e {
      case Flush(now, out, stored) =>
        if a.batch != [] {
          FlushClean(env, a, now, out, stored);
          FlushHeld(env, a, now, out, stored);
        }
      case Drain(now, out) =>
        if DrainActive(env, a, now) {
          DrainHeldIff(env, a, now, out);
          if PrefixOn(out, |Chunk(env, a)|) {
            DrainClean(env, a, now, out);
          }
        }
      case Send =>
        StepAhead(env, a, e);
        assert CanSend(env, a) ==> Inflight(SendStep(env, a)) == Inflight(a) + [a.cursor];
      case Recv =>
        StepAhead(env, a, e);
        assert Inflight(RecvStep(env, a)) == Inflight(a);
      case Hint(ok) => StepAhead(env, a, e);
    }
  }

  ghost predicate AllDrainOnPrefix(env: Env, a: Agent, es: seq<Event>)
    decreases |es|
  {
    es == [] || (DrainsOnPrefix(env, a, es[0]) && AllDrainOnPrefix(env, Step(env, a, es[0]), es[1..]))
  }

  ghost predicate AlwaysHeld(env: Env, a: Agent, es: seq<Event>)
    decreases |es|
  {
    AllHeld(a) && (es == [] || AlwaysHeld(env, Step(env, a, es[0]), es[1..]))
  }

  lemma {:induction false} RunHeldIff(env: Env, a: Agent, es: seq<Event>)
    requires Clean(a) && AllHeld(a)
    requires forall i :: 0 <= i < |es| ==> !es[i].Crash? && !es[i].Reconnect?
    ensures AlwaysHeld(env, a, es) <==> AllDrainOnPrefix(env, a, es)
    decreases |es|
  {
    if es != [] {
      var t := Step(env, a, es[0]);
      StepHeldIff(env, a, es[0]);
      if DrainsOnPrefix(env, a, es[0]) {
        RunHeldIff(env, t, es[1..]);
      } else {
        NotHeldNow(env, t, es[1..]);
      }
    }
  }

  lemma NotHeldNow(env: Env, a: Agent, es: seq<Event>)
    requires !AllHeld(a)
    ensures !AlwaysHeld(env, a, es)
  {
  }

  /** Until the first crash or reconnect, and whatever else succeeds or fails: every
      offset sent is confirmed, queued or in flight in every state if and only if
      every active drain succeeds on a prefix of the records it peeked at. */
  lemma NothingLostIffDrainsOnPrefix(env: Env, es: seq<Event>)
    requires forall i :: 0 <= i < |es| ==> !es[i].Crash? && !es[i].Reconnect?
    ensures AlwaysHeld(env, FRESH, es) <==> AllDrainOnPrefix(env, FRESH, es)
  {
    RunHeldIff(env, FRESH, es);
  }
}
