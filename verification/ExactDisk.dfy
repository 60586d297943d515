/** The spool file byte for byte, over every run of the agent. */
module ExactDisk {
  import opened Common
  import opened Frames
  import opened Spools
  import opened EdgeAgent
  import opened NoLoss

  /** The file holds the named records and nothing but their frames. */
  ghost predicate Exact(env: Env, a: Agent)
  {
    && Consistent(env.crc, a.store) && AllFit(a.store.appended) && Encoded(env.crc, a.store)
    && Named(env, a)
  }

  lemma FlushExact(env: Env, a: Agent, now: int, out: seq<bool>, stored: bool)
    requires AllFit(env.src) && Exact(env, a)
    ensures Exact(env, FlushStep(env, a, now, out, stored))
  {
    var failed := FlushFailed(a, out);
    AppendOk(env.crc, a.store, Records(env.src, failed));
    EncodedStays(env.crc, a.store, Records(env.src, failed), 0);
    RecordsFit(env, failed);
    FlushNamed(env, a, now, out, stored);
  }

  lemma DrainExact(env: Env, a: Agent, now: int, out: seq<bool>)
    requires Exact(env, a)
    ensures Exact(env, DrainStep(env, a, now, out))
  {
    var ok := |Confirmed(Chunk(env, a), out)|;
    AckedFit(env.crc, a.store, ok);
    EncodedStays(env.crc, a.store, [], ok);
    DrainNamed(env, a, now, out);
  }

  /** Restart on the file and any part of an append. */
  lemma RestartExact(env: Env, a: Agent, failed: seq<nat>, k: nat, delivered: seq<nat>)
    requires AllFit(env.src) && Exact(env, a) && k <= |EncodeAll(env.crc, Records(env.src, failed))|
    ensures var recs := Records(env.src, failed);
            var image := Disk(env.crc, a.store) + EncodeAll(env.crc, recs)[..k];
            Exact(env, Restart(env, a, image, a.tags + failed[..Surviving(env.crc, recs, k)], delivered))
  {
    var recs := Records(env.src, failed);
    var image, m := Disk(env.crc, a.store) + EncodeAll(env.crc, recs)[..k], Surviving(env.crc, recs, k);
    RecordsFit(env, failed);
    OpenOk(env.crc, image);
    CrashInAppend(env.crc, a.store, recs, k);
    EncodedReopens(env.crc, a.store, recs, k);
    RecordsConcat(env.src, a.tags, failed[..m]);
    assert Records(env.src, failed[..m]) == recs[..m];
  }

  lemma CrashExact(env: Env, a: Agent, at: CrashPoint)
    requires AllFit(env.src) && Exact(env, a)
    ensures Exact(env, CrashStep(env, a, at))
  {
    var disk := Disk(env.crc, a.store);
    match at {
      case InFlush(out, k) =>
        var failed := FlushFailed(a, out);
        var j := Min(k, |EncodeAll(env.crc, Records(env.src, failed))|);
        RestartExact(env, a, failed, j, a.delivered + FlushConfirmed(a, out));
      case _ =>
        var t := CrashStep(env, a, at);
        RestartExact(env, a, [], 0, t.delivered);
        assert disk + EncodeAll(env.crc, Records(env.src, []))[..0] == disk;
        assert a.tags + [][..Surviving(env.crc, Records(env.src, []), 0)] == a.tags;
    }
  }

  lemma StepExact(env: Env, a: Agent, e: Event)
    requires AllFit(env.src) && Exact(env, a)
    ensures Exact(env, Step(env, a, e))
  {
    match e {
      case Flush(now, out, stored) => FlushExact(env, a, now, out, stored);
      case Drain(now, out) => DrainExact(env, a, now, out);
      case Crash(at) => CrashExact(env, a, at);
      case _ =>
    }
  }

  lemma {:induction false} RunExact(env: Env, a: Agent, es: seq<Event>)
    requires AllFit(env.src) && Exact(env, a)
    ensures Exact(env, Exec(env, a, es))
    decreases |es|
  {
    if es != [] {
      StepExact(env, a, es[0]);
      RunExact(env, Step(env, a, es[0]), es[1..]);
    }
  }

  /** In every reachable state of every run, whatever the outcomes, hints,
      reconnects and crashes, the spool file is byte for byte the frames of the
      named records, acknowledged ones first, and replays to exactly those. */
  lemma DiskIsExact(env: Env, es: seq<Event>)
    requires AllFit(env.src)
    ensures var a := Exec(env, FRESH, es);
            && Disk(env.crc, a.store) == EncodeAll(env.crc, Records(env.src, a.tags))
            && Records(env.src, a.tags) == a.store.acked + a.store.queue
            && Replay(env.crc, Disk(env.crc, a.store)).records == a.store.acked + a.store.queue
  {
    CompactedOk(env.crc, FRESH.store);
    EncodedStays(env.crc, Compacted(FRESH.store), [], 0);
    assert Replay(env.crc, []).records == [];
    RunExact(env, FRESH, es);
    var a := Exec(env, FRESH, es);
    DiskIsEncoding(env.crc, a.store);
    DiskRecoversIffFits(env.crc, a.store);
  }
}
