/** The fluvio-edge agent as a state machine: the source task, the bounded
    channel, the batcher, the Kafka producer (per-record outcomes are inputs),
    the spool and the checkpoint file, with crashes at every durable boundary.

    A source record is named by its Fluvio offset; its key and value are those
    of the source log at that offset. */
module EdgeAgent {
  import opened Common
  import opened Frames
  import opened Spools

  datatype Env = Env(crc: Checksum, src: seq<Record>, batchMax: nat)

  /** Health counters served by /healthz. */
  datatype Stats = Stats(kafkaOk: bool, lastOk: int, depth: nat, forwarded: nat, spooled: nat)

  /** `tags` are the source offsets of the records in the spool file, that is of
      `store.acked + store.queue`; `delivered` are the offsets Kafka confirmed, in
      order. Neither is stored by the program; they name what its data stands for.
      `hintDue` is set between a send and the hint write that follows it. */
  datatype Agent = Agent(
    store: Store,
    tags: seq<nat>,
    checkpoint: Option<nat>,
    delivered: seq<nat>,
    batch: seq<nat>,
    stats: Stats,
    channel: seq<nat>,
    cursor: nat,
    hintDue: bool)

  datatype CrashPoint =
    | Between                            // outside flush and drain
    | InFlush(out: seq<bool>, k: nat)    // produced; k bytes of the append durable; not checkpointed
    | InDrain(now: int, out: seq<bool>)  // produced; nothing acked on disk yet

  datatype Event =
    | Send                                              // source: record into the channel
    | Hint(ok: bool)                                    // source: store_offset(offset + 1)
    | Reconnect                                         // source: stream ended, resume from file
    | Recv                                              // forwarder: channel to batch
    | Flush(now: int, out: seq<bool>, stored: bool)     // stored: did the checkpoint write succeed
    | Drain(now: int, out: seq<bool>)
    | Crash(at: CrashPoint)                             // and restart

  function Rec(src: seq<Record>, offset: nat): (r: Record)
  {
    if offset < |src| then src[offset] else Record(None, [])
  }

  function Records(src: seq<Record>, offsets: seq<nat>): (rs: seq<Record>)
    ensures |rs| == |offsets|
  {
    seq(|offsets|, i requires 0 <= i < |offsets| => Rec(src, offsets[i]))
  }

  /** The records in the spool file are, one by one, those named by `tags`. */
  predicate Named(env: Env, a: Agent)
  {
    Records(env.src, a.tags) == a.store.acked + a.store.queue
  }

  // ------------------------------------------------------------ produce_batch

  /** Did the delivery of the record at position `i` succeed? */
  predicate Succeeded(out: seq<bool>, i: nat)
  {
    i < |out| && out[i]
  }

  function Confirmed<T>(xs: seq<T>, out: seq<bool>): (ys: seq<T>)
    ensures |ys| <= |xs|
  {
    if xs == [] then []
    else
      var n := |xs| - 1;
      Confirmed(xs[..n], out) + (if Succeeded(out, n) then [xs[n]] else [])
  }

  function Failed<T>(xs: seq<T>, out: seq<bool>): (ys: seq<T>)
  {
    if xs == [] then []
    else
      var n := |xs| - 1;
      Failed(xs[..n], out) + (if Succeeded(out, n) then [] else [xs[n]])
  }

  function MaxOf(xs: seq<nat>): (m: nat)
    requires xs != []
    ensures m in xs && forall i :: 0 <= i < |xs| ==> xs[i] <= m
  {
    if |xs| == 1 then xs[0]
    else
      var m := MaxOf(xs[..|xs| - 1]);
      if m < xs[|xs| - 1] then xs[|xs| - 1] else m
  }

  // -------------------------------------------------------------------- steps

  function Live(a: Agent): (tags: seq<nat>)
  {
    if |a.store.acked| <= |a.tags| then a.tags[|a.store.acked|..] else []
  }

  function Inflight(a: Agent): (xs: seq<nat>)
  {
    a.batch + a.channel
  }

  /** The offset the source resumes from. */
  function Resume(a: Agent): (o: nat)
  {
    if a.checkpoint.Some? then a.checkpoint.value else 0
  }

  predicate BatchFull(env: Env, a: Agent)
  {
    |a.batch| >= env.batchMax
  }

  predicate CanSend(env: Env, a: Agent)
  {
    !a.hintDue && |a.channel| < 4 * env.batchMax && a.cursor < |env.src|
  }

  function SendStep(env: Env, a: Agent): (t: Agent)
  {
    if !CanSend(env, a) then a
    else a.(channel := a.channel + [a.cursor], cursor := a.cursor + 1, hintDue := a.cursor % 64 == 0)
  }

  function HintStep(a: Agent, ok: bool): (t: Agent)
  {
    if !a.hintDue then a
    else a.(hintDue := false, checkpoint := if ok then Some(a.cursor) else a.checkpoint)
  }

  function ReconnectStep(a: Agent): (t: Agent)
  {
    if a.hintDue then a else a.(cursor := Resume(a))
  }

  function RecvStep(env: Env, a: Agent): (t: Agent)
  {
    if BatchFull(env, a) || a.channel == [] then a
    else a.(batch := a.batch + [a.channel[0]], channel := a.channel[1..])
  }

  /** What a flush of the batch confirms and what it must spool: nothing is
      produced while older records still sit in the spool. */
  function FlushConfirmed(a: Agent, out: seq<bool>): (xs: seq<nat>)
  {
    if a.store.queue == [] then Confirmed(a.batch, out) else []
  }

  function FlushFailed(a: Agent, out: seq<bool>): (xs: seq<nat>)
  {
    if a.store.queue == [] then Failed(a.batch, out) else a.batch
  }

  /** Counters after the produce attempt, if there was one. */
  function ProducedStats(s: Stats, attempted: bool, now: int, ok: nat, failed: nat): (r: Stats)
  {
    if attempted && failed == 0 then s.(kafkaOk := true, lastOk := now, forwarded := s.forwarded + ok)
    else if attempted && ok > 0 then s.(kafkaOk := false, forwarded := s.forwarded + ok)
    else if attempted then s.(kafkaOk := false)
    else s
  }

  function SpooledStats(s: Stats, failed: nat, depth: nat): (r: Stats)
  {
    if failed > 0 then s.(spooled := s.spooled + failed, depth := depth) else s
  }

  function FlushStats(a: Agent, now: int, ok: nat, failed: nat): (s: Stats)
  {
    SpooledStats(ProducedStats(a.stats, a.store.queue == [], now, ok, failed), failed, |a.store.queue| + failed)
  }

  function FlushStep(env: Env, a: Agent, now: int, out: seq<bool>, stored: bool): (t: Agent)
  {
    if a.batch == [] then a
    else
      var confirmed, failed := FlushConfirmed(a, out), FlushFailed(a, out);
      a.(store := AppendTo(a.store, Records(env.src, failed)),
         tags := a.tags + failed,
         delivered := a.delivered + confirmed,
         batch := [],
         checkpoint := if stored then Some(MaxOf(a.batch) + 1) else a.checkpoint,
         stats := FlushStats(a, now, |confirmed|, |failed|))
  }

  predicate DrainActive(env: Env, a: Agent, now: int)
  {
    && !BatchFull(env, a)
    && a.store.queue != []
    && (a.stats.kafkaOk || now - a.stats.lastOk >= 5)
  }

  /** The offsets of the records a drain attempt peeks at. */
  function Chunk(env: Env, a: Agent): (xs: seq<nat>)
  {
    Live(a)[..Min(env.batchMax, |Live(a)|)]
  }

  function DrainStats(s: Stats, now: int, ok: nat, failed: nat, depth: nat): (r: Stats)
  {
    if failed == 0 then s.(kafkaOk := true, lastOk := now, forwarded := s.forwarded + ok, depth := depth)
    else s.(kafkaOk := false, forwarded := s.forwarded + ok, depth := depth)
  }

  /** The first `ok` records are acknowledged, whichever records succeeded. */
  function DrainStep(env: Env, a: Agent, now: int, out: seq<bool>): (t: Agent)
  {
    if !DrainActive(env, a, now) then a
    else
      var chunk := Chunk(env, a);
      var confirmed := Confirmed(chunk, out);
      var ok := |confirmed|;
      var store := if ok > 0 then AckIn(a.store, ok) else a.store;
      var kept := |store.acked| + |store.queue|;
      a.(store := store,
         tags := if kept <= |a.tags| then a.tags[|a.tags| - kept..] else a.tags,
         delivered := a.delivered + confirmed,
         stats := DrainStats(a.stats, now, ok, |chunk| - ok, |store.queue|))
  }

  /** Restart on the file contents `image`, whose records have offsets `tags`. */
  ghost function Restart(env: Env, a: Agent, image: Bytes, tags: seq<nat>, delivered: seq<nat>): (t: Agent)
  {
    var store := OpenFile(env.crc, image);
    Agent(store, tags, a.checkpoint, delivered, [], Stats(false, 0, |store.queue|, 0, 0), [], Resume(a), false)
  }

  ghost function CrashStep(env: Env, a: Agent, at: CrashPoint): (t: Agent)
  {
    match at
    case Between =>
      Restart(env, a, Disk(env.crc, a.store), a.tags, a.delivered)
    case InFlush(out, k) =>
      var failed := FlushFailed(a, out);
      var frames := EncodeAll(env.crc, Records(env.src, failed));
      var j := Min(k, |frames|);
      Restart(env, a, Disk(env.crc, a.store) + frames[..j],
              a.tags + failed[..Surviving(env.crc, Records(env.src, failed), j)],
              a.delivered + FlushConfirmed(a, out))
    case InDrain(now, out) =>
      var confirmed := if DrainActive(env, a, now) then Confirmed(Chunk(env, a), out) else [];
      Restart(env, a, Disk(env.crc, a.store), a.tags, a.delivered + confirmed)
  }

  ghost function Step(env: Env, a: Agent, e: Event): (t: Agent)
  {
    match e
    case Send => SendStep(env, a)
    case Hint(ok) => HintStep(a, ok)
    case Reconnect => ReconnectStep(a)
    case Recv => RecvStep(env, a)
    case Flush(now, out, stored) => FlushStep(env, a, now, out, stored)
    case Drain(now, out) => DrainStep(env, a, now, out)
    case Crash(at) => CrashStep(env, a, at)
  }

  ghost function Exec(env: Env, a: Agent, es: seq<Event>): (t: Agent)
    decreases |es|
  {
    if es == [] then a else Exec(env, Step(env, a, es[0]), es[1..])
  }

  /** First start on an empty spool directory. */
  const FRESH: Agent :=
    Agent(Store([], [], [], []), [], None, [], [], Stats(false, 0, 0, 0, 0), [], 0, false)

  // ---------------------------------------------------------- outcome lemmas

  /** Successes come before failures. */
  predicate PrefixShaped(out: seq<bool>)
  {
    forall i, j :: 0 <= i < j < |out| && out[j] ==> out[i]
  }

  lemma {:induction false} PrefixOutcomes<T>(xs: seq<T>, out: seq<bool>)
    requires PrefixShaped(out)
    ensures var ok := |Confirmed(xs, out)|; Confirmed(xs, out) == xs[..ok] && Failed(xs, out) == xs[ok..]
  {
    if xs != [] {
      var n := |xs| - 1;
      if Succeeded(out, n) {
        AllConfirmed(xs, out);
      } else {
        var front := xs[..n];
        PrefixOutcomes(front, out);
        var ok := |Confirmed(front, out)|;
        assert front[..ok] == xs[..ok] && front[ok..] + [xs[n]] == xs[ok..];
      }
    }
  }

  /** Among the first `n` records, successes come before failures. */
  predicate PrefixOn(out: seq<bool>, n: nat)
  {
    forall i, j :: 0 <= i < j < n && Succeeded(out, j) ==> Succeeded(out, i)
  }

  /** The outcomes of exactly `n` records. */
  function Padded(out: seq<bool>, n: nat): (r: seq<bool>)
    ensures |r| == n
  {
    seq(n, i requires 0 <= i < n => Succeeded(out, i))
  }

  lemma {:induction false} SameOutcomes<T>(xs: seq<T>, out: seq<bool>, other: seq<bool>)
    requires forall i :: 0 <= i < |xs| ==> Succeeded(out, i) == Succeeded(other, i)
    ensures Confirmed(xs, out) == Confirmed(xs, other) && Failed(xs, out) == Failed(xs, other)
  {
    if xs != [] {
      SameOutcomes(xs[..|xs| - 1], out, other);
    }
  }

  lemma PaddedPrefix(out: seq<bool>, n: nat)
    ensures PrefixShaped(Padded(out, n)) <==> PrefixOn(out, n)
  {
    var p := Padded(out, n);
    if PrefixShaped(p) {
      forall i, j | 0 <= i < j < n && Succeeded(out, j) ensures Succeeded(out, i) {
        assert p[j] && p[i] == Succeeded(out, i);
      }
    }
  }

  lemma {:induction false} AllConfirmed<T>(xs: seq<T>, out: seq<bool>)
    requires forall i :: 0 <= i < |xs| ==> Succeeded(out, i)
    ensures Confirmed(xs, out) == xs && Failed(xs, out) == []
  {
    if xs != [] {
      AllConfirmed(xs[..|xs| - 1], out);
    }
  }

  lemma {:induction false} NoneConfirmed<T>(xs: seq<T>, out: seq<bool>)
    requires forall i :: 0 <= i < |xs| ==> !Succeeded(out, i)
    ensures Confirmed(xs, out) == [] && Failed(xs, out) == xs
  {
    if xs != [] {
      NoneConfirmed(xs[..|xs| - 1], out);
    }
  }

  lemma {:induction false} OutcomesPartition<T>(xs: seq<T>, out: seq<bool>)
    ensures |Confirmed(xs, out)| + |Failed(xs, out)| == |xs|
  {
    if xs != [] {
      OutcomesPartition(xs[..|xs| - 1], out);
    }
  }

  /** Every record of an attempt is confirmed or left over, and nothing else is. */
  lemma {:induction false} OutcomesCover<T>(xs: seq<T>, out: seq<bool>, x: T)
    ensures x in xs <==> x in Confirmed(xs, out) || x in Failed(xs, out)
  {
    if xs != [] {
      OutcomesCover(xs[..|xs| - 1], out, x);
      assert xs == xs[..|xs| - 1] + [xs[|xs| - 1]];
    }
  }

  /** Confirming records is confirming the offsets that name them. */
  lemma {:induction false} ConfirmedRecords(src: seq<Record>, xs: seq<nat>, out: seq<bool>)
    ensures Confirmed(Records(src, xs), out) == Records(src, Confirmed(xs, out))
  {
    if xs != [] {
      var n := |xs| - 1;
      assert Records(src, xs)[..n] == Records(src, xs[..n]);
      ConfirmedRecords(src, xs[..n], out);
    }
  }

  lemma FlushNamed(env: Env, a: Agent, now: int, out: seq<bool>, stored: bool)
    requires Named(env, a)
    ensures Named(env, FlushStep(env, a, now, out, stored))
  {
    var failed := FlushFailed(a, out);
    RecordsConcat(env.src, a.tags, failed);
    assert (a.store.acked + a.store.queue) + Records(env.src, failed)
        == a.store.acked + (a.store.queue + Records(env.src, failed));
  }

  lemma DroppedNames(src: seq<Record>, tags: seq<nat>, held: seq<Record>, dropped: nat)
    requires Records(src, tags) == held && dropped <= |tags|
    ensures Records(src, tags[dropped..]) == held[dropped..]
  {
  }

  lemma DrainNamed(env: Env, a: Agent, now: int, out: seq<bool>)
    requires Named(env, a)
    ensures Named(env, DrainStep(env, a, now, out))
  {
    assert |a.tags| == |a.store.acked + a.store.queue|;
    if DrainActive(env, a, now) && |Confirmed(Chunk(env, a), out)| > 0 {
      var t := DrainStep(env, a, now, out);
      AckDrops(a.store, |Confirmed(Chunk(env, a), out)|);
      DroppedNames(env.src, a.tags, a.store.acked + a.store.queue, |a.tags| - |t.tags|);
    }
  }

  /** What a drain peeks at are the records its chunk of offsets names. */
  lemma ChunkNamed(env: Env, a: Agent)
    requires Named(env, a)
    ensures a.store.queue[..Min(env.batchMax, |a.store.queue|)] == Records(env.src, Chunk(env, a))
  {
    assert |a.tags| == |a.store.acked + a.store.queue|;
    DroppedNames(env.src, a.tags, a.store.acked + a.store.queue, |a.store.acked|);
    assert (a.store.acked + a.store.queue)[|a.store.acked|..] == a.store.queue;
  }

  lemma RecordsConcat(src: seq<Record>, a: seq<nat>, b: seq<nat>)
    ensures Records(src, a + b) == Records(src, a) + Records(src, b)
  {
  }
}
