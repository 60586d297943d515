/** The forwarder task: batching, producing, spooling and draining, written as
    the program writes them and proved against the agent's step functions. */
module Forwarders {
  import opened Common
  import opened Frames
  import opened Spools
  import opened EdgeAgent

  /** Counts the confirmed records and collects the unconfirmed ones; `confirmed`
      are the records Kafka took, in order. */
  method ProduceBatch<T>(batch: seq<T>, out: seq<bool>) returns (ok: nat, failed: seq<T>, ghost confirmed: seq<T>)
    ensures ok == |Confirmed(batch, out)| && failed == Failed(batch, out) && confirmed == Confirmed(batch, out)
  {
    ok, failed, confirmed := 0, [], [];
    for i := 0 to |batch|
      invariant ok == |confirmed| && confirmed == Confirmed(batch[..i], out) && failed == Failed(batch[..i], out)
    {
      assert batch[..i + 1][..i] == batch[..i];
      if Succeeded(out, i) {
        ok := ok + 1;
        confirmed := confirmed + [batch[i]];
      } else {
        failed := failed + [batch[i]];
      }
    }
    assert batch[..|batch|] == batch;
  }

  method MaxOffset(batch: seq<nat>) returns (m: nat)
    requires batch != []
    ensures m == MaxOf(batch)
  {
    m := batch[0];
    for i := 1 to |batch|
      invariant m == MaxOf(batch[..i])
    {
      assert batch[..i + 1][..i] == batch[..i];
      if m < batch[i] {
        m := batch[i];
      }
    }
    assert batch[..|batch|] == batch;
  }

  class Forwarder {
    const env: Env
    const spool: Spool
    var batch: seq<nat>
    var checkpoint: Option<nat>  // offset.state
    var stats: Stats
    ghost var tags: seq<nat>
    ghost var delivered: seq<nat>
    ghost var produced: seq<Record>  // what Kafka confirmed

    /** `tags` name the records in the spool file and `delivered` those that Kafka
        confirmed, record by record. */
    ghost predicate Valid()
      reads this, spool
    {
      && spool.Valid() && spool.crc == env.crc
      && Named(env, View())
      && produced == Records(env.src, delivered)
    }

    /** The forwarder's part of the agent state. */
    ghost function View(): (a: Agent)
      reads this, spool
    {
      Agent(spool.store, tags, checkpoint, delivered, batch, stats, [], 0, false)
    }

    constructor (env: Env, file: Bytes, checkpoint: Option<nat>, ghost tags: seq<nat>, ghost delivered: seq<nat>)
      requires Records(env.src, tags) == Replay(env.crc, file).records
      ensures Valid() && fresh(spool) && this.env == env
      ensures View() == Restart(env, View().(checkpoint := checkpoint), file, tags, delivered).(cursor := 0)
    {
      this.env := env;
      var s := new Spool.Open(env.crc, file);
      spool := s;
      batch := [];
      this.checkpoint := checkpoint;
      stats := Stats(false, 0, |s.queue|, 0, 0);
      this.tags, this.delivered := tags, delivered;
      produced := Records(env.src, delivered);
    }

    method Flush(now: int, out: seq<bool>, stored: bool)
      requires Valid()
      modifies this, spool
      ensures Valid() && View() == FlushStep(env, old(View()), now, out, stored)
    {
      if batch == [] { return; }
      ghost var a := View();
      ghost var t := FlushStep(env, a, now, out, stored);
      FlushNamed(env, a, now, out, stored);
      RecordsConcat(env.src, delivered, FlushConfirmed(a, out));
      var maxOffset := MaxOffset(batch);
      ProduceOrSpool(now, out);
      batch := [];
      if stored {
        checkpoint := Some(maxOffset + 1);
      }
      tags, delivered := t.tags, t.delivered;
    }

    /** Produces the batch unless older records wait in the spool, counts what
        was confirmed, and spools the rest. */
    method ProduceOrSpool(now: int, out: seq<bool>)
      requires spool.Valid()
      modifies this`stats, this`produced, spool
      ensures spool.Valid()
      ensures produced == old(produced) + Records(env.src, FlushConfirmed(old(View()), out))
      ensures spool.store == AppendTo(old(spool.store), Records(env.src, FlushFailed(old(View()), out)))
      ensures stats == FlushStats(old(View()), now, |FlushConfirmed(old(View()), out)|, |FlushFailed(old(View()), out)|)
    {
      var attempted := spool.queue == [];
      var ok, failed := 0, batch;
      ghost var confirmed := [];
      if attempted {
        ok, failed, confirmed := ProduceBatch(batch, out);
      }
      produced := produced + Records(env.src, confirmed);
      if attempted && failed == [] {
        stats := stats.(kafkaOk := true, lastOk := now, forwarded := stats.forwarded + ok);
      } else if attempted && ok > 0 {
        stats := stats.(kafkaOk := false, forwarded := stats.forwarded + ok);
      } else if attempted {
        stats := stats.(kafkaOk := false);
      }
      if failed != [] {
        var records := Records(env.src, failed);
        spool.Append(records);
        stats := stats.(spooled := stats.spooled + |records|, depth := |spool.queue|);
      }
    }

    /** A record arrives; a full batch is flushed at once. */
    method Receive(offset: nat, now: int, out: seq<bool>, stored: bool)
      requires Valid() && |batch| < env.batchMax
      modifies this, spool
      ensures Valid() && |batch| < env.batchMax
      ensures var mid := RecvStep(env, old(View()).(channel := [offset]));
              View() == if BatchFull(env, mid) then FlushStep(env, mid, now, out, stored) else mid
    {
      batch := batch + [offset];
      if |batch| >= env.batchMax {
        Flush(now, out, stored);
      }
    }

    method DrainSpool(now: int, out: seq<bool>)
      requires Valid() && |batch| < env.batchMax
      modifies this, spool
      ensures Valid() && View() == DrainStep(env, old(View()), now, out)
    {
      if spool.queue == [] { return; }
      if !stats.kafkaOk && now - stats.lastOk < 5 { return; }
      var chunk := spool.Peek(env.batchMax);
      if chunk == [] { return; }
      ChunkNamed(env, View());
      DrainChunk(chunk, now, out);
    }

    method DrainChunk(chunk: seq<Record>, now: int, out: seq<bool>)
      requires Valid() && DrainActive(env, View(), now) && chunk == Records(env.src, Chunk(env, View()))
      modifies this, spool
      ensures Valid() && View() == DrainStep(env, old(View()), now, out)
    {
      ghost var a := View();
      ghost var t := DrainStep(env, a, now, out);
      ghost var confirmed := Confirmed(Chunk(env, a), out);
      ConfirmedRecords(env.src, Chunk(env, a), out);
      DrainNamed(env, a, now, out);
      RecordsConcat(env.src, delivered, confirmed);
      var ok := ProduceAndAck(chunk, now, out);
      tags, delivered := t.tags, t.delivered;
    }

    /** Produces the peeked records and acknowledges as many as succeeded. */
    method ProduceAndAck(chunk: seq<Record>, now: int, out: seq<bool>) returns (ok: nat)
      requires spool.Valid()
      modifies this`stats, this`produced, spool
      ensures spool.Valid() && ok == |Confirmed(chunk, out)|
      ensures produced == old(produced) + Confirmed(chunk, out)
      ensures spool.store == if ok > 0 then AckIn(old(spool.store), ok) else old(spool.store)
      ensures stats == DrainStats(old(stats), now, ok, |chunk| - ok, |spool.store.queue|)
    {
      var failed;
      ghost var confirmed;
      ok, failed, confirmed := ProduceBatch(chunk, out);
      produced := produced + confirmed;
      OutcomesPartition(chunk, out);
      if failed == [] {
        stats := stats.(kafkaOk := true, lastOk := now, forwarded := stats.forwarded + ok);
        if chunk != [] { spool.Ack(|chunk|); }
        stats := stats.(depth := |spool.queue|);
      } else {
        stats := stats.(kafkaOk := false);
        if ok > 0 {
          spool.Ack(ok);
          stats := stats.(forwarded := stats.forwarded + ok);
        }
        stats := stats.(depth := |spool.queue|);
      }
    }
  }
}
