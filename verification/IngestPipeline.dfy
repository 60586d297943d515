/** The ingest loop's flush as the program writes it, proved against the
    steps of the Ingest state machine. */
module IngestPipelines {
  import opened Common
  import opened Ingest

  /** Row by row, skipping keys already present; counts the rows added. */
  method InsertBatch(log: Log, table: Table, batch: seq<Pending>) returns (after: Table, rows: nat)
    ensures after == InsertAll(log, table, batch)
    ensures rows == |after| - |table|
  {
    after, rows := table, 0;
    assert batch[0..] == batch;
    for i := 0 to |batch|
      invariant InsertAll(log, after, batch[i..]) == InsertAll(log, table, batch)
      invariant rows == |after| - |table|
    {
      var m := MsgAt(log, batch[i]);
      assert batch[i..][1..] == batch[i + 1..];
      if m.Good? && m.key !in after {
        after := after[m.key := m.row];
        rows := rows + 1;
      }
    }
  }

  /** The map of highest offsets built entry by entry. */
  method HighOffsets(batch: seq<Pending>) returns (high: map<Partition, nat>)
    ensures high == High(batch)
  {
    high := map[];
    for i := 0 to |batch|
      invariant high == High(batch[..i])
    {
      var p := batch[i];
      assert batch[..i + 1][..i] == batch[..i];
      if p.partition in high {
        high := high[p.partition := Max(high[p.partition], p.offset)];
      } else {
        high := high[p.partition := p.offset];
      }
    }
    assert batch[..|batch|] == batch;
  }

  /** Seconds slept after the n-th failed attempt: 2, 4, 8, ... capped at 60. */
  function Backoff(n: nat): (seconds: nat)
  {
    if n <= 1 then 2 else if 2 * Backoff(n - 1) < 60 then 2 * Backoff(n - 1) else 60
  }

  class IngestPipeline {
    const log: Log
    var table: Table
    var committed: map<Partition, nat>
    var dlq: set<Pending>
    var position: map<Partition, nat>
    var batch: seq<Pending>
    ghost var reach: map<Partition, nat>

    ghost function View(): (s: State)
      reads this
    {
      State(table, committed, dlq, position, batch, reach)
    }

    constructor (log: Log)
      ensures this.log == log && View() == START
    {
      this.log := log;
      table, committed, dlq, position, batch := map[], map[], {}, map[], [];
      reach := map[];
    }

    /** One received message. */
    method Consume(p: Partition, lost: bool)
      modifies this
      ensures View() == PollStep(log, old(View()), p, lost)
    {
      var offset := At(position, p);
      if offset >= |Part(log, p)| { return; }
      var msg := Part(log, p)[offset];
      position := position[p := offset + 1];
      match msg {
        case Tombstone =>
        case Good(_, _) => batch := batch + [Pending(p, offset)];
        case Poison =>
          if !lost {
            committed := committed[p := offset + 1];
            reach := reach[p := Max(At(reach, p), offset + 1)];
          }
      }
    }

    /** Up to ten insert attempts with doubling, capped backoff. */
    method InsertWithRetry(attempts: seq<Attempt>) returns (acked: bool, slept: nat)
      modifies this`table
      ensures var o := Retry(attempts, 0, false);
              acked == o.acked && table == if o.written then InsertAll(log, old(table), batch) else old(table)
      ensures slept <= 302
    {
      var attempt, backoff := 0, 2;
      slept := 0;
      ghost var written := false;
      InsertAllAgain(log, table, batch);
      while true
        invariant attempt < MAX_FLUSH_ATTEMPTS
        invariant Retry(attempts, attempt, written) == Retry(attempts, 0, false)
        invariant table == if written then InsertAll(log, old(table), batch) else old(table)
        invariant backoff == Backoff(attempt + 1) && slept == TotalBackoff(attempt)
        decreases MAX_FLUSH_ATTEMPTS - attempt
      {
        var outcome := AttemptAt(attempts, attempt);
        attempt := attempt + 1;
        if outcome.Inserted? || outcome.applied {
          var after, _ := InsertBatch(log, table, batch);
          table := after;
          written := true;
        }
        if outcome.Inserted? {
          TotalBackoffBound(attempt - 1);
          return true, slept;
        }
        if attempt >= MAX_FLUSH_ATTEMPTS {
          TotalBackoffBound(attempt - 1);
          return false, slept;
        }
        slept := slept + backoff;
        backoff := if 2 * backoff < 60 then 2 * backoff else 60;
      }
    }

    method FlushBatch(attempts: seq<Attempt>, lost: bool)
      modifies this
      ensures View() == FlushStep(log, old(View()), attempts, lost)
    {
      if batch == [] { return; }
      ghost var s := View();
      var acked, _ := InsertWithRetry(attempts);
      reach := Advanced(reach, position);
      if !acked {
        dlq := dlq + (set q | q in batch);
      }
      if !lost {
        var high := HighOffsets(batch);
        committed := committed + map p | p in high :: high[p] + 1;
      }
      batch := [];
    }
  }

  function TotalBackoff(n: nat): (seconds: nat)
  {
    if n == 0 then 0 else TotalBackoff(n - 1) + Backoff(n)
  }

  /** Nine sleeps at most: 2 + 4 + 8 + 16 + 32 + 4 * 60 seconds. */
  lemma TotalBackoffBound(n: nat)
    requires n < MAX_FLUSH_ATTEMPTS
    ensures TotalBackoff(n) <= TotalBackoff(9) == 302
  {
    assert Backoff(1) == 2 && Backoff(2) == 4 && Backoff(3) == 8 && Backoff(4) == 16 && Backoff(5) == 32;
    assert Backoff(6) == 60 && Backoff(7) == 60 && Backoff(8) == 60 && Backoff(9) == 60;
    assert TotalBackoff(1) == 2 && TotalBackoff(2) == 6 && TotalBackoff(3) == 14 && TotalBackoff(4) == 30;
    assert TotalBackoff(5) == 62 && TotalBackoff(6) == 122 && TotalBackoff(7) == 182 && TotalBackoff(8) == 242;
  }
}
