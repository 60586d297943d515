# hydrogenTransport: a verified model of its data paths

Dafny models of the parts of the platform where data can be lost, duplicated,
reordered or miscounted, with proofs of what those parts guarantee on every
input and in every reachable state, and of exactly where a guarantee stops.

- **fluvio-edge** (`Frames`, `FrameFormat`, `Spools`, `EdgeAgent`, `NoLoss`,
  `AgentTheorems`, `AgentProgress`, `DrainRuns`, `ExactDisk`, `Fifo`, `Forwarders`):
  the store-and-forward agent on a bus. The spool is a CRC-framed append-only file
  mirrored by a queue; the agent is a state machine over sends, hint writes,
  reconnects, receives, flushes, drains and crashes. Per-record delivery outcomes,
  checkpoint-write outcomes, clock readings and the number of bytes of an
  interrupted append that reached the disk are inputs, so every theorem is about
  all of them. The `Spool` and `Forwarder` classes follow the program's loops and
  are proved equal to the state machine's steps.
- **telemetry-ingest** (`Ingest`, `EffectivelyOnce`, `IngestProgress`,
  `IngestPipelines`): consume, batch, insert first-write-wins, commit, over any
  number of partitions, with failing and half-failing inserts, lost commits, dead
  letters and crashes.
- **route-optimizer** (`Refuel`, `RefuelTheorems`, `RefuelRoutes`): the refuel
  planner walking routes against shared station stock, and the inventory
  write-back, in exact reals over any distance function.
- **digital-twin** (`Twin`): the status automaton over whole telemetry runs.
- **go-auth** (`Wire`, `WireMessages`): the hand-written protobuf varints, the
  CheckRequest writer and the CheckResponse reader.
- **mobile app** (`Base64Url`): the two decoding loops of the JWT payload.
- **ocpp-gateway** (`Ocpp`) and **predictive-maintenance** (`Fuel`): transaction
  tracking of a charge-point connection, and the learned fuel consumption.

`Scan` is the generic theory of reading a byte string record by record that the
spool file and the protobuf fields share; `Common` holds shared value types.

## Where a promise stops

Eight promises of the code or its comments do not hold on all inputs. Each has a
lemma with a concrete run in which it fails and a lemma that says exactly when it
holds.

- The source calls the offset file "only a resume hint", but it overwrites the
  checkpoint before the record is flushed. Fails: `HintLosesARecord`. Exactly when:
  `NoLossIffHintsPassHandled`, and until the first crash or reconnect the guard
  `NoLossIffHintsFindEmpty`. What it can cost is bounded by `CheckpointRunAhead`.
- A partial drain is meant to acknowledge the prefix that went through; the code
  acknowledges as many records from the front as succeeded anywhere. Fails:
  `OutOfOrderDrainLosesARecord`. Exactly when: `DrainLosesNothingIff` for one drain
  of any queue, `NothingLostIffDrainsOnPrefix` over runs.
- Forwarding is FIFO, but a produce attempt that fails for an earlier and succeeds
  for a later record lets the later one overtake. Fails: `LaterRecordOvertakes`.
  Exactly when: `FifoIffProducesOnPrefix`.
- Frames above 16 MiB are written but refused by replay, and bury every frame
  behind them. Fails: `OversizedLosesTheNext`. Exactly when: `RoundTripIffFits`,
  `DiskRecoversIffFits`; what survives: `OversizedBuriesTheRest`.
- Committing past a poison record also commits past buffered records of its
  partition. Fails: `PoisonLosesARecord`. Exactly when:
  `AccountingIffPoisonPassesAccounted`, and within one process run the guard
  `AccountingIffPoisonPassesWritten`.
- First write wins only among batches that are stored. Fails:
  `DeadLetterChangesTheWinner`. Exactly when: `EffectivelyOnceIff`.
- Inventory write-back can skip a refuel the planner accounted for. Fails:
  `RoundedPlanIsSkipped`, `MissingKwhIsSkipped`. Exactly when:
  `PlannedWriteBackIff` for exact amounts, `RecordedWriteBackIff` for the rounded
  ones the plan records.
- A twin ignores immediate redelivery of a reading, not of a window of several.
  Fails: `WindowReplayChangesStatus`. Exactly when: `WindowReplayIff`.

Other differences between code and comments follow the code. Compaction starts
when the acknowledged records reach max(queue length, 512) or the queue is empty,
not at half the file (spool.rs:9-10). The 120 s trend window is any gap below
121 s, because whole seconds are compared (`WindowIsUnder121Seconds`).

## Model

| member | source | states |
|---|---|---|
| `Frames.Encode` | services/rust/fluvio-edge/src/spool.rs:42-59 | the buffer-filling encoder produces the declared frame layout, lengths wrapped to 32 bits |
| `Frames.LeRoundTrip` | services/rust/fluvio-edge/src/spool.rs:46-57 | little-endian integers of any width read back |
| `Frames.DecodePayload` | services/rust/fluvio-edge/src/spool.rs:61-83 | decoding undoes encoding of every record of at most 16 MiB, absent and empty keys kept apart |
| `FrameFormat.DecodeIff` | services/rust/fluvio-edge/src/spool.rs:61-83 | decoding succeeds on exactly the declared layout, and the key counts only under marker 1 |
| `FrameFormat.ReadFrameIff` | services/rust/fluvio-edge/src/spool.rs:98-134 | a record is read if and only if the bytes start with a frame of matching checksum and at most 16 MiB around a payload that decodes to it |
| `FrameFormat.CorruptFrameIsDropped` | services/rust/fluvio-edge/src/spool.rs:121-124 | a frame whose stored checksum is wrong is dropped with everything behind it, whatever its payload holds |
| `Frames.NextFrame` | services/rust/fluvio-edge/src/spool.rs:98-134 | one turn of the replay loop, with its five ways to stop, is the frame reader the file theorems are about |
| `Frames.ReplayFile` | services/rust/fluvio-edge/src/spool.rs:97-135 | the replay loop returns exactly the records and valid length of the scan of the file |
| `Frames.ReadFrameLocal` | services/rust/fluvio-edge/src/spool.rs:98-134 | reading a frame depends on that frame's bytes only, in both directions |
| `Frames.ReplayedFit` | services/rust/fluvio-edge/src/spool.rs:107-111 | no replay of any bytes ever yields a record above 16 MiB |
| `Frames.CutRecovery` | services/rust/fluvio-edge/src/spool.rs:97-142 | any byte cut of any file of frames recovers exactly the records whose whole frames fit, the valid length is theirs, and one more would not fit; nothing is assumed of the CRC |
| `Frames.RoundTripIffFits` | services/rust/fluvio-edge/src/spool.rs:107-111 | a list of records survives write and replay if and only if every payload is at most 16 MiB |
| `Frames.OversizedBuriesTheRest` | services/rust/fluvio-edge/src/spool.rs:107-111 | replay of a file with an oversized frame returns exactly the records before the first one, whatever comes after it |
| `Frames.ReopenIsStable` | services/rust/fluvio-edge/src/spool.rs:137-142 | for any bytes at all, torn or corrupt, the truncated file replays to the same records and needs no further truncation |
| `Frames.AppendedCutRecovery` | services/rust/fluvio-edge/src/spool.rs:136-144 | frames appended after a truncation stay aligned, and a cut inside them costs only the frames it touches |
| `Scan.WholeCountIsGreatest` | services/rust/fluvio-edge/src/spool.rs:97-135 | the number of surviving records is the greatest whose encodings fit in the cut |
| `Scan.RescanIsStable` | services/rust/fluvio-edge/src/spool.rs:136-142 | truncating to the valid length and scanning again changes nothing, for any local reader |
| `Spools.Spool.Open` | services/rust/fluvio-edge/src/spool.rs:87-146 | open establishes the invariant: file, queue, pending count and file size agree with the replay of the file given |
| `Spools.Spool.Append` | services/rust/fluvio-edge/src/spool.rs:161-171 | the frame-writing loop keeps the invariant and appends exactly these records to file and queue |
| `Spools.Spool.Peek` | services/rust/fluvio-edge/src/spool.rs:174-176 | the first min(max, length) records of the queue |
| `Spools.Spool.Ack` | services/rust/fluvio-edge/src/spool.rs:181-192 | pops min(n, length) records, counts them, compacts exactly when due, keeps the invariant |
| `Spools.Spool.Compact` | services/rust/fluvio-edge/src/spool.rs:195-210 | the rewritten file is the encoding of the queue and the pending count is zero |
| `Spools.AppendOk` | services/rust/fluvio-edge/src/spool.rs:161-171 | after an append the file is the old file followed by the new frames and still holds acked records then queue |
| `Spools.AckOk` | services/rust/fluvio-edge/src/spool.rs:181-210 | acknowledging leaves the file alone, and with or without compaction the file is the acked records followed by the queue |
| `Spools.AckDrops` | services/rust/fluvio-edge/src/spool.rs:181-192 | an ack drops either nothing or every acknowledged record from the file, keeps the order of the rest, and leaves the pending count 0 or below max(queue, 512) |
| `Spools.CompactsIff` | services/rust/fluvio-edge/src/spool.rs:186-190 | an ack compacts if and only if something is pending and nothing is queued, or at least 512 and at least as many as are queued are pending |
| `Spools.DiskRecoversIffFits` | services/rust/fluvio-edge/src/spool.rs:161-210 | reopening recovers exactly the acked-but-uncompacted records and the queue if and only if every appended record is readable |
| `Spools.DiskIsEncoding` | services/rust/fluvio-edge/src/spool.rs:161-210 | a file that began as an encoding is, byte for byte, the encoding of the acked records followed by that of the queue |
| `Spools.EncodedStays` | services/rust/fluvio-edge/src/spool.rs:161-210 | it stays an encoding through append, ack and compaction |
| `Spools.EncodedReopens` | services/rust/fluvio-edge/src/spool.rs:87-146 | and through a crash after any number of bytes of an append, and reopening |
| `ExactDisk.DiskIsExact` | services/rust/fluvio-edge/src/spool.rs:87-210 | in every reachable state of every run, whatever outcomes, hints, reconnects and crashes, the file is byte for byte the frames of the named records, acked then queue, and replays to exactly those |
| `Spools.OversizedLosesTheNext` | services/rust/fluvio-edge/src/spool.rs:107-111 | an oversized record and any other, appended to an empty spool, are both gone after reopening |
| `Spools.CrashInAppend` | services/rust/fluvio-edge/src/spool.rs:161-171 | a crash after any number of bytes of an append recovers all that was held plus the complete frames |
| `Spools.CrashInAck` | services/rust/fluvio-edge/src/spool.rs:181-210 | a crash anywhere inside ack or compaction recovers a list that ends with the whole remaining queue |
| `Spools.RewritesArePaidFor` | services/rust/fluvio-edge/src/spool.rs:178-210 | along any run of appends and acks, frames rewritten plus pending never exceed records acked plus pending before |
| `Spools.AmortisedWriteCost` | services/rust/fluvio-edge/src/spool.rs:178-210 | over any crash-free run compactions rewrite at most the records acked, so at most twice the appended frames plus those recovered at open are written, and the pending count stays bounded |
| `Forwarders.ProduceBatch` | services/rust/fluvio-edge/src/forwarder.rs:87-112 | the loop returns the number of confirmed records and the unconfirmed ones in order, and Kafka takes exactly the confirmed ones |
| `Forwarders.MaxOffset` | services/rust/fluvio-edge/src/forwarder.rs:183 | the greatest offset of a non-empty batch |
| `EdgeAgent.OutcomesCover` | services/rust/fluvio-edge/src/forwarder.rs:87-112 | every record of an attempt is confirmed or left over, and nothing else is |
| `EdgeAgent.PrefixOutcomes` | services/rust/fluvio-edge/src/forwarder.rs:87-112 | when successes come first, the confirmed records are a prefix and the failed ones the rest |
| `EdgeAgent.ConfirmedRecords` | services/rust/fluvio-edge/src/forwarder.rs:87-112 | the records confirmed are those named by the offsets confirmed, in order |
| `EdgeAgent.DrainNamed` | services/rust/fluvio-edge/src/forwarder.rs:244-269 | after a drain the spool's names still name its records one by one, compaction or not |
| `EdgeAgent.ChunkNamed` | services/rust/fluvio-edge/src/forwarder.rs:244 | what a drain peeks at are the records its chunk of offsets names |
| `Forwarders.Forwarder.constructor` | services/rust/fluvio-edge/src/forwarder.rs:116-128 | a forwarder started on a file whose records the names name is the restarted agent on it, its depth counter the recovered queue length |
| `Forwarders.Forwarder.Receive` | services/rust/fluvio-edge/src/forwarder.rs:136-143 | a received record joins the batch, and a full batch is flushed at once |
| `Forwarders.Forwarder.Flush` | services/rust/fluvio-edge/src/forwarder.rs:173-227 | flush is the agent's flush step: store, batch, checkpoint and all five counters; the records Kafka took and those in the file stay the ones named |
| `Forwarders.Forwarder.ProduceOrSpool` | services/rust/fluvio-edge/src/forwarder.rs:187-219 | nothing is produced while the spool is non-empty; the spool grows by exactly the unconfirmed records; counters by outcome |
| `Forwarders.Forwarder.DrainSpool` | services/rust/fluvio-edge/src/forwarder.rs:230-270 | drain is the agent's drain step, including the five-second back-off guard; the records Kafka took and those left in the file stay the ones named |
| `Forwarders.Forwarder.ProduceAndAck` | services/rust/fluvio-edge/src/forwarder.rs:247-269 | acknowledges as many records from the front as succeeded, with the counters of each branch |
| `NoLoss.FlushInv` | services/rust/fluvio-edge/src/forwarder.rs:173-227 | flush keeps the no-loss invariant, and a checkpoint it writes only passes records confirmed or in the spool file |
| `NoLoss.DrainInv` | services/rust/fluvio-edge/src/forwarder.rs:230-270 | a drain whose successes are a prefix keeps the invariant and a safe checkpoint |
| `NoLoss.CrashSpool` | services/rust/fluvio-edge/src/forwarder.rs:116-128 | a crash at any durable boundary, mid-append included, keeps every confirmed or spooled record and a sound spool |
| `AgentProgress.ResumesAtCheckpoint` | services/rust/fluvio-edge/src/source.rs:70-75 | after a crash or reconnect the source sends the persisted offset next and then the following ones without a gap |
| `AgentProgress.RestartsFromDisk` | services/rust/fluvio-edge/src/forwarder.rs:116-128 | a restarted agent has nothing in flight, fresh counters, the old checkpoint, and queues exactly what its spool file replays to |
| `AgentProgress.CrashInsideFlush` | services/rust/fluvio-edge/src/forwarder.rs:187-219 | after a crash k bytes into a flush's append the queue is all that was in the file followed by the unconfirmed records whose whole frames are among those bytes |
| `AgentProgress.CrashInsideDrain` | services/rust/fluvio-edge/src/forwarder.rs:249-269 | a crash inside a drain, before its ack is durable, queues what Kafka took again |
| `AgentProgress.FlushCheckpoint` | services/rust/fluvio-edge/src/forwarder.rs:222-226 | a stored flush writes the offset right after the greatest one of the batch, a failed write changes nothing |
| `AgentProgress.ResumesAtFirstInFlight` | services/rust/fluvio-edge/src/forwarder.rs:220-226 | where only flush writes the checkpoint and its writes succeed, a crash makes the source resume exactly at the oldest record in flight: nothing confirmed or spooled is read again, nothing is passed over |
| `AgentProgress.HintAfterSend` | services/rust/fluvio-edge/src/source.rs:94-110 | a send puts the next offset into the channel, and the hint written after it, at every 64th offset only, is the one that follows |
| `AgentProgress.HintComesFirst` | services/rust/fluvio-edge/src/source.rs:100-110 | a hint that is due is written before the next send or reconnect, and none that is not due |
| `AgentProgress.SourceFillsChannel` | services/rust/fluvio-edge/src/main.rs:91-93 | with nothing received the source gets exactly four batches ahead, or to the end of the topic |
| `AgentProgress.DrainMakesProgress` | services/rust/fluvio-edge/src/forwarder.rs:236-258 | with records queued and the uplink healthy or five seconds past, a drain that succeeds confirms and removes min(batch_max, queue length) records from the front |
| `AgentProgress.DrainWaits` | services/rust/fluvio-edge/src/forwarder.rs:236-243 | with nothing queued, or within five seconds of a failure, a drain changes nothing |
| `AgentProgress.HealthAfterFlush` | services/rust/fluvio-edge/src/forwarder.rs:187-219 | every record of the batch is counted as forwarded or spooled, and an attempt leaves the uplink healthy exactly if all went through |
| `AgentProgress.HealthAfterDrain` | services/rust/fluvio-edge/src/forwarder.rs:249-269 | a drain leaves the uplink healthy exactly if the whole chunk went through; forwarded grows by what did |
| `NoLoss.SendInv` | services/rust/fluvio-edge/src/source.rs:87-103 | sending keeps the invariant: channel order follows offset order |
| `NoLoss.ReconnectInv` | services/rust/fluvio-edge/src/source.rs:70-75 | resuming the stream from the file keeps the invariant with records still in flight |
| `NoLoss.RunInv` | services/rust/fluvio-edge/src/forwarder.rs:116-270 | the invariant and checkpoint safety hold in every state of every admissible run |
| `AgentTheorems.NoLossAcrossCrashes` | services/rust/fluvio-edge/src/forwarder.rs:173-270 | in every reachable state the disk bytes replay to exactly the source records named by the spool, position by position, and every offset below the persisted one is confirmed by Kafka or among those names |
| `AgentTheorems.QuiescentMeansDelivered` | services/rust/fluvio-edge/src/forwarder.rs:116-270 | once the source is read to its end and nothing is in flight or queued, Kafka has confirmed every source record, whatever crashed before |
| `AgentTheorems.HintSafeIff` | services/rust/fluvio-edge/src/source.rs:104-110 | a hint write keeps the checkpoint safe if and only if every in-flight record it passes is already confirmed or spooled |
| `AgentTheorems.NoLossIffHintsPassHandled` | services/rust/fluvio-edge/src/source.rs:94-110 | over any run with crashes anywhere and prefix-shaped drains, the checkpoint is safe in every state if and only if every hint written passes only records already confirmed or spooled |
| `AgentTheorems.NoLossIffHintsFindEmpty` | services/rust/fluvio-edge/src/source.rs:94-110 | until the first crash or reconnect, the checkpoint is safe in every state if and only if every hint written finds batch and channel empty |
| `AgentTheorems.HintLosesARecord` | services/rust/fluvio-edge/src/source.rs:104-110 | one send, its hint and a crash leave record 0 below the checkpoint, undelivered and not on disk |
| `AgentTheorems.CrashLosesInflight` | services/rust/fluvio-edge/src/main.rs:91-93 | hints counted, a crash loses at most what was in flight, at most five batches |
| `AgentTheorems.CheckpointRunAhead` | services/rust/fluvio-edge/src/source.rs:70-110 | over any run with hints, reconnects and crashes, at most 5 * batch_max offsets per process run below the checkpoint are neither delivered nor spooled |
| `AgentTheorems.DrainKeepsAllIffPrefix` | services/rust/fluvio-edge/src/forwarder.rs:259-268 | the count-based ack keeps every peeked record confirmed or queued if and only if successes precede failures |
| `AgentTheorems.DrainLosesNothingIffPrefix` | services/rust/fluvio-edge/src/forwarder.rs:259-268 | when no queued offset is a repeat or already delivered, a drain step loses no queued record if and only if its successes are a prefix |
| `AgentTheorems.DrainLosesNothingIff` | services/rust/fluvio-edge/src/forwarder.rs:259-268 | on any queue, repeats after a reconnect included: no queued record is lost if and only if each one that failed among the acknowledged positions was delivered before, succeeds at another position or is queued again behind them |
| `DrainRuns.NothingLostIffDrainsOnPrefix` | services/rust/fluvio-edge/src/forwarder.rs:230-270 | until the first crash or reconnect, whatever else fails, every offset sent is confirmed, queued or in flight in every state if and only if every active drain succeeds on a prefix of what it peeked at |
| `AgentTheorems.OutOfOrderDrainLosesARecord` | services/rust/fluvio-edge/src/forwarder.rs:259-268 | an eight-step run after which record 0 is below the checkpoint, unconfirmed and erased from disk |
| `Fifo.FlushPipeline` | services/rust/fluvio-edge/src/forwarder.rs:185-194 | a flush does not change delivered + queue + batch + channel |
| `Fifo.DrainPipeline` | services/rust/fluvio-edge/src/forwarder.rs:244-268 | neither does a drain |
| `Fifo.FifoExactlyOnce` | services/rust/fluvio-edge/src/forwarder.rs:116-270 | over any crash-free run, delivered then spool queue then batch then channel is what was there at the start followed by what the source sent: in order, each exactly once |
| `Fifo.RecordsInOrder` | services/rust/fluvio-edge/src/forwarder.rs:116-270 | the same of the records themselves: those Kafka took, then the queue in memory, then batch and channel, are the records of what was there and what was sent, in order |
| `Fifo.FirstRunDeliversInOrder` | services/rust/fluvio-edge/src/forwarder.rs:185-194 | in a first run without reconnects Kafka confirms offsets 0, 1, 2, ... in order |
| `Fifo.FlushKeepsOrderIffPrefix` | services/rust/fluvio-edge/src/forwarder.rs:185-194 | one produced batch of distinct records, confirmed ones then spooled ones, keeps its order if and only if successes precede failures |
| `Fifo.FifoIffProducesOnPrefix` | services/rust/fluvio-edge/src/forwarder.rs:173-270 | until the first crash or reconnect, what Kafka confirmed, the queue, the batch and the channel are 0, 1, 2, ... in order in every state if and only if every produce attempt, of a flush or a drain, succeeds on a prefix |
| `Fifo.LaterRecordOvertakes` | services/rust/fluvio-edge/src/forwarder.rs:185-219 | a seven-step run in which Kafka confirms record 1 before record 0 |
| `Fifo.CountersStayTrue` | services/rust/fluvio-edge/src/forwarder.rs:50-68 | over any crash-free run spool_depth is the queue length and forwarded_total grows by exactly the confirmed records |
| `Ingest.InsertAllLookup` | services/rust/telemetry-ingest/src/store.rs:69-87 | after a batch insert a key has its old row, or else the row of the first record of the batch with that key |
| `Ingest.InsertAllAgain` | services/rust/telemetry-ingest/src/store.rs:69-87 | inserting a batch again changes nothing |
| `Ingest.HighIsGreatest` | services/rust/telemetry-ingest/src/pipeline.rs:254-264 | the commit map has exactly the partitions in the batch, each with its greatest offset |
| `IngestProgress.RetryIff` | services/rust/telemetry-ingest/src/pipeline.rs:184-209 | a flush is acknowledged if and only if one of its first ten attempts succeeds, and written if and only if one of them reaches the database |
| `IngestProgress.FlushCommits` | services/rust/telemetry-ingest/src/pipeline.rs:254-269 | a flush commits, for exactly the partitions in the batch, the offset right after the greatest one |
| `IngestProgress.FlushLeaves` | services/rust/telemetry-ingest/src/pipeline.rs:170-251 | after a flush the buffer is empty, each key has its old row or that of the first buffered record, and the batch is dead-lettered if and only if none of ten attempts succeeded |
| `IngestProgress.ResumesAtCommitted` | services/rust/telemetry-ingest/src/pipeline.rs:254-269 | a restarted consumer reads each partition from its committed offset on without a gap, with an empty buffer |
| `IngestProgress.BuffersGoodReads` | services/rust/telemetry-ingest/src/pipeline.rs:104-127 | between flushes the buffer grows by exactly the good records read, in order |
| `IngestProgress.PollCommits` | services/rust/telemetry-ingest/src/pipeline.rs:120-123 | a poll commits only past a poison record it reads, to the next offset |
| `Ingest.IngestAccounting` | services/rust/telemetry-ingest/src/pipeline.rs:104-269 | after any schedule on a poison-free log, every record below a committed offset is in the table or was dead-lettered |
| `Ingest.FlushLedger` | services/rust/telemetry-ingest/src/pipeline.rs:170-251 | a flush, whichever way its inserts end, keeps the ledger: every committed record accounted for, every read record accounted for or buffered |
| `Ingest.PoisonCommitSafeIff` | services/rust/telemetry-ingest/src/pipeline.rs:120-123 | committing past a poison record is safe if and only if every buffered record of its partition is already accounted for |
| `Ingest.AccountingIffPoisonPassesAccounted` | services/rust/telemetry-ingest/src/pipeline.rs:104-139 | on any log, poison included, and any schedule: committed records are accounted for in every state if and only if each poison commit passes only accounted records of its partition |
| `Ingest.AccountingIffPoisonPassesWritten` | services/rust/telemetry-ingest/src/pipeline.rs:104-139 | within one process run that condition is a guard before the commit: no buffered record of the partition whose key the table lacks |
| `Ingest.PoisonLosesARecord` | services/rust/telemetry-ingest/src/pipeline.rs:120-123 | a good record, a poison one and a crash: the good record is committed past, not in the table, not dead-lettered |
| `EffectivelyOnce.BatchContinuesFold` | services/rust/telemetry-ingest/src/pipeline.rs:104-139 | for an unwritten key, the first buffered record with it is the first in the log between the finished prefix and the position |
| `EffectivelyOnce.FlushTable` | services/rust/telemetry-ingest/src/pipeline.rs:184-209 | a stored batch takes the table from the fold of the finished prefix to the fold of the prefix read |
| `EffectivelyOnce.PassedOverIff` | services/rust/telemetry-ingest/src/pipeline.rs:211-218 | passing records over without storing them keeps the table the fold if and only if it already has the keys of all that are passed |
| `EffectivelyOnce.EffectivelyOnceIff` | services/rust/telemetry-ingest/src/pipeline.rs:104-301 | on any log, poison included, and any schedule with refused and half-applied inserts, dead letters, lost commits, crashes and redelivery: the table is the first-write-wins fold of the finished prefixes in every state if and only if no poison commit and no batch given up on passes a record whose key the table lacks |
| `EffectivelyOnce.EffectivelyOnceIngest` | services/rust/telemetry-ingest/src/pipeline.rs:104-269 | in such runs the table holds for every key what that fold holds, and commits never pass the finished prefix |
| `EffectivelyOnce.OnePartitionTable` | services/rust/telemetry-ingest/src/pipeline.rs:104-269 | in such runs with one partition the table equals that fold |
| `EffectivelyOnce.CaughtUpIsComplete` | services/rust/telemetry-ingest/src/pipeline.rs:104-269 | in such runs, once a partition is read to its end and the buffer flushed, the table has everything its whole log writes |
| `EffectivelyOnce.NothingGivenUp` | services/rust/telemetry-ingest/src/pipeline.rs:184-218 | every run on a poison-free log whose flushes of a non-empty buffer write their batch is such a run |
| `EffectivelyOnce.DeadLetterChangesTheWinner` | services/rust/telemetry-ingest/src/pipeline.rs:211-218 | a batch dead-lettered between two records of one key leaves the later row in the table |
| `IngestPipelines.InsertBatch` | services/rust/telemetry-ingest/src/store.rs:49-105 | row by row insert-if-absent is the batch insert, and the count is the rows added |
| `IngestPipelines.HighOffsets` | services/rust/telemetry-ingest/src/pipeline.rs:256-261 | the entry-by-entry map of highest offsets is the one characterised by `HighIsGreatest` |
| `IngestPipelines.IngestPipeline.Consume` | services/rust/telemetry-ingest/src/pipeline.rs:104-127 | one received message is the poll step: tombstones skipped, poison committed, records buffered |
| `IngestPipelines.IngestPipeline.InsertWithRetry` | services/rust/telemetry-ingest/src/pipeline.rs:184-209 | the retry loop writes the batch once however many attempts applied it, reports the right outcome and sleeps at most 302 s |
| `IngestPipelines.IngestPipeline.FlushBatch` | services/rust/telemetry-ingest/src/pipeline.rs:170-251 | flush is the state machine's flush step, dead-letter branch included |
| `IngestPipelines.TotalBackoffBound` | services/rust/telemetry-ingest/src/pipeline.rs:184-206 | ten attempts with doubling backoff capped at 60 s sleep at most 302 s |
| `Refuel.ChooseStation` | services/python/route-optimizer/app/vrp.py:212-228 | the candidate loop and minimum return the best station, the first on ties |
| `Refuel.ChoiceIsBest` | services/python/route-optimizer/app/vrp.py:208-230 | the choice is a compatible, safely reachable, sufficiently stocked station of least weighted distance, and there is none exactly when no station qualifies |
| `RefuelRoutes.ChoiceIff` | services/python/route-optimizer/app/vrp.py:208-230 | in plain terms: station i is picked if and only if it suits and every other that suits is a longer detour (mixed ones counted as 1.25 times as far), or equal and farther, or equal in both and later; none if and only if none suits |
| `RefuelRoutes.RangeMeans` | services/python/route-optimizer/app/vrp.py:48-63 | 100 km use the learned rate or 8, 110, 40, 30 units, and the range uses up the level's share of the tank |
| `RefuelRoutes.PlanFollowsRoute` | services/python/route-optimizer/app/vrp.py:201-251 | every plan drives its route: a feasible one to all stops in order and the depot, an infeasible one up to the leg where no station suits or the range still falls short; detours only where the leg would leave under 20 km, to the chosen station, for a full tank or all there was; range, kilometres and stock are those of that journey |
| `RefuelRoutes.FeasiblePlanVisitsAll` | services/python/route-optimizer/app/vrp.py:203-251 | a feasible plan visits every stop, ends at the depot after one arrival per stop, refuel and depot, and has driven exactly that path |
| `Refuel.TakeFrom` | services/python/route-optimizer/app/vrp.py:172-177 | the stock the bus draws on falls by the units taken; the other column, place, kind and every other station stay |
| `Refuel.RefuelBefore` | services/python/route-optimizer/app/vrp.py:208-243 | the detour takes from the best station in place and returns the refuel, range and position after it, or reports that none qualifies |
| `Refuel.PlanRefuels` | services/python/route-optimizer/app/vrp.py:189-251 | the in-place loop returns the refuels, end energy and feasibility of the declared walk and leaves its stock |
| `RefuelTheorems.RouteEnergySafe` | services/python/route-optimizer/app/vrp.py:189-251 | on all three ways a plan ends: every arrival has at least the safety range, no refuel leaves the tank above capacity, 0 <= end energy <= capacity, and start energy + the units of the returned refuels = end energy + consumption * km |
| `RefuelTheorems.VisitSound` | services/python/route-optimizer/app/vrp.py:229-244 | a refuel keeps energy conserved, the tank within capacity and all stock non-negative |
| `RefuelTheorems.SharedStockConserved` | services/python/route-optimizer/app/main.py:88-93 | planning any list of routes against shared stations keeps both ledgers of every station non-negative, and what each lost is exactly the units planned from it |
| `RefuelTheorems.WriteBackInventory` | services/python/route-optimizer/app/data.py:205-244 | the conditional decrements in place are the declared write-back, with the refuels skipped |
| `RefuelTheorems.SkipsIff` | services/python/route-optimizer/app/data.py:218-244 | a refuel is skipped if and only if, at its turn, its column is missing or holds less |
| `RefuelTheorems.WriteBackStockOk` | services/python/route-optimizer/app/data.py:205-210 | write-back never makes a stock negative |
| `RefuelTheorems.WriteBackBooks` | services/python/route-optimizer/app/data.py:218-244 | whatever is skipped, every level falls by exactly the units asked of it that were not skipped |
| `RefuelTheorems.WriteBackSkipsNoneIff` | services/python/route-optimizer/app/data.py:205-244 | nothing is skipped if and only if every kWh refuel names a station with a kWh figure and, per column and station, the amounts add up to no more than the stock |
| `RefuelTheorems.PlannedWriteBackIff` | services/python/route-optimizer/app/data.py:205-244 | exact planned amounts written back to the stock they were planned from are never skipped, if and only if every battery refuel used a station with a kWh figure |
| `RefuelTheorems.RecordedWriteBackIff` | services/python/route-optimizer/app/vrp.py:235 | for the amounts rounded as plans record them: nothing is skipped if and only if every battery refuel used a station with a kWh figure and, per column and station, the rounded amounts fit the stock |
| `RefuelTheorems.RoundingMeans` | services/python/route-optimizer/app/vrp.py:235 | recorded amounts are the nearest whole hundredths, the even one of two equally near |
| `RefuelTheorems.SlackSuffices` | services/python/route-optimizer/app/vrp.py:235 | for events that balance the stock before and after, as plans do, half a hundredth left per refuel in each column is enough |
| `RefuelTheorems.RoundedPlanIsSkipped` | services/python/route-optimizer/app/vrp.py:235 | a plan that takes all 5.006 kg of a station is recorded as 5.01 and skipped, where the exact amount goes through |
| `RefuelTheorems.MissingKwhIsSkipped` | services/python/route-optimizer/app/data.py:219-231 | a plan for a battery bus at a charger without a kWh figure draws its kg and is skipped |
| `Twin.WindowIsUnder121Seconds` | services/rust/digital-twin/src/model.rs:144-147 | the trend window admits exactly the gaps below 121 s in either direction |
| `Twin.StatusMeans` | services/rust/digital-twin/src/model.rs:107-160 | in plain terms: moving above 2 kph, else replenishing with the label of the energy type if the level it reports is below 98, less than 121 s passed, and it rose by more than 0.2 or went on without falling by more, else idle |
| `Twin.FirstStatusMeans` | services/rust/digital-twin/src/model.rs:140-160 | a first sighting is moving or idle |
| `Twin.HydrogenIgnored` | services/rust/digital-twin/src/model.rs:120-122 | over whole runs with generic levels the hydrogen figure never changes a status |
| `Twin.StatusStep` | services/rust/digital-twin/src/model.rs:140-160 | a reading is replenishing if and only if it is fillable and rose, or held while the previous one was replenishing with the same label |
| `Twin.ReplenishingIffFilling` | services/rust/digital-twin/src/model.rs:86-160 | reading n is replenishing if and only if some reading j up to n rose beyond jitter and from j to n the bus stayed stationary, below full, of one energy type, within the window, and never fell beyond jitter |
| `Twin.FillingKeepsLevel` | services/rust/digital-twin/src/model.rs:89-93 | so the level at n is at least the level at j less 0.2 per reading |
| `Twin.ApplyAgain` | services/rust/digital-twin/src/model.rs:140-187 | applying a reading again changes nothing |
| `Twin.RedeliveryChangesNothing` | services/rust/digital-twin/src/twin.rs:100-134 | repeating any readings consecutively any number of times gives the same final state |
| `Twin.WindowReplayChangesStatus` | services/rust/digital-twin/src/twin.rs:100-134 | redelivering a window of three readings can turn idle into refueling |
| `Twin.TwoFolds` | services/rust/digital-twin/src/model.rs:140-160 | two folds of one window agree unless they differ after its first reading and every later reading merely carries the status |
| `Twin.WindowReplayIff` | services/rust/digital-twin/src/twin.rs:100-134 | redelivering a whole window changes nothing if and only if some reading in it does not merely carry the status, or its first reading comes out the same when judged from its last |
| `Twin.BusesAreIndependent` | services/rust/digital-twin/src/twin.rs:100-134 | in any interleaving each bus's twin is the fold of its own readings |
| `Twin.TwinStore.ApplyUpdate` | services/rust/digital-twin/src/twin.rs:100-134 | one update is one step of that interleaved fold |
| `Wire.AppendVarint` | packages/go-auth/permify.go:254-260 | the loop appends the base-128 encoding |
| `Wire.ConsumeVarint` | packages/go-auth/permify.go:270-279 | the accumulating loop, with its ten-byte limit and 64-bit wrap-around, is the declared reader |
| `Wire.ReadVarintIff` | packages/go-auth/permify.go:270-279 | a value and size are returned if and only if the bytes start with a well-formed varint of that size and value modulo 2^64 |
| `Wire.VarintRoundTrip` | packages/go-auth/permify.go:254-279 | reading undoes writing for every uint64, whatever bytes follow |
| `Wire.NextGroup` | packages/go-auth/permify.go:273 | adding the next shifted group modulo 2^64 is the value of the bytes so far modulo 2^64 |
| `WireMessages.ToInt64` | packages/go-auth/permify.go:219 | the signed 64-bit value congruent to the varint |
| `WireMessages.ConsumeField` | packages/go-auth/permify.go:212-234 | the switch on the wire type answers, fails or skips as declared |
| `WireMessages.ParseCheckResponse` | packages/go-auth/permify.go:205-237 | the slicing loop terminates and returns the declared parse, with each of its errors |
| `WireMessages.ParseIffSplits` | packages/go-auth/permify.go:205-237 | v is returned if and only if the bytes split into well-formed skippable fields followed by a field-1 varint v |
| `WireMessages.ParseFailsIff` | packages/go-auth/permify.go:205-237 | each error exactly: after well-formed skippable fields the bytes end, or hold no varint where one is due, or a length beyond the end, or another wire type |
| `WireMessages.AllowedIff` | packages/go-auth/permify.go:120-124 | a check is allowed on exactly the responses whose first field-1 varint is 1 |
| `WireMessages.FieldsRoundTrip` | packages/go-auth/permify.go:239-252 | any list of fields reads back unchanged and in order |
| `WireMessages.BuildCheckRequest` | packages/go-auth/permify.go:191-202 | the request built field by field is the declared message |
| `WireMessages.AppendPbBytes` | packages/go-auth/permify.go:243-247 | a length-delimited field is appended after what is there |
| `WireMessages.RequestRoundTrip` | packages/go-auth/permify.go:191-202 | the request reads back as its five fields, and its nested entity, subject (of type user) and metadata (depth 20) as theirs |
| `WireMessages.RequestsAreDistinct` | packages/go-auth/permify.go:191-202 | equal requests have equal tenant, entity, permission and subject |
| `Base64Url.CollectBits` | apps/mobile/src/auth/keycloak.ts:48-54 | the character loop accumulates six bits per character up to the first `=` and refuses foreign ones |
| `Base64Url.RegroupBits` | apps/mobile/src/auth/keycloak.ts:55-58 | the second loop regroups by eight and drops a shorter rest |
| `Base64Url.DecodePayload` | apps/mobile/src/auth/keycloak.ts:42-58 | both together are the declared decoding, the empty part refused |
| `Base64Url.SextetIsIndex` | apps/mobile/src/auth/keycloak.ts:45-51 | a character's sextet is its index in the base64 alphabet, after `-` and `_` became `+` and `/` |
| `Base64Url.PaddingIgnored` | apps/mobile/src/auth/keycloak.ts:50 | padding, and whatever follows it, does not change what is decoded |
| `Base64Url.RefusedIffForeign` | apps/mobile/src/auth/keycloak.ts:49-54 | a text is refused if and only if a character outside both alphabets comes before its first `=` |
| `Base64Url.DecodeUndoesEncode` | apps/mobile/src/auth/keycloak.ts:42-58 | every non-empty byte string comes back from its unpadded base64url text, for every length modulo 3 |
| `Base64Url.EncodedBits` | apps/mobile/src/auth/keycloak.ts:48-54 | the bits accumulated from an encoding are the bytes' bits followed by fewer than eight more |
| `Ocpp.TransactionsTrackSessions` | services/python/ocpp-gateway/app/csms.py:161-229 | after any run, other connections interleaved, the transaction map is injective onto exactly the still-active sessions this connection started, and completed sessions carry their metered energy |
| `Ocpp.FreshConnectionTracks` | services/python/ocpp-gateway/app/csms.py:69-79 | a fresh connection satisfies that invariant over any table whose completed sessions carry their energy |
| `Ocpp.CompletedForever` | services/python/ocpp-gateway/app/db.py:118-157 | a completed session never changes again, so each completes at most once |
| `Ocpp.SessionEnergy` | services/python/ocpp-gateway/app/csms.py:161-229 | a whole session: with anything in between but its own stop, a sample r shows (r - start) * factor and the stop completes the row with both readings and (stop - start) * factor |
| `Ocpp.IgnoredEvents` | services/python/ocpp-gateway/app/csms.py:161-222 | unknown transactions, samples without a figure and refused starts change nothing |
| `Ocpp.IdsNeverReused` | services/python/ocpp-gateway/app/csms.py:180-181 | ids are handed out in sequence and never reused on a connection |
| `Ocpp.ChargePointHandler.OnStartTransaction` | services/python/ocpp-gateway/app/csms.py:161-188 | rejected starts return 0 and change nothing; an accepted one inserts an active session and maps the next id to it |
| `Ocpp.ChargePointHandler.OnMeterValues` | services/python/ocpp-gateway/app/csms.py:190-205 | a usable sample of a known transaction updates that session's energy and nothing else |
| `Ocpp.ChargePointHandler.OnStopTransaction` | services/python/ocpp-gateway/app/csms.py:207-229 | an unknown id changes nothing; a known one is removed and its session completed |
| `Fuel.RowIsExactMean` | services/python/predictive-maintenance/app/events.py:168-185 | after any number of process runs over any interleaved streams each bus's row is the exact mean rate, distance and count of the accepted pairs of its own consecutive readings within a run |
| `Fuel.RunSummarises` | services/python/predictive-maintenance/app/events.py:149-185 | one process run over stored rows adds exactly the pairs of its own readings |
| `Fuel.FuelLearner.constructor` | services/python/predictive-maintenance/app/events.py:149-150 | a starting consumer keeps the stored rows and knows no readings |
| `Fuel.UpsertSummarises` | services/python/predictive-maintenance/app/events.py:84-97 | the running-mean upsert keeps the row an exact summary |
| `Fuel.RateMeans` | services/python/predictive-maintenance/app/events.py:74-81 | a pair is accepted exactly for a known capacity, at least 1 km and a drop of at most 30 points; its rate times the distance is the energy used |
| `Fuel.FuelLearner.Handle` | services/python/predictive-maintenance/app/events.py:164-185 | one message is one step of the declared fold, with capacities fetched once per bus |

## Left out

- AgentTheorems.NoLossAcrossCrashes: assumes the source's hint writes do not reach the file and drain successes form a prefix, because the property is false otherwise (`NoLossIffHintsPassHandled`, `DrainLosesNothingIff`), and records of at most 16 MiB.
- AgentTheorems.CheckpointRunAhead: counts records per process run; after a crash the records lost before it stay counted.
- EffectivelyOnce.EffectivelyOnceIngest: assumes that records with equal keys share a partition, as keying by bus makes them, and the condition that `EffectivelyOnceIff` shows to be exact.
- Refuel.PlanRefuels: does not model the text of notes; amounts are exact, and the rounding of recorded amounts is applied where they are written back (`Recorded`).
- Ocpp.TransactionsTrackSessions: one connection, one energy factor and handlers that do not interleave at awaits; unit mixing between meter samples and meter start, and ids restarting after a reconnect, are not modelled.
- Fuel.RowIsExactMean: a database error in the upsert, after which the program keeps the older reading, is not modelled.
- A spool append, ack or compaction that fails with an I/O error: the program logs it and goes on, the model takes these writes to succeed or the process to stop.
- The race of the two tasks on the shared temporary file of the offset checkpoint, and rename or fsync that is not atomic and durable.
- The CRC polynomial: the checksum is an arbitrary function, so no claim is made about the corruption it detects.
- A produce that Kafka applied but did not confirm: such a record is produced again later, so "exactly once" speaks of confirmations.
- `spool_max_bytes`, which no code enforces.
- Kafka consumer-group rebalances, the paused consumer, the wall-clock part of record validation, enrichment columns and the republished topic.
- DLQ publishing is best effort in the program; the model records the hand-over to it.
- Distances by haversine and the OR-Tools phase: distance is any non-negative function and routes are inputs.
- The write-back statement filters on a `station_id` column; the model identifies stations by position.
- Station and energy types as strings, OpenAPI models and request validation.
- The expiry of a twin's hot state is a flag per delivery. `updated_at` is not modelled, because it is a clock reading nothing else depends on. The snapshot loop and `partition_states`, which sorts stored states into fresh and stale ones by whether they parse, are not modelled, because they do not feed the status.
- The gRPC transport, the HTTP middleware around the Permify check, and JSON parsing after the JWT bytes are decoded.
- Floating-point rounding: all quantities are exact reals.
- ml-platform, predictive models, the PWA and mobile screens, schemas, APISIX sync, Spark jobs and search bootstrap.
