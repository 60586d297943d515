/** The store-and-forward spool: an in-memory queue mirrored by an append-only
    file of frames, compacted by rewrite-and-rename. */
module Spools {
  import opened Common
  import opened Scan
  import opened Frames

  const MIN_COMPACT: nat := 512

  /** The spool as a value. `base` is the file left by the last open, `appended`
      the records framed after it, `acked` the records acknowledged but still in
      the file, `queue` the records not yet acknowledged. */
  datatype Store = Store(base: Bytes, appended: seq<Record>, acked: seq<Record>, queue: seq<Record>)

  /** The file's records are the acked ones followed by the queue. */
  ghost predicate Consistent(crc: Checksum, s: Store)
  {
    && WholeFile(crc, s.base)
    && Replay(crc, s.base).records + s.appended == s.acked + s.queue
  }

  ghost function Disk(crc: Checksum, s: Store): (b: Bytes)
  {
    s.base + EncodeAll(crc, s.appended)
  }

  ghost function OpenFile(crc: Checksum, b: Bytes): (s: Store)
  {
    var r := Replay(crc, b);
    Store(b[..r.valid], [], [], r.records)
  }

  function AppendTo(s: Store, rs: seq<Record>): (t: Store)
  {
    s.(appended := s.appended + rs, queue := s.queue + rs)
  }

  function Acknowledged(s: Store, n: nat): (t: Store)
  {
    var m := Min(n, |s.queue|);
    s.(acked := s.acked + s.queue[..m], queue := s.queue[m..])
  }

  predicate CompactionDue(s: Store)
  {
    |s.acked| > 0 && (s.queue == [] || |s.acked| >= Max(|s.queue|, MIN_COMPACT))
  }

  function Compacted(s: Store): (t: Store)
  {
    Store([], s.queue, [], s.queue)
  }

  function AckIn(s: Store, n: nat): (t: Store)
  {
    var t := Acknowledged(s, n);
    if CompactionDue(t) then Compacted(t) else t
  }

  // -------------------------------------------------- the file refines the queue

  lemma OpenOk(crc: Checksum, b: Bytes)
    ensures Consistent(crc, OpenFile(crc, b))
    ensures Disk(crc, OpenFile(crc, b)) == b[..Replay(crc, b).valid]
  {
    ReopenIsStable(crc, b);
  }

  lemma AppendOk(crc: Checksum, s: Store, rs: seq<Record>)
    requires Consistent(crc, s)
    ensures Consistent(crc, AppendTo(s, rs))
    ensures Disk(crc, AppendTo(s, rs)) == Disk(crc, s) + EncodeAll(crc, rs)
  {
    var r := Replay(crc, s.base).records;
    assert r + (s.appended + rs) == (r + s.appended) + rs;
    assert (s.acked + s.queue) + rs == s.acked + (s.queue + rs);
    WriteAllConcat(FrameWriter(crc), s.appended, rs);
    assert Disk(crc, s) + EncodeAll(crc, rs) == s.base + (EncodeAll(crc, s.appended) + EncodeAll(crc, rs));
  }

  lemma CompactedOk(crc: Checksum, s: Store)
    ensures Consistent(crc, Compacted(s))
    ensures Disk(crc, Compacted(s)) == EncodeAll(crc, s.queue)
  {
    FrameReaderIsLocal(crc);
    assert UsesInput(FrameReader(crc), []);
  }

  lemma AckOk(crc: Checksum, s: Store, n: nat)
    requires Consistent(crc, s)
    ensures Consistent(crc, Acknowledged(s, n)) && Consistent(crc, AckIn(s, n))
    ensures Disk(crc, Acknowledged(s, n)) == Disk(crc, s)
  {
    var m := Min(n, |s.queue|);
    assert s.queue == s.queue[..m] + s.queue[m..];
    assert (s.acked + s.queue[..m]) + s.queue[m..] == s.acked + s.queue;
    CompactedOk(crc, Acknowledged(s, n));
  }

  /** An acknowledgement either leaves the file alone or drops every acked record from it. */
  lemma AckDrops(s: Store, n: nat)
    requires n <= |s.queue|
    ensures var t := AckIn(s, n);
            var dropped := |s.acked| + |s.queue| - (|t.acked| + |t.queue|);
            && t.acked + t.queue == (s.acked + s.queue)[dropped..]
            && ((dropped == 0 && |t.acked| == |s.acked| + n) || (dropped == |s.acked| + n && t.acked == []))
            && |t.queue| == |s.queue| - n
            && PendingBounded(t)
  {
    assert s.queue == s.queue[..n] + s.queue[n..];
    assert (s.acked + s.queue)[|s.acked| + n..] == s.queue[n..];
    assert (s.acked + s.queue[..n]) + s.queue[n..] == s.acked + s.queue;
  }

  /** An ack compacts if and only if something is pending and either nothing is
      queued or at least 512 records, and at least as many as are queued, are. */
  lemma CompactsIff(s: Store, n: nat)
    ensures var left := |s.queue| - Min(n, |s.queue|);
            var pending := |s.acked| + Min(n, |s.queue|);
            var t := AckIn(s, n);
            && |t.queue| == left
            && (t.acked == [] && pending > 0 <==> pending > 0 && (left == 0 || (pending >= 512 && pending >= left)))
            && (t.acked == [] || |t.acked| == pending)
  {
  }

  /** Reopening the file recovers exactly the acked-but-uncompacted records and
      the queue, if and only if every record appended since the last open or
      compaction is small enough to be read back. */
  lemma DiskRecoversIffFits(crc: Checksum, s: Store)
    requires Consistent(crc, s)
    ensures Replay(crc, Disk(crc, s)).records == s.acked + s.queue <==> AllFit(s.appended)
    ensures AllFit(s.appended) ==> WholeFile(crc, Disk(crc, s))
  {
    var r := Replay(crc, s.base).records;
    if AllFit(s.appended) {
      var e := EncodeAll(crc, s.appended);
      AppendedCutRecovery(crc, s.base, s.appended, |e|);
      WholeCountOfAll(FrameWriter(crc), s.appended);
      assert e[..|e|] == e && s.appended[..|s.appended|] == s.appended;
    } else {
      ReplayedFit(crc, Disk(crc, s));
      var i :| 0 <= i < |s.appended| && !Fits(s.appended[i]);
      assert (r + s.appended)[|r| + i] == s.appended[i];
    }
  }

  lemma HeldFit(crc: Checksum, s: Store)
    requires Consistent(crc, s) && AllFit(s.appended)
    ensures AllFit(s.acked + s.queue) && AllFit(s.queue)
  {
    ReplayedFit(crc, s.base);
    forall i | 0 <= i < |s.queue| ensures Fits(s.queue[i]) {
      assert (s.acked + s.queue)[|s.acked| + i] == s.queue[i];
    }
  }

  lemma AckedFit(crc: Checksum, s: Store, n: nat)
    requires Consistent(crc, s) && AllFit(s.appended)
    ensures Consistent(crc, AckIn(s, n)) && AllFit(AckIn(s, n).appended)
  {
    AckOk(crc, s, n);
    HeldFit(crc, s);
  }

  /** A crash that leaves only `k` bytes of an append on disk recovers
      everything the spool held and the records whose frames are complete. */
  lemma CrashInAppend(crc: Checksum, s: Store, rs: seq<Record>, k: nat)
    requires Consistent(crc, s) && AllFit(s.appended) && AllFit(rs) && k <= |EncodeAll(crc, rs)|
    ensures OpenFile(crc, Disk(crc, s) + EncodeAll(crc, rs)[..k]).queue ==
            s.acked + s.queue + rs[..Surviving(crc, rs, k)]
  {
    DiskRecoversIffFits(crc, s);
    AppendedCutRecovery(crc, Disk(crc, s), rs, k);
  }

  /** The contents `spool.data` can have if the process dies inside `ack(n)`:
      until the rename the old file, from the rename on the compacted one. */
  ghost predicate AckImage(crc: Checksum, s: Store, n: nat, image: Bytes)
  {
    image == Disk(crc, s) || image == Disk(crc, AckIn(s, n))
  }

  /** A crash at any point inside ack or compaction recovers a list that ends
      with the whole remaining queue. */
  lemma CrashInAck(crc: Checksum, s: Store, n: nat, image: Bytes)
    requires Consistent(crc, s) && AllFit(s.appended)
    requires AckImage(crc, s, n, image)
    ensures var q := AckIn(s, n).queue;
            var recovered := OpenFile(crc, image).queue;
            |q| <= |recovered| && recovered[|recovered| - |q|..] == q
  {
    var t := AckIn(s, n);
    AckOk(crc, s, n);
    HeldFit(crc, s);
    DiskRecoversIffFits(crc, s);
    DiskRecoversIffFits(crc, t);
  }

  // ------------------------------------------------- the file byte for byte

  /** The file left by the last open is the encoding of its records, as every file
      is that began empty; foreign bytes may decode without being one. */
  ghost predicate Encoded(crc: Checksum, s: Store)
  {
    s.base == EncodeAll(crc, Replay(crc, s.base).records)
  }

  /** The file is, byte for byte, the encoding of the acked records followed by
      the encoding of the queue. */
  lemma DiskIsEncoding(crc: Checksum, s: Store)
    requires Consistent(crc, s) && Encoded(crc, s)
    ensures Disk(crc, s) == EncodeAll(crc, s.acked + s.queue) == EncodeAll(crc, s.acked) + EncodeAll(crc, s.queue)
  {
    WriteAllConcat(FrameWriter(crc), Replay(crc, s.base).records, s.appended);
    WriteAllConcat(FrameWriter(crc), s.acked, s.queue);
  }

  /** Such a file stays so through append, ack and compaction. */
  lemma EncodedStays(crc: Checksum, s: Store, rs: seq<Record>, n: nat)
    requires Encoded(crc, s)
    ensures Encoded(crc, AppendTo(s, rs)) && Encoded(crc, AckIn(s, n))
  {
    CompactedOk(crc, Acknowledged(s, n));
    FrameReaderIsLocal(crc);
    assert UsesInput(FrameReader(crc), []);
  }

  /** And through a crash after any number of bytes of an append, and reopening. */
  lemma EncodedReopens(crc: Checksum, s: Store, rs: seq<Record>, k: nat)
    requires Consistent(crc, s) && AllFit(s.appended) && Encoded(crc, s)
    requires AllFit(rs) && k <= |EncodeAll(crc, rs)|
    ensures Encoded(crc, OpenFile(crc, Disk(crc, s) + EncodeAll(crc, rs)[..k]))
  {
    var image, m := Disk(crc, s) + EncodeAll(crc, rs)[..k], Surviving(crc, rs, k);
    var held := s.acked + s.queue;
    DiskRecoversIffFits(crc, s);
    AppendedCutRecovery(crc, Disk(crc, s), rs, k);
    ReopenIsStable(crc, image);
    CutRecovery(crc, rs, k);
    EncodedPrefix(crc, rs, m, k);
    DiskIsEncoding(crc, s);
    WriteAllConcat(FrameWriter(crc), held, rs[..m]);
    assert image[..|Disk(crc, s)| + |EncodeAll(crc, rs[..m])|] == Disk(crc, s) + EncodeAll(crc, rs[..m]);
  }

  lemma EncodedPrefix(crc: Checksum, rs: seq<Record>, m: nat, k: nat)
    requires m <= |rs| && |EncodeAll(crc, rs[..m])| <= k <= |EncodeAll(crc, rs)|
    ensures EncodeAll(crc, rs)[..k][..|EncodeAll(crc, rs[..m])|] == EncodeAll(crc, rs[..m])
  {
    WriteAllConcat(FrameWriter(crc), rs[..m], rs[m..]);
    assert rs == rs[..m] + rs[m..];
  }

  // -------------------------------------------------------- oversized records

  /** A record whose value alone is 16 MiB long. */
  function Oversized(): (r: Record)
    ensures !Fits(r) && PayloadLen(r) < 0x1_0000_0000
  {
    Record(None, seq(MAX_FRAME, i requires 0 <= i < MAX_FRAME => 0))
  }

  /** An oversized record and a small one are appended to an empty spool, which
      then holds both; reopened, it holds neither. */
  lemma OversizedLosesTheNext(crc: Checksum, small: Record)
    ensures var s := AppendTo(OpenFile(crc, []), [Oversized(), small]);
            s.queue == [Oversized(), small] && OpenFile(crc, Disk(crc, s)).queue == []
  {
    var rs := [Oversized(), small];
    OpenOk(crc, []);
    assert OpenFile(crc, []).base == [] && OpenFile(crc, []).queue == [];
    OversizedBuriesTheRest(crc, rs, 0);
    assert rs[..0] == [] && [] + rs == rs;
    assert Disk(crc, AppendTo(OpenFile(crc, []), rs)) == EncodeAll(crc, rs);
  }

  // ------------------------------------------------------------- amortised cost

  datatype Op = Append(rs: seq<Record>) | Ack(n: nat)

  function Apply(s: Store, op: Op): (t: Store)
  {
    match op
    case Append(rs) => AppendTo(s, rs)
    case Ack(n) => AckIn(s, n)
  }

  function Run(s: Store, ops: seq<Op>): (t: Store)
    decreases |ops|
  {
    if ops == [] then s else Run(Apply(s, ops[0]), ops[1..])
  }

  /** Records appended over a run. */
  function Appended(ops: seq<Op>): (n: nat)
  {
    if ops == [] then 0 else (if ops[0].Append? then |ops[0].rs| else 0) + Appended(ops[1..])
  }

  /** Records acknowledged over a run. */
  function Acked(s: Store, ops: seq<Op>): (n: nat)
    decreases |ops|
  {
    if ops == [] then 0
    else (if ops[0].Ack? then Min(ops[0].n, |s.queue|) else 0) + Acked(Apply(s, ops[0]), ops[1..])
  }

  /** Frames rewritten by the compactions of a run. */
  function Rewritten(s: Store, ops: seq<Op>): (n: nat)
    decreases |ops|
  {
    if ops == [] then 0
    else (if ops[0].Ack? && CompactionDue(Acknowledged(s, ops[0].n)) then |Acknowledged(s, ops[0].n).queue| else 0)
         + Rewritten(Apply(s, ops[0]), ops[1..])
  }

  predicate PendingBounded(s: Store)
  {
    |s.acked| == 0 || |s.acked| < Max(|s.queue|, MIN_COMPACT)
  }

  /** Each compaction is paid for by acknowledgements since the previous one. */
  lemma {:induction false} RewritesArePaidFor(s: Store, ops: seq<Op>)
    requires PendingBounded(s)
    ensures PendingBounded(Run(s, ops))
    ensures Rewritten(s, ops) + |Run(s, ops).acked| <= Acked(s, ops) + |s.acked|
    ensures Acked(s, ops) + |Run(s, ops).queue| == |s.queue| + Appended(ops)
    decreases |ops|
  {
    if ops != [] {
      RewritesArePaidFor(Apply(s, ops[0]), ops[1..]);
    }
  }

  /** Over any crash-free run from open, compactions rewrite no more frames than
      were acknowledged, so at most twice the appended frames plus those
      recovered at open are ever written, and the pending count stays bounded. */
  lemma AmortisedWriteCost(crc: Checksum, b: Bytes, ops: seq<Op>)
    ensures var s := OpenFile(crc, b);
            && Rewritten(s, ops) <= Acked(s, ops)
            && Appended(ops) + Rewritten(s, ops) <= 2 * Appended(ops) + |Replay(crc, b).records|
            && var t := Run(s, ops); |t.acked| == 0 || |t.acked| < |t.queue| || |t.acked| < 512
  {
    RewritesArePaidFor(OpenFile(crc, b), ops);
  }

  // ------------------------------------------------------------------ the class

  class Spool {
    const crc: Checksum
    var data: Bytes  // spool.data
    var tmp: Bytes   // spool.tmp
    var queue: seq<Record>
    var ackedPendingCompact: nat
    var fileBytes: nat
    ghost var store: Store

    ghost predicate Valid()
      reads this
    {
      && Consistent(crc, store)
      && data == Disk(crc, store)
      && queue == store.queue
      && ackedPendingCompact == |store.acked|
      && fileBytes == |data|
    }

    /** Replays `file` (empty when there is none) and truncates a bad tail. */
    constructor Open(crc: Checksum, file: Bytes)
      ensures Valid() && this.crc == crc
      ensures store == OpenFile(crc, file)
    {
      var q, validUpTo := ReplayFile(crc, file);
      this.crc := crc;
      var kept := file;
      if validUpTo < |file| {
        kept := file[..validUpTo];
      }
      assert kept == file[..validUpTo];
      OpenOk(crc, file);
      data, tmp, queue, ackedPendingCompact, fileBytes := kept, [], q, 0, validUpTo;
      store := OpenFile(crc, file);
    }

    method Append(records: seq<Record>)
      requires Valid()
      modifies this
      ensures Valid() && store == AppendTo(old(store), records)
    {
      var i := 0;
      assert records[0..] == records;
      while i < |records|
        invariant 0 <= i <= |records|
        invariant data + EncodeAll(crc, records[i..]) == old(data) + EncodeAll(crc, records)
        invariant fileBytes == |data|
        invariant queue == old(queue) && ackedPendingCompact == old(ackedPendingCompact)
        invariant store == old(store)
      {
        var frame := Encode(crc, records[i]);
        assert records[i..][1..] == records[i + 1..];
        assert EncodeAll(crc, records[i..]) == frame + EncodeAll(crc, records[i + 1..]);
        assert data + (frame + EncodeAll(crc, records[i + 1..])) == (data + frame) + EncodeAll(crc, records[i + 1..]);
        data := data + frame;
        fileBytes := fileBytes + |frame|;
        i := i + 1;
      }
      assert EncodeAll(crc, records[i..]) == [];
      queue := queue + records;
      AppendOk(crc, store, records);
      store := AppendTo(store, records);
    }

    method Peek(max: nat) returns (chunk: seq<Record>)
      requires Valid()
      ensures chunk == store.queue[..Min(max, |store.queue|)]
    {
      chunk := queue[..Min(max, |queue|)];
    }

    method Ack(n: nat)
      requires Valid()
      modifies this
      ensures Valid() && store == AckIn(old(store), n)
    {
      var count := Min(n, |queue|);
      ghost var q, a := queue, ackedPendingCompact;
      var i := 0;
      while i < count
        invariant 0 <= i <= count
        invariant queue == q[i..] && ackedPendingCompact == a + i
        invariant store == old(store) && data == old(data) && fileBytes == old(fileBytes)
      {
        queue := queue[1..];
        ackedPendingCompact := ackedPendingCompact + 1;
        i := i + 1;
      }
      AckOk(crc, store, n);
      store := Acknowledged(store, n);
      if ackedPendingCompact > 0 && (queue == [] || ackedPendingCompact >= Max(|queue|, MIN_COMPACT)) {
        Compact();
      }
    }

    /** Rewrites the queue into spool.tmp, then renames it over spool.data. */
    method Compact()
      requires Valid()
      modifies this
      ensures Valid() && store == Compacted(old(store))
    {
      tmp := [];
      var i := 0;
      assert queue[0..] == queue;
      while i < |queue|
        invariant 0 <= i <= |queue|
        invariant tmp + EncodeAll(crc, queue[i..]) == EncodeAll(crc, queue)
        invariant Valid() && store == old(store) && data == old(data)
      {
        var frame := Encode(crc, queue[i]);
        assert queue[i..][1..] == queue[i + 1..];
        assert EncodeAll(crc, queue[i..]) == frame + EncodeAll(crc, queue[i + 1..]);
        assert tmp + (frame + EncodeAll(crc, queue[i + 1..])) == (tmp + frame) + EncodeAll(crc, queue[i + 1..]);
        tmp := tmp + frame;
        i := i + 1;
      }
      assert EncodeAll(crc, queue[i..]) == [];
      data, tmp := tmp, [];
      fileBytes := |data|;
      ackedPendingCompact := 0;
      CompactedOk(crc, store);
      store := Compacted(store);
    }
  }
}
