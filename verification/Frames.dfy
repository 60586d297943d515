/** The on-disk format of the edge spool:
      frame   := [u32 crc][u32 len][payload]
      payload := [u8 hasKey][u32 keyLen][key][u32 valueLen][value]
    and the replay that reads a file of frames back. The checksum is a
    parameter: nothing below depends on what it computes. */
module Frames {
  import opened Common
  import opened Scan

  const MAX_FRAME: nat := 16 * 1024 * 1024

  type Word = x: int | 0 <= x < 0x1_0000_0000
  type Checksum = Bytes -> Word

  // ---------------------------------------------------------------- integers

  function LeBytes(n: nat, width: nat): (b: Bytes)
    ensures |b| == width
  {
    if width == 0 then [] else [n % 256] + LeBytes(n / 256, width - 1)
  }

  function FromLe(b: Bytes): (n: nat)
  {
    if b == [] then 0 else (b[0] as int) + 256 * FromLe(b[1..])
  }

  function Pow256(width: nat): (p: nat)
    ensures p > 0
  {
    if width == 0 then 1 else 256 * Pow256(width - 1)
  }

  lemma {:induction false} LeRoundTrip(n: nat, width: nat)
    requires n < Pow256(width)
    ensures FromLe(LeBytes(n, width)) == n
  {
    if width > 0 {
      LeRoundTrip(n / 256, width - 1);
      assert LeBytes(n, width)[1..] == LeBytes(n / 256, width - 1);
    }
  }

  /** `(n as u32).to_le_bytes()`: lengths of 2^32 and more wrap around. */
  function Le32(n: nat): (b: Bytes)
    ensures |b| == 4
  {
    LeBytes(n % 0x1_0000_0000, 4)
  }

  lemma Le32RoundTrip(n: nat)
    requires n < 0x1_0000_0000
    ensures FromLe(Le32(n)) == n
  {
    assert Pow256(1) == 256 && Pow256(2) == 65536 && Pow256(3) == 16777216;
    LeRoundTrip(n, 4);
  }

  // ------------------------------------------------------------------ records

  datatype Record = Record(key: Option<Bytes>, value: Bytes)

  function KeyBytes(r: Record): (k: Bytes)
  {
    if r.key.Some? then r.key.value else []
  }

  function PayloadLen(r: Record): (n: nat)
  {
    9 + |KeyBytes(r)| + |r.value|
  }

  /** What replay is willing to read back: payloads of at most 16 MiB. */
  predicate Fits(r: Record)
  {
    PayloadLen(r) <= MAX_FRAME
  }

  predicate AllFit(rs: seq<Record>)
  {
    forall i :: 0 <= i < |rs| ==> Fits(rs[i])
  }

  function Payload(r: Record): (p: Bytes)
    ensures |p| == PayloadLen(r)
  {
    [if r.key.Some? then 1 else 0] + Le32(|KeyBytes(r)|) + KeyBytes(r) + Le32(|r.value|) + r.value
  }

  function Frame(crc: Checksum, r: Record): (f: Bytes)
    ensures |f| == 8 + PayloadLen(r)
  {
    var p := Payload(r);
    Le32(crc(p)) + Le32(|p|) + p
  }

  ghost predicate IsFrameWriter(crc: Checksum, write: Writer<Record>)
  {
    forall r {:trigger Frame(crc, r)} :: write(r) == Frame(crc, r)
  }

  /** The frame encoder as a value; like FrameReader, proofs about whole files
      see inside it only where they mention a frame. */
  ghost function FrameWriter(crc: Checksum): (w: Writer<Record>)
    ensures IsFrameWriter(crc, w)
  {
    var writer: Writer<Record> := r => Frame(crc, r);
    assert IsFrameWriter(crc, writer);
    var w: Writer<Record> :| IsFrameWriter(crc, w);
    w
  }

  ghost function EncodeAll(crc: Checksum, rs: seq<Record>): (b: Bytes)
  {
    WriteAll(FrameWriter(crc), rs)
  }

  /** The buffer-filling encoder. */
  method Encode(crc: Checksum, rec: Record) returns (frame: Bytes)
    ensures frame == Frame(crc, rec)
  {
    var keyLen := if rec.key.Some? then |rec.key.value| else 0;
    var payload: Bytes := [if rec.key.Some? then 1 else 0];
    payload := payload + Le32(keyLen);
    if rec.key.Some? {
      payload := payload + rec.key.value;
    }
    payload := payload + Le32(|rec.value|);
    payload := payload + rec.value;
    assert payload == Payload(rec);
    frame := Le32(crc(payload));
    frame := frame + Le32(|payload|);
    frame := frame + payload;
  }

  // ------------------------------------------------------------------- decode

  datatype Decoded =
    | Ok(rec: Record)
    | TooShort
    | TruncatedAtKey
    | LengthMismatch

  function Decode(p: Bytes): (d: Decoded)
    ensures d.Ok? ==> PayloadLen(d.rec) <= |p|
  {
    if |p| < 9 then TooShort
    else
      var keyLen := FromLe(p[1..5]);
      if |p| < 5 + keyLen + 4 then TruncatedAtKey
      else
        var key := if p[0] == 1 then Some(p[5..5 + keyLen]) else None;
        var pos := 5 + keyLen;
        var valueLen := FromLe(p[pos..pos + 4]);
        if |p| != pos + 4 + valueLen then LengthMismatch
        else Ok(Record(key, p[pos + 4..]))
  }

  lemma DecodePayload(r: Record)
    requires Fits(r)
    ensures Decode(Payload(r)) == Ok(r)
  {
    var p, k := Payload(r), KeyBytes(r);
    var pos := 5 + |k|;
    assert p[1..5] == Le32(|k|);
    assert p[5..pos] == k;
    assert p[pos..pos + 4] == Le32(|r.value|);
    assert p[pos + 4..] == r.value;
    Le32RoundTrip(|k|);
    Le32RoundTrip(|r.value|);
  }

  // ------------------------------------------------------------------- replay

  /** One turn of the replay loop on the unread bytes `b`: the record read and
      the bytes it used, or None when the loop breaks. */
  function ReadFrame(crc: Checksum, b: Bytes): (r: Option<(Record, nat)>)
    ensures r.Some? ==> 8 < r.value.1 <= |b| && Fits(r.value.0)
  {
    if |b| < 8 then None
    else
      var len := FromLe(b[4..8]);
      if len > MAX_FRAME then None
      else if |b| - 8 < len then None
      else
        var p := b[8..8 + len];
        if crc(p) != FromLe(b[0..4]) then None
        else match Decode(p)
          case Ok(rec) => Some((rec, 8 + len))
          case _ => None
  }

  /** `read` is the frame reader. The trigger keeps proofs about whole files
      from looking inside frames unless they mention one. */
  ghost predicate IsFrameReader(crc: Checksum, read: Reader<Record>)
  {
    forall b {:trigger ReadFrame(crc, b)} :: read(b) == ReadFrame(crc, b)
  }

  ghost function FrameReader(crc: Checksum): (read: Reader<Record>)
    ensures IsFrameReader(crc, read)
  {
    var reader: Reader<Record> := b => ReadFrame(crc, b);
    assert IsFrameReader(crc, reader);
    var read: Reader<Record> :| IsFrameReader(crc, read);
    read
  }

  ghost function Replay(crc: Checksum, b: Bytes): (r: Recovered<Record>)
    ensures r.valid <= |b|
  {
    ScanAll(FrameReader(crc), b)
  }

  lemma {:induction false} ReplayedFit(crc: Checksum, b: Bytes)
    ensures AllFit(Replay(crc, b).records)
    decreases |b|
  {
    var next := FrameReader(crc)(b);
    assert next == ReadFrame(crc, b);
    if next.Some? {
      ReplayedFit(crc, b[next.value.1..]);
    }
  }

  ghost predicate WholeFile(crc: Checksum, b: Bytes)
  {
    Whole(FrameReader(crc), b)
  }

  /** The body of the replay loop, with its five ways out. */
  method NextFrame(crc: Checksum, unread: Bytes) returns (r: Option<(Record, nat)>)
    ensures r == FrameReader(crc)(unread)
    ensures r.Some? ==> 0 < r.value.1 <= |unread|
  {
    ghost var specified := ReadFrame(crc, unread);
    if |unread| < 8 { return None; }
    var sum := FromLe(unread[0..4]);
    var len := FromLe(unread[4..8]);
    if len > MAX_FRAME { return None; }
    if |unread| - 8 < len { return None; }
    var payload := unread[8..8 + len];
    if crc(payload) != sum { return None; }
    var d := Decode(payload);
    if !d.Ok? { return None; }
    r := Some((d.rec, 8 + len));
  }

  /** The replay loop of `Spool::open`. */
  method ReplayFile(crc: Checksum, b: Bytes) returns (queue: seq<Record>, validUpTo: nat)
    ensures Recovered(queue, validUpTo) == Replay(crc, b)
  {
    ghost var read, all := FrameReader(crc), Replay(crc, b);
    queue, validUpTo := [], 0;
    assert b[0..] == b;
    while true
      invariant validUpTo <= |b|
      invariant Continue(read, queue, validUpTo, b) == all
      decreases |b| - validUpTo
    {
      var next := NextFrame(crc, b[validUpTo..]);
      if next.None? {
        ContinueEnds(read, queue, validUpTo, b);
        return;
      }
      ContinueStep(read, queue, validUpTo, b);
      validUpTo := validUpTo + next.value.1;
      queue := queue + [next.value.0];
    }
  }

  // -------------------------------------------------------- round trip and cuts

  /** Reading a frame looks at the frame's own bytes and nothing after them. */
  lemma ReadFrameLocal(crc: Checksum, b: Bytes, n: nat)
    requires n <= |b|
    ensures ReadFrame(crc, b[..n]).Some? ==> ReadFrame(crc, b) == ReadFrame(crc, b[..n])
    ensures ReadFrame(crc, b).Some? && ReadFrame(crc, b).value.1 <= n
            ==> ReadFrame(crc, b[..n]) == ReadFrame(crc, b)
  {
    if 8 <= n {
      var len := FromLe(b[4..8]);
      assert b[..n][0..4] == b[0..4] && b[..n][4..8] == b[4..8];
      if 8 + len <= n {
        assert b[..n][8..8 + len] == b[8..8 + len];
      }
    }
  }

  lemma FrameReaderIsLocal(crc: Checksum)
    ensures Local(FrameReader(crc))
  {
    var read := FrameReader(crc);
    forall b ensures UsesInput(read, b) {
      assert read(b) == ReadFrame(crc, b);
    }
    forall b, n: nat ensures LocalAt(read, b, n) {
      if n <= |b| {
        ReadFrameLocal(crc, b, n);
      }
    }
  }

  lemma FrameReads(crc: Checksum, r: Record)
    requires Fits(r)
    ensures ReadFrame(crc, Frame(crc, r)) == Some((r, |Frame(crc, r)|))
  {
    var p, f := Payload(r), Frame(crc, r);
    assert f[0..4] == Le32(crc(p)) && f[4..8] == Le32(|p|) && f[8..8 + |p|] == p;
    Le32RoundTrip(crc(p));
    Le32RoundTrip(|p|);
    DecodePayload(r);
  }

  lemma CutFrameIsRefused(crc: Checksum, r: Record, j: nat)
    requires Fits(r) && j < |Frame(crc, r)|
    ensures ReadFrame(crc, Frame(crc, r)[..j]) == None
  {
    if 8 <= j {
      assert Frame(crc, r)[..j][4..8] == Frame(crc, r)[4..8] == Le32(PayloadLen(r));
      Le32RoundTrip(PayloadLen(r));
    }
  }

  lemma FramesReadBack(crc: Checksum, rs: seq<Record>)
    requires AllFit(rs)
    ensures AllReadBack(FrameReader(crc), FrameWriter(crc), rs)
  {
    var read, write := FrameReader(crc), FrameWriter(crc);
    forall i | 0 <= i < |rs| ensures ReadsBack(read, write, rs[i]) {
      var f := Frame(crc, rs[i]);
      assert write(rs[i]) == f;
      FrameReads(crc, rs[i]);
      assert read(f) == ReadFrame(crc, f);
      forall j | 0 <= j < |f| ensures read(f[..j]) == None {
        CutFrameIsRefused(crc, rs[i], j);
        assert read(f[..j]) == ReadFrame(crc, f[..j]);
      }
    }
  }

  /** How many of the records `rs` survive when only `k` bytes of their frames
      reached the disk. */
  ghost function Surviving(crc: Checksum, rs: seq<Record>, k: nat): (m: nat)
    ensures m <= |rs|
  {
    WholeCount(FrameWriter(crc), rs, k)
  }

  /** Crash recovery is exact: the first `k` bytes of a file of frames replay to
      exactly the records whose whole frames fit in `k` bytes, the valid length
      is exactly those frames, and one more frame would not have fitted. */
  lemma CutRecovery(crc: Checksum, rs: seq<Record>, k: nat)
    requires AllFit(rs) && k <= |EncodeAll(crc, rs)|
    ensures var m := Surviving(crc, rs, k);
            && Replay(crc, EncodeAll(crc, rs)[..k]) == Recovered(rs[..m], |EncodeAll(crc, rs[..m])|)
            && |EncodeAll(crc, rs[..m])| <= k
            && (m < |rs| ==> k < |EncodeAll(crc, rs[..m + 1])|)
  {
    var m := Surviving(crc, rs, k);
    assert Replay(crc, EncodeAll(crc, rs)[..k]) == Recovered(rs[..m], |EncodeAll(crc, rs[..m])|) by {
      FrameReaderIsLocal(crc);
      FramesReadBack(crc, rs);
      CutScan(FrameReader(crc), FrameWriter(crc), rs, k);
    }
    WholeCountIsGreatest(FrameWriter(crc), rs, k);
  }

  /** The file format round-trips a list of records if and only if every
      payload is at most 16 MiB: larger frames are written but never read back. */
  lemma RoundTripIffFits(crc: Checksum, rs: seq<Record>)
    ensures Replay(crc, EncodeAll(crc, rs)) == Recovered(rs, |EncodeAll(crc, rs)|) <==> AllFit(rs)
  {
    ReplayedFit(crc, EncodeAll(crc, rs));
    if AllFit(rs) {
      FrameReaderIsLocal(crc);
      FramesReadBack(crc, rs);
      WrittenScans(FrameReader(crc), FrameWriter(crc), rs);
    }
  }

  /** A frame whose length field exceeds 16 MiB stops the reader, whatever follows. */
  lemma OversizedIsRefused(crc: Checksum, r: Record, tail: Bytes)
    requires !Fits(r) && PayloadLen(r) < 0x1_0000_0000
    ensures ReadFrame(crc, Frame(crc, r) + tail) == None
  {
    var b := Frame(crc, r) + tail;
    assert b[4..8] == Frame(crc, r)[4..8] == Le32(PayloadLen(r));
    Le32RoundTrip(PayloadLen(r));
  }

  /** One oversized frame buries everything behind it: replay returns exactly the
      records before the first one that does not fit. */
  lemma OversizedBuriesTheRest(crc: Checksum, rs: seq<Record>, i: nat)
    requires i < |rs| && AllFit(rs[..i]) && !Fits(rs[i]) && PayloadLen(rs[i]) < 0x1_0000_0000
    ensures Replay(crc, EncodeAll(crc, rs)) == Recovered(rs[..i], |EncodeAll(crc, rs[..i])|)
  {
    var read, write := FrameReader(crc), FrameWriter(crc);
    var before, rest := EncodeAll(crc, rs[..i]), EncodeAll(crc, rs[i..]);
    assert rs == rs[..i] + rs[i..];
    WriteAllConcat(write, rs[..i], rs[i..]);
    RoundTripIffFits(crc, rs[..i]);
    FrameReaderIsLocal(crc);
    ScanAfterWhole(read, before, rest);
    var tail := EncodeAll(crc, rs[i..][1..]);
    assert rest == Frame(crc, rs[i]) + tail;
    OversizedIsRefused(crc, rs[i], tail);
    assert read(rest) == ReadFrame(crc, rest);
    assert ScanAll(read, rest) == Recovered([], 0);
  }

  /** Reopening is stable for any bytes at all, torn or corrupt: the truncated
      file replays to the same records and needs no further truncation. */
  lemma ReopenIsStable(crc: Checksum, b: Bytes)
    ensures Replay(crc, b[..Replay(crc, b).valid]) == Replay(crc, b)
    ensures WholeFile(crc, b[..Replay(crc, b).valid])
  {
    FrameReaderIsLocal(crc);
    RescanIsStable(FrameReader(crc), b);
  }

  /** Frames appended to a truncated file stay aligned, and a cut inside them
      costs only the frames it touches. */
  lemma AppendedCutRecovery(crc: Checksum, base: Bytes, rs: seq<Record>, k: nat)
    requires WholeFile(crc, base) && AllFit(rs) && k <= |EncodeAll(crc, rs)|
    ensures var m := Surviving(crc, rs, k);
            Replay(crc, base + EncodeAll(crc, rs)[..k]) ==
            Recovered(Replay(crc, base).records + rs[..m], |base| + |EncodeAll(crc, rs[..m])|)
  {
    CutRecovery(crc, rs, k);
    FrameReaderIsLocal(crc);
    ScanAfterWhole(FrameReader(crc), base, EncodeAll(crc, rs)[..k]);
  }
}
