/** The spool's file format, declared: exactly which bytes decode to a record, and
    which frames replay accepts. */
module FrameFormat {
  import opened Common
  import opened Scan
  import opened Frames

  lemma {:induction false} FromLeInverse(b: Bytes)
    ensures LeBytes(FromLe(b), |b|) == b && FromLe(b) < Pow256(|b|)
  {
    if b != [] {
      FromLeInverse(b[1..]);
      assert b == [b[0]] + b[1..];
    }
  }

  lemma Le32Inverse(b: Bytes)
    requires |b| == 4
    ensures Le32(FromLe(b)) == b && FromLe(b) < 0x1_0000_0000
  {
    FromLeInverse(b);
    WordBound(|b|);
    assert FromLe(b) % 0x1_0000_0000 == FromLe(b);
  }

  lemma WordBound(width: nat)
    requires width == 4
    ensures Pow256(width) == 0x1_0000_0000
  {
    assert Pow256(1) == 256 && Pow256(2) == 65536 && Pow256(3) == 16777216;
  }

  /** A payload as declared: marker, key length and key, value length and value. */
  predicate Layout(p: Bytes, marker: Byte, key: Bytes, value: Bytes)
  {
    && |key| < 0x1_0000_0000 && |value| < 0x1_0000_0000
    && p == [marker] + Le32(|key|) + key + Le32(|value|) + value
  }

  lemma LayoutSlices(p: Bytes, marker: Byte, key: Bytes, value: Bytes)
    requires Layout(p, marker, key, value)
    ensures var pos := 5 + |key|;
            && |p| == pos + 4 + |value| && p[0] == marker && p[1..5] == Le32(|key|) && p[5..pos] == key
            && p[pos..pos + 4] == Le32(|value|) && p[pos + 4..] == value
  {
  }

  /** Decoding succeeds on exactly the declared layout; the key counts only under
      marker 1. */
  lemma DecodeIff(p: Bytes, r: Record)
    ensures Decode(p) == Ok(r) <==>
            exists marker: Byte, key: Bytes ::
              Layout(p, marker, key, r.value) && r.key == if marker == 1 then Some(key) else None
  {
    if marker: Byte, key: Bytes :| Layout(p, marker, key, r.value) && r.key == if marker == 1 then Some(key) else None {
      LayoutSlices(p, marker, key, r.value);
      Le32RoundTrip(|key|);
      Le32RoundTrip(|r.value|);
    }
    if Decode(p) == Ok(r) {
      var key := DecodedLayout(p, r);
    }
  }

  lemma DecodedLayout(p: Bytes, r: Record) returns (key: Bytes)
    requires Decode(p) == Ok(r)
    ensures Layout(p, p[0], key, r.value) && r.key == if p[0] == 1 then Some(key) else None
  {
    var keyLen := FromLe(p[1..5]);
    var pos := 5 + keyLen;
    key := p[5..pos];
    Le32Inverse(p[1..5]);
    Le32Inverse(p[pos..pos + 4]);
    assert p == [p[0]] + p[1..5] + p[5..pos] + p[pos..pos + 4] + p[pos + 4..];
  }

  /** `b` starts with a frame around payload `p`: its checksum, its length, itself. */
  predicate Framed(crc: Checksum, b: Bytes, p: Bytes)
  {
    |p| <= 16777216 && Le32(crc(p)) + Le32(|p|) + p <= b
  }

  lemma FramedSlices(crc: Checksum, b: Bytes, p: Bytes)
    requires Framed(crc, b, p)
    ensures 8 + |p| <= |b| && b[0..4] == Le32(crc(p)) && b[4..8] == Le32(|p|) && b[8..8 + |p|] == p
  {
    var f := Le32(crc(p)) + Le32(|p|) + p;
    assert b[..|f|] == f;
    assert f[0..4] == Le32(crc(p)) && f[4..8] == Le32(|p|) && f[8..] == p;
    assert b[0..4] == b[..|f|][0..4] && b[4..8] == b[..|f|][4..8] && b[8..8 + |p|] == b[..|f|][8..];
  }

  /** `b` starts with a frame of `n` bytes around payload `p`, which decodes to `r`. */
  predicate FrameHolds(crc: Checksum, b: Bytes, p: Bytes, r: Record, n: nat)
  {
    Framed(crc, b, p) && Decode(p) == Ok(r) && n == 8 + |p|
  }

  lemma HeldIsRead(crc: Checksum, b: Bytes, p: Bytes, r: Record, n: nat)
    requires FrameHolds(crc, b, p, r, n)
    ensures ReadFrame(crc, b) == Some((r, n))
  {
    FramedSlices(crc, b, p);
    Le32RoundTrip(crc(p));
    Le32RoundTrip(|p|);
  }

  lemma ReadIsFramed(crc: Checksum, b: Bytes, r: Record, n: nat)
    requires ReadFrame(crc, b) == Some((r, n))
    ensures FrameHolds(crc, b, b[8..n], r, n)
  {
    var p := b[8..n];
    Le32Inverse(b[0..4]);
    Le32Inverse(b[4..8]);
    assert Le32(crc(p)) + Le32(|p|) + p == b[..n];
  }

  /** A record is read from the front of `b` if and only if `b` starts with a frame,
      of matching checksum and at most 16 MiB, around a payload that decodes to it. */
  lemma ReadFrameIff(crc: Checksum, b: Bytes, r: Record, n: nat)
    ensures ReadFrame(crc, b) == Some((r, n)) <==> exists p: Bytes :: FrameHolds(crc, b, p, r, n)
  {
    if ReadFrame(crc, b) == Some((r, n)) {
      ReadIsFramed(crc, b, r, n);
    }
    if p: Bytes :| FrameHolds(crc, b, p, r, n) {
      HeldIsRead(crc, b, p, r, n);
    }
  }

  /** A frame whose stored checksum is wrong is dropped with everything behind it,
      whatever its payload holds. */
  lemma CorruptFrameIsDropped(crc: Checksum, base: Bytes, sum: Word, p: Bytes, tail: Bytes)
    requires WholeFile(crc, base) && |p| < 0x1_0000_0000 && sum != crc(p)
    ensures Replay(crc, base + (Le32(sum) + Le32(|p|) + p + tail)) == Replay(crc, base)
  {
    var b, read := Le32(sum) + Le32(|p|) + p + tail, FrameReader(crc);
    FrameReaderIsLocal(crc);
    ScanAfterWhole(read, base, b);
    assert b[0..4] == Le32(sum) && b[4..8] == Le32(|p|) && b[8..8 + |p|] == p;
    Le32RoundTrip(sum);
    Le32RoundTrip(|p|);
    assert read(b) == ReadFrame(crc, b) == None;
    assert Replay(crc, base).records + [] == Replay(crc, base).records;
  }
}
