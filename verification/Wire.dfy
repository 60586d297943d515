/** The base-128 varints of the Permify client's hand-written protobuf wire code.
    `|` and `<<` on the varint accumulator are written as + and *: the operands
    never share a bit, because what has been accumulated is below 128^i. */
module Wire {
  import opened Common

  const TWO64: nat := 0x1_0000_0000_0000_0000
  const MAX_VARINT: nat := 10

  // ------------------------------------------------------------------- varints

  function Varint(v: nat): (b: Bytes)
    ensures |b| > 0
  {
    if v < 128 then [v] else [v % 128 + 128] + Varint(v / 128)
  }

  method AppendVarint(b: Bytes, v: nat) returns (r: Bytes)
    ensures r == b + Varint(v)
  {
    r := b;
    var w := v;
    while w >= 0x80
      invariant r + Varint(w) == b + Varint(v)
      decreases w
    {
      assert r + ([w % 128 + 128] + Varint(w / 128)) == (r + [w % 128 + 128]) + Varint(w / 128);
      r := r + [w % 128 + 128];
      w := w / 128;
    }
    r := r + [w];
  }

  function Pow128(i: nat): (p: nat)
    ensures p > 0
  {
    if i == 0 then 1 else 128 * Pow128(i - 1)
  }

  /** The seven low bits of each byte, least significant group first. */
  function Value(b: Bytes): (v: nat)
  {
    if b == [] then 0 else (b[0] as int) % 128 + 128 * Value(b[1..])
  }

  /** One to ten bytes, all but the last with the continuation bit. */
  predicate IsVarint(b: Bytes)
  {
    && 1 <= |b| <= 10
    && b[|b| - 1] < 128
    && forall i :: 0 <= i < |b| - 1 ==> b[i] >= 128
  }

  /** Index just past the first byte without the continuation bit, from `i` on. */
  function EndOf(b: Bytes, i: nat): (n: Option<nat>)
    requires i <= |b|
    ensures n.Some? ==> i < n.value <= |b| && n.value <= MAX_VARINT
    decreases |b| - i
  {
    if i == |b| || i >= MAX_VARINT then None
    else if b[i] < 128 then Some(i + 1)
    else EndOf(b, i + 1)
  }

  function ReadVarint(b: Bytes): (r: Option<(nat, nat)>)
    ensures r.Some? ==> r.value.0 < TWO64 && 0 < r.value.1 <= |b|
  {
    var n := EndOf(b, 0);
    if n.None? then None else Some((Value(b[..n.value]) % TWO64, n.value))
  }

  lemma {:induction false} ValueSnoc(b: Bytes, x: Byte)
    ensures Value(b + [x]) == Value(b) + (x as int) % 128 * Pow128(|b|)
  {
    if b != [] {
      ValueSnoc(b[1..], x);
      assert (b + [x])[1..] == b[1..] + [x];
      var d, p := (x as int) % 128, Pow128(|b| - 1);
      assert 128 * (d * p) == d * (128 * p);
    }
  }

  lemma {:induction false} ValueBound(b: Bytes)
    ensures Value(b) < Pow128(|b|)
  {
    if b != [] {
      ValueBound(b[1..]);
    }
  }

  lemma Pow128Nine()
    ensures Pow128(9) == 0x8000_0000_0000_0000
  {
    assert Pow128(2) == 16384 && Pow128(4) == 268435456;
    assert Pow128(6) == 4398046511104 && Pow128(8) == 72057594037927936;
  }

  lemma {:induction false} Pow128Mono(i: nat, j: nat)
    requires i <= j
    ensures Pow128(i) <= Pow128(j)
  {
    if i < j {
      Pow128Mono(i, j - 1);
    }
  }

  /** Adding the next group modulo 2^64 loses only what the last shift loses. */
  lemma NextGroup(b: Bytes, i: nat, v: nat)
    requires i < |b| && i < MAX_VARINT && v == Value(b[..i])
    ensures v + (b[i] as int) % 128 * Pow128(i) % TWO64 == Value(b[..i + 1]) % TWO64
    ensures i + 1 < MAX_VARINT ==> Value(b[..i + 1]) % TWO64 == Value(b[..i + 1])
  {
    assert b[..i + 1] == b[..i] + [b[i]];
    ValueSnoc(b[..i], b[i]);
    var d, p := (b[i] as int) % 128, Pow128(i);
    if i < 9 {
      NineGroupsFit(b[..i + 1]);
      GroupFits(v, d * p);
    } else {
      NineGroupsBound(b[..i]);
      LastGroup(d, v, p);
    }
  }

  lemma NineGroupsBound(b: Bytes)
    requires |b| == 9
    ensures Value(b) < Pow128(9) == 0x8000_0000_0000_0000
  {
    ValueBound(b);
    Pow128Nine();
  }

  lemma NineGroupsFit(b: Bytes)
    requires |b| <= 9
    ensures Value(b) < TWO64
  {
    ValueBound(b);
    Pow128Mono(|b|, 9);
    Pow128Nine();
  }

  lemma GroupFits(v: nat, g: int)
    requires 0 <= g && v + g < TWO64
    ensures v + g % TWO64 == (v + g) % TWO64 == v + g
  {
  }

  lemma LastGroup(d: nat, v: nat, half: nat)
    requires half == 0x8000_0000_0000_0000 && d < 128 && v < half
    ensures v + d * half % TWO64 == (v + d * half) % TWO64
  {
    assert d == 2 * (d / 2) + d % 2;
    assert d * half == (d / 2) * TWO64 + (d % 2) * half;
    assert v + d * half == (d / 2) * TWO64 + (v + (d % 2) * half);
  }

  method ConsumeVarint(b: Bytes) returns (r: Option<(nat, nat)>)
    ensures r == ReadVarint(b)
  {
    var v, i, shift := 0, 0, 1;
    while i < |b| && i < MAX_VARINT
      invariant i <= |b| && i <= MAX_VARINT && shift == Pow128(i)
      invariant EndOf(b, 0) == EndOf(b, i)
      invariant i < MAX_VARINT ==> v == Value(b[..i])
    {
      NextGroup(b, i, v);
      v := v + (b[i] as int) % 128 * shift % TWO64;
      if b[i] < 0x80 {
        return Some((v, i + 1));
      }
      shift := 128 * shift;
      i := i + 1;
    }
    return None;
  }

  lemma {:induction false} EndOfIs(b: Bytes, i: nat, n: nat)
    requires i < n <= |b| && n <= MAX_VARINT && b[n - 1] < 128
    requires forall j :: i <= j < n - 1 ==> b[j] >= 128
    ensures EndOf(b, i) == Some(n)
    decreases n - i
  {
    if i < n - 1 {
      EndOfIs(b, i + 1, n);
    }
  }

  lemma {:induction false} EndOfSound(b: Bytes, i: nat)
    requires i <= |b| && EndOf(b, i).Some?
    ensures var n := EndOf(b, i).value; b[n - 1] < 128 && forall j :: i <= j < n - 1 ==> b[j] >= 128
    decreases |b| - i
  {
    if b[i] >= 128 {
      EndOfSound(b, i + 1);
    }
  }

  /** A varint is read exactly when the bytes start with a well-formed one, whose
      end is then determined by the bytes. */
  lemma ReadVarintIff(b: Bytes, v: nat, n: nat)
    ensures ReadVarint(b) == Some((v, n)) <==> n <= |b| && IsVarint(b[..n]) && v == Value(b[..n]) % TWO64
  {
    if EndOf(b, 0).Some? {
      EndOfSound(b, 0);
    }
    if n <= |b| && IsVarint(b[..n]) {
      assert b[n - 1] == b[..n][n - 1];
      assert forall j :: 0 <= j < n - 1 ==> b[..n][j] == b[j];
      EndOfIs(b, 0, n);
    }
  }

  lemma {:induction false} VarintShape(v: nat, k: nat)
    requires 1 <= k <= MAX_VARINT && v < Pow128(k)
    ensures |Varint(v)| <= k && IsVarint(Varint(v)) && Value(Varint(v)) == v
  {
    if v >= 128 {
      VarintShape(v / 128, k - 1);
      var rest := Varint(v / 128);
      assert Varint(v)[1..] == rest;
      assert forall i :: 1 <= i < |Varint(v)| ==> Varint(v)[i] == rest[i - 1];
    }
  }

  /** Reading undoes writing for every uint64, whatever bytes follow. */
  lemma VarintRoundTrip(v: nat, tail: Bytes)
    requires v < TWO64
    ensures ReadVarint(Varint(v) + tail) == Some((v, |Varint(v)|))
  {
    Pow128Nine();
    assert Pow128(10) == 128 * Pow128(9);
    VarintShape(v, 10);
    var b := Varint(v) + tail;
    assert b[..|Varint(v)|] == Varint(v);
    ReadVarintIff(b, v, |Varint(v)|);
  }
}
