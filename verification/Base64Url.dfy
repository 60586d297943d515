/** The mobile app's JWT payload decoding: characters to a string of bits, bits
    regrouped by eight, against the base64url encoding of section 5 of RFC 4648
    without padding (section 2 of RFC 7515). */
module Base64Url {
  import opened Common

  type Bit = x: int | 0 <= x < 2
  type Bits = seq<Bit>

  // --------------------------------------------------------------- bit strings

  function Pow2(n: nat): (p: nat)
    ensures p > 0
  {
    if n == 0 then 1 else 2 * Pow2(n - 1)
  }

  /** The binary digit of `v` at `place`, counted from the right. */
  function Digit(v: nat, place: nat): (d: Bit)
  {
    if place == 0 then v % 2 else Digit(v / 2, place - 1)
  }

  /** `v.toString(2).padStart(n, "0")` for v below 2^n: the n low binary digits,
      most significant first. */
  function ToBits(v: nat, n: nat): (bits: Bits)
    ensures |bits| == n
  {
    seq(n, i requires 0 <= i < n => Digit(v, n - 1 - i))
  }

  lemma ToBitsStep(v: nat, n: nat)
    requires n > 0
    ensures ToBits(v, n) == ToBits(v / 2, n - 1) + [v % 2]
  {
    var bits, high := ToBits(v, n), ToBits(v / 2, n - 1);
    forall i | 0 <= i < n ensures bits[i] == (high + [v % 2])[i] {
      assert bits[i] == Digit(v, n - 1 - i);
      if i < n - 1 {
        assert high[i] == Digit(v / 2, n - 2 - i);
      }
    }
  }

  /** `parseInt(bits, 2)`. */
  function ParseInt(bits: Bits): (v: nat)
  {
    if bits == [] then 0 else 2 * ParseInt(bits[..|bits| - 1]) + bits[|bits| - 1] as int
  }

  lemma {:induction false} ParseToBits(v: nat, n: nat)
    requires v < Pow2(n)
    ensures ParseInt(ToBits(v, n)) == v
  {
    if n > 0 {
      ParseToBits(v / 2, n - 1);
      ToBitsStep(v, n);
      var bits := ToBits(v, n);
      assert bits[..n - 1] == ToBits(v / 2, n - 1);
    }
  }

  /** High bits then low bits. */
  lemma {:induction false} ToBitsSplit(hi: nat, lo: nat, n: nat, m: nat)
    requires lo < Pow2(m)
    ensures ToBits(hi * Pow2(m) + lo, n + m) == ToBits(hi, n) + ToBits(lo, m)
    decreases m
  {
    if m > 0 {
      HalfOf(hi, Pow2(m - 1), lo);
      ToBitsStep(hi * Pow2(m) + lo, n + m);
      ToBitsStep(lo, m);
      ToBitsSplit(hi, lo / 2, n, m - 1);
      assert ToBits(hi, n) + (ToBits(lo / 2, m - 1) + [lo % 2]) == (ToBits(hi, n) + ToBits(lo / 2, m - 1)) + [lo % 2];
    }
  }

  lemma HalfOf(hi: nat, p: nat, lo: nat)
    ensures (hi * (2 * p) + lo) / 2 == hi * p + lo / 2 && (hi * (2 * p) + lo) % 2 == lo % 2
  {
    assert hi * (2 * p) == 2 * (hi * p);
  }

  // ------------------------------------------------------------------ characters

  /** Index in the base64 alphabet after `-` and `_` became `+` and `/`. */
  function Sextet(c: char): (v: Option<nat>)
    ensures v.Some? ==> v.value < 64
  {
    if 'A' <= c <= 'Z' then Some(c as int - 'A' as int)
    else if 'a' <= c <= 'z' then Some(c as int - 'a' as int + 26)
    else if '0' <= c <= '9' then Some(c as int - '0' as int + 52)
    else if c == '-' || c == '+' then Some(62)
    else if c == '_' || c == '/' then Some(63)
    else None
  }

  /** The base64url alphabet. */
  function Symbol(v: nat): (c: char)
    requires v < 64
  {
    if v < 26 then ('A' as int + v) as char
    else if v < 52 then ('a' as int + (v - 26)) as char
    else if v < 62 then ('0' as int + (v - 52)) as char
    else if v == 62 then '-'
    else '_'
  }

  lemma SextetOfSymbol(v: nat)
    requires v < 64
    ensures Sextet(Symbol(v)) == Some(v) && Symbol(v) != '='
  {
  }

  function Letters(first: char, n: nat): (s: string)
    requires first as int + n <= 128
    ensures |s| == n
  {
    seq(n, i requires 0 <= i < n => (first as int + i) as char)
  }

  /** The base64 alphabet: A-Z, a-z, 0-9, plus and slash. */
  function Alphabet(): (s: string)
    ensures |s| == 64
  {
    Letters('A', 26) + Letters('a', 26) + Letters('0', 10) + "+/"
  }

  /** The sextet is the index in the alphabet, after `-` and `_` became `+` and `/`. */
  lemma SextetIsIndex(c: char, v: nat)
    ensures Sextet(c) == Some(v) <==> v < 64 && Alphabet()[v] == if c == '-' then '+' else if c == '_' then '/' else c
  {
    if v < 64 {
      assert Alphabet()[v] == if v < 26 then ('A' as int + v) as char
                              else if v < 52 then ('a' as int + v - 26) as char
                              else if v < 62 then ('0' as int + v - 52) as char
                              else if v == 62 then '+' else '/';
    }
  }

  // -------------------------------------------------------------------- decoding

  function Prepend(a: Bits, b: Option<Bits>): (r: Option<Bits>)
  {
    if b.None? then None else Some(a + b.value)
  }

  /** Six bits per character up to the first `=`; none if a character is foreign. */
  function TextBits(text: string): (r: Option<Bits>)
  {
    if text == [] || text[0] == '=' then Some([])
    else if Sextet(text[0]).None? then None
    else Prepend(ToBits(Sextet(text[0]).value, 6), TextBits(text[1..]))
  }

  /** Eight bits per byte; a shorter rest is dropped. */
  function Regroup(bits: Bits): (b: seq<nat>)
  {
    if |bits| < 8 then [] else [ParseInt(bits[..8])] + Regroup(bits[8..])
  }

  function Decode(text: string): (r: Option<seq<nat>>)
  {
    var bits := TextBits(text);
    if text == [] || bits.None? then None else Some(Regroup(bits.value))
  }

  /** The first loop of `decodeJwtPayload`: characters to bits. */
  method CollectBits(part: string) returns (r: Option<Bits>)
    ensures r == TextBits(part)
  {
    var bits: Bits := [];
    var k := 0;
    assert part[0..] == part;
    PrependNothing(TextBits(part));
    while k < |part| && part[k] != '='
      invariant 0 <= k <= |part|
      invariant TextBits(part) == Prepend(bits, TextBits(part[k..]))
    {
      var v := Sextet(part[k]);
      if v.None? { return None; }
      assert part[k..][1..] == part[k + 1..];
      PrependTwice(bits, ToBits(v.value, 6), TextBits(part[k + 1..]));
      bits := bits + ToBits(v.value, 6);
      k := k + 1;
    }
    assert bits + [] == bits;
    r := Some(bits);
  }

  /** The second loop: bits to bytes. */
  method RegroupBits(bits: Bits) returns (bytes: seq<nat>)
    ensures bytes == Regroup(bits)
  {
    bytes := [];
    var i := 0;
    assert bits[0..] == bits;
    while i + 8 <= |bits|
      invariant 0 <= i <= |bits|
      invariant bytes + Regroup(bits[i..]) == Regroup(bits)
    {
      assert bits[i..][..8] == bits[i..i + 8] && bits[i..][8..] == bits[i + 8..];
      bytes := bytes + [ParseInt(bits[i..i + 8])];
      i := i + 8;
    }
    assert bytes + [] == bytes;
  }

  /** The decoding part of `decodeJwtPayload`. */
  method DecodePayload(part: string) returns (r: Option<seq<nat>>)
    ensures r == Decode(part)
  {
    if part == [] { return None; }
    var bits := CollectBits(part);
    if bits.None? { return None; }
    var bytes := RegroupBits(bits.value);
    r := Some(bytes);
  }

  lemma PrependNothing(c: Option<Bits>)
    ensures Prepend([], c) == c
  {
    if c.Some? {
      assert [] + c.value == c.value;
    }
  }

  lemma PrependTwice(a: Bits, b: Bits, c: Option<Bits>)
    ensures Prepend(a, Prepend(b, c)) == Prepend(a + b, c)
  {
    if c.Some? {
      assert a + (b + c.value) == (a + b) + c.value;
    }
  }

  /** The character loop refuses a text if and only if a character outside both
      alphabets comes before its first `=`. */
  lemma {:induction false} RefusedIffForeign(text: string)
    ensures TextBits(text).None? <==>
            exists i :: 0 <= i < |text| && Sextet(text[i]).None? && forall j :: 0 <= j <= i ==> text[j] != '='
  {
    if text != [] && text[0] != '=' && Sextet(text[0]).Some? {
      RefusedIffForeign(text[1..]);
      if i :| 0 <= i < |text[1..]| && Sextet(text[1..][i]).None? && forall j :: 0 <= j <= i ==> text[1..][j] != '=' {
        assert Sextet(text[i + 1]).None?;
        forall j | 0 <= j <= i + 1 ensures text[j] != '=' {
          if j > 0 {
            assert text[1..][j - 1] == text[j];
          }
        }
      }
      if i :| 0 <= i < |text| && Sextet(text[i]).None? && forall j :: 0 <= j <= i ==> text[j] != '=' {
        assert Sextet(text[1..][i - 1]).None?;
        assert forall j :: 0 <= j <= i - 1 ==> text[1..][j] == text[j + 1];
      }
    } else if text != [] && text[0] != '=' {
      assert Sextet(text[0]).None?;
    }
  }

  // -------------------------------------------------------------------- encoding

  function Quad(a: Byte, b: Byte, c: Byte): (vs: seq<nat>)
    ensures |vs| == 4 && forall i :: 0 <= i < 4 ==> vs[i] < 64
  {
    [a / 4, (a as int) % 4 * 16 + b / 16, (b as int) % 16 * 4 + c / 64, c % 64]
  }

  function Symbols(vs: seq<nat>): (text: string)
    requires forall i :: 0 <= i < |vs| ==> vs[i] < 64
    ensures |text| == |vs|
  {
    seq(|vs|, i requires 0 <= i < |vs| => Symbol(vs[i]))
  }

  /** Three bytes to four characters; a last group of one or two bytes gives two
      or three, with zero bits filled in and no padding. */
  function EncodeUrl(b: Bytes): (text: string)
  {
    if b == [] then []
    else if |b| == 1 then Symbols(Quad(b[0], 0, 0)[..2])
    else if |b| == 2 then Symbols(Quad(b[0], b[1], 0)[..3])
    else Symbols(Quad(b[0], b[1], b[2])) + EncodeUrl(b[3..])
  }

  function ByteBits(b: Bytes): (bits: Bits)
  {
    if b == [] then [] else ToBits(b[0], 8) + ByteBits(b[1..])
  }

  function SextetBits(vs: seq<nat>): (bits: Bits)
  {
    if vs == [] then [] else ToBits(vs[0], 6) + SextetBits(vs[1..])
  }

  /** Six groups of bits read as four sextets and as three octets. */
  lemma SplitWidths(a1: nat, a0: nat, b1: nat, b0: nat, c1: nat, c0: nat, two: nat, four: nat, six: nat)
    requires six == two + four
    requires a0 < Pow2(two) && b1 < Pow2(four) && b0 < Pow2(four) && c1 < Pow2(two) && c0 < Pow2(six)
    ensures ToBits(a1, six) + ToBits(a0 * Pow2(four) + b1, six) + ToBits(b0 * Pow2(two) + c1, six) + ToBits(c0, six)
            == ToBits(a1 * Pow2(two) + a0, six + two) + ToBits(b1 * Pow2(four) + b0, four + four)
               + ToBits(c1 * Pow2(six) + c0, two + six)
  {
    ToBitsSplit(a1, a0, six, two);
    ToBitsSplit(b1, b0, four, four);
    ToBitsSplit(c1, c0, two, six);
    ToBitsSplit(a0, b1, two, four);
    ToBitsSplit(b0, c1, four, two);
    Regroup24(ToBits(a1, six), ToBits(a0, two), ToBits(b1, four), ToBits(b0, four), ToBits(c1, two), ToBits(c0, six));
  }

  /** A four-character group carries the 24 bits of its three bytes. */
  lemma QuadBits(a: Byte, b: Byte, c: Byte)
    ensures var q := Quad(a, b, c);
            ToBits(q[0], 6) + ToBits(q[1], 6) + ToBits(q[2], 6) + ToBits(q[3], 6)
            == ToBits(a, 8) + ToBits(b, 8) + ToBits(c, 8)
  {
    assert Pow2(2) == 4 && Pow2(4) == 16 && Pow2(6) == 64;
    SplitWidths(a / 4, (a as int) % 4, b / 16, (b as int) % 16, c / 64, (c as int) % 64, 2, 4, 6);
  }

  lemma Regroup24(a1: Bits, a0: Bits, b1: Bits, b0: Bits, c1: Bits, c0: Bits)
    ensures a1 + (a0 + b1) + (b0 + c1) + c0 == (a1 + a0) + (b1 + b0) + (c1 + c0)
  {
  }

  lemma {:induction false} SymbolBits(vs: seq<nat>, rest: string)
    requires forall i :: 0 <= i < |vs| ==> vs[i] < 64
    ensures TextBits(Symbols(vs) + rest) == Prepend(SextetBits(vs), TextBits(rest))
  {
    var text := Symbols(vs) + rest;
    if vs == [] {
      assert text == rest;
      PrependNothing(TextBits(rest));
    } else {
      SextetOfSymbol(vs[0]);
      assert text[1..] == Symbols(vs[1..]) + rest;
      SymbolBits(vs[1..], rest);
      PrependTwice(ToBits(vs[0], 6), SextetBits(vs[1..]), TextBits(rest));
    }
  }

  lemma SextetsOfQuad(q: seq<nat>)
    requires |q| == 4
    ensures SextetBits(q) == ToBits(q[0], 6) + ToBits(q[1], 6) + ToBits(q[2], 6) + ToBits(q[3], 6)
    ensures SextetBits(q[..3]) == ToBits(q[0], 6) + ToBits(q[1], 6) + ToBits(q[2], 6)
    ensures SextetBits(q[..2]) == ToBits(q[0], 6) + ToBits(q[1], 6)
  {
    assert q[1..] == [q[1], q[2], q[3]] && [q[1], q[2], q[3]][1..] == [q[2], q[3]] && [q[2], q[3]][1..] == [q[3]];
    assert SextetBits([q[3]]) == ToBits(q[3], 6);
    assert SextetBits([q[2], q[3]]) == ToBits(q[2], 6) + ToBits(q[3], 6);
    assert q[..3][1..] == [q[1], q[2]] && [q[1], q[2]][1..] == [q[2]];
    assert SextetBits([q[2]]) == ToBits(q[2], 6);
    assert SextetBits([q[1], q[2]]) == ToBits(q[1], 6) + ToBits(q[2], 6);
    assert q[..2][1..] == [q[1]];
    assert SextetBits([q[1]]) == ToBits(q[1], 6);
  }

  /** The encoding's bits are the bytes' bits followed by fewer than eight more. */
  lemma {:induction false} EncodedBits(b: Bytes) returns (fill: Bits)
    ensures |fill| < 8 && TextBits(EncodeUrl(b)) == Some(ByteBits(b) + fill)
    decreases |b|
  {
    if b == [] {
      fill := [];
      assert ByteBits(b) + [] == [] && TextBits([]) == Some([]);
    } else if |b| <= 2 {
      var q := Quad(b[0], if |b| == 2 then b[1] else 0, 0);
      fill := EncodedTail(b, q);
    } else {
      var q := Quad(b[0], b[1], b[2]);
      fill := EncodedBits(b[3..]);
      SymbolBits(q, EncodeUrl(b[3..]));
      SextetsOfQuad(q);
      QuadBits(b[0], b[1], b[2]);
      ThreeBytes(b);
      assert EncodeUrl(b) == Symbols(q) + EncodeUrl(b[3..]);
      assert SextetBits(q) + (ByteBits(b[3..]) + fill) == (SextetBits(q) + ByteBits(b[3..])) + fill;
    }
  }

  lemma OneByte(b: Bytes)
    requires |b| == 1
    ensures ByteBits(b) == ToBits(b[0], 8)
  {
    assert b[1..] == [] && ByteBits([]) == [];
    assert ToBits(b[0], 8) + [] == ToBits(b[0], 8);
  }

  lemma TwoBytes(b: Bytes)
    requires |b| == 2
    ensures ByteBits(b) == ToBits(b[0], 8) + ToBits(b[1], 8)
  {
    OneByte(b[1..]);
  }

  lemma ThreeBytes(b: Bytes)
    requires |b| >= 3
    ensures ByteBits(b) == ToBits(b[0], 8) + ToBits(b[1], 8) + ToBits(b[2], 8) + ByteBits(b[3..])
  {
    assert b[1..][1..] == b[2..] && b[2..][1..] == b[3..];
    assert b[1..][0] == b[1] && b[2..][0] == b[2];
    NestedConcat(b[0], b[1], b[2], ByteBits(b[3..]), ByteBits(b[2..]), ByteBits(b[1..]), ByteBits(b));
  }

  lemma NestedConcat(x: Byte, y: Byte, z: Byte, tail: Bits, r2: Bits, r1: Bits, r0: Bits)
    requires r2 == ToBits(z, 8) + tail && r1 == ToBits(y, 8) + r2 && r0 == ToBits(x, 8) + r1
    ensures r0 == ToBits(x, 8) + ToBits(y, 8) + ToBits(z, 8) + tail
  {
    Associate(ToBits(x, 8), ToBits(y, 8), ToBits(z, 8), tail);
  }

  lemma Associate(x: Bits, y: Bits, z: Bits, tail: Bits)
    ensures x + (y + (z + tail)) == x + y + z + tail
  {
  }

  /** The last group of one or two bytes. */
  lemma EncodedTail(b: Bytes, q: seq<nat>) returns (fill: Bits)
    requires 1 <= |b| <= 2 && q == Quad(b[0], if |b| == 2 then b[1] else 0, 0)
    ensures |fill| < 8 && TextBits(EncodeUrl(b)) == Some(ByteBits(b) + fill)
  {
    var n := |b| + 1;
    var used := SextetBits(q[..n]);
    SymbolBits(q[..n], []);
    assert EncodeUrl(b) == Symbols(q[..n]) + [];
    assert TextBits([]) == Some([]) && used + [] == used;
    SextetsOfQuad(q);
    QuadBits(b[0], if |b| == 2 then b[1] else 0, 0);
    var second := ToBits(if |b| == 2 then b[1] else 0, 8);
    if |b| == 1 {
      OneByte(b);
      var x0, x1, x2, x3 := ToBits(q[0], 6), ToBits(q[1], 6), ToBits(q[2], 6), ToBits(q[3], 6);
      assert (x0 + x1) + (x2 + x3) == x0 + x1 + x2 + x3;
      assert ToBits(b[0], 8) + (second + ToBits(0, 8)) == ToBits(b[0], 8) + second + ToBits(0, 8);
      FrontBits(x0 + x1, x2 + x3, ToBits(b[0], 8), second + ToBits(0, 8));
    } else {
      TwoBytes(b);
      FrontBits(ToBits(q[0], 6) + ToBits(q[1], 6) + ToBits(q[2], 6), ToBits(q[3], 6), ToBits(b[0], 8) + second, ToBits(0, 8));
    }
    fill := used[|ByteBits(b)|..];
  }

  lemma FrontBits(a: Bits, b: Bits, c: Bits, d: Bits)
    requires a + b == c + d && |c| <= |a|
    ensures a == c + a[|c|..]
  {
    assert a == (a + b)[..|a|];
    assert c == (c + d)[..|c|];
    assert a[..|c|] == (a + b)[..|c|];
  }

  lemma {:induction false} RegroupBytes(b: Bytes, fill: Bits)
    requires |fill| < 8
    ensures Regroup(ByteBits(b) + fill) == b
  {
    var bits := ByteBits(b) + fill;
    if b == [] {
      assert bits == fill;
    } else {
      RegroupBytes(b[1..], fill);
      assert bits[..8] == ToBits(b[0], 8);
      assert bits[8..] == ByteBits(b[1..]) + fill;
      assert Pow2(4) == 16 && Pow2(8) == 256;
      ParseToBits(b[0], 8);
    }
  }

  lemma {:induction false} BitsBeforePad(text: string, tail: string)
    ensures TextBits(text + "=" + tail) == TextBits(text)
  {
    var all := text + "=" + tail;
    if text != [] && text[0] != '=' {
      BitsBeforePad(text[1..], tail);
      assert all[1..] == text[1..] + "=" + tail;
    }
  }

  /** Padding, and whatever follows it, is ignored. */
  lemma PaddingIgnored(b: Bytes, tail: string)
    requires b != []
    ensures Decode(EncodeUrl(b) + "=" + tail) == Some(b)
  {
    BitsBeforePad(EncodeUrl(b), tail);
    DecodeUndoesEncode(b);
  }

  /** Decoding is the inverse of the RFC encoding: every non-empty byte string
      comes back from its unpadded base64url text, for every length modulo 3. */
  lemma DecodeUndoesEncode(b: Bytes)
    requires b != []
    ensures Decode(EncodeUrl(b)) == Some(b)
  {
    var fill := EncodedBits(b);
    RegroupBytes(b, fill);
  }
}
