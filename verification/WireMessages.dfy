/** The Permify client's length-delimited fields, CheckRequest writer and
    CheckResponse reader. */
module WireMessages {
  import opened Common
  import opened Scan
  import opened Wire

  // ------------------------------------------------------------------- reading

  datatype Parsed =
    | Can(v: int)
    | InvalidVarint
    | Truncated
    | UnsupportedWire(wire: nat)
    | MissingCan

  /** Go's `int(v)` on a uint64. */
  function ToInt64(v: nat): (i: int)
    requires v < TWO64
    ensures -0x8000_0000_0000_0000 <= i < 0x8000_0000_0000_0000 && (i - v) % 0x1_0000_0000_0000_0000 == 0
  {
    if v < TWO64 / 2 then v else v - TWO64
  }

  /** What follows the tag: an answer, an error, or how many bytes to skip. */
  datatype FieldStep = Answer(v: int) | Fail(error: Parsed) | Skip(n: nat)

  function FieldAfterTag(tag: nat, b: Bytes): (s: FieldStep)
    ensures s.Skip? ==> s.n <= |b|
  {
    var r := ReadVarint(b);
    if tag % 8 == 0 then
      if r.None? then Fail(InvalidVarint)
      else if tag / 8 == 1 then Answer(ToInt64(r.value.0))
      else Skip(r.value.1)
    else if tag % 8 == 2 then
      if r.None? then Fail(InvalidVarint)
      else if |b| - r.value.1 < r.value.0 then Fail(Truncated)
      else Skip(r.value.1 + r.value.0)
    else Fail(UnsupportedWire(tag % 8))
  }

  function Parse(b: Bytes): (p: Parsed)
    decreases |b|
  {
    if b == [] then MissingCan
    else
      var r := ReadVarint(b);
      if r.None? then InvalidVarint
      else
        var (tag, n) := r.value;
        match FieldAfterTag(tag, b[n..])
        case Answer(v) => Can(v)
        case Fail(error) => error
        case Skip(k) => Parse(b[n + k..])
  }

  /** The switch on the wire type. */
  method ConsumeField(tag: nat, b: Bytes) returns (s: FieldStep)
    ensures s == FieldAfterTag(tag, b)
  {
    var field, wire := tag / 8, tag % 8;
    if wire == 0 {
      var r := ConsumeVarint(b);
      if r.None? { return Fail(InvalidVarint); }
      if field == 1 { return Answer(ToInt64(r.value.0)); }
      return Skip(r.value.1);
    } else if wire == 2 {
      var r := ConsumeVarint(b);
      if r.None? { return Fail(InvalidVarint); }
      if |b[r.value.1..]| < r.value.0 { return Fail(Truncated); }
      return Skip(r.value.1 + r.value.0);
    } else {
      return Fail(UnsupportedWire(wire));
    }
  }

  /** The reader's loop: the slice shrinks until a field-1 varint is found. */
  method ParseCheckResponse(input: Bytes) returns (p: Parsed)
    ensures p == Parse(input)
  {
    var b := input;
    while b != []
      invariant Parse(b) == Parse(input)
      decreases |b|
    {
      var t := ConsumeVarint(b);
      if t.None? { return InvalidVarint; }
      var (tag, n) := t.value;
      var step := ConsumeField(tag, b[n..]);
      match step {
        case Answer(v) => return Can(v);
        case Fail(error) => return error;
        case Skip(k) => b := b[n + k..];
      }
    }
    return MissingCan;
  }

  // -------------------------------------------- what the reader accepts, declared

  /** `seg` is one whole field the reader passes over: a tag of `n` bytes, then a
      varint of `m` bytes that is the value of a field other than 1, or the length
      of exactly the bytes that remain. */
  predicate SkippableAt(seg: Bytes, n: nat, m: nat)
  {
    && n + m <= |seg| && IsVarint(seg[..n]) && IsVarint(seg[n..n + m])
    && var tag := Value(seg[..n]) % TWO64;
       var v := Value(seg[n..n + m]) % TWO64;
       (tag % 8 == 0 && tag / 8 != 1 && |seg| == n + m) || (tag % 8 == 2 && |seg| == n + m + v)
  }

  ghost predicate Skippable(seg: Bytes)
  {
    exists n: nat, m: nat :: SkippableAt(seg, n, m)
  }

  /** `b` starts with a field-1 varint of value `v`. */
  predicate AnswersAt(b: Bytes, v: nat, n: nat, m: nat)
  {
    && n + m <= |b| && IsVarint(b[..n]) && IsVarint(b[n..n + m])
    && Value(b[..n]) % TWO64 == 8
    && v == Value(b[n..n + m]) % TWO64
  }

  ghost predicate Answers(b: Bytes, v: nat)
  {
    exists n: nat, m: nat :: AnswersAt(b, v, n, m)
  }

  function Flat(segs: seq<Bytes>): (b: Bytes)
  {
    if segs == [] then [] else segs[0] + Flat(segs[1..])
  }

  ghost predicate AllSkippable(segs: seq<Bytes>)
  {
    forall i :: 0 <= i < |segs| ==> Skippable(segs[i])
  }

  /** The bytes split into skippable fields followed by a field-1 varint `v`. */
  ghost predicate Splits(b: Bytes, segs: seq<Bytes>, tail: Bytes, v: nat)
  {
    b == Flat(segs) + tail && AllSkippable(segs) && Answers(tail, v)
  }

  /** Two consecutive varints at the front, as the reader sees them. */
  lemma TwoVarints(b: Bytes, n: nat, m: nat)
    requires n + m <= |b| && IsVarint(b[..n]) && IsVarint(b[n..n + m])
    ensures ReadVarint(b) == Some((Value(b[..n]) % TWO64, n))
    ensures ReadVarint(b[n..]) == Some((Value(b[n..n + m]) % TWO64, m))
  {
    ReadVarintIff(b, Value(b[..n]) % TWO64, n);
    assert b[n..][..m] == b[n..n + m];
    ReadVarintIff(b[n..], Value(b[n..n + m]) % TWO64, m);
  }

  lemma SkipParses(seg: Bytes, rest: Bytes)
    requires Skippable(seg)
    ensures Parse(seg + rest) == Parse(rest)
  {
    var n: nat, m: nat :| SkippableAt(seg, n, m);
    var b := seg + rest;
    assert b[..n] == seg[..n] && b[n..n + m] == seg[n..n + m];
    TwoVarints(b, n, m);
    assert FieldAfterTag(Value(seg[..n]) % TWO64, b[n..]) == Skip(|seg| - n);
    assert b[n + (|seg| - n)..] == rest;
  }

  lemma AnswerParses(b: Bytes, v: nat)
    requires Answers(b, v)
    ensures v < TWO64 && Parse(b) == Can(ToInt64(v))
  {
    var n: nat, m: nat :| AnswersAt(b, v, n, m);
    TwoVarints(b, n, m);
  }

  lemma {:induction false} SplitParses(b: Bytes, segs: seq<Bytes>, tail: Bytes, v: nat)
    requires Splits(b, segs, tail, v)
    ensures v < TWO64 && Parse(b) == Can(ToInt64(v))
    decreases |segs|
  {
    if segs == [] {
      assert b == tail;
      AnswerParses(b, v);
    } else {
      var rest := Flat(segs[1..]) + tail;
      assert b == segs[0] + rest;
      assert Skippable(segs[0]);
      SkipParses(segs[0], rest);
      SplitParses(rest, segs[1..], tail, v);
    }
  }

  /** The field at the front of `b`, when the reader goes past it. */
  lemma FrontIsSkippable(b: Bytes, tag: nat, n: nat, k: nat)
    requires ReadVarint(b) == Some((tag, n)) && FieldAfterTag(tag, b[n..]) == Skip(k)
    ensures n + k <= |b| && Skippable(b[..n + k])
  {
    var rest, seg := b[n..], b[..n + k];
    var (v, m) := ReadVarint(rest).value;
    ReadVarintIff(b, tag, n);
    ReadVarintIff(rest, v, m);
    PrefixSlices(b, n, m, n + k);
    IsSkippable(seg, n, m, tag, v);
  }

  lemma PrefixSlices(b: Bytes, n: nat, m: nat, k: nat)
    requires n + m <= k <= |b|
    ensures b[..k][..n] == b[..n] && b[..k][n..n + m] == b[n..][..m]
  {
  }

  lemma IsSkippable(seg: Bytes, n: nat, m: nat, tag: nat, v: nat)
    requires n + m <= |seg| && IsVarint(seg[..n]) && IsVarint(seg[n..n + m])
    requires tag == Value(seg[..n]) % TWO64 && v == Value(seg[n..n + m]) % TWO64
    requires (tag % 8 == 0 && tag / 8 != 1 && |seg| == n + m) || (tag % 8 == 2 && |seg| == n + m + v)
    ensures Skippable(seg)
  {
    assert SkippableAt(seg, n, m);
  }

  lemma FrontAnswers(b: Bytes, tag: nat, n: nat, v: nat, m: nat)
    requires ReadVarint(b) == Some((tag, n)) && tag == 8 && ReadVarint(b[n..]) == Some((v, m))
    ensures Answers(b, v)
  {
    ReadVarintIff(b, tag, n);
    ReadVarintIff(b[n..], v, m);
    assert b[n..][..m] == b[n..n + m];
    assert AnswersAt(b, v, n, m);
  }

  lemma ConsSplit(b: Bytes, seg: Bytes, rest: Bytes, segs: seq<Bytes>, tail: Bytes, v: nat)
    requires b == seg + rest && Skippable(seg) && Splits(rest, segs, tail, v)
    ensures Splits(b, [seg] + segs, tail, v)
  {
    assert ([seg] + segs)[1..] == segs;
    assert (seg + Flat(segs)) + tail == seg + (Flat(segs) + tail);
  }

  lemma FieldAnswers(tag: nat, b: Bytes, v: nat)
    requires v < TWO64 && FieldAfterTag(tag, b) == Answer(ToInt64(v))
    ensures tag == 8 && ReadVarint(b).Some? && ReadVarint(b).value.0 == v
  {
  }

  lemma {:induction false} ParsedSplits(b: Bytes, v: nat) returns (segs: seq<Bytes>, tail: Bytes)
    requires v < TWO64 && Parse(b) == Can(ToInt64(v))
    ensures Splits(b, segs, tail, v)
    decreases |b|
  {
    var (tag, n) := ReadVarint(b).value;
    var step := FieldAfterTag(tag, b[n..]);
    if step.Answer? {
      FieldAnswers(tag, b[n..], v);
      FrontAnswers(b, tag, n, v, ReadVarint(b[n..]).value.1);
      segs, tail := [], b;
      assert b == Flat([]) + b;
    } else {
      var rest := b[n + step.n..];
      FrontIsSkippable(b, tag, n, step.n);
      segs, tail := ParsedSplits(rest, v);
      ConsSplit(b, b[..n + step.n], rest, segs, tail, v);
      segs := [b[..n + step.n]] + segs;
    }
  }

  /** The reader refines the declared format: it returns `v` if and only if the
      bytes split into well-formed skippable fields followed by a field-1 varint
      `v`; anything may follow. */
  lemma ParseIffSplits(b: Bytes, v: nat)
    requires v < TWO64
    ensures Parse(b) == Can(ToInt64(v)) <==> exists segs: seq<Bytes>, tail: Bytes :: Splits(b, segs, tail, v)
  {
    if Parse(b) == Can(ToInt64(v)) {
      var segs, tail := ParsedSplits(b, v);
    }
    if segs: seq<Bytes>, tail: Bytes :| Splits(b, segs, tail, v) {
      SplitParses(b, segs, tail, v);
    }
  }

  /** So a check is allowed, `can == 1`, on exactly the responses that say so. */
  lemma AllowedIff(b: Bytes)
    ensures Parse(b) == Can(1) <==> exists segs: seq<Bytes>, tail: Bytes :: Splits(b, segs, tail, 1)
  {
    ParseIffSplits(b, 1);
  }

  // -------------------------------------------------- what the reader refuses, declared

  /** No varint of up to ten bytes starts here. */
  predicate NoVarint(b: Bytes)
  {
    forall n :: 0 <= n <= |b| ==> !IsVarint(b[..n])
  }

  lemma NoVarintIff(b: Bytes)
    ensures ReadVarint(b).None? <==> NoVarint(b)
  {
    if ReadVarint(b).Some? {
      var (v, n) := ReadVarint(b).value;
      ReadVarintIff(b, v, n);
    } else if !NoVarint(b) {
      var n :| 0 <= n <= |b| && IsVarint(b[..n]);
      ReadVarintIff(b, Value(b[..n]) % TWO64, n);
    }
  }

  /** `b` starts with a tag of `n` bytes and value `tag`. */
  predicate TagAt(b: Bytes, n: nat, tag: nat)
  {
    n <= |b| && IsVarint(b[..n]) && tag == Value(b[..n]) % TWO64
  }

  /** A length of `m` bytes after the tag that reaches beyond the end. */
  predicate TooLongAt(b: Bytes, n: nat, m: nat)
  {
    n + m <= |b| && IsVarint(b[n..n + m]) && |b| < n + m + Value(b[n..n + m]) % TWO64
  }

  /** The field at the front of `b` is refused with this error. */
  ghost predicate Refuses(b: Bytes, error: Parsed)
  {
    match error
    case MissingCan => b == []
    case InvalidVarint =>
      && b != []
      && (NoVarint(b) || exists n: nat, tag: nat :: TagAt(b, n, tag) && (tag % 8 == 0 || tag % 8 == 2) && NoVarint(b[n..]))
    case Truncated => exists n: nat, tag: nat, m: nat :: TagAt(b, n, tag) && tag % 8 == 2 && TooLongAt(b, n, m)
    case UnsupportedWire(w) => w != 0 && w != 2 && exists n: nat, tag: nat :: TagAt(b, n, tag) && tag % 8 == w
    case Can(_) => false
  }

  lemma TagReads(b: Bytes, n: nat, tag: nat)
    ensures TagAt(b, n, tag) <==> ReadVarint(b) == Some((tag, n))
  {
    ReadVarintIff(b, tag, n);
  }

  lemma TooLongReads(b: Bytes, n: nat, m: nat)
    requires n <= |b|
    ensures TooLongAt(b, n, m) <==>
            ReadVarint(b[n..]).Some? && ReadVarint(b[n..]).value.1 == m && |b[n..]| - m < ReadVarint(b[n..]).value.0
  {
    var rest := b[n..];
    if n + m <= |b| {
      assert rest[..m] == b[n..n + m];
      ReadVarintIff(rest, Value(rest[..m]) % TWO64, m);
    }
    if ReadVarint(rest).Some? {
      ReadVarintIff(rest, ReadVarint(rest).value.0, ReadVarint(rest).value.1);
    }
  }

  lemma RefusedParses(b: Bytes, error: Parsed)
    requires Refuses(b, error)
    ensures Parse(b) == error
  {
    NoVarintIff(b);
    match error {
      case MissingCan =>
      case InvalidVarint =>
        if !NoVarint(b) {
          var n: nat, tag: nat :| TagAt(b, n, tag) && (tag % 8 == 0 || tag % 8 == 2) && NoVarint(b[n..]);
          TagReads(b, n, tag);
          NoVarintIff(b[n..]);
        }
      case Truncated =>
        var n: nat, tag: nat, m: nat :| TagAt(b, n, tag) && tag % 8 == 2 && TooLongAt(b, n, m);
        TagReads(b, n, tag);
        TooLongReads(b, n, m);
      case UnsupportedWire(w) =>
        var n: nat, tag: nat :| TagAt(b, n, tag) && tag % 8 == w;
        TagReads(b, n, tag);
    }
  }

  lemma FrontRefuses(b: Bytes)
    requires b != [] && ReadVarint(b).Some?
    requires FieldAfterTag(ReadVarint(b).value.0, b[ReadVarint(b).value.1..]).Fail?
    ensures Refuses(b, Parse(b))
  {
    var (tag, n) := ReadVarint(b).value;
    TagReads(b, n, tag);
    NoVarintIff(b[n..]);
    if ReadVarint(b[n..]).Some? {
      TooLongReads(b, n, ReadVarint(b[n..]).value.1);
    }
  }

  /** `b` is skippable fields followed by bytes refused with this error. */
  ghost predicate RefusedAs(b: Bytes, segs: seq<Bytes>, tail: Bytes, error: Parsed)
  {
    b == Flat(segs) + tail && AllSkippable(segs) && Refuses(tail, error)
  }

  lemma {:induction false} RefusedSplits(b: Bytes, error: Parsed) returns (segs: seq<Bytes>, tail: Bytes)
    requires Parse(b) == error && !error.Can?
    ensures RefusedAs(b, segs, tail, error)
    decreases |b|
  {
    if b == [] || ReadVarint(b).None? {
      NoVarintIff(b);
      segs, tail := [], b;
      assert b == Flat([]) + b;
    } else {
      var (tag, n) := ReadVarint(b).value;
      var step := FieldAfterTag(tag, b[n..]);
      if step.Fail? {
        FrontRefuses(b);
        segs, tail := [], b;
        assert b == Flat([]) + b;
      } else {
        FrontIsSkippable(b, tag, n, step.n);
        segs, tail := RefusedSplits(b[n + step.n..], error);
        ConsRefused(b, b[..n + step.n], b[n + step.n..], segs, tail, error);
        segs := [b[..n + step.n]] + segs;
      }
    }
  }

  lemma ConsRefused(b: Bytes, seg: Bytes, rest: Bytes, segs: seq<Bytes>, tail: Bytes, error: Parsed)
    requires b == seg + rest && Skippable(seg) && RefusedAs(rest, segs, tail, error)
    ensures RefusedAs(b, [seg] + segs, tail, error)
  {
    assert ([seg] + segs)[1..] == segs;
    assert (seg + Flat(segs)) + tail == seg + (Flat(segs) + tail);
  }

  lemma {:induction false} SkipsThenRefuses(b: Bytes, segs: seq<Bytes>, tail: Bytes, error: Parsed)
    requires RefusedAs(b, segs, tail, error)
    ensures Parse(b) == error
    decreases |segs|
  {
    if segs == [] {
      assert b == tail;
      RefusedParses(tail, error);
    } else {
      var rest := Flat(segs[1..]) + tail;
      assert b == segs[0] + rest;
      assert Skippable(segs[0]);
      SkipParses(segs[0], rest);
      SkipsThenRefuses(rest, segs[1..], tail, error);
    }
  }

  /** Each error, exactly: after well-formed skippable fields the bytes end, or hold
      no varint where one is due, or a length beyond the end, or another wire type. */
  lemma ParseFailsIff(b: Bytes, error: Parsed)
    requires !error.Can?
    ensures Parse(b) == error <==> exists segs: seq<Bytes>, tail: Bytes :: RefusedAs(b, segs, tail, error)
  {
    if Parse(b) == error {
      var segs, tail := RefusedSplits(b, error);
    }
    if segs: seq<Bytes>, tail: Bytes :| RefusedAs(b, segs, tail, error) {
      SkipsThenRefuses(b, segs, tail, error);
    }
  }

  // ------------------------------------------------------------------- writing

  datatype Field = VarintField(num: nat, v: nat) | BytesField(num: nat, data: Bytes)

  predicate ValidField(f: Field)
  {
    && 8 * f.num + 2 < TWO64
    && (f.VarintField? ==> f.v < TWO64)
    && (f.BytesField? ==> |f.data| < TWO64)
  }

  function PbBytes(num: nat, data: Bytes): (b: Bytes)
  {
    Varint(8 * num + 2) + Varint(|data|) + data
  }

  function PbVarint(num: nat, v: nat): (b: Bytes)
  {
    Varint(8 * num) + Varint(v)
  }

  function WriteField(f: Field): (b: Bytes)
  {
    if f.VarintField? then PbVarint(f.num, f.v) else PbBytes(f.num, f.data)
  }

  function WriteFields(fs: seq<Field>): (b: Bytes)
  {
    WriteAll(WriteField, fs)
  }

  /** A reference reader: the field at the front and its size. */
  function ReadField(b: Bytes): (f: Option<(Field, nat)>)
  {
    var t := ReadVarint(b);
    if t.None? then None
    else
      var (tag, n) := t.value;
      var r := ReadVarint(b[n..]);
      if r.None? then None
      else
        var (v, m) := r.value;
        if tag % 8 == 0 then Some((VarintField(tag / 8, v), n + m))
        else if tag % 8 == 2 && v <= |b| - n - m then Some((BytesField(tag / 8, b[n + m..n + m + v]), n + m + v))
        else None
  }

  ghost predicate IsFieldReader(read: Reader<Field>)
  {
    forall b {:trigger ReadField(b)} :: read(b) == ReadField(b)
  }

  ghost function FieldReader(): (read: Reader<Field>)
    ensures IsFieldReader(read)
  {
    assert IsFieldReader(ReadField);
    var read: Reader<Field> :| IsFieldReader(read);
    read
  }

  /** The list of fields a message consists of. */
  ghost function ReadFields(b: Bytes): (fs: Option<seq<Field>>)
  {
    var r := ScanAll(FieldReader(), b);
    if r.valid == |b| then Some(r.records) else None
  }

  lemma ReadVarintField(num: nat, v: nat, tail: Bytes)
    requires ValidField(VarintField(num, v))
    ensures ReadField(PbVarint(num, v) + tail) == Some((VarintField(num, v), |PbVarint(num, v)|))
  {
    var b, t, w := PbVarint(num, v) + tail, Varint(8 * num), Varint(v);
    assert b == t + (w + tail);
    VarintRoundTrip(8 * num, w + tail);
    VarintRoundTrip(v, tail);
    assert b[|t|..] == w + tail;
  }

  lemma ReadBytesField(num: nat, data: Bytes, tail: Bytes)
    requires ValidField(BytesField(num, data))
    ensures ReadField(PbBytes(num, data) + tail) == Some((BytesField(num, data), |PbBytes(num, data)|))
  {
    var b, t, l := PbBytes(num, data) + tail, Varint(8 * num + 2), Varint(|data|);
    assert b == t + (l + (data + tail));
    VarintRoundTrip(8 * num + 2, l + (data + tail));
    VarintRoundTrip(|data|, data + tail);
    assert b[|t|..] == l + (data + tail);
    assert b[|t| + |l|..|t| + |l| + |data|] == data;
  }

  lemma FieldReadsAhead(f: Field)
    requires ValidField(f)
    ensures ReadsAhead(FieldReader(), WriteField, f)
  {
    forall tail ensures FieldReader()(WriteField(f) + tail) == Some((f, |WriteField(f)|)) {
      assert FieldReader()(WriteField(f) + tail) == ReadField(WriteField(f) + tail);
      match f {
        case VarintField(num, v) => ReadVarintField(num, v, tail);
        case BytesField(num, data) => ReadBytesField(num, data, tail);
      }
    }
  }

  /** Fields read back unchanged, in order. */
  lemma FieldsRoundTrip(fs: seq<Field>)
    requires forall i :: 0 <= i < |fs| ==> ValidField(fs[i])
    ensures ReadFields(WriteFields(fs)) == Some(fs)
  {
    forall i | 0 <= i < |fs| ensures ReadsAhead(FieldReader(), WriteField, fs[i]) {
      FieldReadsAhead(fs[i]);
    }
    assert FieldReader()([]) == ReadField([]);
    ScanOfWritten(FieldReader(), WriteField, fs);
  }

  const CHECK_DEPTH: nat := 20

  const USER: Bytes := [117, 115, 101, 114]  // "user"

  function EntityFields(kind: Bytes, id: Bytes): (fs: seq<Field>)
  {
    [BytesField(1, kind), BytesField(2, id)]
  }

  function RequestFields(tenant: Bytes, metadata: Bytes, entity: Bytes, permission: Bytes, subject: Bytes): (fs: seq<Field>)
  {
    [BytesField(1, tenant), BytesField(2, metadata), BytesField(3, entity), BytesField(4, permission),
     BytesField(5, subject)]
  }

  function MarshalCheckRequest(tenant: Bytes, kind: Bytes, id: Bytes, permission: Bytes, subject: Bytes): (b: Bytes)
  {
    var entity := PbBytes(1, kind) + PbBytes(2, id);
    var sub := PbBytes(1, USER) + PbBytes(2, subject);
    var metadata := PbVarint(3, CHECK_DEPTH);
    PbBytes(1, tenant) + PbBytes(2, metadata) + PbBytes(3, entity) + PbBytes(4, permission) + PbBytes(5, sub)
  }

  method AppendPbBytes(out: Bytes, num: nat, data: Bytes) returns (r: Bytes)
    ensures r == out + PbBytes(num, data)
  {
    var field := AppendVarint([], 8 * num + 2);
    field := AppendVarint(field, |data|);
    field := field + data;
    assert field == PbBytes(num, data);
    r := out + field;
  }

  method BuildEntity(kind: Bytes, id: Bytes) returns (out: Bytes)
    ensures out == PbBytes(1, kind) + PbBytes(2, id)
  {
    out := AppendPbBytes([], 1, kind);
    out := AppendPbBytes(out, 2, id);
  }

  method BuildMetadata() returns (out: Bytes)
    ensures out == PbVarint(3, CHECK_DEPTH)
  {
    out := AppendVarint([], 8 * 3);
    out := AppendVarint(out, CHECK_DEPTH);
  }

  /** The request as the client builds it, field by field. */
  method BuildCheckRequest(tenant: Bytes, kind: Bytes, id: Bytes, permission: Bytes, subject: Bytes) returns (out: Bytes)
    ensures out == MarshalCheckRequest(tenant, kind, id, permission, subject)
  {
    var entity := BuildEntity(kind, id);
    var sub := BuildEntity(USER, subject);
    var metadata := BuildMetadata();
    out := AppendPbBytes([], 1, tenant);
    out := AppendPbBytes(out, 2, metadata);
    out := AppendPbBytes(out, 3, entity);
    out := AppendPbBytes(out, 4, permission);
    out := AppendPbBytes(out, 5, sub);
  }

  /** Sizes a Go slice can have. */
  predicate Small(b: Bytes)
  {
    |b| < 0x1000_0000_0000_0000
  }

  lemma WriteOne(a: Field)
    ensures WriteFields([a]) == WriteField(a)
  {
    assert [a][1..] == [];
    assert WriteAll(WriteField, [a]) == WriteField(a) + WriteAll(WriteField, []);
  }

  lemma WriteTwo(a: Field, b: Field)
    ensures WriteFields([a, b]) == WriteField(a) + WriteField(b)
  {
    assert [a, b][1..] == [b];
    WriteOne(b);
  }

  lemma WriteFive(a: Field, b: Field, c: Field, d: Field, e: Field)
    ensures WriteFields([a, b, c, d, e]) ==
            WriteField(a) + WriteField(b) + WriteField(c) + WriteField(d) + WriteField(e)
  {
    var fs := [a, b, c, d, e];
    assert fs[1..] == [b, c, d, e] && fs[1..][1..] == [c, d, e] && fs[1..][1..][1..] == [d, e];
    WriteTwo(d, e);
    assert WriteFields([c, d, e]) == WriteField(c) + WriteFields([d, e]);
    assert WriteFields([b, c, d, e]) == WriteField(b) + WriteFields([c, d, e]);
    assert WriteFields(fs) == WriteField(a) + WriteFields([b, c, d, e]);
  }

  lemma {:induction false} VarintLength(v: nat)
    requires v < TWO64
    ensures |Varint(v)| <= MAX_VARINT
  {
    Pow128Nine();
    assert Pow128(10) == 128 * Pow128(9);
    VarintShape(v, 10);
  }

  lemma EntityRoundTrip(kind: Bytes, id: Bytes)
    requires Small(kind) && Small(id)
    ensures var b := PbBytes(1, kind) + PbBytes(2, id);
            ReadFields(b) == Some(EntityFields(kind, id)) && |b| < TWO64
  {
    WriteTwo(BytesField(1, kind), BytesField(2, id));
    FieldsRoundTrip(EntityFields(kind, id));
    VarintLength(10);
    VarintLength(18);
    VarintLength(|kind|);
    VarintLength(|id|);
  }

  lemma MetadataRoundTrip()
    ensures ReadFields(PbVarint(3, CHECK_DEPTH)) == Some([VarintField(3, CHECK_DEPTH)])
    ensures |PbVarint(3, CHECK_DEPTH)| < TWO64
  {
    var f := VarintField(3, CHECK_DEPTH);
    WriteOne(f);
    FieldsRoundTrip([f]);
  }

  /** The request reads back as exactly its five fields, and the nested entity,
      subject and metadata messages read back as theirs. */
  lemma RequestRoundTrip(tenant: Bytes, kind: Bytes, id: Bytes, permission: Bytes, subject: Bytes)
    requires Small(tenant) && Small(kind) && Small(id) && Small(permission) && Small(subject)
    ensures var entity := PbBytes(1, kind) + PbBytes(2, id);
            var sub := PbBytes(1, USER) + PbBytes(2, subject);
            var metadata := PbVarint(3, CHECK_DEPTH);
            && ReadFields(MarshalCheckRequest(tenant, kind, id, permission, subject))
               == Some(RequestFields(tenant, metadata, entity, permission, sub))
            && ReadFields(entity) == Some(EntityFields(kind, id))
            && ReadFields(sub) == Some(EntityFields(['u' as int, 's' as int, 'e' as int, 'r' as int], subject))
            && ReadFields(metadata) == Some([VarintField(3, 20)])
  {
    var entity := PbBytes(1, kind) + PbBytes(2, id);
    var sub := PbBytes(1, USER) + PbBytes(2, subject);
    var metadata := PbVarint(3, CHECK_DEPTH);
    EntityRoundTrip(kind, id);
    EntityRoundTrip(USER, subject);
    MetadataRoundTrip();
    WriteFive(BytesField(1, tenant), BytesField(2, metadata), BytesField(3, entity), BytesField(4, permission),
              BytesField(5, sub));
    FieldsRoundTrip(RequestFields(tenant, metadata, entity, permission, sub));
  }

  /** Different checks are different requests: no choice of names makes one
      tenant, entity, permission or subject read as another. */
  lemma RequestsAreDistinct(t1: Bytes, k1: Bytes, i1: Bytes, p1: Bytes, s1: Bytes,
                            t2: Bytes, k2: Bytes, i2: Bytes, p2: Bytes, s2: Bytes)
    requires Small(t1) && Small(k1) && Small(i1) && Small(p1) && Small(s1)
    requires Small(t2) && Small(k2) && Small(i2) && Small(p2) && Small(s2)
    requires MarshalCheckRequest(t1, k1, i1, p1, s1) == MarshalCheckRequest(t2, k2, i2, p2, s2)
    ensures (t1, k1, i1, p1, s1) == (t2, k2, i2, p2, s2)
  {
    RequestRoundTrip(t1, k1, i1, p1, s1);
    RequestRoundTrip(t2, k2, i2, p2, s2);
    var e1, e2 := PbBytes(1, k1) + PbBytes(2, i1), PbBytes(1, k2) + PbBytes(2, i2);
    var b1, b2 := PbBytes(1, USER) + PbBytes(2, s1), PbBytes(1, USER) + PbBytes(2, s2);
    var m := PbVarint(3, CHECK_DEPTH);
    var r1, r2 := RequestFields(t1, m, e1, p1, b1), RequestFields(t2, m, e2, p2, b2);
    assert r1[0] == r2[0] && r1[2] == r2[2] && r1[3] == r2[3] && r1[4] == r2[4];
    var f1, f2 := EntityFields(k1, i1), EntityFields(k2, i2);
    assert f1[0] == f2[0] && f1[1] == f2[1];
    var u1, u2 := EntityFields(USER, s1), EntityFields(USER, s2);
    assert u1[1] == u2[1];
  }
}
