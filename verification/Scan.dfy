/** Reading a byte string record by record: a reader says what the next record
    is and how many bytes it used, or that reading stops here. */
module Scan {
  import opened Common

  type Reader<T> = Bytes -> Option<(T, nat)>

  datatype Recovered<T> = Recovered(records: seq<T>, valid: nat)

  /** The reader looks at a record's own bytes and nothing after them. */
  ghost predicate Local<T(!new)>(read: Reader<T>)
  {
    && (forall b :: UsesInput(read, b))
    && (forall b, n: nat :: LocalAt(read, b, n))
  }

  ghost predicate UsesInput<T(!new)>(read: Reader<T>, b: Bytes)
  {
    read(b).Some? ==> 0 < read(b).value.1 <= |b|
  }

  ghost predicate LocalAt<T(!new)>(read: Reader<T>, b: Bytes, n: nat)
  {
    n <= |b| ==>
      && (read(b[..n]).Some? ==> read(b) == read(b[..n]))
      && (read(b).Some? && read(b).value.1 <= n ==> read(b[..n]) == read(b))
  }

  function ScanAll<T>(read: Reader<T>, b: Bytes): (r: Recovered<T>)
    ensures r.valid <= |b|
    decreases |b|
  {
    match read(b)
    case None => Recovered([], 0)
    case Some((rec, n)) =>
      if n == 0 || |b| < n then Recovered([], 0)
      else
        var rest := ScanAll(read, b[n..]);
        Recovered([rec] + rest.records, n + rest.valid)
  }

  /** What a scan of `b` returns when `done` has been read from its first `v` bytes. */
  ghost function Continue<T>(read: Reader<T>, done: seq<T>, v: nat, b: Bytes): (r: Recovered<T>)
    requires v <= |b|
  {
    var rest := ScanAll(read, b[v..]);
    Recovered(done + rest.records, v + rest.valid)
  }

  lemma ContinueStep<T>(read: Reader<T>, done: seq<T>, v: nat, b: Bytes)
    requires v <= |b| && read(b[v..]).Some? && 0 < read(b[v..]).value.1 <= |b| - v
    ensures var (rec, n) := read(b[v..]).value;
            Continue(read, done, v, b) == Continue(read, done + [rec], v + n, b)
  {
    var (rec, n) := read(b[v..]).value;
    assert b[v..][n..] == b[v + n..];
    var rest := ScanAll(read, b[v + n..]).records;
    assert done + ([rec] + rest) == (done + [rec]) + rest;
  }

  lemma ContinueEnds<T>(read: Reader<T>, done: seq<T>, v: nat, b: Bytes)
    requires v <= |b| && read(b[v..]) == None
    ensures Continue(read, done, v, b) == Recovered(done, v)
  {
  }

  /** Every byte of `b` belongs to some record. */
  predicate Whole<T>(read: Reader<T>, b: Bytes)
  {
    ScanAll(read, b).valid == |b|
  }

  lemma ReadExtends<T(!new)>(read: Reader<T>, b: Bytes, x: Bytes)
    requires Local(read) && read(b).Some?
    ensures read(b + x) == read(b)
  {
    assert (b + x)[..|b|] == b;
    assert LocalAt(read, b + x, |b|);
  }

  /** Whole records followed by anything scan as those records followed by
      whatever the rest scans to. */
  lemma {:induction false} ScanAfterWhole<T(!new)>(read: Reader<T>, b: Bytes, x: Bytes)
    requires Local(read) && Whole(read, b)
    ensures ScanAll(read, b + x) ==
            Recovered(ScanAll(read, b).records + ScanAll(read, x).records, |b| + ScanAll(read, x).valid)
    decreases |b|
  {
    if b == [] {
      assert b + x == x;
      assert UsesInput(read, b);
    } else {
      var (rec, n) := read(b).value;
      ReadExtends(read, b, x);
      assert (b + x)[n..] == b[n..] + x;
      ScanAfterWhole(read, b[n..], x);
      var rest, tail := ScanAll(read, b[n..]).records, ScanAll(read, x).records;
      assert [rec] + (rest + tail) == ([rec] + rest) + tail;
    }
  }

  /** Truncating to the valid length is stable: scanning again finds the same
      records and nothing more to truncate, whatever the bytes were. */
  lemma {:induction false} RescanIsStable<T(!new)>(read: Reader<T>, b: Bytes)
    requires Local(read)
    ensures ScanAll(read, b[..ScanAll(read, b).valid]) == ScanAll(read, b)
    decreases |b|
  {
    var v := ScanAll(read, b).valid;
    assert LocalAt(read, b, v) && UsesInput(read, b) && UsesInput(read, b[..v]);
    if read(b).Some? {
      var n := read(b).value.1;
      RescanIsStable(read, b[n..]);
      assert b[..v][n..] == b[n..][..v - n];
    }
  }

  // ------------------------------------------------ files written by an encoder

  type Writer<!T> = T -> Bytes

  /** The reader undoes the writer on `r` and refuses every proper prefix of it. */
  ghost predicate ReadsBack<T(!new)>(read: Reader<T>, write: Writer<T>, r: T)
  {
    && write(r) != []
    && read(write(r)) == Some((r, |write(r)|))
    && forall j :: 0 <= j < |write(r)| ==> read(write(r)[..j]) == None
  }

  ghost predicate AllReadBack<T(!new)>(read: Reader<T>, write: Writer<T>, rs: seq<T>)
  {
    forall i :: 0 <= i < |rs| ==> ReadsBack(read, write, rs[i])
  }

  function WriteAll<T>(write: Writer<T>, rs: seq<T>): (b: Bytes)
  {
    if rs == [] then [] else write(rs[0]) + WriteAll(write, rs[1..])
  }

  lemma {:induction false} WriteAllConcat<T>(write: Writer<T>, a: seq<T>, b: seq<T>)
    ensures WriteAll(write, a + b) == WriteAll(write, a) + WriteAll(write, b)
  {
    if a == [] {
      assert a + b == b;
    } else {
      assert (a + b)[1..] == a[1..] + b;
      WriteAllConcat(write, a[1..], b);
    }
  }

  /** The number of leading records whose whole encodings lie in the first `k` bytes. */
  function WholeCount<T>(write: Writer<T>, rs: seq<T>, k: nat): (m: nat)
    ensures m <= |rs|
  {
    if rs == [] || k < |write(rs[0])| then 0
    else 1 + WholeCount(write, rs[1..], k - |write(rs[0])|)
  }

  /** `WholeCount` is the greatest such number. */
  lemma {:induction false} WholeCountIsGreatest<T>(write: Writer<T>, rs: seq<T>, k: nat)
    ensures var m := WholeCount(write, rs, k);
            && |WriteAll(write, rs[..m])| <= k
            && (m < |rs| ==> k < |WriteAll(write, rs[..m + 1])|)
  {
    var m := WholeCount(write, rs, k);
    if rs == [] {
    } else if k < |write(rs[0])| {
      assert rs[..1][1..] == [];
    } else {
      WholeCountIsGreatest(write, rs[1..], k - |write(rs[0])|);
      assert rs[..m][1..] == rs[1..][..m - 1];
      if m < |rs| {
        assert rs[..m + 1][1..] == rs[1..][..m];
      }
    }
  }

  lemma {:induction false} WholeCountOfAll<T>(write: Writer<T>, rs: seq<T>)
    ensures WholeCount(write, rs, |WriteAll(write, rs)|) == |rs|
  {
    if rs != [] {
      WholeCountOfAll(write, rs[1..]);
    }
  }

  /** A written file cut at any length scans to exactly the records that lie
      wholly before the cut. */
  lemma {:induction false} CutScan<T(!new)>(read: Reader<T>, write: Writer<T>, rs: seq<T>, k: nat)
    requires Local(read) && AllReadBack(read, write, rs)
    requires k <= |WriteAll(write, rs)|
    ensures var m := WholeCount(write, rs, k);
            ScanAll(read, WriteAll(write, rs)[..k]) == Recovered(rs[..m], |WriteAll(write, rs[..m])|)
    decreases |rs|
  {
    if rs == [] {
      assert UsesInput(read, []);
    } else {
      var f, rest := write(rs[0]), WriteAll(write, rs[1..]);
      assert ReadsBack(read, write, rs[0]);
      if k < |f| {
        assert (f + rest)[..k] == f[..k];
      } else {
        var m := WholeCount(write, rs, k);
        assert (f + rest)[..k] == f + rest[..k - |f|];
        ReadExtends(read, f, rest[..k - |f|]);
        CutScan(read, write, rs[1..], k - |f|);
        assert rs[..m] == [rs[0]] + rs[1..][..m - 1];
      }
    }
  }

  lemma WrittenScans<T(!new)>(read: Reader<T>, write: Writer<T>, rs: seq<T>)
    requires Local(read) && AllReadBack(read, write, rs)
    ensures ScanAll(read, WriteAll(write, rs)) == Recovered(rs, |WriteAll(write, rs)|)
  {
    var b := WriteAll(write, rs);
    CutScan(read, write, rs, |b|);
    WholeCountOfAll(write, rs);
    assert b[..|b|] == b && rs[..|rs|] == rs;
  }

  // ------------------------------------- formats whose reader ignores what follows

  ghost predicate ReadsAhead<T(!new)>(read: Reader<T>, write: Writer<T>, r: T)
  {
    write(r) != [] && forall tail :: read(write(r) + tail) == Some((r, |write(r)|))
  }

  lemma {:induction false} ScanOfWritten<T(!new)>(read: Reader<T>, write: Writer<T>, rs: seq<T>)
    requires read([]) == None && forall i :: 0 <= i < |rs| ==> ReadsAhead(read, write, rs[i])
    ensures ScanAll(read, WriteAll(write, rs)) == Recovered(rs, |WriteAll(write, rs)|)
  {
    if rs != [] {
      var f, rest := write(rs[0]), WriteAll(write, rs[1..]);
      ScanOfWritten(read, write, rs[1..]);
      assert ReadsAhead(read, write, rs[0]);
      assert (f + rest)[|f|..] == rest;
    }
  }
}
