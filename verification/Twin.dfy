/** The digital twin's status automaton: a hysteresis over the energy-level
    trend of consecutive readings. */
module Twin {
  import opened Common

  const STATIONARY_KPH: real := 2.0
  const JITTER_PCT: real := 0.2
  const FULL_PCT: real := 98.0
  const TREND_WINDOW_SECS: int := 120
  const NANOS: int := 1_000_000_000

  /** `other` stands for the fields the twin copies without looking at them. */
  datatype Reading = Reading(bus: int, ts: int, speed: real, h2Level: real, energyLevel: Option<real>,
                             energyType: Option<string>, other: seq<real>)

  datatype Label = Refueling | Charging | RefuelingDiesel | RefuelingCng
  datatype Status = Moving | Idle | Replenishing(energy: Label)

  /** The hot state: the last reading and the status derived from it. */
  datatype TwinState = TwinState(last: Reading, status: Status)

  /** A delivered reading; `lost` when the hot state had expired or was
      unreadable at that moment. */
  datatype Delivery = Delivery(t: Reading, lost: bool)

  function LabelOf(t: Reading): (l: Label)
  {
    if t.energyType == Some("battery") then Charging
    else if t.energyType == Some("diesel") then RefuelingDiesel
    else if t.energyType == Some("cng") then RefuelingCng
    else Refueling
  }

  function LevelOf(t: Reading): (pct: real)
  {
    if t.energyLevel.Some? then t.energyLevel.value else t.h2Level
  }

  /** `Duration::num_seconds`: whole seconds, rounded toward zero. */
  function NumSeconds(nanos: int): (s: int)
  {
    if nanos >= 0 then nanos / NANOS else -((-nanos) / NANOS)
  }

  function Abs(x: int): (a: int)
  {
    if x < 0 then -x else x
  }

  predicate InWindow(prev: Reading, t: Reading)
  {
    Abs(NumSeconds(t.ts - prev.ts)) <= TREND_WINDOW_SECS
  }

  /** Rounding toward zero stretches the 120 s window to just under 121 s. */
  lemma WindowIsUnder121Seconds(prev: Reading, t: Reading)
    ensures InWindow(prev, t) <==> Abs(t.ts - prev.ts) < 121 * NANOS
  {
    var d := Abs(t.ts - prev.ts);
    assert Abs(NumSeconds(t.ts - prev.ts)) == d / NANOS;
  }

  function DeriveStatus(prev: Option<TwinState>, t: Reading): (s: Status)
  {
    if t.speed > STATIONARY_KPH then Moving
    else
      var base := if prev.Some? && InWindow(prev.value.last, t) then prev else None;
      var level := LevelOf(t);
      var rising := base.Some? && level - LevelOf(base.value.last) > JITTER_PCT;
      var falling := base.Some? && level - LevelOf(base.value.last) < -JITTER_PCT;
      var wasReplenishing := base.Some? && base.value.status == Replenishing(LabelOf(t));
      if (rising || (wasReplenishing && !falling)) && level < FULL_PCT then Replenishing(LabelOf(t)) else Idle
  }

  function FromTelemetry(prev: Option<TwinState>, t: Reading): (s: TwinState)
  {
    TwinState(t, DeriveStatus(prev, t))
  }

  function Apply(prev: Option<TwinState>, d: Delivery): (s: TwinState)
  {
    FromTelemetry(if d.lost then None else prev, d.t)
  }

  function Fold(prev: Option<TwinState>, ds: seq<Delivery>): (s: Option<TwinState>)
  {
    if ds == [] then prev else Some(Apply(Fold(prev, ds[..|ds| - 1]), ds[|ds| - 1]))
  }

  /** The status after reading `n` of a run seen from its first reading. */
  function StatusAt(ds: seq<Delivery>, n: nat): (s: Status)
    requires n < |ds|
  {
    Fold(None, ds[..n + 1]).value.status
  }

  // -------------------------------------------------------------- in plain terms

  /** The level a reading reports: the generic figure if present, else hydrogen. */
  predicate Reports(t: Reading, pct: real)
  {
    t.energyLevel == Some(pct) || (t.energyLevel == None && t.h2Level == pct)
  }

  /** The label of the bus's energy type; hydrogen, unknown and absent are refueling. */
  predicate Labelled(t: Reading, l: Label)
  {
    && (l == Charging <==> t.energyType == Some("battery"))
    && (l == RefuelingDiesel <==> t.energyType == Some("diesel"))
    && (l == RefuelingCng <==> t.energyType == Some("cng"))
  }

  /** The status after a reading at `pct` percent that follows one at `before`:
      moving above 2 kph; else replenishing below 98 percent if less than 121 s
      passed, the earlier state is known, and the level rose by more than 0.2 or,
      with the same label going on, did not fall by more; else idle. */
  lemma StatusMeans(prev: TwinState, d: Delivery, before: real, pct: real, l: Label)
    requires Reports(prev.last, before) && Reports(d.t, pct) && Labelled(d.t, l)
    ensures Apply(Some(prev), d).last == d.t
    ensures Apply(Some(prev), d).status ==
            if d.t.speed > 2.0 then Moving
            else if && pct < 98.0 && !d.lost
                    && -121_000_000_000 < d.t.ts - prev.last.ts < 121_000_000_000
                    && (pct > before + 0.2 || (prev.status == Replenishing(l) && pct >= before - 0.2))
            then Replenishing(l) else Idle
  {
    WindowIsUnder121Seconds(prev.last, d.t);
  }

  /** A first sighting is moving or idle, never replenishing. */
  lemma FirstStatusMeans(d: Delivery)
    ensures Apply(None, d) == TwinState(d.t, if d.t.speed > 2.0 then Moving else Idle)
  {
  }

  predicate SameButHydrogen(ds: seq<Delivery>, es: seq<Delivery>)
  {
    |ds| == |es| && forall i :: 0 <= i < |ds| ==>
      ds[i].t.energyLevel.Some? && es[i] == ds[i].(t := ds[i].t.(h2Level := es[i].t.h2Level))
  }

  /** Where every reading has the generic level, the hydrogen figure never matters. */
  lemma {:induction false} HydrogenIgnored(ds: seq<Delivery>, es: seq<Delivery>, n: nat)
    requires SameButHydrogen(ds, es) && n < |ds|
    ensures StatusAt(ds, n) == StatusAt(es, n)
  {
    FoldTake(None, ds, n);
    FoldTake(None, es, n);
    if n == 0 {
      assert ds[..0] == [] && es[..0] == [];
    } else {
      HydrogenIgnored(ds, es, n - 1);
      FoldFits(None, ds, n);
      FoldFits(None, es, n);
      HydrogenStep(Fold(None, ds[..n]).value, Fold(None, es[..n]).value, ds[n], es[n]);
    }
  }

  lemma HydrogenStep(p: TwinState, q: TwinState, d: Delivery, e: Delivery)
    requires p.status == q.status && p.last.energyLevel.Some? && q.last == p.last.(h2Level := q.last.h2Level)
    requires d.t.energyLevel.Some? && e == d.(t := d.t.(h2Level := e.t.h2Level))
    ensures Apply(Some(p), d).status == Apply(Some(q), e).status
  {
  }

  // ------------------------------------------------- hysteresis over whole runs

  predicate HasBaseline(ds: seq<Delivery>, n: nat)
    requires n < |ds|
  {
    n > 0 && !ds[n].lost && InWindow(ds[n - 1].t, ds[n].t)
  }

  function Change(ds: seq<Delivery>, n: nat): (d: real)
    requires 0 < n < |ds|
  {
    LevelOf(ds[n].t) - LevelOf(ds[n - 1].t)
  }

  predicate Rose(ds: seq<Delivery>, n: nat)
    requires n < |ds|
  {
    HasBaseline(ds, n) && Change(ds, n) > JITTER_PCT
  }

  predicate Held(ds: seq<Delivery>, n: nat)
    requires n < |ds|
  {
    HasBaseline(ds, n) && Change(ds, n) >= -JITTER_PCT
  }

  /** Stationary, below full, and of the energy type labelled `l`. */
  predicate Fillable(t: Reading, l: Label)
  {
    t.speed <= STATIONARY_KPH && LevelOf(t) < FULL_PCT && LabelOf(t) == l
  }

  /** A fill that began at reading `j` and was never broken off up to `n`. */
  predicate FillingSince(ds: seq<Delivery>, j: nat, n: nat, l: Label)
  {
    && j <= n < |ds|
    && Rose(ds, j)
    && (forall i :: j <= i <= n ==> Fillable(ds[i].t, l))
    && (forall i :: j < i <= n ==> Held(ds, i))
  }

  /** One reading: replenishing with label `l` now, in terms of one reading ago. */
  lemma StatusStep(ds: seq<Delivery>, n: nat, l: Label)
    requires n < |ds|
    ensures StatusAt(ds, n) == Replenishing(l) <==>
            && Fillable(ds[n].t, l)
            && (Rose(ds, n) || (Held(ds, n) && StatusAt(ds, n - 1) == Replenishing(l)))
  {
    var prev := Fold(None, ds[..n]);
    assert ds[..n + 1][..n] == ds[..n];
    assert Fold(None, ds[..n + 1]) == Some(Apply(prev, ds[n]));
    if n > 0 {
      assert ds[..n][n - 1] == ds[n - 1];
      assert prev.Some? && prev.value.last == ds[n - 1].t && prev.value.status == StatusAt(ds, n - 1);
    } else {
      assert prev == None;
    }
  }

  /** Hysteresis characterised: reading `n` is replenishing if and only if some
      reading `j` up to it rose beyond jitter and from `j` to `n` the bus stayed
      stationary, below full, of one energy type, within the trend window, and
      never fell beyond jitter. */
  lemma {:induction false} ReplenishingIffFilling(ds: seq<Delivery>, n: nat, l: Label)
    requires n < |ds|
    ensures StatusAt(ds, n) == Replenishing(l) <==> exists j: nat :: FillingSince(ds, j, n, l)
  {
    StatusStep(ds, n, l);
    if n > 0 {
      ReplenishingIffFilling(ds, n - 1, l);
    }
    if StatusAt(ds, n) == Replenishing(l) {
      if Rose(ds, n) {
        assert FillingSince(ds, n, n, l);
      } else {
        var j: nat :| FillingSince(ds, j, n - 1, l);
        assert FillingSince(ds, j, n, l);
      }
    }
    if j: nat :| FillingSince(ds, j, n, l) {
      assert Fillable(ds[n].t, l);
      if j < n {
        assert FillingSince(ds, j, n - 1, l);
        assert Held(ds, n);
      }
    }
  }

  /** So a fill can lose at most the jitter per reading. */
  lemma {:induction false} FillingKeepsLevel(ds: seq<Delivery>, j: nat, n: nat, l: Label)
    requires FillingSince(ds, j, n, l)
    ensures LevelOf(ds[n].t) >= LevelOf(ds[j].t) - JITTER_PCT * (n - j) as real
    ensures LevelOf(ds[j].t) > LevelOf(ds[j - 1].t) + JITTER_PCT
  {
    if j < n {
      assert FillingSince(ds, j, n - 1, l);
      FillingKeepsLevel(ds, j, n - 1, l);
      assert Held(ds, n);
    }
  }

  // ----------------------------------------------------------------- redelivery

  /** Applying a reading again changes nothing. */
  lemma ApplyAgain(prev: Option<TwinState>, d: Delivery)
    ensures Apply(Some(Apply(prev, d)), Delivery(d.t, false)) == Apply(prev, d)
  {
  }

  function Copies(d: Delivery, k: nat): (ds: seq<Delivery>)
  {
    seq(k, i requires 0 <= i < k => Delivery(d.t, false))
  }

  /** Every reading delivered once and then `k[i]` more times right away. */
  function Repeated(ds: seq<Delivery>, k: nat -> nat): (rs: seq<Delivery>)
  {
    if ds == [] then []
    else
      var n := |ds| - 1;
      Repeated(ds[..n], k) + [ds[n]] + Copies(ds[n], k(n))
  }

  lemma {:induction false} CopiesChangeNothing(prev: Option<TwinState>, ds: seq<Delivery>, d: Delivery, k: nat)
    ensures Fold(prev, ds + [d] + Copies(d, k)) == Fold(prev, ds + [d])
  {
    var once := ds + [d];
    if k == 0 {
      assert once + Copies(d, 0) == once;
    } else {
      var all := once + Copies(d, k);
      CopiesChangeNothing(prev, ds, d, k - 1);
      assert all[..|all| - 1] == once + Copies(d, k - 1);
      assert all[|all| - 1] == Delivery(d.t, false);
      assert once[..|once| - 1] == ds;
      ApplyAgain(Fold(prev, ds), d);
    }
  }

  lemma FoldSnoc(prev: Option<TwinState>, ds: seq<Delivery>, d: Delivery)
    ensures Fold(prev, ds + [d]) == Some(Apply(Fold(prev, ds), d))
  {
    assert (ds + [d])[..|ds|] == ds;
  }

  /** The twin is insensitive to immediate redelivery: repeating any readings
      consecutively any number of times gives the same final state. */
  lemma {:induction false} RedeliveryChangesNothing(prev: Option<TwinState>, ds: seq<Delivery>, k: nat -> nat)
    ensures Fold(prev, Repeated(ds, k)) == Fold(prev, ds)
    decreases |ds|
  {
    if ds != [] {
      var n := |ds| - 1;
      var before := Repeated(ds[..n], k);
      CopiesChangeNothing(prev, before, ds[n], k(n));
      FoldSnoc(prev, before, ds[n]);
      RedeliveryChangesNothing(prev, ds[..n], k);
      FoldSnoc(prev, ds[..n], ds[n]);
      assert ds == ds[..n] + [ds[n]];
    }
  }

  lemma {:induction false} FoldConcat(prev: Option<TwinState>, ds: seq<Delivery>, es: seq<Delivery>)
    ensures Fold(prev, ds + es) == Fold(Fold(prev, ds), es)
    decreases |es|
  {
    if es == [] {
      assert ds + es == ds;
    } else {
      var n := |es| - 1;
      assert ds + es == (ds + es[..n]) + [es[n]];
      FoldSnoc(prev, ds + es[..n], es[n]);
      FoldConcat(prev, ds, es[..n]);
    }
  }

  /** Reading `i` of a window takes over the status of the one before: still
      stationary, below full, same energy type, and no change beyond jitter. */
  predicate Carries(w: seq<Delivery>, i: nat)
    requires 0 < i < |w|
  {
    && HasBaseline(w, i)
    && w[i - 1].t.speed <= STATIONARY_KPH
    && Fillable(w[i].t, LabelOf(w[i - 1].t))
    && -JITTER_PCT <= Change(w, i) <= JITTER_PCT
  }

  /** A bus standing still is idle or replenishing under its own label. */
  predicate StatusFits(s: TwinState)
  {
    (s.status == Moving <==> s.last.speed > STATIONARY_KPH)
    && (s.status.Replenishing? ==> s.status == Replenishing(LabelOf(s.last)))
  }

  lemma ApplyFits(prev: Option<TwinState>, d: Delivery)
    ensures StatusFits(Apply(prev, d)) && Apply(prev, d).last == d.t
  {
  }

  /** From two states of the previous reading, reading `i` reaches the same state
      unless they differ and it carries; then it keeps both statuses. */
  lemma CarryStep(w: seq<Delivery>, i: nat, a: TwinState, b: TwinState)
    requires 0 < i < |w| && StatusFits(a) && StatusFits(b) && a.last == b.last == w[i - 1].t
    ensures Apply(Some(a), w[i]) == Apply(Some(b), w[i]) <==> a == b || !Carries(w, i)
    ensures Carries(w, i) ==> Apply(Some(a), w[i]).status == a.status
  {
  }

  /** Every reading after the first, among the first `n`, carries. */
  ghost predicate AllCarry(w: seq<Delivery>, n: nat)
    requires n <= |w|
  {
    forall i :: 0 < i < n ==> Carries(w, i)
  }

  lemma FoldTake(p: Option<TwinState>, w: seq<Delivery>, n: nat)
    requires n < |w|
    ensures Fold(p, w[..n + 1]) == Some(Apply(Fold(p, w[..n]), w[n]))
  {
    assert w[..n + 1] == w[..n] + [w[n]];
    FoldSnoc(p, w[..n], w[n]);
  }

  lemma FoldFits(p: Option<TwinState>, w: seq<Delivery>, n: nat)
    requires 0 < n <= |w|
    ensures Fold(p, w[..n]).Some? && StatusFits(Fold(p, w[..n]).value) && Fold(p, w[..n]).value.last == w[n - 1].t
  {
    FoldTake(p, w, n - 1);
    ApplyFits(Fold(p, w[..n - 1]), w[n - 1]);
  }

  /** While readings carry, the first status stays. */
  lemma {:induction false} CarriedStatus(p: Option<TwinState>, w: seq<Delivery>, n: nat)
    requires 0 < n <= |w| && AllCarry(w, n)
    ensures Fold(p, w[..n]).Some? && Fold(p, w[..n]).value.status == Apply(p, w[0]).status
  {
    FoldTake(p, w, n - 1);
    if n == 1 {
      assert w[..0] == [];
    } else {
      CarriedStatus(p, w, n - 1);
      FoldFits(p, w, n - 1);
      var a := Fold(p, w[..n - 1]).value;
      CarryStep(w, n - 1, a, a);
    }
  }

  /** Two folds of one window agree unless they disagree after its first reading
      and every later reading carries. */
  lemma {:induction false} TwoFolds(w: seq<Delivery>, n: nat, p: Option<TwinState>, q: Option<TwinState>)
    requires 0 < n <= |w|
    ensures Fold(p, w[..n]) == Fold(q, w[..n]) <==> Apply(p, w[0]) == Apply(q, w[0]) || !AllCarry(w, n)
  {
    FoldTake(p, w, n - 1);
    FoldTake(q, w, n - 1);
    if n == 1 {
      assert w[..0] == [];
    } else {
      TwoFolds(w, n - 1, p, q);
      FoldFits(p, w, n - 1);
      FoldFits(q, w, n - 1);
      CarryStep(w, n - 1, Fold(p, w[..n - 1]).value, Fold(q, w[..n - 1]).value);
      assert AllCarry(w, n) <==> AllCarry(w, n - 1) && Carries(w, n - 1);
    }
  }

  /** The status of the window's first reading is what it was the first time,
      judged from the window's last reading. */
  predicate FirstRepeats(w: seq<Delivery>, first: Status)
    requires w != []
  {
    var n := |w| - 1;
    var drift := LevelOf(w[0].t) - LevelOf(w[n].t);
    var base := !w[0].lost && InWindow(w[n].t, w[0].t);
    match first
    case Moving => true
    case Replenishing(_) => base && drift >= -JITTER_PCT
    case Idle => !(base && Fillable(w[0].t, LabelOf(w[0].t)) && drift > JITTER_PCT)
  }

  lemma FirstAgain(w: seq<Delivery>, prev: Option<TwinState>, end: TwinState)
    requires w != [] && end == TwinState(w[|w| - 1].t, Apply(prev, w[0]).status) && StatusFits(end)
    ensures Apply(Some(end), w[0]) == Apply(prev, w[0]) <==> FirstRepeats(w, Apply(prev, w[0]).status)
  {
    ApplyFits(prev, w[0]);
  }

  /** Redelivering a whole window changes nothing if and only if some reading in
      it does not merely carry the status on, or its first reading comes out with
      the same status when judged from the window's last one. */
  lemma WindowReplayIff(prev: Option<TwinState>, w: seq<Delivery>)
    requires w != []
    ensures Fold(prev, w + w) == Fold(prev, w) <==>
            (exists i :: 0 < i < |w| && !Carries(w, i)) || FirstRepeats(w, Apply(prev, w[0]).status)
  {
    var n := |w|;
    assert w[..n] == w;
    FoldFits(prev, w, n);
    var once := Fold(prev, w);
    FoldConcat(prev, w, w);
    TwoFolds(w, n, prev, once);
    if AllCarry(w, n) {
      CarriedStatus(prev, w, n);
      FirstAgain(w, prev, once.value);
    }
  }

  /** A standing hydrogen bus at `pct` percent. */
  function Parked(bus: int, pct: real): (d: Delivery)
  {
    Delivery(Reading(bus, 0, 0.0, pct, None, None, []), false)
  }

  lemma ParkedStep(bus: int, before: real, s: Status, pct: real)
    requires pct < FULL_PCT
    ensures Apply(Some(TwinState(Parked(bus, before).t, s)), Parked(bus, pct)) ==
            TwinState(Parked(bus, pct).t,
                      if pct - before > JITTER_PCT || (s == Replenishing(Refueling) && pct - before >= -JITTER_PCT)
                      then Replenishing(Refueling) else Idle)
  {
  }

  /** Redelivering a window of several readings is not harmless: three readings
      drifting down within jitter leave the bus idle, and replaying the three
      leaves it refueling. */
  lemma WindowReplayChangesStatus(bus: int)
    ensures var w := [Parked(bus, 50.0), Parked(bus, 49.85), Parked(bus, 49.7)];
            && Fold(None, w) == Some(TwinState(w[2].t, Idle))
            && Fold(None, w + w) == Some(TwinState(w[2].t, Replenishing(Refueling)))
  {
    var w := [Parked(bus, 50.0), Parked(bus, 49.85), Parked(bus, 49.7)];
    var start := TwinState(w[0].t, Idle);
    FoldSnoc(None, [], w[0]);
    assert [] + [w[0]] == w[..1];
    assert Fold(None, w[..1]) == Some(start);
    ThreeParked(bus, None, Idle);
    ParkedStep(bus, 49.7, Idle, 50.0);
    ThreeParked(bus, Fold(None, w), Replenishing(Refueling));
    FoldConcat(None, w, w);
  }

  /** After the first of the three, the other two carry its status. */
  lemma ThreeParked(bus: int, prev: Option<TwinState>, s: Status)
    requires s == Idle || s == Replenishing(Refueling)
    requires Apply(prev, Parked(bus, 50.0)) == TwinState(Parked(bus, 50.0).t, s)
    ensures var w := [Parked(bus, 50.0), Parked(bus, 49.85), Parked(bus, 49.7)];
            Fold(prev, w) == Some(TwinState(w[2].t, s))
  {
    var w := [Parked(bus, 50.0), Parked(bus, 49.85), Parked(bus, 49.7)];
    assert w[..0] == [] && w[..3] == w;
    FoldTake(prev, w, 0);
    FoldTake(prev, w, 1);
    FoldTake(prev, w, 2);
    ParkedStep(bus, 50.0, s, 49.85);
    ParkedStep(bus, 49.85, s, 49.7);
  }

  // ---------------------------------------------------------- many buses at once

  type Hot = map<int, TwinState>

  function Find(hot: Hot, bus: int): (s: Option<TwinState>)
  {
    if bus in hot then Some(hot[bus]) else None
  }

  function ApplyAll(hot: Hot, ds: seq<Delivery>): (r: Hot)
  {
    if ds == [] then hot
    else
      var d := ds[|ds| - 1];
      var before := ApplyAll(hot, ds[..|ds| - 1]);
      before[d.t.bus := Apply(Find(before, d.t.bus), d)]
  }

  function Only(ds: seq<Delivery>, bus: int): (r: seq<Delivery>)
  {
    if ds == [] then []
    else Only(ds[..|ds| - 1], bus) + (if ds[|ds| - 1].t.bus == bus then [ds[|ds| - 1]] else [])
  }

  /** In any interleaving, each bus's twin is the fold of that bus's own readings. */
  lemma {:induction false} BusesAreIndependent(hot: Hot, ds: seq<Delivery>, bus: int)
    ensures Find(ApplyAll(hot, ds), bus) == Fold(Find(hot, bus), Only(ds, bus))
  {
    if ds != [] {
      var n := |ds| - 1;
      BusesAreIndependent(hot, ds[..n], bus);
      if ds[n].t.bus == bus {
        FoldSnoc(Find(hot, bus), Only(ds[..n], bus), ds[n]);
      } else {
        assert Only(ds, bus) == Only(ds[..n], bus);
      }
    }
  }

  /** The Redis hot states behind `apply_update`. */
  class TwinStore {
    var hot: Hot

    constructor ()
      ensures hot == map[]
    {
      hot := map[];
    }

    method ApplyUpdate(t: Reading, lost: bool) returns (state: TwinState)
      modifies this
      ensures hot == ApplyAll(old(hot), [Delivery(t, lost)]) && Find(hot, t.bus) == Some(state)
    {
      var prev := if lost then None else Find(hot, t.bus);
      state := FromTelemetry(prev, t);
      ghost var one := [Delivery(t, lost)];
      assert one[..|one| - 1] == [] && ApplyAll(hot, []) == hot;
      assert ApplyAll(hot, one) == hot[t.bus := Apply(Find(hot, t.bus), one[0])];
      hot := hot[t.bus := state];
    }
  }
}
