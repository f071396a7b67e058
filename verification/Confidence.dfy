/**
 * The identification confidence (combineConfidence and snoopFactor): a weighted base, multiplicative gates
 * for lag and data-snooping, and the physics screen. The square root and the inverse error function are
 * parameters with the properties the arithmetic relies on.
 */
module Confidence {
  import opened Common
  import opened Reals

  type Fn = real -> real

  /** What is used of math.Erfinv: nondecreasing, and zero at zero. */
  ghost predicate IsErfinv(erfinv: Fn) {
    erfinv(0.0) == 0.0 && forall x, y :: x <= y ==> erfinv(x) <= erfinv(y)
  }

  ghost predicate Maths(sqrt: Fn, erfinv: Fn) {
    IsSqrt(sqrt) && IsErfinv(erfinv)
  }

  datatype Signals = Signals(
    r: Option<real>, r2: Option<real>,
    hasMultiplier: bool, meterKwh: real, monitoredKwh: real,
    floorOk: Option<bool>,
    windowPackets: int, nBuckets: nat, nCandidates: int,
    changePoint: Option<real>, lagPenalty: Option<real>, anchorAgree: Option<real>,
    physics: Option<real>, physicsViolation: bool,
    refCv: Option<real>)

  const W_CORR := 0.45
  const W_R2 := 0.10
  const W_RECON := 0.15
  const W_PKT := 0.10
  const W_FLOOR := 0.10
  const W_CHANGE := 0.10

  // ---- the components --------------------------------------------------------------------------------

  function Corr(s: Signals): real {
    if s.r.Some? then Clamp01(s.r.value) else 0.0
  }

  function R2(s: Signals): real {
    if s.r2.Some? then Clamp01(s.r2.value) else Corr(s) * Corr(s)
  }

  /** Energy reconciliation by the ratio of the meter's energy to the monitored subset's. */
  function ReconOfRatio(ratio: real): real {
    if ratio < 0.5 then Clamp01(ratio / 0.5 * 0.4)
    else if ratio <= 1.0 then 0.7 + 0.3 * ((ratio - 0.5) / 0.5)
    else if ratio <= 20.0 then 1.0
    else if ratio <= 100.0 then 1.0 - 0.5 * ((ratio - 20.0) / 80.0)
    else 0.3
  }

  function Recon(s: Signals): real {
    if s.hasMultiplier && s.monitoredKwh > 0.0 && s.meterKwh > 0.0 then ReconOfRatio(s.meterKwh / s.monitoredKwh)
    else 0.5
  }

  function Packets(s: Signals): real {
    var pkt := MinR(1.0, s.nBuckets as real / 30.0);
    if s.windowPackets > 0 then MinR(pkt, MinR(1.0, s.windowPackets as real / 60.0)) else pkt
  }

  function Floor(s: Signals): real {
    if s.floorOk == Some(false) then 0.4 else 1.0
  }

  function Change(s: Signals): real {
    if s.changePoint.Some? then Clamp01(s.changePoint.value) else 0.5
  }

  /** How much of the correlation's weight stays with it: all, unless the reference is nearly flat. */
  function Keep(s: Signals): real {
    if s.refCv.Some? && s.refCv.value < 0.25 then Clamp01(s.refCv.value / 0.25) else 1.0
  }

  function WeightCorr(s: Signals): real {
    W_CORR * Keep(s)
  }

  function WeightRecon(s: Signals): real {
    W_RECON + (W_CORR - WeightCorr(s))
  }

  function Blend(wc: real, wr: real, corr: real, r2: real, recon: real, pkt: real, floor: real, change: real): real {
    wc * corr + W_R2 * r2 + wr * recon + W_PKT * pkt + W_FLOOR * floor + W_CHANGE * change
  }

  function Weighted(s: Signals): real {
    Blend(WeightCorr(s), WeightRecon(s), Corr(s), R2(s), Recon(s), Packets(s), Floor(s), Change(s))
  }

  function Base(s: Signals): real {
    if s.anchorAgree.Some? then 0.45 * Weighted(s) + 0.55 * Clamp01(s.anchorAgree.value) else Weighted(s)
  }

  function Lag(s: Signals): real {
    if s.lagPenalty.Some? then Clamp01(s.lagPenalty.value) else 1.0
  }

  function Smoothstep(lo: real, hi: real, x: real): real {
    if hi <= lo then
      if x >= hi then 1.0 else 0.0
    else
      var t := Clamp01((x - lo) / (hi - lo));
      t * t * (3.0 - 2.0 * t)
  }

  /** The two-sided critical z for nCandidates tries at five percent. */
  function CriticalZ(nCandidates: int, sqrt: Fn, erfinv: Fn): real {
    var k := if nCandidates < 1 then 1 else nCandidates;
    var p := 0.05 / k as real;
    sqrt(2.0) * erfinv(1.0 - p)
  }

  /** The critical correlation r*, capped. */
  function Critical(nBuckets: nat, nCandidates: int, sqrt: Fn, erfinv: Fn): real
    requires IsSqrt(sqrt) && nBuckets >= 4
  {
    RootGrows(1.0, nBuckets as real, sqrt);
    MinR(CriticalZ(nCandidates, sqrt, erfinv) / sqrt(nBuckets as real), 0.95)
  }

  function Snoop(r: Option<real>, nBuckets: nat, nCandidates: int, sqrt: Fn, erfinv: Fn): real
    requires IsSqrt(sqrt)
  {
    if r.None? || nBuckets < 4 then 1.0
    else
      var rStar := Critical(nBuckets, nCandidates, sqrt, erfinv);
      Smoothstep(0.7 * rStar, 1.3 * rStar, AbsR(r.value))
  }

  function SnoopOf(s: Signals, sqrt: Fn, erfinv: Fn): real
    requires IsSqrt(sqrt)
  {
    Snoop(s.r, s.nBuckets, s.nCandidates, sqrt, erfinv)
  }

  function Scaled(x: real, factor: real): real {
    x * factor
  }

  function Gate(base: real, lag: real, snoop: real): real {
    Clamp01(Scaled(Scaled(base, lag), snoop))
  }

  function Gated(s: Signals, sqrt: Fn, erfinv: Fn): real
    requires IsSqrt(sqrt)
  {
    Gate(Base(s), Lag(s), SnoopOf(s, sqrt, erfinv))
  }

  /** The physics screen: blended in when present, and a hard gate on a violation. */
  function Screened(conf: real, physics: Option<real>, violation: bool): real {
    var blended := if physics.Some? then Clamp01(0.5 * conf + 0.5 * Clamp01(physics.value)) else conf;
    if violation then blended * 0.2 else blended
  }

  function Confidence(s: Signals, sqrt: Fn, erfinv: Fn): real
    requires IsSqrt(sqrt)
  {
    Screened(Gated(s, sqrt, erfinv), s.physics, s.physicsViolation)
  }

  // ---- the square root and the cubic ramp ------------------------------------------------------------

  lemma RootGrows(x: real, y: real, sqrt: Fn)
    requires IsSqrt(sqrt) && 0.0 <= x <= y
    ensures 0.0 <= sqrt(x) <= sqrt(y) && (x > 0.0 ==> sqrt(x) > 0.0)
  {
    var a, b := sqrt(x), sqrt(y);
    assert a >= 0.0 && a * a == x && b >= 0.0 && b * b == y;
    SquareOrder(a, b);
  }

  function Ramp(t: real): real {
    t * t * (3.0 - 2.0 * t)
  }

  lemma RampGrows(a: real, b: real)
    requires 0.0 <= a <= b <= 1.0
    ensures Ramp(a) <= Ramp(b)
  {
    hide Ramp;
    var aa := Product(a, a);
    var bb := Product(b, b);
    var ab := Product(a, b);
    TwiceProduct(a, b, aa, bb, ab);
    ProductShrinks(a, a, aa);
    ProductShrinks(b, b, bb);
    RampDifference(a, b, aa, bb, ab);
    SteepEnough(a, b, aa, bb, ab);
  }

  lemma ProductShrinks(x: real, y: real, p: real)
    requires 0.0 <= x && 0.0 <= y <= 1.0 && p == x * y
    ensures 0.0 <= p <= x
  {
    ScaledLeq(0.0, y, x, 0.0, p);
    ScaledLeq(y, 1.0, x, p, x);
  }

  lemma TwiceProduct(a: real, b: real, aa: real, bb: real, ab: real)
    requires aa == a * a && bb == b * b && ab == a * b
    ensures 2.0 * ab <= aa + bb
  {
    SquareNonneg(a - b);
  }

  lemma SteepEnough(a: real, b: real, aa: real, bb: real, ab: real)
    requires 0.0 <= a <= b && aa <= a && bb <= b && 2.0 * ab <= aa + bb
    ensures (b - a) * (3.0 * (a + b) - 2.0 * (aa + ab + bb)) >= 0.0
  {
    ProductNonneg(b - a, 3.0 * (a + b) - 2.0 * (aa + ab + bb));
  }

  lemma RampDifference(a: real, b: real, aa: real, bb: real, ab: real)
    requires aa == a * a && bb == b * b && ab == a * b
    ensures Ramp(b) - Ramp(a) == (b - a) * (3.0 * (a + b) - 2.0 * (aa + ab + bb))
  {
    assert (b - a) * (aa + ab + bb) == b * bb - a * aa by {
      assert b * (aa + ab + bb) == b * aa + b * ab + b * bb;
      assert a * (aa + ab + bb) == a * aa + a * ab + a * bb;
      assert b * aa == a * ab && b * ab == a * bb;
    }
    assert (b - a) * (a + b) == bb - aa;
    assert Ramp(a) == 3.0 * aa - 2.0 * (a * aa);
    assert Ramp(b) == 3.0 * bb - 2.0 * (b * bb);
  }

  /** The ramp runs from 0 to 1 and reaches them only at its ends. */
  lemma RampEnds(t: real)
    requires 0.0 <= t <= 1.0
    ensures 0.0 <= Ramp(t) <= 1.0
    ensures Ramp(t) == 0.0 <==> t == 0.0
    ensures Ramp(t) == 1.0 <==> t == 1.0
  {
    RampGrows(0.0, t);
    RampGrows(t, 1.0);
    if t > 0.0 {
      PosFactor(t, t);
      PosFactor(t, t * (3.0 - 2.0 * t));
      PosFactor(t, 3.0 - 2.0 * t);
      assert t * (t * (3.0 - 2.0 * t)) == Ramp(t);
    }
    if t < 1.0 {
      RampBelowOne(t);
    }
  }

  lemma RampBelowOne(t: real)
    requires 0.0 <= t < 1.0
    ensures Ramp(t) < 1.0
  {
    hide Ramp;
    var tt := Product(t, t);
    ProductShrinks(t, t, tt);
    RampDifference(t, 1.0, tt, 1.0, t);
    RampAtOne();
    var e := PositiveProduct(1.0 - t, 3.0 * (t + 1.0) - 2.0 * (tt + 1.0 + t));
  }

  lemma PositiveProduct(x: real, y: real) returns (p: real)
    requires x > 0.0 && y > 0.0
    ensures p == x * y && p > 0.0
  {
    p := x * y;
  }

  lemma RampAtOne()
    ensures Ramp(1.0) == 1.0
  {
  }

  // ---- the snooping factor ---------------------------------------------------------------------------

  /** Where x lies between the ends of the ramp. */
  function Position(rStar: real, x: real): real
    requires rStar > 0.0
  {
    (x - 0.7 * rStar) / (1.3 * rStar - 0.7 * rStar)
  }

  lemma PositionIs(rStar: real, x: real)
    requires rStar > 0.0
    ensures Position(rStar, x) == x / (0.6 * rStar) - 7.0 / 6.0
  {
    var d := 0.6 * rStar;
    var y := x / d;
    assert y * d == x;
    Distribute(d, y, -7.0 / 6.0);
    Quotient(x - 0.7 * rStar, d, y - 7.0 / 6.0);
  }

  lemma QuotientOrder(x: real, y: real, d: real, e: real)
    requires 0.0 <= x <= y && 0.0 < d <= e
    ensures 0.0 <= x / e <= y / d
  {
    var p, q := x / e, y / d;
    assert p * e == x && q * d == y;
    PosFactor(e, p);
    ScaleLeq(d, e, p);
    PosFactor(d, p - q);
    Distribute(d, p - q, q);
  }

  /** A larger correlation, or a lower critical value, is further up the ramp. */
  lemma PositionOrder(rStar: real, higher: real, x: real, y: real)
    requires 0.0 < rStar <= higher && 0.0 <= x <= y
    ensures Position(higher, x) <= Position(rStar, y)
  {
    PositionIs(rStar, y);
    PositionIs(higher, x);
    QuotientOrder(x, y, 0.6 * rStar, 0.6 * higher);
  }

  function Level(rStar: real, x: real): real {
    Smoothstep(0.7 * rStar, 1.3 * rStar, x)
  }

  lemma LevelIs(rStar: real, x: real)
    requires rStar > 0.0
    ensures Level(rStar, x) == Ramp(Clamp01(Position(rStar, x)))
  {
  }

  lemma LevelOrder(rStar: real, higher: real, x: real, y: real)
    requires 0.0 <= rStar <= higher && 0.0 <= x <= y
    ensures 0.0 <= Level(higher, x) <= Level(rStar, y) <= 1.0
  {
    hide Ramp, Position;
    if rStar > 0.0 {
      LevelIs(rStar, y);
      RampEnds(Clamp01(Position(rStar, y)));
      if higher > 0.0 {
        LevelIs(higher, x);
        PositionOrder(rStar, higher, x, y);
        RampEnds(Clamp01(Position(higher, x)));
        RampGrows(Clamp01(Position(higher, x)), Clamp01(Position(rStar, y)));
      }
    } else if higher > 0.0 {
      LevelIs(higher, x);
      RampEnds(Clamp01(Position(higher, x)));
    }
  }

  lemma PositionEnds(rStar: real, x: real, t: real)
    requires rStar > 0.0 && t == Position(rStar, x)
    ensures (t <= 0.0 <==> x <= 0.7 * rStar) && (t < 1.0 <==> x < 1.3 * rStar)
  {
    var d, e := 1.3 * rStar - 0.7 * rStar, x - 0.7 * rStar;
    DividesBack(e, d, t);
    RatioBelow(t, d, 0.0, e);
    RatioBelow(t, d, 1.0, e);
  }

  lemma DividesBack(e: real, d: real, t: real)
    requires d > 0.0 && t == e / d
    ensures e == t * d
  {
  }

  /** The factor is zero exactly up to 0.7 r*, and one exactly from 1.3 r* on. */
  lemma LevelEnds(rStar: real, x: real)
    requires rStar > 0.0
    ensures Level(rStar, x) == 0.0 <==> x <= 0.7 * rStar
    ensures Level(rStar, x) == 1.0 <==> x >= 1.3 * rStar
  {
    hide Ramp, Position, Level;
    var t := Position(rStar, x);
    PositionEnds(rStar, x, t);
    LevelIs(rStar, x);
    RampEnds(Clamp01(t));
  }

  /** The critical z is nonnegative and grows with the number of candidates. */
  lemma CriticalZGrows(m: int, n: int, sqrt: Fn, erfinv: Fn)
    requires Maths(sqrt, erfinv) && m <= n
    ensures 0.0 <= CriticalZ(m, sqrt, erfinv) <= CriticalZ(n, sqrt, erfinv)
  {
    RootGrows(0.0, 2.0, sqrt);
    var j, k := if m < 1 then 1 else m, if n < 1 then 1 else n;
    var a, b := 1.0 - 0.05 / j as real, 1.0 - 0.05 / k as real;
    OneSided(j as real, k as real, a, b);
    ErfinvOrder(a, b, erfinv);
    ScaledLeq(0.0, erfinv(a), sqrt(2.0), 0.0, CriticalZ(m, sqrt, erfinv));
    ScaledLeq(erfinv(a), erfinv(b), sqrt(2.0), CriticalZ(m, sqrt, erfinv), CriticalZ(n, sqrt, erfinv));
  }

  lemma OneSided(j: real, k: real, a: real, b: real)
    requires 1.0 <= j <= k && a == 1.0 - 0.05 / j && b == 1.0 - 0.05 / k
    ensures 0.0 <= a <= b
  {
    QuotientOrder(0.05, 0.05, j, k);
    QuotientOrder(0.05, 0.05, 1.0, j);
  }

  lemma ErfinvOrder(a: real, b: real, erfinv: Fn)
    requires IsErfinv(erfinv) && 0.0 <= a <= b
    ensures 0.0 <= erfinv(a) <= erfinv(b)
  {
    assert erfinv(0.0) <= erfinv(a) <= erfinv(b);
  }

  /** r* stays in [0, 0.95], grows with the candidates and falls with the buckets. */
  lemma CriticalOrder(few: int, many: int, long: nat, short: nat, sqrt: Fn, erfinv: Fn)
    requires Maths(sqrt, erfinv) && few <= many && 4 <= short <= long
    ensures 0.0 <= Critical(long, few, sqrt, erfinv) <= Critical(short, many, sqrt, erfinv) <= 0.95
  {
    CriticalZGrows(few, many, sqrt, erfinv);
    RootGrows(1.0, short as real, sqrt);
    RootGrows(short as real, long as real, sqrt);
    QuotientOrder(CriticalZ(few, sqrt, erfinv), CriticalZ(many, sqrt, erfinv), sqrt(short as real), sqrt(long as real));
  }

  /** More evidence (a stronger correlation, fewer candidates, more buckets) never lowers the factor. */
  lemma SnoopOrder(weak: real, strong: real, few: int, many: int, long: nat, short: nat, sqrt: Fn, erfinv: Fn)
    requires Maths(sqrt, erfinv) && AbsR(weak) <= AbsR(strong) && few <= many
    requires short == long || 4 <= short <= long
    ensures 0.0 <= Snoop(Some(weak), short, many, sqrt, erfinv)
                <= Snoop(Some(strong), long, few, sqrt, erfinv) <= 1.0
  {
    hide Critical, Smoothstep;
    if short >= 4 {
      CriticalOrder(few, many, long, short, sqrt, erfinv);
      LevelOrder(Critical(long, few, sqrt, erfinv), Critical(short, many, sqrt, erfinv), AbsR(weak), AbsR(strong));
    }
  }

  // ---- the weighted base -----------------------------------------------------------------------------

  lemma UnitSquare(x: real)
    requires 0.0 <= x <= 1.0
    ensures 0.0 <= x * x <= 1.0
  {
    var xx := Product(x, x);
    ProductShrinks(x, x, xx);
  }

  lemma ReconRange(ratio: real)
    requires ratio > 0.0
    ensures 0.0 < ReconOfRatio(ratio) <= 1.0
  {
  }

  /** Reconciliation only rises until the meter reads twenty times the subset, and only falls from one times on. */
  lemma ReconIsUnimodal(a: real, b: real)
    requires a <= b
    ensures b <= 20.0 ==> ReconOfRatio(a) <= ReconOfRatio(b)
    ensures 1.0 <= a ==> ReconOfRatio(a) >= ReconOfRatio(b)
  {
  }

  lemma ComponentsInRange(s: Signals)
    ensures 0.0 <= Corr(s) <= 1.0 && 0.0 <= R2(s) <= 1.0 && 0.0 <= Recon(s) <= 1.0
    ensures 0.0 <= Packets(s) <= 1.0 && 0.4 <= Floor(s) <= 1.0 && 0.0 <= Change(s) <= 1.0
  {
    UnitSquare(Corr(s));
    if s.hasMultiplier && s.monitoredKwh > 0.0 && s.meterKwh > 0.0 {
      QuotientOrder(s.meterKwh, s.meterKwh, s.monitoredKwh, s.monitoredKwh);
      var ratio := s.meterKwh / s.monitoredKwh;
      assert ratio * s.monitoredKwh == s.meterKwh;
      PosFactor(s.monitoredKwh, ratio);
      ReconRange(ratio);
    }
  }

  /** A flat reference moves weight from the correlation to the reconciliation and loses none. */
  lemma WeightsSumToOne(s: Signals)
    ensures 0.0 <= WeightCorr(s) <= W_CORR && WeightRecon(s) >= W_RECON
    ensures WeightCorr(s) + W_R2 + WeightRecon(s) + W_PKT + W_FLOOR + W_CHANGE == 1.0
  {
    assert 0.0 <= Keep(s) <= 1.0;
  }

  /** A weighted component, between the same weight of the bounds. */
  lemma Share(w: real, x: real, lo: real, hi: real) returns (p: real, low: real, high: real)
    requires w >= 0.0 && lo <= x <= hi
    ensures p == w * x && low == w * lo && high == w * hi && low <= p <= high
  {
    p, low, high := w * x, w * lo, w * hi;
    ScaleLeq(lo, x, w);
    ScaleLeq(x, hi, w);
  }

  lemma SplitWeight(w: real, v: real, x: real)
    requires w + v == 0.60
    ensures w * x + v * x == 0.60 * x
  {
    Distribute(x, w, v);
  }

  /** The base, with its two products of unknowns under names of their own. */
  lemma WeightedIs(s: Signals) returns (p: real, q: real)
    ensures p == WeightCorr(s) * Corr(s) && q == WeightRecon(s) * Recon(s)
    ensures Weighted(s) == p + 0.10 * R2(s) + q + 0.10 * Packets(s) + 0.10 * Floor(s) + 0.10 * Change(s)
  {
    p, q := WeightCorr(s) * Corr(s), WeightRecon(s) * Recon(s);
  }

  /** The base is a convex combination: it lies between any bounds its six components share. */
  lemma BaseIsConvex(s: Signals, lo: real, hi: real)
    requires lo <= Corr(s) <= hi && lo <= R2(s) <= hi && lo <= Recon(s) <= hi
    requires lo <= Packets(s) <= hi && lo <= Floor(s) <= hi && lo <= Change(s) <= hi
    ensures lo <= Weighted(s) <= hi
  {
    hide Corr, R2, Recon, Packets, Floor, Change, WeightCorr, WeightRecon;
    WeightsSumToOne(s);
    var w, v := WeightCorr(s), WeightRecon(s);
    var p, pl, ph := Share(w, Corr(s), lo, hi);
    var q, ql, qh := Share(v, Recon(s), lo, hi);
    SplitWeight(w, v, lo);
    SplitWeight(w, v, hi);
    assert 0.60 * lo <= p + q <= 0.60 * hi;
    assert Weighted(s) == p + 0.10 * R2(s) + q + 0.10 * Packets(s) + 0.10 * Floor(s) + 0.10 * Change(s);
  }

  /** The base stays in [0, 1], and the floor component keeps it above zero. */
  lemma BaseInRange(s: Signals)
    ensures 0.0 < Base(s) <= 1.0
  {
    hide Corr, R2, Recon, Packets, Floor, Change, WeightCorr, WeightRecon, Weighted;
    ComponentsInRange(s);
    BaseIsConvex(s, 0.0, 1.0);
    WeightsSumToOne(s);
    ProductNonneg(WeightCorr(s), Corr(s));
    ProductNonneg(WeightRecon(s), Recon(s));
    var p, q := WeightedIs(s);
    assert p >= 0.0;
    assert q >= 0.0;
    assert 0.0 < Weighted(s) <= 1.0;
  }

  lemma ScaledInUnit(x: real, f: real)
    requires 0.0 <= x <= 1.0 && 0.0 <= f <= 1.0
    ensures 0.0 <= Scaled(x, f) <= 1.0
  {
    var p := Product(x, f);
    ProductShrinks(x, f, p);
  }

  lemma SnoopInUnit(s: Signals, sqrt: Fn, erfinv: Fn)
    requires Maths(sqrt, erfinv)
    ensures 0.0 <= SnoopOf(s, sqrt, erfinv) <= 1.0
  {
    if s.r.Some? {
      SnoopOrder(s.r.value, s.r.value, s.nCandidates, s.nCandidates, s.nBuckets, s.nBuckets, sqrt, erfinv);
    }
  }

  // ---- the confidence --------------------------------------------------------------------------------

  /**
   * The confidence is always in [0, 1], at most 0.2 on a physics violation, and the clamp before the
   * physics screen never acts.
   */
  lemma ConfidenceInRange(s: Signals, sqrt: Fn, erfinv: Fn)
    requires Maths(sqrt, erfinv)
    ensures 0.0 <= Confidence(s, sqrt, erfinv) <= 1.0
    ensures s.physicsViolation ==> Confidence(s, sqrt, erfinv) <= 0.2
    ensures Gated(s, sqrt, erfinv) == Scaled(Scaled(Base(s), Lag(s)), SnoopOf(s, sqrt, erfinv))
  {
    hide Base, SnoopOf, Scaled;
    BaseInRange(s);
    SnoopInUnit(s, sqrt, erfinv);
    ScaledInUnit(Base(s), Lag(s));
    ScaledInUnit(Scaled(Base(s), Lag(s)), SnoopOf(s, sqrt, erfinv));
  }

  lemma GatedInUnit(s: Signals, sqrt: Fn, erfinv: Fn)
    requires IsSqrt(sqrt)
    ensures 0.0 <= Gated(s, sqrt, erfinv) <= 1.0
  {
  }

  lemma ClampOrder(x: real, y: real)
    requires x <= y
    ensures Clamp01(x) <= Clamp01(y)
  {
  }

  lemma GateOrder(b: real, c: real, lag: real, low: real, high: real)
    requires 0.0 <= b <= c && 0.0 <= lag && 0.0 <= low <= high
    ensures Gate(b, lag, low) <= Gate(c, lag, high)
  {
    hide Scaled, Clamp01;
    ScaledOrder(b, c, lag, lag);
    ScaledOrder(Scaled(b, lag), Scaled(c, lag), low, high);
    ClampOrder(Scaled(Scaled(b, lag), low), Scaled(Scaled(c, lag), high));
  }

  lemma ScaledOrder(x: real, y: real, f: real, g: real)
    requires 0.0 <= x <= y && 0.0 <= f <= g
    ensures 0.0 <= Scaled(x, f) <= Scaled(y, g)
  {
    var p := Product(x, f);
    var q := Product(y, f);
    var r := Product(y, g);
    ScaledLeq(0.0, x, f, 0.0, p);
    ScaledLeq(x, y, f, p, q);
    ScaledLeq(f, g, y, q, r);
  }

  lemma ScreenOrder(low: real, high: real, physics: Option<real>, violation: bool)
    requires low <= high
    ensures Screened(low, physics, violation) <= Screened(high, physics, violation)
  {
  }

  /** With the rest alike, a higher base and a higher snooping factor never lower the confidence. */
  lemma ConfidenceOrder(s: Signals, t: Signals, sqrt: Fn, erfinv: Fn)
    requires Maths(sqrt, erfinv)
    requires Base(s) <= Base(t) && SnoopOf(s, sqrt, erfinv) <= SnoopOf(t, sqrt, erfinv)
    requires Lag(s) == Lag(t) && s.physics == t.physics && s.physicsViolation == t.physicsViolation
    ensures Confidence(s, sqrt, erfinv) <= Confidence(t, sqrt, erfinv)
  {
    hide Base, SnoopOf, Screened, Gate;
    BaseInRange(s);
    SnoopInUnit(s, sqrt, erfinv);
    GateOrder(Base(s), Base(t), Lag(s), SnoopOf(s, sqrt, erfinv), SnoopOf(t, sqrt, erfinv));
    ScreenOrder(Gated(s, sqrt, erfinv), Gated(t, sqrt, erfinv), s.physics, s.physicsViolation);
  }

  lemma SquareOrdered(x: real, y: real)
    requires 0.0 <= x <= y
    ensures x * x <= y * y
  {
    ScaleLeq(x, y, x);
    ScaleLeq(x, y, y);
  }

  lemma BaseGrowsWithR(s: Signals, r: real, higher: real)
    requires r <= higher
    ensures Base(s.(r := Some(r))) <= Base(s.(r := Some(higher)))
  {
    var a, b := s.(r := Some(r)), s.(r := Some(higher));
    ClampOrder(r, higher);
    SquareOrdered(Corr(a), Corr(b));
    WeightsSumToOne(s);
    assert WeightCorr(a) == WeightCorr(b) == WeightCorr(s);
    BaseFollows(a, b);
  }

  /** Signals that differ only in their correlation parts and packet adequacy. */
  lemma BaseFollows(a: Signals, b: Signals)
    requires Corr(a) <= Corr(b) && R2(a) <= R2(b) && Packets(a) <= Packets(b)
    requires WeightCorr(a) == WeightCorr(b)
    requires Recon(a) == Recon(b) && Floor(a) == Floor(b) && Change(a) == Change(b) && a.anchorAgree == b.anchorAgree
    ensures Base(a) <= Base(b)
  {
    hide Corr, R2, Recon, Packets, Floor, Change, WeightCorr, Weighted;
    WeightsSumToOne(a);
    ScaleLeq(Corr(a), Corr(b), WeightCorr(a));
    assert WeightRecon(a) == WeightRecon(b);
    var p, q := WeightedIs(a);
    var u, v := WeightedIs(b);
    assert p <= u && q == v;
    assert Weighted(a) <= Weighted(b);
  }

  /** A stronger nonnegative correlation never lowers the confidence. */
  lemma NondecreasingInR(s: Signals, r: real, higher: real, sqrt: Fn, erfinv: Fn)
    requires Maths(sqrt, erfinv) && 0.0 <= r <= higher
    ensures Confidence(s.(r := Some(r)), sqrt, erfinv) <= Confidence(s.(r := Some(higher)), sqrt, erfinv)
  {
    hide Base, Snoop;
    BaseGrowsWithR(s, r, higher);
    SnoopOrder(r, higher, s.nCandidates, s.nCandidates, s.nBuckets, s.nBuckets, sqrt, erfinv);
    ConfidenceOrder(s.(r := Some(r)), s.(r := Some(higher)), sqrt, erfinv);
  }

  /** More candidates never raise it. */
  lemma NonincreasingInCandidates(s: Signals, few: int, many: int, sqrt: Fn, erfinv: Fn)
    requires Maths(sqrt, erfinv) && few <= many
    ensures Confidence(s.(nCandidates := many), sqrt, erfinv) <= Confidence(s.(nCandidates := few), sqrt, erfinv)
  {
    var a, b := s.(nCandidates := many), s.(nCandidates := few);
    BaseFollows(a, b);
    BaseFollows(b, a);
    hide Base, Snoop;
    if s.r.Some? {
      SnoopOrder(s.r.value, s.r.value, few, many, s.nBuckets, s.nBuckets, sqrt, erfinv);
    } else {
      NoCorrelationNoSnoop(s.nBuckets, many, sqrt, erfinv);
      NoCorrelationNoSnoop(s.nBuckets, few, sqrt, erfinv);
    }
    ConfidenceOrder(a, b, sqrt, erfinv);
  }

  lemma NoCorrelationNoSnoop(nBuckets: nat, nCandidates: int, sqrt: Fn, erfinv: Fn)
    requires IsSqrt(sqrt)
    ensures Snoop(None, nBuckets, nCandidates, sqrt, erfinv) == 1.0
  {
  }

  /** From four buckets on, more buckets never lower it. */
  lemma NondecreasingInBuckets(s: Signals, short: nat, long: nat, sqrt: Fn, erfinv: Fn)
    requires Maths(sqrt, erfinv) && 4 <= short <= long
    ensures Confidence(s.(nBuckets := short), sqrt, erfinv) <= Confidence(s.(nBuckets := long), sqrt, erfinv)
  {
    var a, b := s.(nBuckets := short), s.(nBuckets := long);
    BaseFollows(a, b);
    hide Base, Snoop;
    if s.r.Some? {
      SnoopOrder(s.r.value, s.r.value, s.nCandidates, s.nCandidates, long, short, sqrt, erfinv);
    } else {
      NoCorrelationNoSnoop(short, s.nCandidates, sqrt, erfinv);
      NoCorrelationNoSnoop(long, s.nCandidates, sqrt, erfinv);
    }
    ConfidenceOrder(a, b, sqrt, erfinv);
  }

  /** Below zero it is the other way round: a stronger anticorrelation never lowers the confidence. */
  lemma NonincreasingOnNegativeR(s: Signals, r: real, higher: real, sqrt: Fn, erfinv: Fn)
    requires Maths(sqrt, erfinv) && r <= higher <= 0.0
    ensures Confidence(s.(r := Some(r)), sqrt, erfinv) >= Confidence(s.(r := Some(higher)), sqrt, erfinv)
  {
    var a, b := s.(r := Some(r)), s.(r := Some(higher));
    BaseFollows(b, a);
    hide Base, Snoop;
    SnoopOrder(higher, r, s.nCandidates, s.nCandidates, s.nBuckets, s.nBuckets, sqrt, erfinv);
    ConfidenceOrder(b, a, sqrt, erfinv);
  }

  /** A meter with no correlation at all scores at least as high as one with any nonpositive correlation. */
  lemma NoCorrelationOutranksAntiCorrelation(s: Signals, r: real, sqrt: Fn, erfinv: Fn)
    requires Maths(sqrt, erfinv) && r <= 0.0
    ensures Confidence(s.(r := None), sqrt, erfinv) >= Confidence(s.(r := Some(r)), sqrt, erfinv)
  {
    var a, b := s.(r := Some(r)), s.(r := None);
    BaseFollows(a, b);
    hide Base, Snoop;
    NoCorrelationNoSnoop(s.nBuckets, s.nCandidates, sqrt, erfinv);
    SnoopInUnit(a, sqrt, erfinv);
    ConfidenceOrder(a, b, sqrt, erfinv);
  }

  /** The snooping factor never acts: too few buckets, a closed lag gate, or a critical correlation of zero. */
  predicate SnoopIsIdle(s: Signals, sqrt: Fn, erfinv: Fn)
    requires IsSqrt(sqrt)
  {
    s.nBuckets < 4 || Lag(s) == 0.0 || Critical(s.nBuckets, s.nCandidates, sqrt, erfinv) == 0.0
  }

  lemma ZeroCriticalSnoop(r: real, nBuckets: nat, nCandidates: int, sqrt: Fn, erfinv: Fn)
    requires IsSqrt(sqrt)
    requires nBuckets < 4 || Critical(nBuckets, nCandidates, sqrt, erfinv) == 0.0
    ensures Snoop(Some(r), nBuckets, nCandidates, sqrt, erfinv) == 1.0
  {
  }

  lemma ClosedLagGate(s: Signals, sqrt: Fn, erfinv: Fn)
    requires IsSqrt(sqrt) && Lag(s) == 0.0
    ensures Gated(s, sqrt, erfinv) == 0.0
  {
    hide Base, SnoopOf, Scaled;
    ScaledByZero(Base(s));
    ScaledByZero(SnoopOf(s, sqrt, erfinv));
  }

  lemma IdleSnoopIsMonotone(s: Signals, r: real, higher: real, sqrt: Fn, erfinv: Fn)
    requires Maths(sqrt, erfinv) && SnoopIsIdle(s, sqrt, erfinv) && r <= higher
    ensures Confidence(s.(r := Some(r)), sqrt, erfinv) <= Confidence(s.(r := Some(higher)), sqrt, erfinv)
  {
    var a, b := s.(r := Some(r)), s.(r := Some(higher));
    hide Base, Snoop, Critical, Gated;
    if Lag(s) == 0.0 {
      ClosedLagGate(a, sqrt, erfinv);
      ClosedLagGate(b, sqrt, erfinv);
    } else {
      BaseGrowsWithR(s, r, higher);
      ZeroCriticalSnoop(r, s.nBuckets, s.nCandidates, sqrt, erfinv);
      ZeroCriticalSnoop(higher, s.nBuckets, s.nCandidates, sqrt, erfinv);
      ConfidenceOrder(a, b, sqrt, erfinv);
    }
  }

  /** The factor over the whole range of |r|, when the critical correlation is positive. */
  lemma SnoopEnds(r: real, nBuckets: nat, nCandidates: int, sqrt: Fn, erfinv: Fn)
    requires Maths(sqrt, erfinv) && nBuckets >= 4 && Critical(nBuckets, nCandidates, sqrt, erfinv) > 0.0
    ensures var rStar := Critical(nBuckets, nCandidates, sqrt, erfinv);
      var f := Snoop(Some(r), nBuckets, nCandidates, sqrt, erfinv);
      (f == 0.0 <==> AbsR(r) <= 0.7 * rStar) && (f == 1.0 <==> AbsR(r) >= 1.3 * rStar) && 0.0 <= f <= 1.0
  {
    hide Critical, Smoothstep;
    LevelEnds(Critical(nBuckets, nCandidates, sqrt, erfinv), AbsR(r));
    SnoopOrder(r, r, nCandidates, nCandidates, nBuckets, nBuckets, sqrt, erfinv);
  }

  lemma StrictScreen(low: real, high: real, physics: Option<real>, violation: bool)
    requires 0.0 <= low < high <= 1.0
    ensures Screened(low, physics, violation) < Screened(high, physics, violation)
  {
  }

  lemma OpenGate(base: real, lag: real, snoop: real)
    requires base > 0.0 && lag > 0.0 && snoop > 0.0
    ensures Gate(base, lag, snoop) > 0.0
  {
    hide Scaled;
    ScaledPositive(base, lag);
    ScaledPositive(Scaled(base, lag), snoop);
  }

  lemma ScaledPositive(x: real, f: real)
    requires x > 0.0 && f > 0.0
    ensures Scaled(x, f) > 0.0
  {
    var p := PositiveProduct(x, f);
  }

  lemma AntiCorrelationBeatsNone(s: Signals, sqrt: Fn, erfinv: Fn)
    requires Maths(sqrt, erfinv) && !SnoopIsIdle(s, sqrt, erfinv)
    ensures Confidence(s.(r := Some(-1.0)), sqrt, erfinv) > Confidence(s.(r := Some(0.0)), sqrt, erfinv)
  {
    hide Base, Snoop, Critical, Gate, Screened;
    var a, b := s.(r := Some(-1.0)), s.(r := Some(0.0));
    CriticalOrder(s.nCandidates, s.nCandidates, s.nBuckets, s.nBuckets, sqrt, erfinv);
    SnoopEnds(-1.0, s.nBuckets, s.nCandidates, sqrt, erfinv);
    SnoopEnds(0.0, s.nBuckets, s.nCandidates, sqrt, erfinv);
    BaseInRange(a);
    OpenGate(Base(a), Lag(a), SnoopOf(a, sqrt, erfinv));
    ShutGate(Base(b), Lag(b));
    GateInUnit(Base(a), Lag(a), SnoopOf(a, sqrt, erfinv));
    StrictScreen(Gated(b, sqrt, erfinv), Gated(a, sqrt, erfinv), s.physics, s.physicsViolation);
  }

  lemma ShutGate(base: real, lag: real)
    ensures Gate(base, lag, 0.0) == 0.0
  {
    ScaledByZero(Scaled(base, lag));
  }

  lemma ScaledByZero(x: real)
    ensures Scaled(x, 0.0) == 0.0 && Scaled(0.0, x) == 0.0
  {
  }

  lemma GateInUnit(base: real, lag: real, snoop: real)
    ensures 0.0 <= Gate(base, lag, snoop) <= 1.0
  {
  }

  /**
   * The confidence is monotone in the correlation over all values, negative ones included, exactly when
   * the snooping factor never acts: the factor looks at |r|, so otherwise a perfect anticorrelation
   * scores above no correlation.
   */
  lemma MonotoneInAllOfRIff(s: Signals, sqrt: Fn, erfinv: Fn)
    requires Maths(sqrt, erfinv)
    ensures (forall x, y :: x <= y ==>
        Confidence(s.(r := Some(x)), sqrt, erfinv) <= Confidence(s.(r := Some(y)), sqrt, erfinv))
      <==> SnoopIsIdle(s, sqrt, erfinv)
  {
    hide Confidence, SnoopIsIdle;
    if SnoopIsIdle(s, sqrt, erfinv) {
      forall x, y | x <= y
        ensures Confidence(s.(r := Some(x)), sqrt, erfinv) <= Confidence(s.(r := Some(y)), sqrt, erfinv)
      {
        IdleSnoopIsMonotone(s, x, y, sqrt, erfinv);
      }
    } else {
      AntiCorrelationBeatsNone(s, sqrt, erfinv);
    }
  }

  // ---- what each signal is worth ---------------------------------------------------------------------

  predicate InUnit(x: real) {
    0.0 <= x <= 1.0
  }

  /** Signals with no anchor and a reference that is not nearly flat. */
  predicate Plain(s: Signals) {
    s.anchorAgree.None? && (s.refCv.None? || s.refCv.value >= 0.25)
  }

  /** What the components of a plain base are, said from the signals: the six weights, a hundredth at a time. */
  lemma BaseInHundredths(s: Signals, corr: real, r2: real, recon: real, pkt: real, floor: real, change: real)
    requires Plain(s) && InUnit(corr) && InUnit(r2) && InUnit(change)
    requires s.r == Some(corr) && s.r2 == Some(r2) && s.changePoint == Some(change)
    requires recon == Recon(s) && pkt == Packets(s) && floor == Floor(s)
    ensures 100.0 * Base(s) == 45.0 * corr + 10.0 * r2 + 15.0 * recon + 10.0 * pkt + 10.0 * floor + 10.0 * change
  {
    hide Recon, Packets, Floor;
  }

  lemma EqualBase(a: Signals, b: Signals)
    requires Corr(a) == Corr(b) && R2(a) == R2(b) && Packets(a) == Packets(b) && WeightCorr(a) == WeightCorr(b)
    requires Recon(a) == Recon(b) && Floor(a) == Floor(b) && Change(a) == Change(b) && a.anchorAgree == b.anchorAgree
    ensures Base(a) == Base(b)
  {
    hide Corr, R2, Recon, Packets, Floor, Change, WeightCorr;
    BaseFollows(a, b);
    BaseFollows(b, a);
  }

  /** The signals the base is made of. */
  predicate SameEvidence(a: Signals, b: Signals) {
    a.r == b.r && a.r2 == b.r2 && a.hasMultiplier == b.hasMultiplier && a.meterKwh == b.meterKwh &&
    a.monitoredKwh == b.monitoredKwh && a.floorOk == b.floorOk && a.windowPackets == b.windowPackets &&
    a.nBuckets == b.nBuckets && a.changePoint == b.changePoint && a.refCv == b.refCv
  }

  lemma EvidenceDecides(a: Signals, b: Signals)
    requires SameEvidence(a, b)
    ensures Weighted(a) == Weighted(b) && (a.anchorAgree == b.anchorAgree ==> Base(a) == Base(b))
  {
    hide Blend, Clamp01, ReconOfRatio;
  }

  /** Without its signal the correlation counts nothing, and the change point one half. */
  lemma MissingSignals(s: Signals)
    ensures s.r.None? ==> Base(s) == Base(s.(r := Some(0.0)))
    ensures s.changePoint.None? ==> Base(s) == Base(s.(changePoint := Some(0.5)))
  {
    hide Base, ReconOfRatio;
    if s.r.None? {
      EqualBase(s, s.(r := Some(0.0)));
    }
    if s.changePoint.None? {
      EqualBase(s, s.(changePoint := Some(0.5)));
    }
  }

  /** Without its own signal r^2 is the square of the correlation. */
  lemma MissingR2(s: Signals, x: real, p: real)
    requires s.r == Some(x) && InUnit(x) && s.r2.None? && p == x * x
    ensures Base(s) == Base(s.(r2 := Some(p)))
  {
    hide Base, ReconOfRatio;
    ProductShrinks(x, x, p);
    EqualBase(s, s.(r2 := Some(p)));
  }

  /** Beyond [0, 1] a signal counts as its nearer end. */
  lemma OutsideSignals(s: Signals, x: real, end: real)
    requires (x >= 1.0 && end == 1.0) || (x <= 0.0 && end == 0.0)
    ensures Base(s.(r := Some(x))) == Base(s.(r := Some(end)))
    ensures Base(s.(r2 := Some(x))) == Base(s.(r2 := Some(end)))
    ensures Base(s.(changePoint := Some(x))) == Base(s.(changePoint := Some(end)))
    ensures Base(s.(anchorAgree := Some(x))) == Base(s.(anchorAgree := Some(end)))
  {
    OutsideR(s, x, end);
    OutsideR2(s, x, end);
    OutsideChange(s, x, end);
    OutsideAnchor(s, x, end);
  }

  lemma OutsideR(s: Signals, x: real, end: real)
    requires Clamp01(x) == Clamp01(end)
    ensures Base(s.(r := Some(x))) == Base(s.(r := Some(end)))
  {
    hide Base, ReconOfRatio, Clamp01;
    EqualBase(s.(r := Some(x)), s.(r := Some(end)));
  }

  lemma OutsideR2(s: Signals, x: real, end: real)
    requires Clamp01(x) == Clamp01(end)
    ensures Base(s.(r2 := Some(x))) == Base(s.(r2 := Some(end)))
  {
    hide Base, ReconOfRatio, Clamp01;
    EqualBase(s.(r2 := Some(x)), s.(r2 := Some(end)));
  }

  lemma OutsideChange(s: Signals, x: real, end: real)
    requires Clamp01(x) == Clamp01(end)
    ensures Base(s.(changePoint := Some(x))) == Base(s.(changePoint := Some(end)))
  {
    hide Base, ReconOfRatio, Clamp01;
    EqualBase(s.(changePoint := Some(x)), s.(changePoint := Some(end)));
  }

  lemma OutsideAnchor(s: Signals, x: real, end: real)
    requires Clamp01(x) == Clamp01(end)
    ensures Base(s.(anchorAgree := Some(x))) == Base(s.(anchorAgree := Some(end)))
  {
    hide Weighted, Clamp01;
    EvidenceDecides(s.(anchorAgree := Some(x)), s.(anchorAgree := Some(end)));
  }

  /** A meter known to be below the floor has four tenths of the floor's marks, any other all of them. */
  lemma FloorMarks(s: Signals)
    ensures Floor(s.(floorOk := Some(false))) == 0.4
    ensures Floor(s.(floorOk := Some(true))) == 1.0 == Floor(s.(floorOk := None))
  {
  }

  /** Packet adequacy is the scarcer of buckets out of thirty and, where packets were counted, packets out of sixty. */
  lemma PacketMarks(s: Signals)
    ensures s.windowPackets <= 0 ==> 30.0 * Packets(s) == if s.nBuckets < 30 then s.nBuckets as real else 30.0
    ensures s.windowPackets > 0 ==>
      60.0 * Packets(s) == Min(60, Min(2 * s.nBuckets, s.windowPackets)) as real
  {
  }

  /** A reference whose variation c is under a quarter leaves the correlation 4c of its weight; reconciliation gets the rest. */
  lemma FlatReference(s: Signals, c: real)
    requires s.refCv == Some(c) && 0.0 <= c < 0.25
    ensures WeightCorr(s) == 1.8 * c && WeightRecon(s) == 0.60 - 1.8 * c
  {
  }

  lemma FlatReferenceMoves(s: Signals, c: real, p: real, q: real)
    requires s.anchorAgree.None? && s.refCv == Some(c) && 0.0 <= c < 0.25
    requires p == c * Corr(s) && q == c * Recon(s)
    ensures Base(s) - Base(s.(refCv := None)) == 1.8 * p - 0.45 * Corr(s) + 0.45 * Recon(s) - 1.8 * q
  {
    hide Corr, R2, Recon, Packets, Floor, Change, Weighted;
    FlatReference(s, c);
    var u, v := WeightedIs(s);
    var t := s.(refCv := None);
    SameComponents(s);
    var x, y := WeightedIs(t);
    assert u == 1.8 * p;
    assert v == 0.60 * Recon(s) - 1.8 * q;
    FullWeights(t);
    assert x == 0.45 * Corr(s) && y == 0.15 * Recon(s);
  }

  lemma SameComponents(s: Signals)
    ensures var t := s.(refCv := None);
      Corr(t) == Corr(s) && R2(t) == R2(s) && Recon(t) == Recon(s) && Packets(t) == Packets(s) && Floor(t) == Floor(s) &&
      Change(t) == Change(s)
  {
  }

  lemma FullWeights(s: Signals)
    requires s.refCv.None? || s.refCv.value >= 0.25
    ensures WeightCorr(s) == 0.45 && WeightRecon(s) == 0.15
  {
  }

  /** A known-load anchor is worth 55 hundredths, and leaves the rest 45. */
  lemma AnchorShare(s: Signals, a: real)
    requires s.anchorAgree.None? && InUnit(a)
    ensures 100.0 * Base(s.(anchorAgree := Some(a))) == 45.0 * Base(s) + 55.0 * a
  {
    hide Weighted;
    EvidenceDecides(s, s.(anchorAgree := Some(a)));
  }

  /** Signals that nothing but the weighted evidence and the gates decides. */
  predicate Unscreened(s: Signals) {
    s.physics.None? && !s.physicsViolation
  }

  /** The lag penalty scales the confidence, a penalty of one is none, and a smaller one never helps. */
  lemma LagScales(s: Signals, x: real, sqrt: Fn, erfinv: Fn)
    requires Maths(sqrt, erfinv) && Unscreened(s) && InUnit(x)
    ensures Confidence(s.(lagPenalty := Some(x)), sqrt, erfinv) == x * Confidence(s.(lagPenalty := None), sqrt, erfinv)
  {
    hide Base, Snoop, Gate;
    var b, f := Base(s), Snoop(s.r, s.nBuckets, s.nCandidates, sqrt, erfinv);
    SameBase(s, Some(x));
    SameBase(s, None);
    BaseInRange(s);
    SnoopInUnit(s, sqrt, erfinv);
    ThroughTheGate(b, x, f);
    ThroughTheGate(b, 1.0, f);
    Associate(b, x, f);
    Associate(x, b, f);
  }

  lemma SameBase(s: Signals, lag: Option<real>)
    ensures Base(s.(lagPenalty := lag)) == Base(s)
  {
    EvidenceDecides(s, s.(lagPenalty := lag));
  }

  lemma ThroughTheGate(b: real, x: real, f: real)
    requires 0.0 < b <= 1.0 && InUnit(x) && InUnit(f)
    ensures Gate(b, x, f) == b * x * f
  {
    ScaledInUnit(b, x);
    ScaledInUnit(Scaled(b, x), f);
  }

  lemma LagOrder(s: Signals, x: real, y: real, sqrt: Fn, erfinv: Fn)
    requires Maths(sqrt, erfinv) && x <= y
    ensures Confidence(s.(lagPenalty := Some(x)), sqrt, erfinv) <= Confidence(s.(lagPenalty := Some(y)), sqrt, erfinv)
    ensures y >= 1.0 ==> Confidence(s.(lagPenalty := Some(y)), sqrt, erfinv) == Confidence(s.(lagPenalty := None), sqrt, erfinv)
    ensures x <= 0.0 ==> Confidence(s.(lagPenalty := Some(x)), sqrt, erfinv) == Screened(0.0, s.physics, s.physicsViolation)
  {
    hide Base, Snoop, Screened, Scaled, Gate;
    var f := Snoop(s.r, s.nBuckets, s.nCandidates, sqrt, erfinv);
    SameBase(s, Some(x));
    SameBase(s, Some(y));
    SameBase(s, None);
    BaseInRange(s);
    SnoopInUnit(s, sqrt, erfinv);
    GateLagOrder(Base(s), Clamp01(x), Clamp01(y), f);
    ScreenOrder(Gate(Base(s), Clamp01(x), f), Gate(Base(s), Clamp01(y), f), s.physics, s.physicsViolation);
    ZeroLag(Base(s), f);
  }

  lemma GateLagOrder(b: real, x: real, y: real, f: real)
    requires 0.0 <= b && 0.0 <= x <= y && 0.0 <= f
    ensures Gate(b, x, f) <= Gate(b, y, f)
  {
    hide Scaled, Clamp01;
    ScaledOrder(b, b, x, y);
    ScaledOrder(Scaled(b, x), Scaled(b, y), f, f);
    ClampOrder(Scaled(Scaled(b, x), f), Scaled(Scaled(b, y), f));
  }

  lemma ZeroLag(b: real, f: real)
    ensures Gate(b, 0.0, f) == 0.0
  {
    ScaledByZero(b);
    ScaledByZero(f);
  }

  /** Without a correlation or a lag to gate it, the confidence is the base. */
  lemma UngatedConfidence(s: Signals, sqrt: Fn, erfinv: Fn)
    requires Maths(sqrt, erfinv) && Unscreened(s) && s.lagPenalty.None? && (s.r.None? || s.nBuckets < 4)
    ensures Confidence(s, sqrt, erfinv) == Base(s)
  {
    hide Base;
    BaseInRange(s);
    ThroughTheGate(Base(s), 1.0, 1.0);
  }

  /** A physics score counts half against the rest, and a violation leaves a fifth. */
  lemma PhysicsShare(s: Signals, p: real, sqrt: Fn, erfinv: Fn)
    requires Maths(sqrt, erfinv) && Unscreened(s) && InUnit(p)
    ensures var c := Confidence(s, sqrt, erfinv);
      Confidence(s.(physics := Some(p)), sqrt, erfinv) == (c + p) / 2.0 &&
      5.0 * Confidence(s.(physicsViolation := true), sqrt, erfinv) == c
  {
    hide Gate, Snoop, Base;
    ConfidenceInRange(s, sqrt, erfinv);
    SameGate(s, Some(p), false, sqrt, erfinv);
    SameGate(s, None, true, sqrt, erfinv);
  }

  lemma SameGate(s: Signals, physics: Option<real>, violation: bool, sqrt: Fn, erfinv: Fn)
    requires IsSqrt(sqrt)
    ensures Gated(s.(physics := physics, physicsViolation := violation), sqrt, erfinv) == Gated(s, sqrt, erfinv)
  {
    hide Gate, Snoop, Base, Clamp01;
    EvidenceDecides(s, s.(physics := physics, physicsViolation := violation));
  }

  /**
   * The critical correlation, squared so that no root is left: with e the inverse error function at one less
   * five percent shared among the candidates, r*^2 times the buckets is 2e^2, unless that would pass the cap of 0.95.
   */
  lemma CriticalIsBonferroni(nBuckets: nat, nCandidates: int, sqrt: Fn, erfinv: Fn)
    requires Maths(sqrt, erfinv) && nBuckets >= 4
    ensures var e := erfinv(1.0 - 5.0 / (100 * Max(nCandidates, 1)) as real);
      var c := Critical(nBuckets, nCandidates, sqrt, erfinv);
      if c < 0.95 then (c * c) * nBuckets as real == 2.0 * (e * e)
      else c == 0.95 && 2.0 * (e * e) >= 0.9025 * nBuckets as real
  {
    var k, n := Max(nCandidates, 1), nBuckets as real;
    var p, e := 0.05 / k as real, erfinv(1.0 - 0.05 / k as real);
    HundredthsOf(k);
    CriticalZGrows(nCandidates, nCandidates, sqrt, erfinv);
    RootGrows(0.0, 2.0, sqrt);
    RootGrows(1.0, n, sqrt);
    var two, root, z := sqrt(2.0), sqrt(n), CriticalZ(nCandidates, sqrt, erfinv);
    assert two * two == 2.0 && root * root == n;
    var q := z / root;
    SquaredQuotient(z, root, q, n);
    SquaredProduct(two, e, z);
    QuotientOrder(0.0, z, root, root);
    if q >= 0.95 {
      AtLeastCap(q, n);
    }
  }

  lemma HundredthsOf(k: int)
    requires k >= 1
    ensures 5.0 / (100 * k) as real == 0.05 / k as real
  {
    var x := 0.05 / k as real;
    assert x * k as real == 0.05;
    Quotient(5.0, (100 * k) as real, x);
  }

  lemma SquaredQuotient(z: real, root: real, q: real, n: real)
    requires root > 0.0 && root * root == n && q == z / root
    ensures (q * q) * n == z * z
  {
    DividesBack(z, root, q);
    Associate(q, q, n);
    SquaredProduct(q, root, z);
  }

  lemma SquaredProduct(x: real, y: real, z: real)
    requires z == x * y
    ensures z * z == (x * x) * (y * y)
  {
  }

  lemma AtLeastCap(q: real, n: real)
    requires q >= 0.95 && n > 0.0
    ensures (q * q) * n >= 0.9025 * n
  {
    var s := Product(q, q);
    var t := Product(0.95, q);
    ScaledLeq(0.95, q, q, t, s);
    ScaleLeq(0.9025, s, n);
  }

  // ---- the breakdown ---------------------------------------------------------------------------------

  /** The breakdown, a field per key; a key that is written on some paths only is optional. */
  datatype Parts = Parts(
    correlation: real, r2: real, reconciliation: real, packets: real, floor: real, changePoint: real,
    refCv: Option<real>, anchor: Option<real>, lag: real, snoop: real, physics: Option<real>, confidence: real)

  const NO_PARTS := Parts(0.0, 0.0, 0.0, 0.0, 0.0, 0.0, None, None, 0.0, 0.0, None, 0.0)

  /** The weighted base worked out from the breakdown alone. */
  function BaseOf(parts: Parts): real {
    var wc := if parts.refCv.Some? then W_CORR * Clamp01(parts.refCv.value / 0.25) else W_CORR;
    Blend(wc, W_RECON + (W_CORR - wc), parts.correlation, parts.r2, parts.reconciliation, parts.packets, parts.floor,
          parts.changePoint)
  }

  /** The confidence worked out from the breakdown alone. */
  function Recomputed(parts: Parts): real {
    var base := if parts.anchor.Some? then 0.45 * BaseOf(parts) + 0.55 * parts.anchor.value else BaseOf(parts);
    Screened(Gate(base, parts.lag, parts.snoop), parts.physics, false)
  }

  /** Comparing a ratio is comparing the energies. */
  lemma RatioOf(ratio: real, meter: real, monitored: real)
    requires meter > 0.0 && monitored > 0.0 && ratio * monitored == meter
    ensures ratio > 0.0
    ensures (ratio < 0.5 <==> meter < 0.5 * monitored) && (ratio < 1.0 <==> meter < monitored)
    ensures (ratio <= 20.0 <==> meter <= 20.0 * monitored) && (ratio <= 100.0 <==> meter <= 100.0 * monitored)
  {
    RatioBelow(ratio, monitored, 0.0, meter);
    RatioBelow(ratio, monitored, 0.5, meter);
    RatioBelow(ratio, monitored, 1.0, meter);
    RatioBelow(ratio, monitored, 20.0, meter);
    RatioBelow(ratio, monitored, 100.0, meter);
  }

  lemma RatioBelow(ratio: real, d: real, c: real, p: real)
    requires d > 0.0 && p == ratio * d
    ensures (ratio < c <==> p < c * d) && (ratio <= c <==> p <= c * d)
  {
    if ratio < c {
      ScaleLess(ratio, c, d);
    } else if c < ratio {
      ScaleLess(c, ratio, d);
    }
  }

  /**
   * Reconciliation by the two energies, piece by piece: a line from zero to 0.4 of the monitored energy below
   * half of it, a line from 0.7 to full marks up to it, full marks up to twenty times, a line down to one
   * half at a hundred times, 0.3 beyond. One half when it cannot be told.
   */
  lemma ReconByEnergy(s: Signals)
    ensures !s.hasMultiplier || s.monitoredKwh <= 0.0 || s.meterKwh <= 0.0 ==> Recon(s) == 0.5
    ensures s.hasMultiplier && s.monitoredKwh > 0.0 && s.meterKwh > 0.0 ==>
      var (m, d) := (s.meterKwh, s.monitoredKwh);
      if 2.0 * m < d then Recon(s) * d == 0.8 * m
      else if m <= d then Recon(s) * d == 0.4 * d + 0.6 * m
      else if m <= 20.0 * d then Recon(s) == 1.0
      else if m <= 100.0 * d then 160.0 * (Recon(s) * d) == 180.0 * d - m
      else Recon(s) == 0.3
  {
    if s.hasMultiplier && s.monitoredKwh > 0.0 && s.meterKwh > 0.0 {
      var m, d := s.meterKwh, s.monitoredKwh;
      var ratio := m / d;
      RatioOf(ratio, m, d);
      RatioBelow(ratio, d, 1.0, m);
      PieceOf(ratio);
      if 2.0 * m < d {
        LineAt(ratio, d, 0.8, 0.0, Recon(s));
      } else if m <= d {
        LineAt(ratio, d, 0.6, 0.4, Recon(s));
      } else if 20.0 * d < m <= 100.0 * d {
        LineAt(ratio, d, -1.0 / 160.0, 1.125, Recon(s));
      }
    }
  }

  lemma PieceOf(ratio: real)
    requires ratio > 0.0
    ensures ratio < 0.5 ==> ReconOfRatio(ratio) == 0.8 * ratio
    ensures 0.5 <= ratio <= 1.0 ==> ReconOfRatio(ratio) == 0.6 * ratio + 0.4
    ensures 1.0 < ratio <= 20.0 ==> ReconOfRatio(ratio) == 1.0
    ensures 20.0 < ratio <= 100.0 ==> ReconOfRatio(ratio) == -1.0 / 160.0 * ratio + 1.125
    ensures ratio > 100.0 ==> ReconOfRatio(ratio) == 0.3
  {
  }

  lemma LineAt(ratio: real, d: real, a: real, b: real, y: real)
    requires y == a * ratio + b
    ensures y * d == a * (ratio * d) + b * d
  {
  }

  /** Both energies are known, so the meter's can be held against the monitored subset's. */
  predicate Comparable(s: Signals) {
    s.hasMultiplier && s.monitoredKwh > 0.0 && s.meterKwh > 0.0
  }

  /**
   * What the meter's energy says: full marks exactly from one to twenty times the monitored energy, under
   * 0.4 below half of it, 0.3 above a hundred times, one half when it cannot be told, never zero.
   */
  method Reconcile(s: Signals) returns (recon: real)
    ensures recon == Recon(s) && 0.0 < recon <= 1.0
    ensures !Comparable(s) ==> recon == 0.5
    ensures Comparable(s) ==> (recon == 1.0 <==> s.monitoredKwh <= s.meterKwh <= 20.0 * s.monitoredKwh)
    ensures Comparable(s) && 2.0 * s.meterKwh < s.monitoredKwh ==> recon < 0.4
    ensures Comparable(s) && s.meterKwh > 100.0 * s.monitoredKwh ==> recon == 0.3
  {
    recon := 0.5;
    if s.hasMultiplier && s.monitoredKwh > 0.0 && s.meterKwh > 0.0 {
      var ratio := s.meterKwh / s.monitoredKwh;
      RatioOf(ratio, s.meterKwh, s.monitoredKwh);
      if ratio < 0.5 {
        recon := Clamp01(ratio / 0.5 * 0.4);
      } else if ratio <= 1.0 {
        recon := 0.7 + 0.3 * ((ratio - 0.5) / 0.5);
      } else if ratio <= 20.0 {
        recon := 1.0;
      } else if ratio <= 100.0 {
        recon := 1.0 - 0.5 * ((ratio - 20.0) / 80.0);
      } else {
        recon := 0.3;
      }
    }
  }

  /** The breakdown lists each component as the signals give it. */
  predicate Explained(parts: Parts, s: Signals) {
    parts.correlation == Clamp01(if s.r.Some? then s.r.value else 0.0) &&
    parts.r2 == R2(s) && parts.reconciliation == Recon(s) && parts.packets == Packets(s) &&
    parts.floor == (if s.floorOk == Some(false) then 0.4 else 1.0) &&
    parts.changePoint == Clamp01(if s.changePoint.Some? then s.changePoint.value else 0.5) &&
    parts.refCv == (if s.refCv.Some? && s.refCv.value < 0.25 then s.refCv else None)
  }

  lemma ExplainedStill(parts: Parts, more: Parts, s: Signals)
    requires Explained(parts, s) && BaseOf(parts) == Weighted(s)
    requires more == parts.(anchor := more.anchor, lag := more.lag, snoop := more.snoop, physics := more.physics,
                            confidence := more.confidence)
    ensures Explained(more, s) && BaseOf(more) == Weighted(s)
  {
    hide Weighted, Blend, R2, Recon, Packets;
  }

  method WeighComponents(s: Signals) returns (base: real, parts: Parts)
    ensures base == Weighted(s) == BaseOf(parts)
    ensures parts.anchor.None? && parts.physics.None?
    ensures Explained(parts, s)
  {
    hide Blend, Recon;
    parts := NO_PARTS;
    var corr := 0.0;
    if s.r.Some? {
      corr := Clamp01(s.r.value);
    }
    parts := parts.(correlation := corr);
    var r2 := corr * corr;
    if s.r2.Some? {
      r2 := Clamp01(s.r2.value);
    }
    parts := parts.(r2 := r2);
    var recon := Reconcile(s);
    parts := parts.(reconciliation := recon);
    var pkt := MinR(1.0, s.nBuckets as real / 30.0);
    if s.windowPackets > 0 {
      pkt := MinR(pkt, MinR(1.0, s.windowPackets as real / 60.0));
    }
    parts := parts.(packets := pkt);
    var floor := 1.0;
    if s.floorOk.Some? && !s.floorOk.value {
      floor := 0.4;
    }
    parts := parts.(floor := floor);
    var change := 0.5;
    if s.changePoint.Some? {
      change := Clamp01(s.changePoint.value);
    }
    parts := parts.(changePoint := change);
    var wc, wr := W_CORR, W_RECON;
    if s.refCv.Some? && s.refCv.value < 0.25 {
      wc := W_CORR * Clamp01(s.refCv.value / 0.25);
      wr := W_RECON + (W_CORR - wc);
      parts := parts.(refCv := s.refCv);
    }
    assert corr == Corr(s) && r2 == R2(s);
    assert pkt == Packets(s) && floor == Floor(s) && change == Change(s);
    assert wc == WeightCorr(s) && wr == WeightRecon(s);
    base := Blend(wc, wr, corr, r2, recon, pkt, floor, change);
  }

  /**
   * The whole blend. Without a physics violation the breakdown explains the result completely: recombining
   * its entries gives the confidence back. A violation overwrites the physics entry with zero.
   */
  method CombineConfidence(s: Signals, sqrt: Fn, erfinv: Fn) returns (conf: real, parts: Parts)
    requires Maths(sqrt, erfinv)
    ensures conf == Confidence(s, sqrt, erfinv) && 0.0 <= conf <= 1.0
    ensures s.physicsViolation ==> conf <= 0.2 && parts.physics == Some(0.0)
    ensures parts.confidence == conf
    ensures Explained(parts, s)
    ensures parts.lag == Clamp01(if s.lagPenalty.Some? then s.lagPenalty.value else 1.0)
    ensures parts.snoop == Snoop(s.r, s.nBuckets, s.nCandidates, sqrt, erfinv)
    ensures parts.anchor == if s.anchorAgree.Some? then Some(Clamp01(s.anchorAgree.value)) else None
    ensures s.physics.Some? && !s.physicsViolation ==> parts.physics == Some(Clamp01(s.physics.value))
    ensures s.physics.None? && !s.physicsViolation ==> parts.physics == None
    ensures !s.physicsViolation ==> Recomputed(parts) == conf
  {
    hide Gate, Snoop, Blend, Weighted, BaseOf, Explained;
    ConfidenceInRange(s, sqrt, erfinv);
    var base;
    base, parts := WeighComponents(s);
    ghost var weighed := parts;
    if s.anchorAgree.Some? {
      var a := Clamp01(s.anchorAgree.value);
      parts := parts.(anchor := Some(a));
      base := 0.45 * base + 0.55 * a;
    }
    var lag := 1.0;
    if s.lagPenalty.Some? {
      lag := Clamp01(s.lagPenalty.value);
    }
    parts := parts.(lag := lag);
    var snoop := Snoop(s.r, s.nBuckets, s.nCandidates, sqrt, erfinv);
    parts := parts.(snoop := snoop);
    conf := Gate(base, lag, snoop);
    if s.physics.Some? {
      var p := Clamp01(s.physics.value);
      parts := parts.(physics := Some(p));
      conf := Clamp01(0.5 * conf + 0.5 * p);
    }
    if s.physicsViolation {
      parts := parts.(physics := Some(0.0));
      conf := conf * 0.2;
    }
    parts := parts.(confidence := conf);
    ExplainedStill(weighed, parts, s);
  }
}
