/**
 * Correlation of two aligned series (pearson), what a common line does to its sums, and the search for
 * the lag that correlates best (crossCorrLag). The square root is a parameter with sqrt's own property.
 */
module Correlation {
  import opened Common
  import opened Reals

  type Sqrt = real -> real

  function Sum(a: seq<real>): real {
    if a == [] then 0.0 else Sum(a[..|a| - 1]) + a[|a| - 1]
  }

  function Mean(a: seq<real>): real
    requires a != []
  {
    Sum(a) / |a| as real
  }

  /** The product of two deviations, named so that sums of such products can be added without multiplying out. */
  function CoDeviation(x: real, mx: real, y: real, my: real): real {
    (x - mx) * (y - my)
  }

  /** The sum of products of the deviations of a from ma and of b from mb. */
  function Cross(a: seq<real>, b: seq<real>, ma: real, mb: real): real
    requires |a| == |b|
  {
    if a == [] then 0.0
    else Cross(a[..|a| - 1], b[..|b| - 1], ma, mb) + CoDeviation(a[|a| - 1], ma, b[|b| - 1], mb)
  }

  function Sxy(a: seq<real>, b: seq<real>): real
    requires |a| == |b| && a != []
  {
    Cross(a, b, Mean(a), Mean(b))
  }

  lemma {:induction false} CrossNonneg(a: seq<real>, m: real)
    ensures Cross(a, a, m, m) >= 0.0
  {
    if a != [] {
      CrossNonneg(a[..|a| - 1], m);
      SquareNonneg(a[|a| - 1] - m);
    }
  }

  lemma SxyNonneg(a: seq<real>)
    requires a != []
    ensures Sxy(a, a) >= 0.0
  {
    CrossNonneg(a, Mean(a));
  }

  lemma RootPositive(x: real, y: real, sqrt: Sqrt)
    requires IsSqrt(sqrt) && x > 0.0 && y > 0.0
    ensures x * y > 0.0 && sqrt(x * y) > 0.0 && sqrt(x * y) * sqrt(x * y) == x * y
  {
    PosFactor(x, y);
    var d := sqrt(x * y);
    assert d >= 0.0 && d * d == x * y;
  }

  /** The correlation coefficient; zero for series that do not match, are too short, or are flat. */
  function PearsonR(a: seq<real>, b: seq<real>, sqrt: Sqrt): real
    requires IsSqrt(sqrt)
  {
    if |a| != |b| || |a| < 2 || Sxy(a, a) == 0.0 || Sxy(b, b) == 0.0 then 0.0
    else
      CrossNonneg(a, Mean(a));
      CrossNonneg(b, Mean(b));
      RootPositive(Sxy(a, a), Sxy(b, b), sqrt);
      Sxy(a, b) / sqrt(Sxy(a, a) * Sxy(b, b))
  }

  lemma CrossLast(a: seq<real>, b: seq<real>, ma: real, mb: real)
    requires |a| == |b| && a != []
    ensures var n := |a| - 1;
      Cross(a, b, ma, mb) == Cross(a[..n], b[..n], ma, mb) + CoDeviation(a[n], ma, b[n], mb)
  {
  }

  /** The Cauchy-Schwarz inequality between three accumulators. */
  predicate Dominated(p: real, q: real, r: real) {
    q >= 0.0 && r >= 0.0 && p * p <= q * r
  }

  lemma DominatedStep(p: real, q: real, r: real, x: real, mx: real, y: real, my: real)
    requires Dominated(p, q, r)
    ensures Dominated(p + CoDeviation(x, mx, y, my), q + CoDeviation(x, mx, x, mx), r + CoDeviation(y, my, y, my))
  {
    var dx, dy := x - mx, y - my;
    SquareNonneg(dx);
    SquareNonneg(dy);
    CauchyStep(p, q, r, dx, dy, p + dx * dy, q + dx * dx, r + dy * dy);
  }

  /** Cauchy-Schwarz for the accumulators of the correlation, on every pair of series and any centres. */
  lemma {:induction false} CauchySchwarz(a: seq<real>, b: seq<real>, ma: real, mb: real)
    requires |a| == |b|
    ensures Dominated(Cross(a, b, ma, mb), Cross(a, a, ma, ma), Cross(b, b, mb, mb))
  {
    if a != [] {
      hide Dominated, Cross, CoDeviation;
      var n := |a| - 1;
      CauchySchwarz(a[..n], b[..n], ma, mb);
      CrossLast(a, b, ma, mb);
      CrossLast(a, a, ma, ma);
      CrossLast(b, b, mb, mb);
      DominatedStep(Cross(a[..n], b[..n], ma, mb), Cross(a[..n], a[..n], ma, ma), Cross(b[..n], b[..n], mb, mb),
                    a[n], ma, b[n], mb);
    }
  }

  lemma RatioAtMostOne(p: real, d: real)
    requires d > 0.0 && p * p <= d * d
    ensures -1.0 <= p / d <= 1.0
  {
    SquareOrder(p, d);
    PosFactor(d, p / d - 1.0);
    PosFactor(d, -1.0 - p / d);
  }

  /** |r| <= 1 on every pair of series. */
  lemma PearsonBounded(a: seq<real>, b: seq<real>, sqrt: Sqrt)
    requires IsSqrt(sqrt)
    ensures -1.0 <= PearsonR(a, b, sqrt) <= 1.0
  {
    hide Cross;
    if |a| == |b| && |a| >= 2 && Sxy(a, a) != 0.0 && Sxy(b, b) != 0.0 {
      CauchySchwarz(a, b, Mean(a), Mean(b));
      CrossNonneg(a, Mean(a));
      CrossNonneg(b, Mean(b));
      RootPositive(Sxy(a, a), Sxy(b, b), sqrt);
      RatioAtMostOne(Sxy(a, b), sqrt(Sxy(a, a) * Sxy(b, b)));
    }
  }

  /** The accumulators take in one more pair. */
  lemma CrossSnoc(a: seq<real>, b: seq<real>, i: nat, ma: real, mb: real)
    requires |a| == |b| && i < |a|
    ensures Cross(a[..i + 1], b[..i + 1], ma, mb) == Cross(a[..i], b[..i], ma, mb) + CoDeviation(a[i], ma, b[i], mb)
  {
    assert a[..i + 1][..i] == a[..i] && b[..i + 1][..i] == b[..i];
  }

  lemma CrossEmpty(a: seq<real>, b: seq<real>, ma: real, mb: real)
    requires |a| == |b| == 0
    ensures Cross(a, b, ma, mb) == 0.0
  {
  }

  lemma SumSnoc(a: seq<real>, i: nat)
    requires i < |a|
    ensures Sum(a[..i + 1]) == Sum(a[..i]) + a[i]
  {
    assert a[..i + 1][..i] == a[..i];
  }

  method Means(a: seq<real>, b: seq<real>) returns (ma: real, mb: real)
    requires |a| == |b| && a != []
    ensures ma == Mean(a) && mb == Mean(b)
  {
    var sa, sb := 0.0, 0.0;
    for i := 0 to |a|
      invariant sa == Sum(a[..i]) && sb == Sum(b[..i])
    {
      SumSnoc(a, i);
      SumSnoc(b, i);
      sa, sb := sa + a[i], sb + b[i];
    }
    assert a[..|a|] == a && b[..|b|] == b;
    ma, mb := sa / |a| as real, sb / |a| as real;
  }

  method Pearson(a: seq<real>, b: seq<real>, sqrt: Sqrt) returns (r: real)
    requires IsSqrt(sqrt)
    ensures r == PearsonR(a, b, sqrt) && -1.0 <= r <= 1.0
  {
    hide Cross;
    PearsonBounded(a, b, sqrt);
    if |a| != |b| || |a| < 2 {
      return 0.0;
    }
    var ma, mb := Means(a, b);
    var sab, saa, sbb := Accumulate(a, b, ma, mb);
    if saa == 0.0 || sbb == 0.0 {
      return 0.0;
    }
    CrossNonneg(a, ma);
    CrossNonneg(b, mb);
    RootPositive(saa, sbb, sqrt);
    return sab / sqrt(saa * sbb);
  }

  /** The second loop: the three sums of products of deviations. */
  method Accumulate(a: seq<real>, b: seq<real>, ma: real, mb: real) returns (sab: real, saa: real, sbb: real)
    requires |a| == |b|
    ensures sab == Cross(a, b, ma, mb) && saa == Cross(a, a, ma, ma) && sbb == Cross(b, b, mb, mb)
  {
    hide Cross;
    sab, saa, sbb := 0.0, 0.0, 0.0;
    CrossEmpty(a[..0], b[..0], ma, mb);
    CrossEmpty(a[..0], a[..0], ma, ma);
    CrossEmpty(b[..0], b[..0], mb, mb);
    for i := 0 to |a|
      invariant sab == Cross(a[..i], b[..i], ma, mb)
      invariant saa == Cross(a[..i], a[..i], ma, ma) && sbb == Cross(b[..i], b[..i], mb, mb)
    {
      CrossSnoc(a, b, i, ma, mb);
      CrossSnoc(a, a, i, ma, ma);
      CrossSnoc(b, b, i, mb, mb);
      var da, db := a[i] - ma, b[i] - mb;
      sab, saa, sbb := sab + da * db, saa + da * da, sbb + db * db;
    }
    assert a[..|a|] == a && b[..|b|] == b;
  }

  // ---- lines ----------------------------------------------------------------------------------------

  ghost predicate OnLine(a: seq<real>, b: seq<real>, m: real, c: real) {
    |a| == |b| && forall i :: 0 <= i < |a| ==> LineAt(a[i], b[i], m, c)
  }

  lemma {:induction false} LineSum(a: seq<real>, b: seq<real>, m: real, c: real)
    requires OnLine(a, b, m, c)
    ensures Sum(b) == m * Sum(a) + |a| as real * c
  {
    if a != [] {
      var n := |a| - 1;
      LineSum(a[..n], b[..n], m, c);
      Distribute(c, n as real, 1.0);
      Distribute(m, Sum(a[..n]), a[n]);
    }
  }

  lemma LineMean(a: seq<real>, b: seq<real>, m: real, c: real)
    requires OnLine(a, b, m, c) && a != []
    ensures Mean(b) == m * Mean(a) + c
  {
    LineSum(a, b, m, c);
    var n := |a| as real;
    Associate(m, Mean(a), n);
    Distribute(n, m * Mean(a), c);
    Quotient(Sum(b), n, m * Mean(a) + c);
  }

  lemma LineTerm(d: real, m: real)
    ensures d * (m * d) == m * (d * d) && (m * d) * (m * d) == (m * m) * (d * d)
  {
  }

  /** The accumulators of two series on a line of slope m: sums of squares in the ratios 1 : m : m^2. */
  predicate InRatio(q: real, p: real, r: real, m: real) {
    p == m * q && r == (m * m) * q
  }

  predicate LineAt(x: real, y: real, m: real, c: real) {
    y == m * x + c
  }

  lemma LineStep(q: real, p: real, r: real, m: real, c: real, x: real, mx: real, y: real, my: real)
    requires LineAt(x, y, m, c) && LineAt(mx, my, m, c) && InRatio(q, p, r, m)
    ensures InRatio(q + CoDeviation(x, mx, x, mx), p + CoDeviation(x, mx, y, my), r + CoDeviation(y, my, y, my), m)
  {
    var d := x - mx;
    Distribute(m, d, mx);
    LineTerm(d, m);
    Distribute(m, q, d * d);
    Distribute(m * m, q, d * d);
  }

  lemma {:induction false} LineCross(a: seq<real>, b: seq<real>, m: real, c: real, ma: real, mb: real)
    requires OnLine(a, b, m, c) && LineAt(ma, mb, m, c)
    ensures InRatio(Cross(a, a, ma, ma), Cross(a, b, ma, mb), Cross(b, b, mb, mb), m)
  {
    if a != [] {
      hide Cross, CoDeviation, InRatio, LineAt;
      var n := |a| - 1;
      LineCross(a[..n], b[..n], m, c, ma, mb);
      LineStep(Cross(a[..n], a[..n], ma, ma), Cross(a[..n], b[..n], ma, mb), Cross(b[..n], b[..n], mb, mb),
               m, c, a[n], ma, b[n], mb);
      CrossLast(a, b, ma, mb);
      CrossLast(a, a, ma, ma);
      CrossLast(b, b, mb, mb);
    }
  }

  /** Series on a common line: the sums of squares stand in the ratios 1 : m : m^2. */
  lemma LineSums(a: seq<real>, b: seq<real>, m: real, c: real)
    requires OnLine(a, b, m, c) && a != []
    ensures Sxy(a, b) == m * Sxy(a, a) && Sxy(b, b) == (m * m) * Sxy(a, a)
  {
    hide Cross, Mean;
    LineMean(a, b, m, c);
    LineCross(a, b, m, c, Mean(a), Mean(b));
  }

  /** A meter that follows the reference exactly, at any positive scale and offset, correlates perfectly. */
  lemma PerfectLineCorrelatesFully(a: seq<real>, b: seq<real>, m: real, c: real, sqrt: Sqrt)
    requires IsSqrt(sqrt) && OnLine(a, b, m, c) && m > 0.0 && |a| >= 2 && Sxy(a, a) != 0.0
    ensures PearsonR(a, b, sqrt) == 1.0
  {
    hide Cross, Sxy;
    var s, t := Sxy(a, a), Sxy(b, b);
    SxyNonneg(a);
    SteepSum(a, b, m, c);
    var d, p := Root(s, t, sqrt);
    PearsonIs(a, b, p, d, sqrt);
    LineSums(a, b, m, c);
    RootOfLine(m, s, t, d, p);
    Quotient(Sxy(a, b), d, 1.0);
  }

  lemma SteepSum(a: seq<real>, b: seq<real>, m: real, c: real)
    requires OnLine(a, b, m, c) && m > 0.0 && a != [] && Sxy(a, a) > 0.0
    ensures Sxy(b, b) > 0.0
  {
    hide Cross, Sxy;
    LineSums(a, b, m, c);
    PosFactor(m, Sxy(a, a));
    PosFactor(m, m * Sxy(a, a));
    Associate(m, m, Sxy(a, a));
  }

  /** The root of a product, with the product under a name of its own. */
  lemma Root(x: real, y: real, sqrt: Sqrt) returns (d: real, p: real)
    requires IsSqrt(sqrt) && x > 0.0 && y > 0.0
    ensures p == x * y && d == sqrt(p) && d > 0.0 && d * d == p
  {
    RootPositive(x, y, sqrt);
    p := x * y;
    d := sqrt(p);
  }

  lemma RootOfLine(m: real, s: real, t: real, d: real, p: real)
    requires m > 0.0 && s > 0.0 && t == (m * m) * s && d > 0.0 && p == s * t && d * d == p
    ensures d == m * s
  {
    PosFactor(m, s);
    LineTerm(s, m);
    Associate(m * m, s, s);
    Associate(s, t, s);
    SquareRootUnique(d, m * s);
  }

  // ---- distances from a line ------------------------------------------------------------------------

  /** The sum of squared vertical distances from the line of slope t through (ma, mb). */
  function Residual(a: seq<real>, b: seq<real>, ma: real, mb: real, t: real): real
    requires |a| == |b|
  {
    if a == [] then 0.0
    else Residual(a[..|a| - 1], b[..|b| - 1], ma, mb, t) + Offset(a[|a| - 1], ma, b[|b| - 1], mb, t)
  }

  /** One squared vertical distance. */
  function Offset(x: real, mx: real, y: real, my: real, t: real): real {
    ((y - my) - t * (x - mx)) * ((y - my) - t * (x - mx))
  }

  function Parabola(sxx: real, syy: real, sxy: real, t: real): real {
    syy - 2.0 * (t * sxy) + (t * t) * sxx
  }

  lemma ParabolaAdds(sxx: real, syy: real, sxy: real, x: real, mx: real, y: real, my: real, t: real)
    ensures Parabola(sxx, syy, sxy, t) + Offset(x, mx, y, my, t) ==
      Parabola(sxx + CoDeviation(x, mx, x, mx), syy + CoDeviation(y, my, y, my), sxy + CoDeviation(x, mx, y, my), t)
  {
    var dx, dy := x - mx, y - my;
    Distribute(t, sxy, dx * dy);
    Distribute(t * t, sxx, dx * dx);
    var e := t * dx;
    assert (dy - e) * (dy - e) == dy * dy - 2.0 * (e * dy) + e * e;
    LineTerm(dx, t);
    Associate(t, dx, dy);
  }

  /** The accumulators alone give the squared distance from every line through the centre. */
  lemma {:induction false} ResidualFromSums(a: seq<real>, b: seq<real>, ma: real, mb: real, t: real)
    requires |a| == |b|
    ensures Residual(a, b, ma, mb, t) == Parabola(Cross(a, a, ma, ma), Cross(b, b, mb, mb), Cross(a, b, ma, mb), t)
  {
    hide CoDeviation, Parabola, Offset;
    if a != [] {
      hide Cross;
      var n := |a| - 1;
      ResidualFromSums(a[..n], b[..n], ma, mb, t);
      CrossLast(a, b, ma, mb);
      CrossLast(a, a, ma, ma);
      CrossLast(b, b, mb, mb);
      ParabolaAdds(Cross(a[..n], a[..n], ma, ma), Cross(b[..n], b[..n], mb, mb), Cross(a[..n], b[..n], ma, mb),
                   a[n], ma, b[n], mb, t);
    } else {
      ParabolaAtZero(t);
    }
  }

  lemma ParabolaAtZero(t: real)
    ensures Parabola(0.0, 0.0, 0.0, t) == 0.0
  {
  }

  lemma OffsetZero(x: real, mx: real, y: real, my: real, t: real)
    ensures Offset(x, mx, y, my, t) >= 0.0
    ensures Offset(x, mx, y, my, t) == 0.0 ==> LineAt(x, y, t, my - t * mx)
  {
    var d := (y - my) - t * (x - mx);
    SquareNonneg(d);
    if d * d <= 0.0 {
      SquareOrder(d, 0.0);
      Distribute(t, x - mx, mx);
      assert LineAt(x, y, t, my - t * mx);
    }
  }

  /** No distance at all means that every point is on the line. */
  lemma {:induction false} NoResidualOnLine(a: seq<real>, b: seq<real>, ma: real, mb: real, t: real)
    requires |a| == |b|
    ensures Residual(a, b, ma, mb, t) >= 0.0
    ensures Residual(a, b, ma, mb, t) == 0.0 ==> OnLine(a, b, t, mb - t * ma)
  {
    hide LineAt, Offset;
    if a != [] {
      var n := |a| - 1;
      NoResidualOnLine(a[..n], b[..n], ma, mb, t);
      OffsetZero(a[n], ma, b[n], mb, t);
    }
  }

  /** A correlation of one is reached only on a common line of positive slope. */
  lemma FullCorrelationIsALine(a: seq<real>, b: seq<real>, sqrt: Sqrt) returns (m: real, c: real)
    requires IsSqrt(sqrt) && PearsonR(a, b, sqrt) == 1.0
    ensures m > 0.0 && OnLine(a, b, m, c)
  {
    hide Cross, Sxy;
    var sxx, syy, sxy := Sxy(a, a), Sxy(b, b), Sxy(a, b);
    SxyNonneg(a);
    SxyNonneg(b);
    var d, p := Root(sxx, syy, sqrt);
    PearsonIs(a, b, p, d, sqrt);
    assert (sxy / d) * d == sxy;
    m := sxy / sxx;
    c := Mean(b) - m * Mean(a);
    assert m * sxx == sxy;
    PosFactor(sxx, m);
    FlatParabola(sxx, syy, sxy, m);
    SxyResidual(a, b, m);
    NoResidualOnLine(a, b, Mean(a), Mean(b), m);
  }

  lemma PearsonIs(a: seq<real>, b: seq<real>, p: real, d: real, sqrt: Sqrt)
    requires IsSqrt(sqrt) && |a| == |b| && |a| >= 2 && Sxy(a, a) != 0.0 && Sxy(b, b) != 0.0
    requires p == Sxy(a, a) * Sxy(b, b) && d == sqrt(p) && d > 0.0
    ensures PearsonR(a, b, sqrt) == Sxy(a, b) / d
  {
  }

  lemma SxyResidual(a: seq<real>, b: seq<real>, t: real)
    requires |a| == |b| && a != []
    ensures Residual(a, b, Mean(a), Mean(b), t) == Parabola(Sxy(a, a), Sxy(b, b), Sxy(a, b), t)
  {
    ResidualFromSums(a, b, Mean(a), Mean(b), t);
  }

  lemma FlatParabola(sxx: real, syy: real, sxy: real, m: real)
    requires sxx > 0.0 && m * sxx == sxy && sxy * sxy == sxx * syy
    ensures Parabola(sxx, syy, sxy, m) == 0.0
  {
    Associate(m, m, sxx);
    Associate(m, sxx, sxy);
    Associate(sxx, m, sxy);
    assert sxx * (m * sxy) == sxx * syy;
    CancelFactor(m * sxy, syy, sxx);
  }

  // ---- the lag search --------------------------------------------------------------------------------

  /** The correlation of the meter with the reference `lag` buckets earlier. */
  function LagR(meter: seq<real>, ref: seq<real>, lag: int, sqrt: Sqrt): real
    requires IsSqrt(sqrt) && |meter| == |ref| && -|ref| <= lag <= |ref|
  {
    var n := |ref|;
    if lag >= 0 then PearsonR(meter[lag..], ref[..n - lag], sqrt)
    else PearsonR(meter[..n + lag], ref[-lag..], sqrt)
  }

  /** Panicked: a slice bound was out of range. */
  datatype LagResult = Panicked | Lag(lag: int, r: real)

  /** `lag` is the first best lag within maxLag buckets either way. */
  ghost predicate FirstBest(meter: seq<real>, ref: seq<real>, maxLag: int, lag: int, r: real, sqrt: Sqrt)
    requires IsSqrt(sqrt) && |meter| == |ref| && maxLag <= |ref|
  {
    -maxLag <= lag <= maxLag && r == LagR(meter, ref, lag, sqrt) &&
    forall l :: -maxLag <= l <= maxLag ==>
      LagR(meter, ref, l, sqrt) <= r && (LagR(meter, ref, l, sqrt) == r ==> lag <= l)
  }

  /** The search slices out of range exactly when it may shift further than the series is long. */
  method CrossCorrLag(meter: seq<real>, ref: seq<real>, maxLag: int, sqrt: Sqrt) returns (res: LagResult)
    requires IsSqrt(sqrt)
    ensures res.Panicked? <==> |meter| == |ref| && |ref| >= 4 && maxLag > |ref|
    ensures res.Lag? ==> -1.0 <= res.r <= 1.0
    ensures res.Lag? && (|meter| != |ref| || |ref| < 4 || maxLag < 0) ==> res == Lag(0, 0.0)
    ensures |meter| == |ref| && 4 <= |ref| && 0 <= maxLag <= |ref| ==>
      FirstBest(meter, ref, maxLag, res.lag, res.r, sqrt)
  {
    hide PearsonR;
    var n := |meter|;
    if n != |ref| || n < 4 {
      return Lag(0, 0.0);
    }
    var bestLag, bestR := 0, None;
    var lag := -maxLag;
    while lag <= maxLag
      invariant -maxLag <= lag
      invariant if maxLag < 0 then lag == -maxLag else lag <= maxLag + 1
      invariant maxLag <= n || lag == -maxLag
      invariant bestR.None? <==> lag == -maxLag
      invariant bestR.Some? ==> -maxLag <= bestLag < lag && -1.0 <= bestR.value <= 1.0
      invariant bestR.Some? ==> bestR.value == LagR(meter, ref, bestLag, sqrt)
      invariant bestR.Some? ==>
        forall l :: -maxLag <= l < lag ==>
          LagR(meter, ref, l, sqrt) <= bestR.value && (LagR(meter, ref, l, sqrt) == bestR.value ==> bestLag <= l)
    {
      if n + lag < 0 || lag > n {
        return Panicked;
      }
      var r: real;
      if lag >= 0 {
        r := Pearson(meter[lag..], ref[..n - lag], sqrt);
      } else {
        r := Pearson(meter[..n + lag], ref[-lag..], sqrt);
      }
      if bestR.None? || r > bestR.value {
        bestR, bestLag := Some(r), lag;
      }
      lag := lag + 1;
    }
    if bestR.None? {
      return Lag(0, 0.0);
    }
    return Lag(bestLag, bestR.value);
  }

  /**
   * A meter that reports the reference d buckets late, at any scale, is found: the search comes back with
   * a correlation of one, at lag d unless an earlier lag also lines up exactly.
   */
  lemma DelayedMeterIsFound(meter: seq<real>, ref: seq<real>, maxLag: int, d: nat, lag: int, r: real,
                            m: real, c: real, sqrt: Sqrt)
    requires IsSqrt(sqrt) && |meter| == |ref| && d <= maxLag <= |ref| && d + 2 <= |ref|
    requires OnLine(meter[d..], ref[..|ref| - d], m, c) && m > 0.0 && Sxy(meter[d..], meter[d..]) != 0.0
    requires FirstBest(meter, ref, maxLag, lag, r, sqrt)
    ensures r == 1.0 && lag <= d
    ensures (forall l :: -maxLag <= l < d ==> LagR(meter, ref, l, sqrt) != 1.0) ==> lag == d
  {
    PerfectLineCorrelatesFully(meter[d..], ref[..|ref| - d], m, c, sqrt);
    assert LagR(meter, ref, d, sqrt) == 1.0;
    hide PearsonR;
    if lag >= 0 {
      PearsonBounded(meter[lag..], ref[..|ref| - lag], sqrt);
    } else {
      PearsonBounded(meter[..|ref| + lag], ref[-lag..], sqrt);
    }
  }

  const MAX_LAG := 5

  function LagPenalty(lag: int, maxLag: int): real {
    if maxLag <= 0 then 1.0
    else Clamp01(1.0 - 0.5 * (AbsR(lag as real) / maxLag as real))
  }

  /**
   * The second pass over the leading candidates: series shorter than four buckets are skipped, and every
   * other equal-length pair gets a penalty of a tenth per bucket of lag. The guard lets a pair of exactly
   * four through, and that is the one length at which the search fails.
   */
  method EnrichLag(meter: seq<real>, ref: seq<real>, sqrt: Sqrt) returns (res: LagResult, penalty: Option<real>)
    requires IsSqrt(sqrt)
    ensures res.Panicked? <==> |meter| == |ref| == 4
    ensures penalty.Some? <==> |meter| >= 4 && !res.Panicked?
    ensures penalty.Some? ==> 0.5 <= penalty.value <= 1.0 && 10.0 * (1.0 - penalty.value) == AbsR(res.lag as real)
    ensures penalty.Some? && |meter| == |ref| ==> FirstBest(meter, ref, 5, res.lag, res.r, sqrt)
  {
    if |meter| < 4 {
      return Lag(0, 0.0), None;
    }
    res := CrossCorrLag(meter, ref, MAX_LAG, sqrt);
    if res.Panicked? {
      return res, None;
    }
    penalty := Some(LagPenalty(res.lag, MAX_LAG));
  }
}
