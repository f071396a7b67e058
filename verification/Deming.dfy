/**
 * The total-least-squares slope (demingSlope): which line it picks, how it compares with the two one-sided
 * regressions, and exactly when its small-covariance fallback still picks the right line.
 */
module Deming {
  import opened Common
  import opened Reals
  import opened Correlation

  const TINY: real := 0.000000000001

  function Discriminant(k: real, sxy: real): real {
    k * k + 4.0 * sxy * sxy
  }

  /** The formula for a covariance that is not zero. */
  function Formula(sxx: real, syy: real, sxy: real, sqrt: Sqrt): real
    requires sxy != 0.0
  {
    (syy - sxx + sqrt(Discriminant(syy - sxx, sxy))) / (2.0 * sxy)
  }

  function DemingSlope(sxx: real, syy: real, sxy: real, sqrt: Sqrt): real {
    if AbsR(sxy) < TINY then
      if sxx == 0.0 then 0.0 else sxy / sxx
    else Formula(sxx, syy, sxy, sqrt)
  }

  /** The quadratic whose root the slope is. */
  function Quad(sxx: real, syy: real, sxy: real, t: real): real {
    sxy * (t * t) + (sxx - syy) * t - sxy
  }

  predicate IsRoot(sxx: real, syy: real, sxy: real, s: real) {
    s * sxy > 0.0 && Quad(sxx, syy, sxy, s) == 0.0
  }

  lemma PositiveSlopeIsRoot(sxx: real, syy: real, sxy: real, sqrt: Sqrt)
    requires IsSqrt(sqrt) && sxy > 0.0
    ensures IsRoot(sxx, syy, sxy, Formula(sxx, syy, sxy, sqrt))
  {
    hide Quad, Discriminant;
    var k, s := syy - sxx, Formula(sxx, syy, sxy, sqrt);
    var aa := Product(sxy, sxy);
    var kk := Product(k, k);
    DiscriminantIs(k, sxy, aa, kk);
    SquareNonneg(k);
    SquareNonneg(sxy);
    var w := sqrt(kk + 4.0 * aa);
    assert w >= 0.0 && w * w == kk + 4.0 * aa;
    PositiveRoot(sxy, k, w, s, aa, kk, kk + 4.0 * aa);
    QuadIs(sxx, syy, sxy, k, s);
    PosFactor(s, sxy);
  }

  lemma DiscriminantIs(k: real, sxy: real, aa: real, kk: real)
    requires aa == sxy * sxy && kk == k * k
    ensures Discriminant(k, sxy) == kk + 4.0 * aa
  {
  }

  lemma QuadIs(sxx: real, syy: real, sxy: real, k: real, t: real)
    requires k == syy - sxx
    ensures Quad(sxx, syy, sxy, t) == sxy * (t * t) - k * t - sxy
  {
    Distribute(t, -k, 0.0);
  }

  /** Turning the covariance's sign turns the slope's and nothing else. */
  lemma Mirror(sxx: real, syy: real, sxy: real, sqrt: Sqrt)
    requires sxy != 0.0
    ensures Formula(sxx, syy, -sxy, sqrt) == -Formula(sxx, syy, sxy, sqrt)
  {
    var d := Discriminant(syy - sxx, sxy);
    assert Discriminant(syy - sxx, -sxy) == d;
    NegatedDenominator(syy - sxx + sqrt(d), sxy);
  }

  lemma NegatedDenominator(p: real, x: real)
    requires x != 0.0
    ensures p / (2.0 * -x) == -(p / (2.0 * x))
  {
  }

  lemma MirrorQuad(sxx: real, syy: real, sxy: real, t: real)
    ensures Quad(sxx, syy, -sxy, -t) == -Quad(sxx, syy, sxy, t) && (-t) * (-sxy) == t * sxy
  {
    assert (-t) * (-t) == t * t;
    assert (-sxy) * (t * t) == -(sxy * (t * t));
    assert (sxx - syy) * (-t) == -((sxx - syy) * t);
  }

  /** The slope has the covariance's sign and solves the quadratic. */
  lemma SlopeIsRoot(sxx: real, syy: real, sxy: real, sqrt: Sqrt)
    requires IsSqrt(sqrt) && sxy != 0.0
    ensures IsRoot(sxx, syy, sxy, Formula(sxx, syy, sxy, sqrt))
  {
    hide Formula, Quad;
    if sxy > 0.0 {
      PositiveSlopeIsRoot(sxx, syy, sxy, sqrt);
    } else {
      PositiveSlopeIsRoot(sxx, syy, -sxy, sqrt);
      Mirror(sxx, syy, sxy, sqrt);
      MirrorQuad(sxx, syy, sxy, Formula(sxx, syy, sxy, sqrt));
    }
  }

  /** With one root known, the quadratic factors. */
  lemma QuadFactors(sxx: real, syy: real, sxy: real, s: real, t: real)
    requires Quad(sxx, syy, sxy, s) == 0.0
    ensures s * Quad(sxx, syy, sxy, t) == (t - s) * (sxy * (t * s + 1.0))
  {
    var k := sxx - syy;
    assert k * s == sxy - sxy * (s * s);
    assert s * (k * t) == (k * s) * t;
    assert (k * s) * t == sxy * t - (sxy * (s * s)) * t;
    var e := t * s;
    assert s * (sxy * (t * t)) == sxy * (t * e);
    assert (sxy * (s * s)) * t == sxy * (s * e);
    assert s * Quad(sxx, syy, sxy, t) == s * (sxy * (t * t)) + s * (k * t) - s * sxy;
    assert (t - s) * (sxy * (e + 1.0)) == sxy * (t * e) + sxy * t - sxy * (s * e) - sxy * s;
  }

  /** For a positive covariance the quadratic is negative before the slope and positive after it. */
  lemma QuadSign(sxx: real, syy: real, sxy: real, s: real, t: real)
    requires sxy > 0.0 && s > 0.0 && t > 0.0 && Quad(sxx, syy, sxy, s) == 0.0
    ensures Quad(sxx, syy, sxy, t) < 0.0 <==> t < s
    ensures Quad(sxx, syy, sxy, t) > 0.0 <==> t > s
  {
    hide Quad;
    QuadFactors(sxx, syy, sxy, s, t);
    PosFactor(t, s);
    PosFactor(sxy, t * s + 1.0);
    var g, q := sxy * (t * s + 1.0), Quad(sxx, syy, sxy, t);
    PosFactor(s, q);
    PosFactor(g, t - s);
  }

  /** No other value of the covariance's sign solves the quadratic. */
  lemma RootIsUnique(sxx: real, syy: real, sxy: real, s: real, t: real)
    requires IsRoot(sxx, syy, sxy, s) && IsRoot(sxx, syy, sxy, t)
    ensures s == t
  {
    hide Quad;
    if sxy > 0.0 {
      PosFactor(sxy, s);
      PosFactor(sxy, t);
      QuadSign(sxx, syy, sxy, s, t);
    } else {
      PosFactor(-sxy, -s);
      PosFactor(-sxy, -t);
      assert (-sxy) * (-s) == s * sxy && (-sxy) * (-t) == t * sxy;
      MirrorQuad(sxx, syy, sxy, s);
      MirrorQuad(sxx, syy, sxy, t);
      QuadSign(sxx, syy, -sxy, -s, -t);
    }
  }

  lemma SteeperThanOls(sxx: real, syy: real, sxy: real, u: real)
    requires sxx > 0.0 && u > 0.0 && u * sxx == sxy && sxy * sxy <= sxx * syy
    ensures Quad(sxx, syy, sxy, u) <= 0.0
  {
    Factored(sxx, syy, sxy, u);
    Associate(sxx, sxy, u);
    Associate(sxy, u, sxx);
    var e := sxy * u - syy;
    assert sxx * e == sxy * sxy - sxx * syy;
    PosFactor(sxx, e);
    PosFactor(u, e);
  }

  lemma FlatterThanInverse(sxx: real, syy: real, sxy: real, v: real)
    requires sxy > 0.0 && v > 0.0 && v * sxy == syy && sxy * sxy <= sxx * syy
    ensures Quad(sxx, syy, sxy, v) >= 0.0
  {
    Factored(sxx, syy, sxy, v);
    Associate(sxx, v, sxy);
    var e := sxx * v - sxy;
    assert v * (sxy * v - syy) == 0.0;
    assert sxy * e == sxx * syy - sxy * sxy;
    PosFactor(sxy, e);
  }

  lemma Factored(sxx: real, syy: real, sxy: real, u: real)
    ensures Quad(sxx, syy, sxy, u) == u * (sxy * u - syy) + (sxx * u - sxy)
  {
    assert sxy * (u * u) == u * (sxy * u);
    assert (sxx - syy) * u == sxx * u - u * syy;
  }

  /**
   * For every positive covariance the slope lies between the regression that blames all error on y
   * (sxy/sxx, the one the fallback uses) and the one that blames it all on x (syy/sxy).
   */
  lemma SlopeBetweenRegressions(sxx: real, syy: real, sxy: real, sqrt: Sqrt)
    requires IsSqrt(sqrt) && sxy > 0.0 && sxx >= 0.0 && sxy * sxy <= sxx * syy
    ensures sxx > 0.0 && syy > 0.0
    ensures sxy / sxx <= DemingSlope(sxx, syy, sxy, sqrt) <= syy / sxy
  {
    hide Quad, Formula;
    AboveASquare(sxy, sxx * syy);
    PosFactor(sxx, syy);
    var u, v := sxy / sxx, syy / sxy;
    assert u * sxx == sxy && v * sxy == syy;
    PosFactor(sxx, u);
    PosFactor(sxy, v);
    SteeperThanOls(sxx, syy, sxy, u);
    FlatterThanInverse(sxx, syy, sxy, v);
    if sxy >= TINY {
      var s := DemingSlope(sxx, syy, sxy, sqrt);
      SlopeIsRoot(sxx, syy, sxy, sqrt);
      PosFactor(sxy, s);
      QuadSign(sxx, syy, sxy, s, u);
      QuadSign(sxx, syy, sxy, s, v);
    } else {
      OlsBelowInverse(sxx, syy, sxy, u, v);
    }
  }

  lemma OlsBelowInverse(sxx: real, syy: real, sxy: real, u: real, v: real)
    requires sxx > 0.0 && sxy > 0.0 && u * sxx == sxy && v * sxy == syy && sxy * sxy <= sxx * syy
    ensures u <= v
  {
    var d := sxx * sxy;
    PosFactor(sxx, sxy);
    assert u * d == sxy * sxy by { Associate(u, sxx, sxy); }
    assert v * d == sxx * syy by { Associate(v, sxy, sxx); }
    PosFactor(d, u - v);
    assert d * (u - v) == u * d - v * d;
  }

  // ---- the line it picks -----------------------------------------------------------------------------

  /** The sum of squared perpendicular distances from the line of slope t through the means. */
  function OrthogonalError(sxx: real, syy: real, sxy: real, t: real): real {
    SquareNonneg(t);
    Parabola(sxx, syy, sxy, t) / (1.0 + t * t)
  }

  ghost predicate IsClosest(sxx: real, syy: real, sxy: real, s: real) {
    forall t :: OrthogonalError(sxx, syy, sxy, s) <= OrthogonalError(sxx, syy, sxy, t)
  }

  function Weighted(q: real, x: real): real {
    q * (x * x)
  }

  lemma WeightedPositive(q: real, x: real)
    requires q > 0.0 && x != 0.0
    ensures Weighted(q, x) > 0.0
  {
    PosFactor(AbsR(x), q * AbsR(x));
    PosFactor(q, AbsR(x));
  }

  /** Whatever is at least the square of a nonzero value is positive. */
  lemma AboveASquare(x: real, p: real)
    requires x != 0.0 && x * x <= p
    ensures p > 0.0
  {
    if x > 0.0 {
      AboveAProduct(x, x, p);
    } else {
      AboveAProduct(-x, -x, p);
    }
  }

  lemma AboveAProduct(x: real, y: real, p: real)
    requires x > 0.0 && y > 0.0 && x * y <= p
    ensures p > 0.0
  {
    PosFactor(x, y);
  }

  lemma WeightedZero(q: real)
    ensures Weighted(q, 0.0) == 0.0
  {
  }

  lemma Recentred(lam: real, q: real, s: real, t: real)
    ensures Parabola(lam + q, lam + s * (q * s), q * s, t) == lam * (1.0 + t * t) + Weighted(q, t - s)
  {
    assert (t - s) * (t - s) == t * t - 2.0 * (t * s) + s * s;
    Distribute(q, t * t - 2.0 * (t * s), s * s);
    assert q * (t * t - 2.0 * (t * s)) == q * (t * t) - 2.0 * (q * (t * s));
    Associate(q, t, s);
    assert t * (q * s) == q * (t * s);
    assert s * (q * s) == q * (s * s);
    Distribute(t * t, lam, q);
  }

  lemma ErrorAbove(lam: real, q: real, s: real, t: real)
    requires q > 0.0
    ensures OrthogonalError(lam + q, lam + s * (q * s), q * s, s) == lam
    ensures OrthogonalError(lam + q, lam + s * (q * s), q * s, t) >= lam
    ensures t != s ==> OrthogonalError(lam + q, lam + s * (q * s), q * s, t) > lam
  {
    hide Parabola, Weighted;
    SquareNonneg(t);
    SquareNonneg(s);
    Recentred(lam, q, s, t);
    Recentred(lam, q, s, s);
    WeightedZero(q);
    OverDenominator(lam, 0.0, 1.0 + s * s);
    if t != s {
      WeightedPositive(q, t - s);
    }
    OverDenominator(lam, Weighted(q, t - s), 1.0 + t * t);
  }

  lemma OverDenominator(lam: real, e: real, d: real)
    requires d > 0.0
    ensures e >= 0.0 ==> (lam * d + e) / d >= lam
    ensures e == 0.0 ==> (lam * d + e) / d == lam
    ensures e > 0.0 ==> (lam * d + e) / d > lam
  {
    var z := (lam * d + e) / d;
    assert z * d == lam * d + e;
    assert d * (z - lam) == e;
    PosFactor(d, z - lam);
  }

  /** A root of the covariance's sign is the one slope with the least perpendicular error. */
  lemma RootIsClosest(sxx: real, syy: real, sxy: real, s: real, t: real)
    requires IsRoot(sxx, syy, sxy, s)
    ensures OrthogonalError(sxx, syy, sxy, s) <= OrthogonalError(sxx, syy, sxy, t)
    ensures t != s ==> OrthogonalError(sxx, syy, sxy, s) < OrthogonalError(sxx, syy, sxy, t)
  {
    hide OrthogonalError;
    var q, lam := RootShape(sxx, syy, sxy, s);
    ErrorAbove(lam, q, s, t);
  }

  lemma RootShape(sxx: real, syy: real, sxy: real, s: real) returns (q: real, lam: real)
    requires IsRoot(sxx, syy, sxy, s)
    ensures q > 0.0 && sxy == q * s && syy == lam + s * (q * s) && sxx == lam + q
  {
    q := sxy / s;
    lam := syy - s * sxy;
    assert q * s == sxy;
    assert s * sxy == q * (s * s);
    SquareNonneg(s);
    PosFactor(s * s, q);
    var k := sxx - syy;
    assert Quad(sxx, syy, sxy, s) == s * (s * sxy + k - q);
    ZeroProduct(s, s * sxy + k - q);
  }

  lemma ZeroProduct(s: real, e: real)
    requires s != 0.0 && s * e == 0.0
    ensures e == 0.0
  {
  }

  lemma FlatErrors(sxx: real, syy: real, t: real)
    ensures OrthogonalError(sxx, syy, 0.0, 0.0) == syy
    ensures syy <= sxx ==> OrthogonalError(sxx, syy, 0.0, t) >= syy
    ensures sxx < syy ==> OrthogonalError(sxx, syy, 0.0, 1.0) < syy
  {
    var d, e := 1.0 + t * t, (t * t) * (sxx - syy);
    SquareNonneg(t);
    assert Parabola(sxx, syy, 0.0, t) == syy * d + e;
    Quotient(syy * d + e, d, syy + e / d);
    assert d * (e / d) == e;
    PosFactor(d, e / d);
    if syy <= sxx {
      ProductNonneg(t * t, sxx - syy);
    }
  }

  /**
   * The slope picks the line of least perpendicular error unless the covariance is under the fallback's
   * threshold; there it does so exactly for a zero covariance with no more spread in y than in x, and for
   * data on one line.
   */
  lemma SlopeIsClosestIff(sxx: real, syy: real, sxy: real, sqrt: Sqrt)
    requires IsSqrt(sqrt) && sxx >= 0.0 && syy >= 0.0 && sxy * sxy <= sxx * syy
    ensures IsClosest(sxx, syy, sxy, DemingSlope(sxx, syy, sxy, sqrt)) <==>
      (AbsR(sxy) >= 0.000000000001 || (sxy == 0.0 && syy <= sxx) || (sxy != 0.0 && sxy * sxy == sxx * syy))
  {
    hide OrthogonalError, Formula, Quad;
    var s := DemingSlope(sxx, syy, sxy, sqrt);
    if AbsR(sxy) >= TINY {
      SlopeIsRoot(sxx, syy, sxy, sqrt);
      forall t ensures OrthogonalError(sxx, syy, sxy, s) <= OrthogonalError(sxx, syy, sxy, t) {
        RootIsClosest(sxx, syy, sxy, s, t);
      }
    } else if sxy == 0.0 {
      assert s == 0.0;
      forall t ensures syy <= sxx ==> OrthogonalError(sxx, syy, 0.0, t) >= syy {
        FlatErrors(sxx, syy, t);
      }
      FlatErrors(sxx, syy, 1.0);
    } else {
      SmallCovariance(sxx, syy, sxy, s, sqrt);
    }
  }

  lemma OlsSlope(sxx: real, syy: real, sxy: real, m: real)
    requires sxx >= 0.0 && sxy != 0.0 && sxy * sxy <= sxx * syy
    requires sxx != 0.0 ==> m == sxy / sxx
    ensures sxx > 0.0 && m * sxx == sxy
  {
    AboveASquare(sxy, sxx * syy);
  }

  lemma SmallCovariance(sxx: real, syy: real, sxy: real, m: real, sqrt: Sqrt)
    requires IsSqrt(sqrt) && sxx >= 0.0 && sxy != 0.0 && sxy * sxy <= sxx * syy
    requires sxx != 0.0 ==> m == sxy / sxx
    ensures IsClosest(sxx, syy, sxy, m) <==> sxy * sxy == sxx * syy
  {
    hide OrthogonalError, Formula, Quad;
    var s := Formula(sxx, syy, sxy, sqrt);
    SlopeIsRoot(sxx, syy, sxy, sqrt);
    OlsSlope(sxx, syy, sxy, m);
    OlsIsRootIff(sxx, syy, sxy, m);
    if sxy * sxy == sxx * syy {
      forall t ensures OrthogonalError(sxx, syy, sxy, m) <= OrthogonalError(sxx, syy, sxy, t) {
        RootIsClosest(sxx, syy, sxy, m, t);
      }
    } else {
      RootIsClosest(sxx, syy, sxy, s, m);
    }
  }

  lemma OlsIsRootIff(sxx: real, syy: real, sxy: real, m: real)
    requires sxx > 0.0 && m * sxx == sxy && sxy != 0.0
    ensures IsRoot(sxx, syy, sxy, m) <==> sxy * sxy == sxx * syy
  {
    Associate(m, sxy, sxx);
    assert sxx * (m * sxy) == sxy * sxy;
    AboveASquare(sxy, sxx * (m * sxy));
    PosFactor(sxx, m * sxy);
    Factored(sxx, syy, sxy, m);
    var e := sxy * m - syy;
    assert sxx * m - sxy == 0.0;
    assert sxx * e == sxy * sxy - sxx * syy;
    if m * e == 0.0 {
      ZeroProduct(m, e);
    }
    if sxx * e == 0.0 {
      ZeroProduct(sxx, e);
    }
  }

  /** The accumulated sums really give the perpendicular error of the data, line by line. */
  lemma ErrorOfData(a: seq<real>, b: seq<real>, t: real)
    requires |a| == |b| && a != []
    ensures OrthogonalError(Sxy(a, a), Sxy(b, b), Sxy(a, b), t) * (1.0 + t * t) == Residual(a, b, Mean(a), Mean(b), t)
  {
    SquareNonneg(t);
    SxyResidual(a, b, t);
  }

  /** On data that lies on a line the slope is the line's, whatever its sign. */
  lemma SlopeOfALine(a: seq<real>, b: seq<real>, m: real, c: real, sqrt: Sqrt)
    requires IsSqrt(sqrt) && a != [] && OnLine(a, b, m, c) && Sxy(a, a) != 0.0
    ensures DemingSlope(Sxy(a, a), Sxy(b, b), Sxy(a, b), sqrt) == m
  {
    hide Sxy, Cross, Quad, Formula;
    LineSums(a, b, m, c);
    SxyNonneg(a);
    LineSlope(Sxy(a, a), Sxy(b, b), Sxy(a, b), m, sqrt);
  }

  lemma LineSlope(sxx: real, syy: real, sxy: real, m: real, sqrt: Sqrt)
    requires IsSqrt(sqrt) && sxx > 0.0 && sxy == m * sxx && syy == (m * m) * sxx
    ensures DemingSlope(sxx, syy, sxy, sqrt) == m
  {
    hide Quad, Formula;
    Quotient(sxy, sxx, m);
    if AbsR(sxy) >= TINY {
      Associate(sxy, m, sxx);
      Associate(m, sxy, sxx);
      Associate(sxx, m * m, sxx);
      assert sxy * sxy == sxx * syy;
      OlsIsRootIff(sxx, syy, sxy, m);
      SlopeIsRoot(sxx, syy, sxy, sqrt);
      RootIsUnique(sxx, syy, sxy, m, Formula(sxx, syy, sxy, sqrt));
    }
  }
}
