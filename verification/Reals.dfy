/** Facts about products of reals, one at a time, for the proofs that multiply unknowns. */
module Reals {

  /** A positive factor keeps the sign. */
  lemma PosFactor(x: real, y: real)
    requires x > 0.0
    ensures (x * y > 0.0 <==> y > 0.0) && (x * y < 0.0 <==> y < 0.0)
  {
  }

  lemma SquareNonneg(x: real)
    ensures x * x >= 0.0
  {
  }

  lemma ProductNonneg(x: real, y: real)
    requires x >= 0.0 && y >= 0.0
    ensures x * y >= 0.0
  {
  }

  lemma ScaleLeq(a: real, b: real, c: real)
    requires a <= b && c >= 0.0
    ensures a * c <= b * c
  {
  }

  /** The same with the products named, for callers that know them under other names. */
  lemma ScaledLeq(a: real, b: real, c: real, p: real, q: real)
    requires a <= b && c >= 0.0 && p == a * c && q == b * c
    ensures p <= q
  {
  }

  lemma ScaleLess(a: real, b: real, c: real)
    requires a < b && c > 0.0
    ensures a * c < b * c
  {
  }

  lemma DifferenceOfSquares(p: real, d: real)
    ensures (p - d) * (p + d) == p * p - d * d
  {
  }

  /** Squares order magnitudes. */
  lemma SquareOrder(p: real, d: real)
    requires d >= 0.0 && p * p <= d * d
    ensures -d <= p <= d
  {
    DifferenceOfSquares(p, d);
    if p > d {
      PosFactor(p - d, p + d);
    } else if p < -d {
      DifferenceOfSquares(-p, d);
      PosFactor(-p - d, -p + d);
    }
  }

  lemma SquareRootUnique(x: real, y: real)
    requires x >= 0.0 && y >= 0.0 && x * x == y * y
    ensures x == y
  {
    SquareOrder(x, y);
    SquareOrder(y, x);
  }

  lemma CancelFactor(x: real, y: real, n: real)
    requires n > 0.0 && x * n == y * n
    ensures x == y
  {
    PosFactor(n, x - y);
    PosFactor(n, y - x);
    assert n * (x - y) == x * n - y * n;
  }

  lemma Distribute(m: real, x: real, y: real)
    ensures m * (x + y) == m * x + m * y && (x + y) * m == x * m + y * m
  {
  }

  lemma Associate(x: real, y: real, z: real)
    ensures x * (y * z) == (x * y) * z && x * y == y * x
  {
  }

  /** Division undoes multiplication. */
  lemma Quotient(p: real, d: real, q: real)
    requires d > 0.0 && p == q * d
    ensures p / d == q
  {
    CancelFactor(p / d, q, d);
  }

  lemma FourProducts(u: real, v: real)
    ensures (u + v) * (u + v) == (u - v) * (u - v) + 4.0 * (u * v)
  {
  }

  lemma Doubled(w: real)
    ensures (2.0 * w) * (2.0 * w) == 4.0 * (w * w)
  {
  }

  /** For nonnegative u and v with w^2 <= u*v, twice w is at most u + v. */
  lemma ArithmeticGeometric(u: real, v: real, w: real)
    requires u >= 0.0 && v >= 0.0 && w * w <= u * v
    ensures 2.0 * w <= u + v
  {
    SquareNonneg(u - v);
    FourProducts(u, v);
    Doubled(w);
    SquareOrder(2.0 * w, u + v);
  }

  /** Adding a pair of coordinates keeps the Cauchy-Schwarz inequality of the sums. */
  lemma CauchyStep(p: real, q: real, r: real, x: real, y: real, p1: real, q1: real, r1: real)
    requires q >= 0.0 && r >= 0.0 && p * p <= q * r
    requires p1 == p + x * y && q1 == q + x * x && r1 == r + y * y
    ensures p1 * p1 <= q1 * r1
  {
    var u, v, w, e := q * (y * y), r * (x * x), p * (x * y), x * y;
    SquareNonneg(x);
    SquareNonneg(y);
    SquareNonneg(e);
    ProductNonneg(q, y * y);
    ProductNonneg(r, x * x);
    ScaleLeq(p * p, q * r, e * e);
    Rearranged(p, q, r, x, y);
    ArithmeticGeometric(u, v, w);
    Expanded(p, q, r, x, y);
  }

  lemma Rearranged(p: real, q: real, r: real, x: real, y: real)
    ensures (q * (y * y)) * (r * (x * x)) == (q * r) * ((x * y) * (x * y))
    ensures (p * (x * y)) * (p * (x * y)) == (p * p) * ((x * y) * (x * y))
  {
  }

  lemma Expanded(p: real, q: real, r: real, x: real, y: real)
    ensures (q + x * x) * (r + y * y) == q * r + (q * (y * y) + r * (x * x)) + (x * y) * (x * y)
    ensures (p + x * y) * (p + x * y) == p * p + 2.0 * (p * (x * y)) + (x * y) * (x * y)
  {
  }

  /** A product under a name of its own. */
  lemma Product(x: real, y: real) returns (p: real)
    ensures p == x * y
  {
    p := x * y;
  }

  lemma NamedPositive(x: real, y: real, p: real)
    requires x > 0.0 && y > 0.0 && p == x * y
    ensures p > 0.0
  {
  }

  /** A root of more than k^2 exceeds -k. */
  lemma RootExceeds(k: real, w: real, kk: real, ww: real)
    requires w >= 0.0 && kk == k * k && ww == w * w && ww > kk
    ensures w + k > 0.0
  {
    if w <= -k {
      var cross := Product(w, -k);
      ScaledLeq(w, -k, w, ww, cross);
      ScaledLeq(w, -k, -k, cross, kk);
    }
  }

  /** Completing the square, with every product named. */
  lemma Completed(a: real, k: real, s: real, w: real, aa: real, kk: real, ww: real)
    requires w == 2.0 * (a * s) - k && aa == a * a && kk == k * k && ww == w * w
    ensures ww == 4.0 * (a * (a * (s * s) - k * s - a)) + (kk + 4.0 * aa)
  {
    var y, ss, ks := a * s, s * s, k * s;
    Binomial(y, k);
    assert y * y == a * (a * ss);
    assert y * k == a * ks;
    Distribute(a, a * ss - ks, -a);
    Distribute(a, a * ss, -ks);
  }

  lemma Binomial(y: real, k: real)
    ensures (2.0 * y - k) * (2.0 * y - k) == 4.0 * (y * y) - 4.0 * (y * k) + k * k
  {
  }

  lemma ZeroFactor(a: real, q: real, p: real)
    requires a > 0.0 && p == a * q && p == 0.0
    ensures q == 0.0
  {
  }

  lemma PositiveQuotient(p: real, d: real, s: real)
    requires p > 0.0 && d > 0.0 && s == p / d
    ensures s > 0.0 && s * d == p
  {
  }

  /** The positive root of a*t^2 - k*t - a = 0, by the usual formula. */
  lemma PositiveRoot(a: real, k: real, w: real, s: real, aa: real, kk: real, ww: real)
    requires a > 0.0 && w >= 0.0 && aa == a * a && kk == k * k && ww == w * w
    requires ww == kk + 4.0 * aa && s == (k + w) / (2.0 * a)
    ensures s > 0.0 && a * (s * s) - k * s - a == 0.0
  {
    NamedPositive(a, a, aa);
    RootExceeds(k, w, kk, ww);
    PositiveQuotient(k + w, 2.0 * a, s);
    Completed(a, k, s, w, aa, kk, ww);
    ZeroFactor(a, a * (s * s) - k * s - a, a * (a * (s * s) - k * s - a));
  }
}
