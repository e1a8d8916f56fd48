/** Concave functions and exponentials. */
module Concave {
  // Among them the two real functions the selection relies on: the square root it applies to a total relevance,
  // and the exponential of its approximation bound.

  import opened Reals

  /** The chord from x to y is at least as steep as the chord from y to z. */
  ghost predicate ChordsDescend(phi: real -> real, x: real, y: real, z: real) {
    (phi(y) - phi(x)) * (z - y) >= (phi(z) - phi(y)) * (y - x)
  }

  ghost predicate InOrder(phi: real -> real, x: real, y: real) {
    phi(x) <= phi(y)
  }

  /** What the submodular objective asks of phi: zero at zero, non-decreasing and concave. */
  ghost predicate ConcaveGain(phi: real -> real) {
    && phi(0.0) == 0.0
    && (forall x, y | 0.0 <= x <= y :: InOrder(phi, x, y))
    && forall x, y, z | 0.0 <= x < y < z :: ChordsDescend(phi, x, y, z)
  }

  ghost predicate IsSqrt(s: real -> real) {
    forall x | 0.0 <= x :: s(x) >= 0.0 && s(x) * s(x) == x
  }

  lemma MulStrict(p: real, q: real, k: real)
    requires p < q && 0.0 < k
    ensures p * k < q * k
  {
    assert (q - p) * k > 0.0;
  }

  lemma SquareStrict(p: real, q: real)
    requires 0.0 <= p < q
    ensures p * p < q * q
  {
    assert q * q - p * p == (q - p) * (q + p);
    MulStrict(0.0, q - p, q + p);
  }

  /** The same step d gains at least as much from a lower start. */
  lemma DiminishingStep(phi: real -> real, a: real, b: real, d: real)
    requires ConcaveGain(phi)
    requires 0.0 <= a <= b && 0.0 <= d
    ensures phi(b + d) - phi(b) <= phi(a + d) - phi(a)
  {
    if a < b && 0.0 < d {
      var p, q := phi(a + d) - phi(a), phi(b + d) - phi(b);
      var whole := phi(b + d) - phi(a);
      assert ChordsDescend(phi, a, a + d, b + d);
      assert ChordsDescend(phi, a, b, b + d);
      SteeperFirst(p, q, whole, b - a, d);
    }
  }

  lemma SteeperFirst(p: real, q: real, whole: real, gap: real, d: real)
    requires 0.0 < d && 0.0 < gap && p * gap >= (whole - p) * d && (whole - q) * d >= q * gap
    ensures q <= p
  {
    assert p * (gap + d) >= whole * d;
    assert q * (gap + d) <= whole * d;
    if p < q {
      MulStrict(p, q, gap + d);
    }
  }

  /** The square root meets every demand made of phi. */
  lemma SqrtIsConcaveGain(s: real -> real)
    requires IsSqrt(s)
    ensures ConcaveGain(s)
  {
    assert s(0.0) * s(0.0) == 0.0;
    if s(0.0) > 0.0 {
      SquareStrict(0.0, s(0.0));
    }
    forall x, y | 0.0 <= x <= y ensures InOrder(s, x, y) {
      SqrtInOrder(s, x, y);
    }
    forall x, y, z | 0.0 <= x < y < z ensures ChordsDescend(s, x, y, z) {
      SqrtInOrder(s, x, y);
      SqrtInOrder(s, y, z);
      SlopeOfRoots(s(x), s(y), s(z));
    }
  }

  lemma SqrtInOrder(s: real -> real, x: real, y: real)
    requires IsSqrt(s) && 0.0 <= x <= y
    ensures s(x) <= s(y)
  {
    assert s(x) * s(x) == x && s(y) * s(y) == y;
    if s(y) < s(x) {
      SquareStrict(s(y), s(x));
    }
  }

  lemma SlopeOfRoots(p: real, q: real, r: real)
    requires 0.0 <= p <= q <= r
    ensures (q - p) * (r * r - q * q) >= (r - q) * (q * q - p * p)
  {
    var k := (q - p) * (r - q);
    ProductNonNegative(q - p, r - q);
    ProductNonNegative(k, r - p);
    assert (q - p) * (r * r - q * q) == k * (r + q);
    assert (r - q) * (q * q - p * p) == k * (q + p);
    assert k * (r + q) - k * (q + p) == k * (r - p);
  }

  ghost predicate SumLaw(e: real -> real, x: real, y: real) {
    e(x + y) == e(x) * e(y)
  }

  /** What the bound uses of the exponential function. */
  ghost predicate IsExp(e: real -> real) {
    && (forall x: real :: e(x) >= 1.0 + x)
    && forall x, y :: SumLaw(e, x, y)
  }

  lemma ExpPositive(e: real -> real, x: real)
    requires IsExp(e)
    ensures e(x) > 0.0 && e(0.0) == 1.0
  {
    assert SumLaw(e, x / 2.0, x / 2.0);
    assert SumLaw(e, x, -x);
    assert SumLaw(e, 0.0, 0.0);
    assert e(0.0) >= 1.0;
    var z := e(0.0);
    assert z * (z - 1.0) == 0.0;
    assert e(x) == e(x / 2.0) * e(x / 2.0) >= 0.0;
  }

  lemma ExpMonotone(e: real -> real, x: real, y: real)
    requires IsExp(e) && x <= y
    ensures e(x) <= e(y)
  {
    ExpPositive(e, x);
    assert SumLaw(e, x, y - x);
    assert e(y - x) >= 1.0;
    assert e(x) * (e(y - x) - 1.0) >= 0.0;
  }
}
