/** Absolute values and signs of products */
module Reals {

  function Abs(x: real): real {
    if x < 0.0 then -x else x
  }

  lemma ProductPositive(a: real, b: real, r: real)
    requires a > 0.0 && b > 0.0 && r == a * b
    ensures r > 0.0
  {}

  lemma ProductNonneg(a: real, b: real)
    requires a >= 0.0 && b >= 0.0
    ensures a * b >= 0.0
  {}

  lemma NoZeroProduct(x: real, y: real)
    requires x * y == 0.0 && x != 0.0
    ensures y == 0.0
  {}

  lemma SquareNonneg(x: real)
    ensures x * x >= 0.0
  {}

  lemma SquaresGrow(a: real, b: real)
    requires 0.0 <= a < b
    ensures a * a < b * b
  {
    ProductPositive(b, b - a, b * (b - a));
    ProductNonneg(a, b - a);
  }

  lemma SquareMonotone(x: real, y: real)
    requires 0.0 <= x <= y
    ensures x * x <= y * y
  {
    if x < y {
      SquaresGrow(x, y);
    }
  }

  // ----- quotients

  lemma QuotientTimes(x: real, d: real)
    requires d != 0.0
    ensures (x / d) * d == x
  {}

  lemma QuotientIs(x: real, d: real, t: real)
    requires d != 0.0 && x == t * d
    ensures x / d == t
  {
    var q := x / d;
    QuotientTimes(x, d);
    assert (q - t) * d == 0.0;
    NoZeroProduct(d, q - t);
  }

  lemma NegatedQuotient(x: real, d: real)
    requires d != 0.0
    ensures x / -d == -(x / d) && -x / -d == x / d
  {
    QuotientTimes(x, d);
    QuotientIs(x, -d, -(x / d));
    QuotientIs(-x, -d, x / d);
  }

  lemma QuotientOrder(x: real, d: real, q: real)
    requires d > 0.0
    ensures d * q <= x <==> q <= x / d
    ensures x <= d * q <==> x / d <= q
  {
    var y := x / d;
    QuotientTimes(x, d);
    if q > y {
      ProductPositive(q - y, d, q * d - x);
    } else if q < y {
      ProductPositive(y - q, d, x - q * d);
    }
  }

  lemma ProperFraction(x: real, d: real)
    requires 0.0 < x < d
    ensures 0.0 < x / d < 1.0 && (x / d) * d == x
  {
    QuotientTimes(x, d);
    QuotientOrder(x, d, 0.0);
    QuotientOrder(x, d, 1.0);
  }
}
