/** The range of the effective thrust of a thruster with rudder: the factor by which
    the rudder turns thrust, over the rudder angles of a step. */
module RudderForce {
  import opened Reals
  import opened RudderAngles

  /** computeabcvalue with the coefficients of a rudder: the square of the term */
  function Abc(cy: real, x: real): real {
    0.0004 * (cy * cy) * x * x + (cy * cy - 0.04 * cy) * x + 1.0
  }

  lemma TermSquareIs(cy: real, phi: real, y: real)
    requires y == phi * phi
    ensures TermSquare(cy, phi) == Abc(cy, y)
  {}

  function TermSquare(cy: real, phi: real): real {
    Abc(cy, phi * phi)
  }

  /** The term is the length of (1 - 0.02 Cy phi^2, Cy phi), hence its square is never negative. */
  lemma TermIsLength(cy: real, phi: real)
    ensures var d := 1.0 - 0.02 * cy * phi * phi; TermSquare(cy, phi) == d * d + (cy * phi) * (cy * phi)
    ensures TermSquare(cy, phi) >= 0.0
  {
    var x := phi * phi;
    assert 0.02 * cy * phi * phi == 0.02 * cy * x;
    assert (cy * phi) * (cy * phi) == cy * cy * x;
    assert (1.0 - 0.02 * cy * x) * (1.0 - 0.02 * cy * x) == 1.0 - 0.04 * cy * x + 0.0004 * (cy * cy) * x * x;
    var d := 1.0 - 0.02 * cy * x;
    assert d * d >= 0.0 && (cy * phi) * (cy * phi) >= 0.0;
  }

  lemma AtLeastOne(cy: real, x: real)
    requires cy >= 0.04 && x >= 0.0
    ensures Abc(cy, x) >= 1.0
  {
    assert cy * cy >= 0.04 * cy;
    assert (cy * cy - 0.04 * cy) * x >= 0.0;
    assert (cy * cy) * (x * x) >= 0.0;
  }

  /** The smallest and the largest square of an angle in [lower, upper] */
  function SquareRange(lower: real, upper: real): (real, real) {
    if upper > 0.0 && lower > 0.0 then (lower * lower, upper * upper)
    else if upper < 0.0 && lower < 0.0 then (upper * upper, lower * lower)
    else (0.0, if lower * lower < upper * upper then upper * upper else lower * lower)
  }

  /** The squares of _min_usqrtterm and _max_usqrtterm, for angles whose squares range
      over [least, greatest] */
  function Extremes(cy: real, least: real, greatest: real): (real, real)
    requires cy > 0.0
  {
    var point := 100.0 / cy - 2500.0;
    if least > point then (Abc(cy, least), Abc(cy, greatest))
    else if greatest < point then (Abc(cy, greatest), Abc(cy, least))
    else (Abc(cy, point), if Abc(cy, least) < Abc(cy, greatest) then Abc(cy, greatest) else Abc(cy, least))
  }

  function TermRange(cy: real, lower: real, upper: real): (real, real)
    requires cy > 0.0
  {
    var (least, greatest) := SquareRange(lower, upper);
    Extremes(cy, least, greatest)
  }

  /** least and greatest are the extremes of the squared term over the angles in [lower, upper]. */
  ghost predicate IsRange(cy: real, lower: real, upper: real, least: real, greatest: real) {
    && (forall phi: real :: lower <= phi <= upper ==> least <= TermSquare(cy, phi) <= greatest)
    && (exists phi: real :: lower <= phi <= upper && TermSquare(cy, phi) == least)
    && (exists phi: real :: lower <= phi <= upper && TermSquare(cy, phi) == greatest)
  }

  /** The vertex of the quadratic: half the point the code tests against */
  function Vertex(cy: real): real
    requires cy > 0.0
  {
    50.0 / cy - 1250.0
  }

  function Scaled(cy: real, x: real, y: real): real {
    0.0004 * (cy * cy) * (x * y)
  }

  /** Difference of two values of the quadratic, through the vertex */
  lemma AbcDifference(cy: real, x: real, y: real)
    requires cy > 0.0
    ensures Abc(cy, y) - Abc(cy, x) == Scaled(cy, y - x, x + y - 2.0 * Vertex(cy))
  {
    var v := Vertex(cy);
    assert cy * (50.0 / cy) == 50.0;
    assert cy * v == 50.0 - 1250.0 * cy;
    assert cy * cy * v == 50.0 * cy - 1250.0 * (cy * cy) by {
      assert cy * cy * v == cy * (cy * v);
    }
    assert 0.0008 * (cy * cy * v) == 0.04 * cy - cy * cy;
    assert 0.0004 * (cy * cy) * ((y - x) * (x + y - 2.0 * v))
        == 0.0004 * (cy * cy) * (y * y - x * x) - 0.0008 * (cy * cy * v) * (y - x);
  }

  lemma SignOfProduct(a: real, b: real, x: real, y: real, r: real)
    requires a > 0.0 && b > 0.0 && r == 0.0004 * (a * b) * (x * y)
    ensures x >= 0.0 && y >= 0.0 ==> r >= 0.0
    ensures x >= 0.0 && y <= 0.0 ==> r <= 0.0
    ensures x > 0.0 && y > 0.0 ==> r > 0.0
    ensures x > 0.0 && y < 0.0 ==> r < 0.0
  {
    var p, q := x * y, a * b;
    assert q > 0.0;
    assert r == 0.0004 * (q * p);
    assert p > 0.0 ==> q * p > 0.0;
    assert p < 0.0 ==> q * p < 0.0;
    assert p == 0.0 ==> q * p == 0.0;
  }

  lemma SignOfScaled(cy: real, x: real, y: real)
    requires cy > 0.0
    ensures x >= 0.0 && y >= 0.0 ==> Scaled(cy, x, y) >= 0.0
    ensures x >= 0.0 && y <= 0.0 ==> Scaled(cy, x, y) <= 0.0
    ensures x > 0.0 && y > 0.0 ==> Scaled(cy, x, y) > 0.0
    ensures x > 0.0 && y < 0.0 ==> Scaled(cy, x, y) < 0.0
  {
    SignOfProduct(cy, cy, x, y, Scaled(cy, x, y));
  }

  lemma AbcOrder(cy: real, x: real, y: real)
    requires cy > 0.0 && x <= y
    ensures x + y >= 2.0 * Vertex(cy) ==> Abc(cy, x) <= Abc(cy, y)
    ensures x + y <= 2.0 * Vertex(cy) ==> Abc(cy, x) >= Abc(cy, y)
    ensures x < y && x + y > 2.0 * Vertex(cy) ==> Abc(cy, x) < Abc(cy, y)
    ensures x < y && x + y < 2.0 * Vertex(cy) ==> Abc(cy, x) > Abc(cy, y)
  {
    hide Abc, Vertex, Scaled;
    AbcDifference(cy, x, y);
    SignOfScaled(cy, y - x, x + y - 2.0 * Vertex(cy));
  }

  /** The angle of smallest, and the one of greatest absolute value in [lower, upper] */
  function Nearest(lower: real, upper: real): real {
    if upper > 0.0 && lower > 0.0 then lower else if upper < 0.0 && lower < 0.0 then upper else 0.0
  }

  function Farthest(lower: real, upper: real): real {
    if upper > 0.0 && lower > 0.0 then upper
    else if upper < 0.0 && lower < 0.0 then lower
    else if lower * lower < upper * upper then upper else lower
  }

  lemma SquareRangeIs(lower: real, upper: real, phi: real)
    requires lower <= phi <= upper
    ensures var (least, greatest) := SquareRange(lower, upper);
            && least == Nearest(lower, upper) * Nearest(lower, upper)
            && greatest == Farthest(lower, upper) * Farthest(lower, upper)
            && 0.0 <= least <= phi * phi <= greatest
    ensures lower <= Nearest(lower, upper) <= upper && lower <= Farthest(lower, upper) <= upper
  {
    if phi >= 0.0 {
      SquareMonotone(phi, upper);
      if lower > 0.0 { SquareMonotone(lower, phi); }
    } else {
      SquareMonotone(-phi, -lower);
      if upper < 0.0 { SquareMonotone(-upper, -phi); }
    }
  }

  /** When the computed bounds are right: the two extreme squares are on one side of
      the vertex, or beyond its double, or equal. */
  ghost predicate RangeCondition(cy: real, lower: real, upper: real)
    requires cy > 0.0
  {
    var (least, greatest) := SquareRange(lower, upper);
    least >= 2.0 * Vertex(cy) || greatest <= Vertex(cy) || least == greatest
  }

  lemma ExtremesHold(cy: real, s: real, x: real, t: real)
    requires cy > 0.0 && 0.0 <= s <= x <= t
    requires s >= 2.0 * Vertex(cy) || t <= Vertex(cy) || s == t
    ensures var (least, greatest) := Extremes(cy, s, t); least <= Abc(cy, x) <= greatest
    ensures var (least, greatest) := Extremes(cy, s, t);
            (least == Abc(cy, s) && greatest == Abc(cy, t)) || (least == Abc(cy, t) && greatest == Abc(cy, s))
  {
    hide Abc;
    var v := Vertex(cy);
    assert 2.0 * v == 100.0 / cy - 2500.0;
    hide Vertex;
    AbcOrder(cy, s, t);
    AbcOrder(cy, s, x);
    AbcOrder(cy, x, t);
  }

  lemma RangeHolds(cy: real, lower: real, upper: real)
    requires cy > 0.0 && lower <= upper && RangeCondition(cy, lower, upper)
    ensures var (least, greatest) := TermRange(cy, lower, upper); IsRange(cy, lower, upper, least, greatest)
  {
    hide Abc, SquareRange, Vertex, Extremes, Nearest, Farthest, TermSquare;
    var p, q := Nearest(lower, upper), Farthest(lower, upper);
    SquareRangeIs(lower, upper, lower);
    var (s, t) := SquareRange(lower, upper);
    var (least, greatest) := Extremes(cy, s, t);
    TermSquareIs(cy, p, s);
    TermSquareIs(cy, q, t);
    ExtremesHold(cy, s, s, t);
    forall phi: real | lower <= phi <= upper
      ensures least <= TermSquare(cy, phi) <= greatest
    {
      SquareRangeIs(lower, upper, phi);
      TermSquareIs(cy, phi, phi * phi);
      ExtremesHold(cy, s, phi * phi, t);
    }
  }

  /** An angle whose square lies strictly between v and t, t the square of q > p */
  lemma Closer(p: real, q: real, v: real) returns (x: real)
    requires 0.0 <= p < q && 0.0 < v < q * q
    ensures p <= x < q && v < x * x < q * q
  {
    var gap := (q * q - v) / q;
    assert gap * q == q * q - v;
    assert gap > 0.0;
    var e := if gap < q - p then gap / 2.0 else (q - p) / 2.0;
    x := q - e;
    assert x * x == q * q - 2.0 * (e * q) + e * e;
    assert e * q <= gap * q / 2.0 by { assert (gap / 2.0 - e) * q >= 0.0; }
    assert e * e > 0.0;
    SquaresGrow(x, q);
  }

  lemma UnitSquare(x: real)
    requires 0.0 <= x <= 1.0
    ensures x * x <= x
  {
    ProductNonneg(x, 1.0 - x);
  }

  /** An angle whose square lies strictly between 0 and 2 v */
  lemma Small(q: real, v: real) returns (x: real)
    requires q > 0.0 && v > 0.0
    ensures 0.0 < x <= q && 0.0 < x * x < 2.0 * v
  {
    x := if v <= 1.0 then v else 1.0;
    if q < x { x := q; }
    UnitSquare(x);
    ProductPositive(x, x, x * x);
  }

  /** When the condition fails, some angle of the box has a smaller term than the
      computed minimum. */
  lemma RangeFails(cy: real, lower: real, upper: real) returns (phi: real)
    requires cy > 0.0 && lower <= upper && !RangeCondition(cy, lower, upper)
    ensures lower <= phi <= upper && TermSquare(cy, phi) < TermRange(cy, lower, upper).0
  {
    hide Abc, SquareRange, Extremes, Vertex, Signed;
    var (s, t) := SquareRange(lower, upper);
    var p, q := Reach(lower, upper);
    VertexPoint(cy);
    var x, y := Witness(p, q, Vertex(cy));
    SquareMonotone(p, x);
    SquareMonotone(x, q);
    phi := Signed(lower, upper, x);
    SignedSquare(lower, upper, p, x, q);
    ExtremesFail(cy, s, y, t);
  }

  lemma VertexPoint(cy: real)
    requires cy > 0.0
    ensures 2.0 * Vertex(cy) == 100.0 / cy - 2500.0
  {}

  /** The angle of absolute value x on the side where the box reaches farther */
  function Signed(lower: real, upper: real, x: real): real {
    if Farthest(lower, upper) < 0.0 then -x else x
  }

  lemma Reach(lower: real, upper: real) returns (p: real, q: real)
    requires lower <= upper
    ensures 0.0 <= p <= q && SquareRange(lower, upper) == (p * p, q * q)
    ensures lower <= Signed(lower, upper, p) <= upper && lower <= Signed(lower, upper, q) <= upper
  {
    hide SquareRange;
    var n, f := Nearest(lower, upper), Farthest(lower, upper);
    p, q := if n < 0.0 then -n else n, if f < 0.0 then -f else f;
    SquareRangeIs(lower, upper, lower);
    assert p * p == n * n && q * q == f * f;
    var (s, t) := SquareRange(lower, upper);
    assert s == p * p && t == q * q;
    if p > q {
      SquaresGrow(q, p);
    }
  }

  lemma SignedSquare(lower: real, upper: real, p: real, x: real, q: real)
    requires p <= x <= q
    requires lower <= Signed(lower, upper, p) <= upper && lower <= Signed(lower, upper, q) <= upper
    ensures lower <= Signed(lower, upper, x) <= upper
    ensures Signed(lower, upper, x) * Signed(lower, upper, x) == x * x
  {}

  lemma Witness(p: real, q: real, v: real) returns (x: real, y: real)
    requires 0.0 <= p <= q && p * p != q * q && v < q * q && p * p < 2.0 * v
    ensures p <= x <= q && y == x * x
    ensures if q * q < 2.0 * v then v < y < q * q else 0.0 < y < 2.0 * v
  {
    SquareNonneg(p);
    if q * q < 2.0 * v {
      x := Closer(p, q, v);
    } else if p > 0.0 {
      x := p;
    } else {
      x := Small(q, v);
    }
    y := x * x;
    if x > 0.0 {
      ProductPositive(x, x, y);
    }
  }

  lemma ExtremesFail(cy: real, s: real, y: real, t: real)
    requires cy > 0.0 && 0.0 <= s <= y <= t && Vertex(cy) < t && s < 2.0 * Vertex(cy)
    requires if t < 2.0 * Vertex(cy) then Vertex(cy) < y < t else 0.0 < y < 2.0 * Vertex(cy)
    ensures Abc(cy, y) < Extremes(cy, s, t).0
  {
    var v := Vertex(cy);
    assert 2.0 * v == 100.0 / cy - 2500.0;
    hide Vertex;
    if t < 2.0 * v {
      hide Abc;
      AbcOrder(cy, y, t);
    } else {
      assert Extremes(cy, s, t).0 == Abc(cy, 2.0 * v);
      hide Abc;
      AbcOrder(cy, 0.0, y);
      AbcOrder(cy, 0.0, 2.0 * v);
    }
  }

  /** The computed bounds are the exact range of the term if and only if the condition
      on the box holds. */
  lemma RangeIff(cy: real, lower: real, upper: real)
    requires cy > 0.0 && lower <= upper
    ensures var (least, greatest) := TermRange(cy, lower, upper);
            IsRange(cy, lower, upper, least, greatest) <==> RangeCondition(cy, lower, upper)
  {
    hide RangeCondition, TermRange, TermSquare;
    if RangeCondition(cy, lower, upper) {
      RangeHolds(cy, lower, upper);
    } else {
      var phi := RangeFails(cy, lower, upper);
    }
  }

  /** The computed bounds are right for the box. */
  ghost predicate Right(cy: real, lower: real, upper: real)
    requires cy > 0.0
  {
    var (least, greatest) := TermRange(cy, lower, upper);
    IsRange(cy, lower, upper, least, greatest)
  }

  lemma VertexSign(cy: real)
    requires cy > 0.0
    ensures cy >= 0.04 <==> Vertex(cy) <= 0.0
  {
    var v := Vertex(cy);
    QuotientTimes(50.0, cy);
    assert cy * v == 50.0 - 1250.0 * cy;
    if v > 0.0 {
      ProductPositive(cy, v, cy * v);
    } else {
      ProductNonneg(cy, -v);
    }
  }

  /** They are right for every box within the rudder limits -l and l if and only if
      Cy >= 0.04 or the limits stay up to the vertex. */
  lemma RangeWithin(cy: real, l: real)
    requires cy > 0.0 && l > 0.0
    ensures (forall lower, upper | -l <= lower <= upper <= l :: Right(cy, lower, upper))
       <==> cy >= 0.04 || l * l <= Vertex(cy)
  {
    hide Vertex, TermRange, IsRange;
    VertexSign(cy);
    ProductPositive(l, l, l * l);
    if cy >= 0.04 || l * l <= Vertex(cy) {
      forall lower, upper | -l <= lower <= upper <= l
        ensures Right(cy, lower, upper)
      {
        SquareRangeIs(lower, upper, lower);
        FarthestWithin(lower, upper, l);
        RangeIff(cy, lower, upper);
      }
    } else {
      SquareRangeIs(0.0, l, 0.0);
      RangeIff(cy, 0.0, l);
      assert !Right(cy, 0.0, l);
    }
  }

  lemma FarthestWithin(lower: real, upper: real, l: real)
    requires -l <= lower <= upper <= l
    ensures Farthest(lower, upper) * Farthest(lower, upper) <= l * l
  {
    var p := Farthest(lower, upper);
    if p >= 0.0 {
      SquareMonotone(p, l);
    } else {
      SquareMonotone(-p, l);
    }
  }

  /** For Cy = 0.0126 and limits of 30 degrees they are right. */
  lemma RangeAtThirty(lower: real, upper: real)
    requires -30.0 <= lower <= upper <= 30.0
    ensures Right(0.0126, lower, upper)
  {
    hide Right;
    assert 50.0 / 0.0126 > 3000.0;
    RangeWithin(0.0126, 30.0);
  }

  /** They are right for every box if and only if Cy >= 0.04. */
  lemma RangeForEveryBox(cy: real)
    requires cy > 0.0
    ensures cy >= 0.04 <==> forall lower, upper | lower <= upper :: Right(cy, lower, upper)
  {
    hide Vertex, TermRange, IsRange, RangeCondition;
    VertexSign(cy);
    if cy >= 0.04 {
      forall lower, upper | lower <= upper
        ensures Right(cy, lower, upper)
      {
        SquareRangeIs(lower, upper, lower);
        NoVertexAhead(cy, lower, upper);
        RangeIff(cy, lower, upper);
      }
    } else {
      var l := 1.0 + Vertex(cy);
      SquareNonneg(Vertex(cy));
      assert l * l == 1.0 + 2.0 * Vertex(cy) + Vertex(cy) * Vertex(cy);
      RangeWithin(cy, l);
    }
  }

  lemma NoVertexAhead(cy: real, lower: real, upper: real)
    requires cy > 0.0 && Vertex(cy) <= 0.0 && lower <= upper
    ensures RangeCondition(cy, lower, upper)
  {
    hide Vertex;
    SquareRangeIs(lower, upper, lower);
  }

  lemma AbcNonneg(cy: real, x: real)
    requires cy > 0.0 && x >= 0.0
    ensures Abc(cy, x) >= 0.0
  {
    var d := 1.0 - 0.02 * cy * x;
    SquareNonneg(d);
    ProductPositive(cy, cy, cy * cy);
    ProductNonneg(cy * cy, x);
    assert d * d == 1.0 - 0.04 * cy * x + 0.0004 * (cy * cy) * x * x;
  }

  /** The computed bounds have square roots. */
  lemma TermRangeNonneg(cy: real, lower: real, upper: real)
    requires cy > 0.0 && lower <= upper
    ensures var (least, greatest) := TermRange(cy, lower, upper); least >= 0.0 && greatest >= 0.0
  {
    hide Abc, SquareRange;
    SquareRangeIs(lower, upper, lower);
    var (least, greatest) := SquareRange(lower, upper);
    AbcNonneg(cy, least);
    AbcNonneg(cy, greatest);
    var point := 100.0 / cy - 2500.0;
    if point >= 0.0 {
      AbcNonneg(cy, point);
    }
  }
}
