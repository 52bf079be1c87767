/** Line segments in the plane: intersection and nearest point. */
module Segments {
  import opened Reals
  import opened Plane

  /** A segment with its length, the square root taken at construction */
  datatype Segment = Segment(start: Point, end: Point, length: real)

  function Cross(a: Point, b: Point): real {
    a.x * b.y - b.x * a.y
  }

  function Inner(a: Point, b: Point): real {
    a.x * b.x + a.y * b.y
  }

  function SqrDistance(a: Point, b: Point): real {
    Inner(Minus(a, b), Minus(a, b))
  }

  function Direction(s: Segment): Point {
    Minus(s.end, s.start)
  }

  ghost predicate IsSegment(s: Segment) {
    s.length >= 0.0 && s.length * s.length == Inner(Direction(s), Direction(s))
  }

  /** The point at fraction t of the way from start to end */
  function At(s: Segment, t: real): Point {
    Point(s.start.x * (1.0 - t) + s.end.x * t, s.start.y * (1.0 - t) + s.end.y * t)
  }

  // ----- the nearest point

  /** The unit direction, zero for a segment of negligible length */
  function UnitDirection(s: Segment, eps: real): Point
    requires eps >= 0.0
  {
    if s.length <= eps then Point(0.0, 0.0)
    else Point((s.end.x - s.start.x) / s.length, (s.end.y - s.start.y) / s.length)
  }

  function ProjectOntoUnit(s: Segment, eps: real, p: Point): real
    requires eps >= 0.0
  {
    Inner(Minus(p, s.start), UnitDirection(s, eps))
  }

  function FindNearestPoint(s: Segment, eps: real, p: Point): Point
    requires eps >= 0.0
  {
    if s.length <= eps then s.start
    else
      var proj := ProjectOntoUnit(s, eps, p);
      if proj <= 0.0 then s.start
      else if proj >= s.length then s.end
      else
        var u := UnitDirection(s, eps);
        Point(s.start.x + u.x * proj, s.start.y + u.y * proj)
  }

  /** |p - At(t)|^2 == |p - start|^2 - 2 t (p - start).d + t^2 |d|^2 */
  lemma DistanceAlong(s: Segment, p: Point, t: real)
    ensures SqrDistance(p, At(s, t))
         == SqrDistance(p, s.start) - 2.0 * t * Inner(Minus(p, s.start), Direction(s))
            + t * t * Inner(Direction(s), Direction(s))
  {
    var a, b, c, e := p.x - s.start.x, p.y - s.start.y, s.end.x - s.start.x, s.end.y - s.start.y;
    var q := At(s, t);
    assert p.x - q.x == a - t * c && p.y - q.y == b - t * e;
    assert (a - t * c) * (a - t * c) == a * a - 2.0 * t * (a * c) + t * t * (c * c);
    assert (b - t * e) * (b - t * e) == b * b - 2.0 * t * (b * e) + t * t * (e * e);
    assert t * (a * c + b * e) == t * (a * c) + t * (b * e);
    assert t * t * (c * c + e * e) == t * t * (c * c) + t * t * (e * e);
  }

  /** The projection times the length is the inner product with the direction. */
  lemma Projection(s: Segment, eps: real, p: Point)
    requires eps >= 0.0 && IsSegment(s) && s.length > eps
    ensures ProjectOntoUnit(s, eps, p) * s.length == Inner(Minus(p, s.start), Direction(s))
  {
    var l, u := s.length, UnitDirection(s, eps);
    var a, b, c, e := p.x - s.start.x, p.y - s.start.y, s.end.x - s.start.x, s.end.y - s.start.y;
    assert u.x * l == c && u.y * l == e;
    assert (a * u.x + b * u.y) * l == a * (u.x * l) + b * (u.y * l);
  }

  /** The fraction of the segment at which the returned point lies */
  function Fraction(s: Segment, eps: real, p: Point): real
    requires eps >= 0.0
  {
    if s.length <= eps then 0.0
    else
      var proj := ProjectOntoUnit(s, eps, p);
      if proj <= 0.0 then 0.0 else if proj >= s.length then 1.0 else proj / s.length
  }

  lemma NearestIsAt(s: Segment, eps: real, p: Point)
    requires eps >= 0.0 && IsSegment(s)
    ensures FindNearestPoint(s, eps, p) == At(s, Fraction(s, eps, p)) && 0.0 <= Fraction(s, eps, p) <= 1.0
  {
    if s.length > eps {
      var l, proj, u := s.length, ProjectOntoUnit(s, eps, p), UnitDirection(s, eps);
      if 0.0 < proj < l {
        var t := proj / l;
        ProperFraction(proj, l);
        UnitTimes(u.x, l, s.end.x - s.start.x, t, proj);
        UnitTimes(u.y, l, s.end.y - s.start.y, t, proj);
      }
    }
  }

  lemma UnitTimes(u: real, l: real, c: real, t: real, proj: real)
    requires u * l == c && t * l == proj
    ensures u * proj == c * t
  {
    assert u * (t * l) == (u * l) * t;
  }

  /** On [0, 1] the parabola l^2 t^2 - 2 b t, b = proj * l, is least at the clamped proj / l. */
  lemma ClampedLeast(l: real, proj: real, b: real, t0: real, t: real)
    requires l > 0.0 && b == proj * l && 0.0 <= t <= 1.0
    requires t0 == if proj <= 0.0 then 0.0 else if proj >= l then 1.0 else proj / l
    ensures t0 * t0 * (l * l) - 2.0 * t0 * b <= t * t * (l * l) - 2.0 * t * b
  {
    var q, q0 := t * l, t0 * l;
    assert 0.0 <= q <= l by {
      ProductNonneg(t, l);
      ProductNonneg(1.0 - t, l);
    }
    assert t * t * (l * l) == q * q && t0 * t0 * (l * l) == q0 * q0;
    assert t * b == proj * q && t0 * b == proj * q0;
    assert q0 == if proj <= 0.0 then 0.0 else if proj >= l then l else proj;
    assert q * q - 2.0 * (proj * q) - q0 * q0 + 2.0 * (proj * q0) == (q - q0) * (q + q0 - 2.0 * proj);
    if q >= q0 {
      assert (q - q0) * (q + q0 - 2.0 * proj) >= 0.0;
    } else {
      assert (q0 - q) * (2.0 * proj - q - q0) >= 0.0;
    }
  }

  ghost predicate Nearest(s: Segment, p: Point, n: Point) {
    && (exists t :: 0.0 <= t <= 1.0 && n == At(s, t))
    && forall t :: 0.0 <= t <= 1.0 ==> SqrDistance(p, n) <= SqrDistance(p, At(s, t))
  }

  /** The point returned is the nearest of the segment if and only if the segment is not
      of negligible length or the point does not lie ahead of its start. */
  lemma NearestIff(s: Segment, eps: real, p: Point)
    requires eps >= 0.0 && IsSegment(s)
    ensures Nearest(s, p, FindNearestPoint(s, eps, p))
       <==> s.length > eps || Inner(Minus(p, s.start), Direction(s)) <= 0.0
  {
    hide SqrDistance, Inner, At, FindNearestPoint, ProjectOntoUnit, Fraction;
    var n, t0, b := FindNearestPoint(s, eps, p), Fraction(s, eps, p), Inner(Minus(p, s.start), Direction(s));
    NearestIsAt(s, eps, p);
    if s.length > eps || b <= 0.0 {
      forall t | 0.0 <= t <= 1.0
        ensures SqrDistance(p, n) <= SqrDistance(p, At(s, t))
      {
        NoneNearer(s, eps, p, t);
      }
    } else {
      var t := NearerAhead(s, eps, p);
      assert SqrDistance(p, At(s, t)) < SqrDistance(p, n);
    }
  }

  lemma NoneNearer(s: Segment, eps: real, p: Point, t: real)
    requires eps >= 0.0 && IsSegment(s) && 0.0 <= t <= 1.0
    requires s.length > eps || Inner(Minus(p, s.start), Direction(s)) <= 0.0
    ensures SqrDistance(p, At(s, Fraction(s, eps, p))) <= SqrDistance(p, At(s, t))
  {
    hide SqrDistance, Inner, At, ProjectOntoUnit;
    var t0, b := Fraction(s, eps, p), Inner(Minus(p, s.start), Direction(s));
    DistanceAlong(s, p, t0);
    DistanceAlong(s, p, t);
    if s.length > eps {
      Projection(s, eps, p);
      ClampedLeast(s.length, ProjectOntoUnit(s, eps, p), b, t0, t);
    } else {
      Behind(t, b, s.length);
    }
  }

  lemma NearerAhead(s: Segment, eps: real, p: Point) returns (t: real)
    requires eps >= 0.0 && IsSegment(s)
    requires s.length <= eps && Inner(Minus(p, s.start), Direction(s)) > 0.0
    ensures 0.0 <= t <= 1.0 && SqrDistance(p, At(s, t)) < SqrDistance(p, At(s, Fraction(s, eps, p)))
  {
    hide SqrDistance, Inner, At, ProjectOntoUnit;
    t := Ahead(Inner(Minus(p, s.start), Direction(s)), s.length);
    DistanceAlong(s, p, 0.0);
    DistanceAlong(s, p, t);
  }

  lemma Behind(t: real, b: real, l: real)
    requires t >= 0.0 && b <= 0.0
    ensures -2.0 * t * b + t * t * (l * l) >= 0.0
  {
    assert t * -b >= 0.0;
    var q := t * l;
    assert q * q >= 0.0;
    assert t * t * (l * l) == q * q;
  }

  lemma Ahead(b: real, l: real) returns (t: real)
    requires b > 0.0
    ensures 0.0 < t <= 1.0 && -2.0 * t * b + t * t * (l * l) < 0.0
  {
    var s := l * l;
    assert s >= 0.0;
    if s <= b {
      t := 1.0;
    } else {
      t := b / s;
      ProperFraction(b, s);
      assert t * t * s == t * (t * s) == t * b;
      ProductPositive(t, b, t * b);
    }
  }

  // ----- intersection

  predicate IsWithin(v: real, bound1: real, bound2: real, eps: real) {
    var (low, high) := if bound1 > bound2 then (bound2, bound1) else (bound1, bound2);
    low - eps <= v <= high + eps
  }

  /** The points are compared equal. */
  predicate Near(p: Point, q: Point, eps: real) {
    Abs(p.x - q.x) < eps && Abs(p.y - q.y) < eps
  }

  predicate IsPointIn(s: Segment, p: Point, eps: real) {
    if s.length <= eps then Near(s.start, p, eps)
    else
      Abs(Cross(Minus(s.start, p), Minus(s.end, p))) <= eps
      && IsWithin(p.x, s.start.x, s.end.x, eps) && IsWithin(p.y, s.start.y, s.end.y, eps)
  }

  /** On which side of s the point p lies, and how far, times the length */
  function Side(s: Segment, p: Point): real {
    Cross(Direction(s), Minus(p, s.start))
  }

  /** What is taken for a point of s: for a segment of negligible length what is close to
      its start, otherwise what is close to its line and in the box around it. */
  predicate TakenFor(s: Segment, p: Point, eps: real) {
    if s.length <= eps then
      -eps < p.x - s.start.x < eps && -eps < p.y - s.start.y < eps
    else
      && -eps <= Side(s, p) <= eps
      && (s.start.x - eps <= p.x <= s.end.x + eps || s.end.x - eps <= p.x <= s.start.x + eps)
      && (s.start.y - eps <= p.y <= s.end.y + eps || s.end.y - eps <= p.y <= s.start.y + eps)
  }

  /** IsPointIn decides exactly that. */
  lemma TakenIff(s: Segment, p: Point, eps: real)
    requires eps >= 0.0
    ensures IsPointIn(s, p, eps) <==> TakenFor(s, p, eps)
  {
    EndsCross(s, p);
    hide Side, Cross;
  }

  /** Within eps / length of the line of s, or of a short s within eps in x and in y of its start */
  ghost predicate CloseTo(s: Segment, p: Point, eps: real) {
    if s.length > eps then exists t :: SqrDistance(p, At(s, t)) * (s.length * s.length) <= eps * eps
    else SqrDistance(p, s.start) <= 2.0 * (eps * eps)
  }

  /** A point taken for one of s is within eps / length of its line, or, when s is of
      negligible length, within a square around its start. */
  lemma TakenIsNear(s: Segment, p: Point, eps: real)
    requires eps >= 0.0 && IsSegment(s) && TakenFor(s, p, eps)
    ensures CloseTo(s, p, eps)
  {
    hide SqrDistance, At, Side;
    if s.length > eps {
      var t := DistanceToLine(s, p);
      SquareWithin(Side(s, p), eps);
    } else {
      SquareWithin(p.x - s.start.x, eps);
      SquareWithin(p.y - s.start.y, eps);
      SqrDistanceIs(p, s.start);
    }
  }

  lemma SquareWithin(x: real, eps: real)
    requires -eps <= x <= eps
    ensures x * x <= eps * eps
  {
    if x >= 0.0 {
      SquareMonotone(x, eps);
    } else {
      SquareMonotone(-x, eps);
    }
  }

  lemma SqrDistanceIs(p: Point, q: Point)
    ensures SqrDistance(p, q) == (p.x - q.x) * (p.x - q.x) + (p.y - q.y) * (p.y - q.y)
  {}

  /** The distance of p from the foot of its perpendicular, times the length, is the side. */
  lemma DistanceToLine(s: Segment, p: Point) returns (t: real)
    requires IsSegment(s) && s.length > 0.0
    ensures SqrDistance(p, At(s, t)) * (s.length * s.length) == Side(s, p) * Side(s, p)
  {
    var ll, b := s.length * s.length, Inner(Minus(p, s.start), Direction(s));
    ProductPositive(s.length, s.length, ll);
    t := b / ll;
    DistanceAlong(s, p, t);
    Pythagoras(s, p);
    hide SqrDistance, At, Side, Inner;
    AtFoot(SqrDistance(p, s.start), b, ll, t);
  }

  lemma AtFoot(d: real, b: real, ll: real, t: real)
    requires ll > 0.0 && t == b / ll
    ensures (d - 2.0 * t * b + t * t * ll) * ll == d * ll - b * b
  {
    assert t * ll == b;
    assert t * t * ll == t * b;
    assert (t * b) * ll == b * b;
  }

  /** |w|^2 |d|^2 == (w.d)^2 + (w x d)^2 */
  lemma Pythagoras(s: Segment, p: Point)
    ensures SqrDistance(p, s.start) * Inner(Direction(s), Direction(s))
         == Inner(Minus(p, s.start), Direction(s)) * Inner(Minus(p, s.start), Direction(s)) + Side(s, p) * Side(s, p)
  {
    Lagrange(p.x - s.start.x, p.y - s.start.y, s.end.x - s.start.x, s.end.y - s.start.y);
  }

  lemma Lagrange(a: real, b: real, c: real, e: real)
    ensures (a * a + b * b) * (c * c + e * e) == (a * c + b * e) * (a * c + b * e) + (c * b - a * e) * (c * b - a * e)
  {
    var ac, be, cb, ae := a * c, b * e, c * b, a * e;
    assert (a * a + b * b) * (c * c + e * e) == ac * ac + ae * ae + cb * cb + be * be;
    assert ac * be == cb * ae;
  }

  /** Some end of one segment is taken for a point of the other. */
  predicate EndTaken(a: Segment, b: Segment, eps: real) {
    TakenFor(a, b.start, eps) || TakenFor(a, b.end, eps) || TakenFor(b, a.start, eps) || TakenFor(b, a.end, eps)
  }

  lemma EndTests(a: Segment, b: Segment, eps: real)
    requires eps >= 0.0
    ensures IsPointIn(a, b.start, eps) <==> TakenFor(a, b.start, eps)
    ensures IsPointIn(a, b.end, eps) <==> TakenFor(a, b.end, eps)
    ensures IsPointIn(b, a.start, eps) <==> TakenFor(b, a.start, eps)
    ensures IsPointIn(b, a.end, eps) <==> TakenFor(b, a.end, eps)
  {
    hide IsPointIn, TakenFor;
    TakenIff(a, b.start, eps);
    TakenIff(a, b.end, eps);
    TakenIff(b, a.start, eps);
    TakenIff(b, a.end, eps);
  }

  /** No end is, and both sign tests are passed. */
  predicate Crosses(a: Segment, b: Segment, eps: real) {
    && !EndTaken(a, b, eps) && a.length > eps && b.length > eps
    && Side(a, b.start) * Side(a, b.end) < -eps
    && Side(b, a.start) * Side(b, a.end) < -eps
  }

  function GetIntersect(a: Segment, b: Segment, eps: real): (bool, Point)
    requires eps >= 0.0
  {
    if IsPointIn(a, b.start, eps) then (true, b.start)
    else if IsPointIn(a, b.end, eps) then (true, b.end)
    else if IsPointIn(b, a.start, eps) then (true, a.start)
    else if IsPointIn(b, a.end, eps) then (true, a.end)
    else if a.length <= eps || b.length <= eps then (false, Point(0.0, 0.0))
    else
      var cc1, cc2 := Side(a, b.start), Side(a, b.end);
      if cc1 * cc2 >= -eps then (false, Point(0.0, 0.0))
      else
        var cc3, cc4 := Side(b, a.start), Side(b, a.end);
        if cc3 * cc4 >= -eps then (false, Point(0.0, 0.0))
        else
          assert cc3 != cc4 by { OppositeSigns(cc3, cc4); }
          (true, Blend(a, cc4 / (cc4 - cc3)))
  }

  function Blend(a: Segment, ratio: real): Point {
    Point(a.start.x * ratio + a.end.x * (1.0 - ratio), a.start.y * ratio + a.end.y * (1.0 - ratio))
  }

  lemma OppositeSigns(x: real, y: real)
    requires x * y < 0.0
    ensures x != y
    ensures 0.0 < y / (y - x) < 1.0
    ensures (x < 0.0 && y > 0.0) || (x > 0.0 && y < 0.0)
  {
    if x >= 0.0 && y >= 0.0 {
      ProductNonneg(x, y);
      assert false;
    }
    if x <= 0.0 && y <= 0.0 {
      ProductNonneg(-x, -y);
      assert false;
    }
    if y > 0.0 {
      ProperFraction(y, y - x);
    } else {
      ProperFraction(-y, x - y);
      assert y / (y - x) == -y / (x - y) by { NegatedQuotient(y, y - x); }
    }
  }

  /** The fraction along a at which a crosses the line of b */
  function Crossing(a: Segment, b: Segment): real
    requires Side(b, a.start) != Side(b, a.end)
  {
    1.0 - Side(b, a.end) / (Side(b, a.end) - Side(b, a.start))
  }

  lemma SideAlong(b: Segment, a: Segment, t: real)
    ensures Side(b, At(a, t)) == Side(b, a.start) * (1.0 - t) + Side(b, a.end) * t
  {
    var dx, dy := b.end.x - b.start.x, b.end.y - b.start.y;
    var sx, sy, ex, ey := a.start.x - b.start.x, a.start.y - b.start.y, a.end.x - b.start.x, a.end.y - b.start.y;
    var p := At(a, t);
    assert p.x - b.start.x == sx * (1.0 - t) + ex * t && p.y - b.start.y == sy * (1.0 - t) + ey * t;
    assert dx * (sy * (1.0 - t) + ey * t) == dx * sy * (1.0 - t) + dx * ey * t;
    assert (sx * (1.0 - t) + ex * t) * dy == sx * dy * (1.0 - t) + ex * dy * t;
  }

  /** The crossing lies on the line of b, and no other point of the line of a does. */
  lemma CrossingIsUnique(a: Segment, b: Segment, t: real)
    requires Side(b, a.start) != Side(b, a.end)
    ensures Side(b, At(a, t)) == 0.0 <==> t == Crossing(a, b)
  {
    hide Side, At;
    SideAlong(b, a, t);
    Balance(Side(b, a.start), Side(b, a.end), t);
  }

  lemma Balance(x: real, y: real, t: real)
    requires x != y
    ensures x * (1.0 - t) + y * t == 0.0 <==> t == 1.0 - y / (y - x)
  {
    var r := y / (y - x);
    assert r * (y - x) == y;
    var e := 1.0 - t - r;
    assert x * (1.0 - t) + y * t == y - (1.0 - t) * (y - x) == -(e * (y - x));
    if e * (y - x) == 0.0 {
      NoZeroProduct(y - x, e);
    }
  }

  /** Two points on both of two lines that are not parallel are the same. */
  lemma OnePoint(a: Segment, b: Segment, p: Point, q: Point)
    requires Side(a, p) == Side(a, q) == 0.0 && Side(b, p) == Side(b, q) == 0.0
    requires Side(b, a.start) != Side(b, a.end)
    ensures p == q
  {
    var ax, ay, bx, bz := a.end.x - a.start.x, a.end.y - a.start.y, b.end.x - b.start.x, b.end.y - b.start.y;
    var dx, dy := p.x - q.x, p.y - q.y;
    var c := bx * ay - ax * bz;
    assert c == Side(b, a.end) - Side(b, a.start);
    SameSide(ax, ay, p.x - a.start.x, p.y - a.start.y, q.x - a.start.x, q.y - a.start.y, dx, dy);
    SameSide(bx, bz, p.x - b.start.x, p.y - b.start.y, q.x - b.start.x, q.y - b.start.y, dx, dy);
    Cramer(ax, ay, bx, bz, dx, dy, c);
  }

  lemma SameSide(x: real, y: real, px: real, py: real, qx: real, qy: real, dx: real, dy: real)
    requires x * py - px * y == 0.0 && x * qy - qx * y == 0.0 && dx == px - qx && dy == py - qy
    ensures x * dy - dx * y == 0.0
  {
    assert x * dy == x * py - x * qy && dx * y == px * y - qx * y;
  }

  lemma Cramer(ax: real, ay: real, bx: real, bz: real, dx: real, dy: real, c: real)
    requires ax * dy - dx * ay == 0.0 && bx * dy - dx * bz == 0.0 && c == bx * ay - ax * bz && c != 0.0
    ensures dx == 0.0 && dy == 0.0
  {
    assert dx * c == bx * (dx * ay) - ax * (dx * bz) == bx * (ax * dy) - ax * (bx * dy) == 0.0;
    assert dy * c == ay * (bx * dy) - bz * (ax * dy) == ay * (dx * bz) - bz * (dx * ay) == 0.0;
    NoZeroProduct(c, dx);
    NoZeroProduct(c, dy);
  }

  /** Segments whose ends are on different sides of each other have one common point,
      strictly inside both. */
  lemma CrossingPoint(a: Segment, b: Segment)
    requires Side(a, b.start) * Side(a, b.end) < 0.0 && Side(b, a.start) * Side(b, a.end) < 0.0
    ensures Side(b, a.start) != Side(b, a.end)
    ensures exists t, u :: 0.0 < t < 1.0 && 0.0 < u < 1.0 && At(a, Crossing(a, b)) == At(a, t) == At(b, u)
    ensures forall t, u :: At(a, t) == At(b, u) ==> At(a, t) == At(a, Crossing(a, b))
  {
    hide Side, At;
    OppositeSigns(Side(a, b.start), Side(a, b.end));
    OppositeSigns(Side(b, a.start), Side(b, a.end));
    var t, u := Crossing(a, b), Crossing(b, a);
    var p, q := At(a, t), At(b, u);
    CrossingIsUnique(a, b, t);
    CrossingIsUnique(b, a, u);
    OnOwnLine(a, t);
    OnOwnLine(b, u);
    OnePoint(a, b, p, q);
    forall t', u' | At(a, t') == At(b, u')
      ensures At(a, t') == p
    {
      OnOwnLine(b, u');
      CrossingIsUnique(a, b, t');
    }
  }

  /** When both sign tests are passed, the point returned is strictly inside both
      segments and is their only common point. */
  lemma IntersectIsOnlyCommonPoint(a: Segment, b: Segment, eps: real)
    requires eps >= 0.0 && Crosses(a, b, eps)
    ensures GetIntersect(a, b, eps).0
    ensures exists t, u :: 0.0 < t < 1.0 && 0.0 < u < 1.0 && GetIntersect(a, b, eps).1 == At(a, t) == At(b, u)
    ensures forall t, u :: At(a, t) == At(b, u) ==> At(a, t) == GetIntersect(a, b, eps).1
  {
    hide Side, At, TakenFor, GetIntersect;
    CrossingPoint(a, b);
    IntersectIsAt(a, b, eps);
  }

  lemma IntersectIsAt(a: Segment, b: Segment, eps: real)
    requires eps >= 0.0 && Crosses(a, b, eps) && Side(b, a.start) != Side(b, a.end)
    ensures GetIntersect(a, b, eps) == (true, At(a, Crossing(a, b)))
  {
    hide Side, IsPointIn, TakenFor;
    EndTests(a, b, eps);
    OppositeSigns(Side(b, a.start), Side(b, a.end));
    var cc3, cc4 := Side(b, a.start), Side(b, a.end);
    BlendIsAt(a, cc4 / (cc4 - cc3));
    assert !(cc3 * cc4 >= -eps) && !(Side(a, b.start) * Side(a, b.end) >= -eps);
    hide Blend, At;
  }

  lemma BlendIsAt(a: Segment, ratio: real)
    ensures Blend(a, ratio) == At(a, 1.0 - ratio)
  {}

  lemma OnOwnLine(a: Segment, t: real)
    ensures Side(a, At(a, t)) == 0.0
  {
    SideAlong(a, a, t);
    var dx, dy := a.end.x - a.start.x, a.end.y - a.start.y;
    assert Side(a, a.start) == dx * 0.0 - 0.0 * dy == 0.0;
    assert Side(a, a.end) == dx * dy - dx * dy == 0.0;
  }

  /** The point does not depend on the order of the segments. */
  lemma IntersectIsSymmetric(a: Segment, b: Segment, eps: real)
    requires eps >= 0.0 && Crosses(a, b, eps)
    ensures GetIntersect(a, b, eps) == GetIntersect(b, a, eps)
  {
    hide Side, At, TakenFor, GetIntersect;
    IntersectIsOnlyCommonPoint(a, b, eps);
    IntersectIsOnlyCommonPoint(b, a, eps);
  }

  // ----- common points

  ghost predicate On(s: Segment, p: Point) {
    exists t :: 0.0 <= t <= 1.0 && p == At(s, t)
  }

  ghost predicate Common(a: Segment, b: Segment, p: Point) {
    On(a, p) && On(b, p)
  }

  /** The exact test for a point of a segment */
  predicate OnTest(s: Segment, p: Point) {
    Side(s, p) == 0.0 && IsWithin(p.x, s.start.x, s.end.x, 0.0) && IsWithin(p.y, s.start.y, s.end.y, 0.0)
  }

  lemma OnTestIff(s: Segment, p: Point)
    ensures OnTest(s, p) <==> On(s, p)
  {
    hide At, OnTest;
    if On(s, p) {
      var t :| 0.0 <= t <= 1.0 && p == At(s, t);
      OnIsTested(s, p, t);
    }
    if OnTest(s, p) {
      var t := TestedIsOn(s, p);
    }
  }

  /** IsPointIn and the points of the segment, for any tolerance: a segment of negligible
      length has the points compared equal to its start; a longer one has all its own
      points, and such others as pass the test without being exactly on it. */
  lemma PointInIff(s: Segment, p: Point, eps: real)
    requires eps >= 0.0
    ensures (IsPointIn(s, p, eps) <==> On(s, p))
       <==> if s.length <= eps then TakenFor(s, p, eps) == OnTest(s, p) else TakenFor(s, p, eps) ==> OnTest(s, p)
    ensures s.length > eps && On(s, p) ==> IsPointIn(s, p, eps)
  {
    hide On, Side, IsPointIn;
    OnTestIff(s, p);
    TakenIff(s, p, eps);
  }

  lemma OnIsTested(s: Segment, p: Point, t: real)
    requires 0.0 <= t <= 1.0 && p == At(s, t)
    ensures OnTest(s, p)
  {
    OnOwnLine(s, t);
    hide Side, IsWithin;
    BetweenIsWithin(p.x, s.start.x, s.end.x, t);
    BetweenIsWithin(p.y, s.start.y, s.end.y, t);
  }

  lemma BetweenIsWithin(v: real, x: real, y: real, t: real)
    requires 0.0 <= t <= 1.0 && v == x * (1.0 - t) + y * t
    ensures IsWithin(v, x, y, 0.0)
  {
    Between(v, x, y, t);
  }

  lemma TestedIsOn(s: Segment, p: Point) returns (t: real)
    requires OnTest(s, p)
    ensures 0.0 <= t <= 1.0 && p == At(s, t)
  {
    if s.start == s.end {
      t := 0.0;
      AtPoint(s, t);
    } else {
      hide Side, At;
      t := Parameter(s, p);
      ParameterWithin(s, p, t);
    }
  }

  lemma AtPoint(s: Segment, t: real)
    requires s.start == s.end
    ensures At(s, t) == s.start
  {
    Constant(s.start.x, t);
    Constant(s.start.y, t);
  }

  lemma Constant(x: real, t: real)
    ensures x * (1.0 - t) + x * t == x
  {}

  /** The product that IsPointIn compares is the side of the point. */
  lemma EndsCross(s: Segment, p: Point)
    ensures Cross(Minus(s.start, p), Minus(s.end, p)) == Side(s, p)
  {
    var dx, dy, wx, wy := s.end.x - s.start.x, s.end.y - s.start.y, p.x - s.start.x, p.y - s.start.y;
    assert -wx * (dy - wy) - (dx - wx) * -wy == dx * wy - wx * dy;
  }

  lemma Between(v: real, x: real, y: real, t: real)
    requires 0.0 <= t <= 1.0 && v == x * (1.0 - t) + y * t
    ensures x <= y ==> x <= v <= y
    ensures y <= x ==> y <= v <= x
  {
    var d := y - x;
    var e, f := d * t, d * (1.0 - t);
    assert v == x + e && v == y - f;
    if x <= y {
      ProductNonneg(d, t);
      ProductNonneg(d, 1.0 - t);
    }
    if y <= x {
      ProductNonneg(-d, t);
      ProductNonneg(-d, 1.0 - t);
    }
  }

  /** Where a point of the line of s lies along s */
  lemma Parameter(s: Segment, p: Point) returns (t: real)
    requires (s.start.x != s.end.x || s.start.y != s.end.y) && Side(s, p) == 0.0
    ensures p == At(s, t)
  {
    var dx, dy, wx, wy := s.end.x - s.start.x, s.end.y - s.start.y, p.x - s.start.x, p.y - s.start.y;
    assert dx * wy - wx * dy == 0.0;
    if dx != 0.0 {
      t := wx / dx;
      Proportional(dx, dy, wx, wy, t);
    } else {
      t := wy / dy;
      Proportional(dy, dx, wy, wx, t);
    }
    AlongIs(p.x, s.start.x, s.end.x, t);
    AlongIs(p.y, s.start.y, s.end.y, t);
  }

  lemma AlongIs(v: real, x: real, y: real, t: real)
    requires (y - x) * t == v - x
    ensures v == x * (1.0 - t) + y * t
  {}

  lemma Proportional(dx: real, dy: real, wx: real, wy: real, t: real)
    requires dx != 0.0 && t == wx / dx && dx * wy - wx * dy == 0.0
    ensures dx * t == wx && dy * t == wy
  {
    assert t * dx == wx;
    assert (dy * t - wy) * dx == dy * (t * dx) - wy * dx == 0.0;
    NoZeroProduct(dx, dy * t - wy);
  }

  lemma ParameterWithin(s: Segment, p: Point, t: real)
    requires p == At(s, t) && (s.start.x != s.end.x || s.start.y != s.end.y)
    requires IsWithin(p.x, s.start.x, s.end.x, 0.0) && IsWithin(p.y, s.start.y, s.end.y, 0.0)
    ensures 0.0 <= t <= 1.0
  {
    if s.start.x != s.end.x {
      WithinUnit(s.start.x, s.end.x, t);
    } else {
      WithinUnit(s.start.y, s.end.y, t);
    }
  }

  lemma WithinUnit(x: real, y: real, t: real)
    requires x != y
    requires var v := x * (1.0 - t) + y * t; x <= v <= y || y <= v <= x
    ensures 0.0 <= t <= 1.0
  {
    var d := y - x;
    assert x * (1.0 - t) + y * t == x + d * t == y - d * (1.0 - t);
    if t < 0.0 {
      if d > 0.0 { ProductPositive(d, -t, d * -t); } else { ProductPositive(-d, -t, -d * -t); }
    }
    if t > 1.0 {
      if d > 0.0 { ProductPositive(d, t - 1.0, d * (t - 1.0)); } else { ProductPositive(-d, t - 1.0, -d * (t - 1.0)); }
    }
  }

  /** A weighted mean of x and y vanishes strictly between them only if their signs differ. */
  lemma MeanVanishes(x: real, y: real, u: real)
    requires 0.0 < u < 1.0 && x * (1.0 - u) + y * u == 0.0 && (x != 0.0 || y != 0.0)
    ensures x * y < 0.0
  {
    if x > 0.0 { ProductPositive(x, 1.0 - u, x * (1.0 - u)); }
    if x < 0.0 { ProductPositive(-x, 1.0 - u, -x * (1.0 - u)); }
    if y > 0.0 { ProductPositive(y, u, y * u); }
    if y < 0.0 { ProductPositive(-y, u, -y * u); }
    if x > 0.0 { ProductPositive(x, -y, x * -y); } else { ProductPositive(-x, y, -x * y); }
  }

  /** If a common point is no end of b, and no end of a is on b, the ends of b lie on
      different sides of a. */
  lemma SidesOppose(a: Segment, b: Segment, p: Point)
    requires a.start.x != a.end.x || a.start.y != a.end.y
    requires Common(a, b, p) && !On(a, b.start) && !On(a, b.end) && !On(b, a.start)
    ensures Side(a, b.start) * Side(a, b.end) < 0.0
  {
    hide Side, At;
    var t :| 0.0 <= t <= 1.0 && p == At(a, t);
    var u :| 0.0 <= u <= 1.0 && p == At(b, u);
    AtEnds(a);
    AtEnds(b);
    OnOwnLine(a, t);
    SideAlong(a, b, u);
    if Side(a, b.start) == 0.0 && Side(a, b.end) == 0.0 {
      var r := Parameter(a, b.start);
      var s := Parameter(a, b.end);
      Composed(a, b, r, s, u);
      Injective(a, t, r * (1.0 - u) + s * u);
      assert !(0.0 <= r <= 1.0) && !(0.0 <= s <= 1.0);
      var v := VanishingMean(r, s, u, t);
      Composed(a, b, r, s, v);
      assert false;
    } else {
      MeanVanishes(Side(a, b.start), Side(a, b.end), u);
    }
  }

  /** A point along b, when b lies along the line of a */
  lemma Composed(a: Segment, b: Segment, r: real, s: real, u: real)
    requires b.start == At(a, r) && b.end == At(a, s)
    ensures At(b, u) == At(a, r * (1.0 - u) + s * u)
  {
    Compose(a.start.x, a.end.x, r, s, u);
    Compose(a.start.y, a.end.y, r, s, u);
  }

  lemma Compose(x: real, y: real, r: real, s: real, u: real)
    ensures (x * (1.0 - r) + y * r) * (1.0 - u) + (x * (1.0 - s) + y * s) * u
         == x * (1.0 - (r * (1.0 - u) + s * u)) + y * (r * (1.0 - u) + s * u)
  {
    var d := y - x;
    assert x * (1.0 - r) + y * r == x + d * r;
    assert x * (1.0 - s) + y * s == x + d * s;
    var w := r * (1.0 - u) + s * u;
    assert x * (1.0 - w) + y * w == x + d * w;
    assert d * w == (d * r) * (1.0 - u) + (d * s) * u;
    assert x * (1.0 - u) + x * u == x;
  }

  lemma Injective(a: Segment, t: real, w: real)
    requires (a.start.x != a.end.x || a.start.y != a.end.y) && At(a, t) == At(a, w)
    ensures t == w
  {
    if a.start.x != a.end.x {
      InjectiveIn(a.start.x, a.end.x, t, w);
    } else {
      InjectiveIn(a.start.y, a.end.y, t, w);
    }
  }

  lemma InjectiveIn(x: real, y: real, t: real, w: real)
    requires x != y && x * (1.0 - t) + y * t == x * (1.0 - w) + y * w
    ensures t == w
  {
    assert x * (1.0 - t) + y * t == x + (y - x) * t;
    assert x * (1.0 - w) + y * w == x + (y - x) * w;
    assert (t - w) * (y - x) == 0.0;
    NoZeroProduct(y - x, t - w);
  }

  /** A mean in [0, 1] of two numbers outside it has them on either side, so they have 0 between them. */
  lemma VanishingMean(r: real, s: real, u: real, t: real) returns (v: real)
    requires 0.0 <= u <= 1.0 && 0.0 <= t <= 1.0 && t == r * (1.0 - u) + s * u
    requires !(0.0 <= r <= 1.0) && !(0.0 <= s <= 1.0)
    ensures 0.0 <= v <= 1.0 && r * (1.0 - v) + s * v == 0.0
  {
    var d := s - r;
    assert t == r + d * u == s - d * (1.0 - u);
    if d >= 0.0 {
      ProductNonneg(d, u);
      ProductNonneg(d, 1.0 - u);
    } else {
      ProductNonneg(-d, u);
      ProductNonneg(-d, 1.0 - u);
    }
    v := -r / d;
    assert v * d == -r;
    assert r * (1.0 - v) + s * v == r + v * d;
    if r < 0.0 {
      ProperFraction(-r, d);
    } else {
      ProperFraction(r, -d);
      NegatedQuotient(-r, d);
    }
  }

  /** The exact test for segments with a common point: some end of one is on the other,
      or the ends of each are on different sides of the other. */
  predicate Meets(a: Segment, b: Segment) {
    || OnTest(a, b.start) || OnTest(a, b.end) || OnTest(b, a.start) || OnTest(b, a.end)
    || (Side(a, b.start) * Side(a, b.end) < 0.0 && Side(b, a.start) * Side(b, a.end) < 0.0)
  }

  lemma MeetsIff(a: Segment, b: Segment)
    ensures Meets(a, b) <==> exists p :: Common(a, b, p)
  {
    hide Side, OnTest, On, At;
    OnTestIff(a, b.start);
    OnTestIff(a, b.end);
    OnTestIff(b, a.start);
    OnTestIff(b, a.end);
    EndsOn(a);
    EndsOn(b);
    if p :| Common(a, b, p) {
      NoEndMeets(a, b, p);
    }
    if OnTest(a, b.start) {
      assert Common(a, b, b.start);
    } else if OnTest(a, b.end) {
      assert Common(a, b, b.end);
    } else if OnTest(b, a.start) {
      assert Common(a, b, a.start);
    } else if OnTest(b, a.end) {
      assert Common(a, b, a.end);
    } else if Meets(a, b) {
      CrossingIsCommon(a, b);
    }
  }

  lemma CrossingIsCommon(a: Segment, b: Segment)
    requires Side(a, b.start) * Side(a, b.end) < 0.0 && Side(b, a.start) * Side(b, a.end) < 0.0
    ensures exists p :: Common(a, b, p)
  {
    hide Side, At;
    CrossingPoint(a, b);
    var t, u :| 0.0 < t < 1.0 && 0.0 < u < 1.0 && At(a, t) == At(b, u);
    assert Common(a, b, At(a, t));
  }

  lemma NoEndMeets(a: Segment, b: Segment, p: Point)
    requires Common(a, b, p)
    ensures On(a, b.start) || On(a, b.end) || On(b, a.start) || On(b, a.end)
         || (Side(a, b.start) * Side(a, b.end) < 0.0 && Side(b, a.start) * Side(b, a.end) < 0.0)
  {
    hide Side, On, At;
    if !On(a, b.start) && !On(a, b.end) && !On(b, a.start) && !On(b, a.end) {
      LongWhenNoEnd(a, b, p);
      LongWhenNoEnd(b, a, p);
      SidesOppose(a, b, p);
      SidesOppose(b, a, p);
    }
  }

  lemma AtEnds(s: Segment)
    ensures At(s, 0.0) == s.start && At(s, 1.0) == s.end
  {}

  lemma EndsOn(s: Segment)
    ensures On(s, s.start) && On(s, s.end)
  {
    AtEnds(s);
  }

  lemma LongWhenNoEnd(a: Segment, b: Segment, p: Point)
    requires Common(a, b, p) && !On(b, a.start)
    ensures a.start.x != a.end.x || a.start.y != a.end.y
  {
    if a.start == a.end {
      var t :| 0.0 <= t <= 1.0 && p == At(a, t);
      AtPoint(a, t);
      assert false;
    }
  }

  // ----- what GetIntersect reports

  /** Some end is taken to be on the other segment, but there is no common point. */
  predicate FalseAlarm(a: Segment, b: Segment, eps: real) {
    EndTaken(a, b, eps) && !Meets(a, b)
  }

  /** No end is found on the other segment, and the segments have a common point, but one
      is of negligible length, or the product of two sides is within the tolerance of 0. */
  predicate Missed(a: Segment, b: Segment, eps: real) {
    && !EndTaken(a, b, eps)
    && if a.length <= eps || b.length <= eps then Meets(a, b)
       else
         var x, y := Side(a, b.start) * Side(a, b.end), Side(b, a.start) * Side(b, a.end);
         x < 0.0 && y < 0.0 && (-eps <= x || -eps <= y)
  }

  /** For every tolerance, GetIntersect reports rightly whether the segments have a common
      point if and only if there is neither a false alarm nor a missed crossing. */
  lemma IntersectIff(a: Segment, b: Segment, eps: real)
    requires eps >= 0.0
    ensures (GetIntersect(a, b, eps).0 <==> exists p :: Common(a, b, p))
       <==> !FalseAlarm(a, b, eps) && !Missed(a, b, eps)
  {
    hide Common, Side, TakenFor, OnTest, Blend;
    MeetsIff(a, b);
    LongMeets(a, b, eps);
    if EndTaken(a, b, eps) {
      EndIntersect(a, b, eps);
    } else {
      IntersectIsCrosses(a, b, eps);
    }
  }

  lemma IntersectIsCrosses(a: Segment, b: Segment, eps: real)
    requires eps >= 0.0 && !EndTaken(a, b, eps)
    ensures GetIntersect(a, b, eps).0 <==> Crosses(a, b, eps)
  {
    hide Side, IsPointIn, TakenFor, Blend;
    EndTests(a, b, eps);
  }

  /** An end is reported that is taken for a point of the other segment, and so is close to it. */
  lemma EndIntersect(a: Segment, b: Segment, eps: real)
    requires eps >= 0.0 && EndTaken(a, b, eps)
    ensures var (found, p) := GetIntersect(a, b, eps);
            found && (((p == b.start || p == b.end) && TakenFor(a, p, eps) && (IsSegment(a) ==> CloseTo(a, p, eps)))
                   || ((p == a.start || p == a.end) && TakenFor(b, p, eps) && (IsSegment(b) ==> CloseTo(b, p, eps))))
  {
    hide Side, IsPointIn, TakenFor, Blend, IsSegment, CloseTo;
    EndTests(a, b, eps);
    var p := GetIntersect(a, b, eps).1;
    if TakenFor(a, p, eps) && IsSegment(a) {
      TakenIsNear(a, p, eps);
    }
    if TakenFor(b, p, eps) && IsSegment(b) {
      TakenIsNear(b, p, eps);
    }
  }

  /** When no end is taken to be on a segment that is long enough, none is. */
  lemma LongMeets(a: Segment, b: Segment, eps: real)
    requires eps >= 0.0
    ensures !EndTaken(a, b, eps) && a.length > eps && b.length > eps ==>
              (Meets(a, b) <==> Side(a, b.start) * Side(a, b.end) < 0.0 && Side(b, a.start) * Side(b, a.end) < 0.0)
  {
    hide Side, TakenFor, OnTest, On;
    LongOnTest(a, b.start, eps);
    LongOnTest(a, b.end, eps);
    LongOnTest(b, a.start, eps);
    LongOnTest(b, a.end, eps);
  }

  lemma LongOnTest(s: Segment, p: Point, eps: real)
    requires eps >= 0.0
    ensures s.length > eps && OnTest(s, p) ==> TakenFor(s, p, eps)
  {
    hide Side;
  }

  /** kMathEpsilon */
  const MATH_EPSILON := 0.0000000001

  /** Two segments of two millimetres that cross at right angles in their middles are
      missed at the tolerance of the program. */
  lemma CrossingMissed()
    ensures var a := Segment(Point(-0.001, 0.0), Point(0.001, 0.0), 0.002);
            var b := Segment(Point(0.0, -0.001), Point(0.0, 0.001), 0.002);
            && IsSegment(a) && IsSegment(b) && Common(a, b, Point(0.0, 0.0))
            && !GetIntersect(a, b, MATH_EPSILON).0
  {
    var a := Segment(Point(-0.001, 0.0), Point(0.001, 0.0), 0.002);
    var b := Segment(Point(0.0, -0.001), Point(0.0, 0.001), 0.002);
    hide *;
    EpsilonPositive();
    Middle(a, Point(0.0, 0.0));
    Middle(b, Point(0.0, 0.0));
    Horizontal(a, b.start);
    Horizontal(a, b.end);
    Vertical(b, a.start);
    AtIsOn(a, 0.5);
    AtIsOn(b, 0.5);
    NoEndNear(a, b);
    IntersectIsCrosses(a, b, MATH_EPSILON);
    SidesTooClose(a, b);
    CommonIs(a, b, Point(0.0, 0.0));
  }

  lemma EpsilonPositive()
    ensures 0.00000000005 <= MATH_EPSILON < 1.0
  {}

  lemma Middle(s: Segment, p: Point)
    requires s.start.x + s.end.x == 2.0 * p.x && s.start.y + s.end.y == 2.0 * p.y
    ensures At(s, 0.5) == p
  {}

  lemma CommonIs(a: Segment, b: Segment, p: Point)
    requires On(a, p) && On(b, p)
    ensures Common(a, b, p)
  {}

  lemma AtIsOn(s: Segment, t: real)
    requires 0.0 <= t <= 1.0
    ensures On(s, At(s, t))
  {}

  /** The side of a point of a horizontal segment, and its length */
  lemma Horizontal(s: Segment, p: Point)
    requires s.start.y == s.end.y && s.length == s.end.x - s.start.x >= 0.0
    ensures IsSegment(s) && Side(s, p) == s.length * (p.y - s.start.y)
  {}

  lemma Vertical(s: Segment, p: Point)
    requires s.start.x == s.end.x && s.length == s.end.y - s.start.y >= 0.0
    ensures IsSegment(s) && Side(s, p) == -(s.length * (p.x - s.start.x))
  {}

  lemma SidesTooClose(a: Segment, b: Segment)
    requires Side(a, b.start) == -0.000002 && Side(a, b.end) == 0.000002
    ensures !Crosses(a, b, MATH_EPSILON)
  {
    hide Side, TakenFor;
    assert Side(a, b.start) * Side(a, b.end) == -0.000000000004;
  }

  lemma NoEndNear(a: Segment, b: Segment)
    requires a == Segment(Point(-0.001, 0.0), Point(0.001, 0.0), 0.002)
    requires b == Segment(Point(0.0, -0.001), Point(0.0, 0.001), 0.002)
    ensures !EndTaken(a, b, MATH_EPSILON)
  {
    hide Cross;
  }

  /** An end above the other segment, by less than the tolerance, is a false alarm. */
  lemma EndAlarms()
    ensures var a := Segment(Point(0.0, 0.0), Point(1.0, 0.0), 1.0);
            var b := Segment(Point(0.5, 0.00000000005), Point(0.5, 1.00000000005), 1.0);
            && IsSegment(a) && IsSegment(b) && !(exists p :: Common(a, b, p))
            && GetIntersect(a, b, MATH_EPSILON).0
  {
    var a := Segment(Point(0.0, 0.0), Point(1.0, 0.0), 1.0);
    var b := Segment(Point(0.5, 0.00000000005), Point(0.5, 1.00000000005), 1.0);
    hide *;
    EpsilonPositive();
    Horizontal(a, b.start);
    Horizontal(a, b.end);
    Vertical(b, a.start);
    MeetsIff(a, b);
    NoMeeting(a, b);
    AboveIsTaken(a, b.start, MATH_EPSILON);
    EndTakenFirst(a, b);
    EndIntersect(a, b, MATH_EPSILON);
  }

  lemma NoMeeting(a: Segment, b: Segment)
    requires Side(a, b.start) > 0.0 && Side(a, b.end) > 0.0 && b.start.y > 0.0 && b.end.y > 0.0
    requires a.start.y == 0.0 && a.end.y == 0.0
    ensures !Meets(a, b)
  {
    hide Side;
    ProductPositive(Side(a, b.start), Side(a, b.end), Side(a, b.start) * Side(a, b.end));
  }

  lemma EndTakenFirst(a: Segment, b: Segment)
    requires TakenFor(a, b.start, MATH_EPSILON)
    ensures EndTaken(a, b, MATH_EPSILON)
  {
    hide TakenFor;
  }

  lemma AboveIsTaken(s: Segment, p: Point, eps: real)
    requires s.length > eps && 0.0 <= Side(s, p) <= eps
    requires s.start.x <= p.x <= s.end.x && 0.0 <= p.y - s.start.y <= eps && s.start.y == s.end.y
    ensures TakenFor(s, p, eps)
  {
    hide Side;
  }

  /** A segment shorter than the tolerance answers its start, though its end is nearer. */
  lemma NearestMissed()
    ensures var s := Segment(Point(0.0, 0.0), Point(0.00000000005, 0.0), 0.00000000005);
            IsSegment(s) && !Nearest(s, Point(1.0, 0.0), FindNearestPoint(s, MATH_EPSILON, Point(1.0, 0.0)))
  {
    var s := Segment(Point(0.0, 0.0), Point(0.00000000005, 0.0), 0.00000000005);
    hide Nearest, FindNearestPoint;
    NearestIff(s, MATH_EPSILON, Point(1.0, 0.0));
  }
}
