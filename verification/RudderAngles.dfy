/** Rudder angles phi, in degrees, and the thrust angles alpha they cause:
    tan(alpha) = Cy phi / (1 - 0.02 Cy phi^2). Angles are in degrees. */
module RudderAngles {
  import opened Reals
  import opened Thrusters

  /** A tangent: a number, or infinite at a quarter turn, where the denominator vanishes */
  datatype Slope = Finite(value: real) | Vertical(up: bool)

  predicate Less(s: Slope, t: Slope) {
    match (s, t)
    case (Finite(x), Finite(y)) => x < y
    case (Finite(_), Vertical(up)) => up
    case (Vertical(up), Finite(_)) => !up
    case (Vertical(up1), Vertical(up2)) => !up1 && up2
  }

  function Opposite(s: Slope): Slope {
    match s
    case Finite(x) => Finite(-x)
    case Vertical(up) => Vertical(!up)
  }

  /** The library functions: atan and tan between degrees and slopes, and sqrt */
  datatype Analysis = Analysis(arctan: Slope -> real, tangent: real -> Slope, sqrt: real -> real)

  /** What is used of them: atan is increasing and odd, and tan its inverse within a
      quarter turn; sqrt is the square root; the tangent of half a degree is between 0.008
      and 0.01. */
  ghost predicate IsAnalysis(f: Analysis) {
    Inverses(f) && Increasing(f) && Odd(f) && SquareRoots(f) && f.arctan(Finite(0.008)) < 0.5 <= f.arctan(Finite(0.01))
  }

  ghost predicate Inverses(f: Analysis) {
    && (forall s :: -90.0 <= f.arctan(s) <= 90.0 && f.tangent(f.arctan(s)) == s)
    && (forall x :: -90.0 <= x <= 90.0 ==> f.arctan(f.tangent(x)) == x)
  }

  ghost predicate Increasing(f: Analysis) {
    forall s, t :: Less(s, t) ==> f.arctan(s) < f.arctan(t)
  }

  ghost predicate Odd(f: Analysis) {
    forall s :: f.arctan(Opposite(s)) == -f.arctan(s)
  }

  ghost predicate SquareRoots(f: Analysis) {
    forall x :: x >= 0.0 ==> f.sqrt(x) >= 0.0 && f.sqrt(x) * f.sqrt(x) == x
  }

  lemma ArctanFacts(f: Analysis, s: Slope, t: Slope)
    requires IsAnalysis(f)
    ensures -90.0 <= f.arctan(s) <= 90.0 && f.tangent(f.arctan(s)) == s
    ensures Less(s, t) ==> f.arctan(s) < f.arctan(t)
    ensures f.arctan(Finite(0.0)) == 0.0
  {
    hide Inverses, Odd, Increasing, SquareRoots;
    ArctanInverse(f, s);
    ArctanIncreases(f, s, t);
    ArctanOdd(f, Finite(0.0));
    assert Opposite(Finite(0.0)) == Finite(0.0);
  }

  lemma ArctanInverse(f: Analysis, s: Slope)
    requires Inverses(f)
    ensures -90.0 <= f.arctan(s) <= 90.0 && f.tangent(f.arctan(s)) == s
  {}

  lemma ArctanIncreases(f: Analysis, s: Slope, t: Slope)
    requires Increasing(f)
    ensures Less(s, t) ==> f.arctan(s) < f.arctan(t)
  {}

  lemma ArctanOdd(f: Analysis, s: Slope)
    requires Odd(f)
    ensures f.arctan(Opposite(s)) == -f.arctan(s)
  {}

  lemma TangentFacts(f: Analysis, x: real)
    requires IsAnalysis(f) && -90.0 <= x <= 90.0
    ensures f.arctan(f.tangent(x)) == x
  {
    hide Odd, Increasing, SquareRoots;
  }

  lemma SqrtFacts(f: Analysis, x: real)
    requires IsAnalysis(f) && x >= 0.0
    ensures f.sqrt(x) >= 0.0 && f.sqrt(x) * f.sqrt(x) == x
  {
    hide Odd, Increasing, Inverses;
  }

  // ----- from the rudder angle to the thrust angle

  function Den(cy: real, phi: real): real {
    1.0 - 0.02 * cy * phi * phi
  }

  /** tan(alpha) for the rudder angle phi */
  function Tan(cy: real, phi: real): Slope {
    if Den(cy, phi) == 0.0 then Vertical(phi > 0.0) else Finite(cy * phi / Den(cy, phi))
  }

  // ----- and back

  /** cytan = Cy / tan(alpha). The tangent is 0 at angle 0, which is handled before, and
      at half turns, which no admissible answer reaches; the code divides by zero there. */
  function CyTan(cy: real, s: Slope): real {
    match s
    case Finite(value) => if value == 0.0 then 0.0 else cy / value
    case Vertical(_) => 0.0
  }

  function RootTerm(f: Analysis, cy: real, cytan: real): real {
    f.sqrt(cytan * cytan + 0.08 * cy)
  }

  lemma RootTermFacts(f: Analysis, cy: real, c: real)
    requires IsAnalysis(f) && cy > 0.0
    ensures var r := RootTerm(f, cy, c); r >= 0.0 && r * r == c * c + 0.08 * cy
    ensures RootTerm(f, cy, -c) == RootTerm(f, cy, c)
  {
    SquareNonneg(c);
    SqrtFacts(f, c * c + 0.08 * cy);
    assert -c * -c == c * c;
  }

  /** The rudder angle before rounding */
  function Varphi(f: Analysis, cy: real, s: Slope, positive: bool): real
    requires cy > 0.0
  {
    var cytan := CyTan(cy, s);
    var root := RootTerm(f, cy, cytan);
    if positive then 25.0 * (root - cytan) / cy else 25.0 * (-root - cytan) / cy
  }

  /** convert_alpha_radian2int for a thruster with rudder */
  function RudderAngle(f: Analysis, cy: real, alpha: real): int
    requires cy > 0.0
  {
    if Round(alpha) == 0 then 0 else Round(Varphi(f, cy, f.tangent(alpha), alpha > 0.0))
  }

  // ----- the two are inverse

  /** The angle computed for the slope t > 0 has a positive denominator and slope t. */
  lemma Inverts(cy: real, t: real, c: real, r: real, phi: real)
    requires cy > 0.0 && t > 0.0 && c * t == cy && r >= 0.0 && r * r == c * c + 0.08 * cy
    requires phi == 25.0 * (r - c) / cy
    ensures phi > 0.0 && Den(cy, phi) > 0.0 && cy * phi == t * Den(cy, phi)
  {
    Cofactor(c, t, cy);
    assert phi * cy == 25.0 * (r - c);
    if r <= c {
      if r < c { SquaresGrow(r, c); }
      assert false;
    }
    Cofactor(phi, cy, 25.0 * (r - c));
    var d := 1.0 - 0.02 * cy * phi * phi;
    DenTimesCy(cy, c, r, phi, d);
    assert (d - c * phi) * cy == 0.0;
    NoZeroProduct(cy, d - c * phi);
    ProductPositive(c, phi, d);
    assert t * d == t * c * phi == cy * phi;
  }

  lemma Cofactor(x: real, y: real, z: real)
    requires x * y == z && y > 0.0 && z > 0.0
    ensures x > 0.0
  {}

  lemma DenTimesCy(cy: real, c: real, r: real, phi: real, d: real)
    requires phi * cy == 25.0 * (r - c) && r * r == c * c + 0.08 * cy && d == 1.0 - 0.02 * cy * phi * phi
    ensures d * cy == c * phi * cy
  {
    var w := phi * cy;
    assert w * w == 625.0 * ((r - c) * (r - c));
    assert 0.02 * cy * phi * phi * cy == 0.02 * (w * w);
    assert (r - c) * (r - c) == r * r - 2.0 * (r * c) + c * c;
    assert c * w == 25.0 * (c * r - c * c);
    assert c * phi * cy == c * w;
  }

  lemma VarphiOfPositive(f: Analysis, cy: real, t: real)
    requires IsAnalysis(f) && cy > 0.0 && t > 0.0
    ensures var phi := Varphi(f, cy, Finite(t), true); phi > 0.0 && Den(cy, phi) > 0.0 && Tan(cy, phi) == Finite(t)
    ensures Varphi(f, cy, Finite(-t), false) == -Varphi(f, cy, Finite(t), true)
  {
    hide IsAnalysis, Den, RootTerm;
    var c := cy / t;
    QuotientTimes(cy, t);
    NegatedQuotient(cy, t);
    RootTermFacts(f, cy, c);
    var r := RootTerm(f, cy, c);
    var phi := 25.0 * (r - c) / cy;
    assert phi == Varphi(f, cy, Finite(t), true);
    Inverts(cy, t, c, r, phi);
    QuotientIs(cy * phi, Den(cy, phi), t);
    NegatedFraction(r, c, cy);
  }

  lemma NegatedFraction(r: real, c: real, cy: real)
    requires cy != 0.0
    ensures 25.0 * (-r - -c) / cy == -(25.0 * (r - c) / cy)
  {
    var q := 25.0 * (r - c) / cy;
    assert q * cy == 25.0 * (r - c);
    QuotientIs(25.0 * (-r - -c), cy, -q);
  }

  lemma VarphiOfVertical(f: Analysis, cy: real, up: bool)
    requires IsAnalysis(f) && cy > 0.0
    ensures var phi := Varphi(f, cy, Vertical(up), up); (phi > 0.0) == up && phi != 0.0 && Den(cy, phi) == 0.0
  {
    hide IsAnalysis, RootTerm;
    RootTermFacts(f, cy, 0.0);
    var r, phi := RootTerm(f, cy, 0.0), Varphi(f, cy, Vertical(up), up);
    var w := phi * cy;
    assert w == if up then 25.0 * r else -25.0 * r;
    assert w * w == 625.0 * (r * r) == 50.0 * cy;
    assert r > 0.0;
    if up { Cofactor(phi, cy, w); } else { Cofactor(-phi, cy, -w); }
    assert (0.02 * cy * phi * phi - 1.0) * cy == 0.02 * (w * w) - cy == 0.0;
    NoZeroProduct(cy, 0.02 * cy * phi * phi - 1.0);
  }

  lemma Mirrored(cy: real, phi: real)
    ensures Den(cy, -phi) == Den(cy, phi)
    ensures phi != 0.0 || Den(cy, phi) != 0.0 ==> Tan(cy, -phi) == Opposite(Tan(cy, phi))
  {
    var d := 1.0 - 0.02 * cy * phi * phi;
    assert Den(cy, -phi) == d;
    if d != 0.0 {
      QuotientIs(cy * -phi, d, -(cy * phi / d));
    }
  }

  /** Every slope but 0 belongs to exactly the computed rudder angle, among those whose
      denominator is not negative. */
  lemma VarphiInverts(f: Analysis, cy: real, s: Slope)
    requires IsAnalysis(f) && cy > 0.0 && s != Finite(0.0)
    ensures var up := Less(Finite(0.0), s); var phi := Varphi(f, cy, s, up);
            (phi > 0.0) == up && phi != 0.0 && Den(cy, phi) >= 0.0 && Tan(cy, phi) == s
  {
    hide IsAnalysis, Den, Varphi;
    match s
    case Vertical(up) =>
      VarphiOfVertical(f, cy, up);
    case Finite(t) =>
      if t > 0.0 {
        VarphiOfPositive(f, cy, t);
      } else {
        VarphiOfPositive(f, cy, -t);
        assert -(-t) == t;
        Mirrored(cy, Varphi(f, cy, Finite(-t), true));
      }
  }

  lemma DenIs(cy: real, phi: real)
    ensures Den(cy, phi) == 1.0 - 0.02 * cy * (phi * phi)
  {}

  lemma TanIncreases(cy: real, p: real, q: real)
    requires cy > 0.0 && p < q && Den(cy, p) >= 0.0 && Den(cy, q) >= 0.0
    ensures Less(Tan(cy, p), Tan(cy, q))
  {
    var c, d, e := 0.02 * cy, Den(cy, p), Den(cy, q);
    assert c > 0.0;
    DenIs(cy, p);
    DenIs(cy, q);
    hide Den;
    var k := 1.0 + c * (p * q);
    TwiceCrossed(c, p, q, d, e);
    if d > 0.0 && e > 0.0 {
      ProductPositive(q - p, k, (q - p) * k);
      Crossed(c, p, q, d, e);
      FractionLess(cy, p, q, d, e);
    } else {
      AtLimit(c, p, q, d, e);
    }
  }

  lemma TwiceCrossed(c: real, p: real, q: real, d: real, e: real)
    requires c > 0.0 && d == 1.0 - c * (p * p) && e == 1.0 - c * (q * q)
    ensures 2.0 * (1.0 + c * (p * q)) >= d + e
  {
    var m := p + q;
    SquareNonneg(m);
    var y := m * m;
    assert c * y >= 0.0;
    assert y == p * p + 2.0 * (p * q) + q * q;
    assert c * y == c * (p * p) + 2.0 * (c * (p * q)) + c * (q * q);
  }

  lemma Crossed(c: real, p: real, q: real, d: real, e: real)
    requires d == 1.0 - c * (p * p) && e == 1.0 - c * (q * q)
    ensures q * d - p * e == (q - p) * (1.0 + c * (p * q))
  {
    assert q * d == q - c * (p * p * q) && p * e == p - c * (p * q * q);
    assert (q - p) * (c * (p * q)) == c * (p * q * q) - c * (p * p * q);
  }

  lemma FractionLess(cy: real, p: real, q: real, d: real, e: real)
    requires cy > 0.0 && d > 0.0 && e > 0.0 && q * d > p * e
    ensures cy * p / d < cy * q / e
  {
    var x, y := cy * p / d, cy * q / e;
    assert x * d == cy * p && y * e == cy * q;
    ProductPositive(cy, q * d - p * e, cy * (q * d) - cy * (p * e));
    ProductPositive(d, e, d * e);
    assert (y - x) * (d * e) == (y * e) * d - (x * d) * e == cy * (q * d) - cy * (p * e);
    Cofactor(y - x, d * e, cy * (q * d) - cy * (p * e));
  }

  /** At a vanishing denominator the smaller angle is negative, the larger one positive. */
  lemma AtLimit(c: real, p: real, q: real, d: real, e: real)
    requires c > 0.0 && p < q && d == 1.0 - c * (p * p) && e == 1.0 - c * (q * q) && d >= 0.0 && e >= 0.0
    ensures d == 0.0 ==> p < 0.0
    ensures e == 0.0 ==> q > 0.0
  {
    if d == 0.0 && p >= 0.0 {
      SquaresGrow(p, q);
      ProductPositive(c, q * q - p * p, c * (q * q) - c * (p * p));
    }
    if e == 0.0 && q <= 0.0 {
      SquaresGrow(-q, -p);
      ProductPositive(c, p * p - q * q, c * (p * p) - c * (q * q));
    }
  }

  /** Angles whose denominators are not negative are told apart by their slopes. */
  lemma TanInjective(cy: real, p: real, q: real)
    requires cy > 0.0 && Den(cy, p) >= 0.0 && Den(cy, q) >= 0.0 && Tan(cy, p) == Tan(cy, q)
    ensures p == q
  {
    hide Tan, Den;
    if p < q {
      TanIncreases(cy, p, q);
    } else if q < p {
      TanIncreases(cy, q, p);
    }
  }

  lemma TanSign(cy: real, phi: real)
    requires cy > 0.0
    ensures Den(cy, phi) >= 0.0 && phi > 0.0 ==> Less(Finite(0.0), Tan(cy, phi))
    ensures Den(cy, phi) >= 0.0 && phi < 0.0 ==> Less(Tan(cy, phi), Finite(0.0))
    ensures Tan(cy, 0.0) == Finite(0.0) && Den(cy, 0.0) == 1.0
    ensures Den(cy, phi) < 0.0 && phi > 0.0 ==> Less(Tan(cy, phi), Finite(0.0))
    ensures Den(cy, phi) < 0.0 && phi < 0.0 ==> Less(Finite(0.0), Tan(cy, phi))
  {
    assert Den(cy, 0.0) == 1.0;
    QuotientIs(cy * 0.0, 1.0, 0.0);
    if Den(cy, phi) >= 0.0 {
      if phi > 0.0 { TanIncreases(cy, 0.0, phi); }
      if phi < 0.0 { TanIncreases(cy, phi, 0.0); }
    } else {
      BeyondLimit(cy, phi, Den(cy, phi));
    }
  }

  lemma BeyondLimit(cy: real, phi: real, d: real)
    requires cy > 0.0 && d < 0.0
    ensures phi > 0.0 ==> cy * phi / d < 0.0
    ensures phi < 0.0 ==> cy * phi / d > 0.0
  {
    var t := cy * phi / d;
    assert t * d == cy * phi;
    if phi > 0.0 {
      ProductPositive(cy, phi, cy * phi);
      Cofactor(-t, -d, cy * phi);
    }
    if phi < 0.0 {
      ProductPositive(cy, -phi, -(cy * phi));
      Cofactor(t, -d, -(cy * phi));
    }
  }

  /** The rudder angle of an angle within a quarter turn */
  lemma AngleOf(f: Analysis, cy: real, alpha: real)
    requires IsAnalysis(f) && cy > 0.0 && -90.0 <= alpha <= 90.0
    ensures alpha != 0.0 ==>
              var phi := Varphi(f, cy, f.tangent(alpha), alpha > 0.0);
              (phi > 0.0) == (alpha > 0.0) && phi != 0.0 && Den(cy, phi) >= 0.0 && Tan(cy, phi) == f.tangent(alpha)
  {
    hide IsAnalysis, Den, Varphi, Tan;
    var s := f.tangent(alpha);
    TangentFacts(f, alpha);
    ArctanFacts(f, s, Finite(0.0));
    ArctanFacts(f, Finite(0.0), s);
    if alpha != 0.0 {
      assert s != Finite(0.0);
      assert Less(s, Finite(0.0)) || Less(Finite(0.0), s);
      VarphiInverts(f, cy, s);
    }
  }

  /** The round trip from a rudder angle to the thrust angle and back is exact if and
      only if 0.02 Cy phi^2 <= 1 and the thrust angle does not round to 0 degrees. */
  lemma RoundTrip(f: Analysis, cy: real, phi: int)
    requires IsAnalysis(f) && cy > 0.0
    ensures var alpha := f.arctan(Tan(cy, phi as real));
            RudderAngle(f, cy, alpha) == phi <==> phi == 0 || (Den(cy, phi as real) >= 0.0 && Round(alpha) != 0)
  {
    hide IsAnalysis, Den, Varphi, Tan, Round, Less;
    var p := phi as real;
    var s := Tan(cy, p);
    var alpha := f.arctan(s);
    RoundWhole(0);
    ArctanFacts(f, s, Finite(0.0));
    ArctanFacts(f, Finite(0.0), s);
    TanSign(cy, p);
    if phi != 0 && Round(alpha) != 0 {
      AngleOf(f, cy, alpha);
      if Den(cy, p) >= 0.0 {
        TanInjective(cy, p, Varphi(f, cy, s, alpha > 0.0));
        RoundWhole(phi);
      } else {
        RoundSign(Varphi(f, cy, s, alpha > 0.0));
      }
    }
  }

  lemma RoundSign(x: real)
    ensures x < 0.0 ==> Round(x) <= 0
    ensures x > 0.0 ==> Round(x) >= 0
  {}

  // ----- angles near 0

  /** A rudder angle of one degree turns the thrust by at least half a degree. */
  ghost predicate Steady(f: Analysis, cy: real) {
    Den(cy, 1.0) >= 0.0 ==> f.arctan(Tan(cy, 1.0)) >= 0.5
  }

  lemma DenShrinks(cy: real, p: real, q: real)
    requires cy > 0.0 && 0.0 <= p <= q
    ensures Den(cy, q) <= Den(cy, p)
  {
    DenIs(cy, p);
    DenIs(cy, q);
    hide Den;
    var x, y := p * p, q * q;
    if p < q {
      SquaresGrow(p, q);
    }
    assert cy * (y - x) >= 0.0;
  }

  /** Then every whole rudder angle but 0 does. */
  lemma SteadyAngles(f: Analysis, cy: real, phi: int)
    requires IsAnalysis(f) && cy > 0.0 && Steady(f, cy) && Den(cy, phi as real) >= 0.0
    ensures phi > 0 ==> f.arctan(Tan(cy, phi as real)) >= 0.5
    ensures phi < 0 ==> f.arctan(Tan(cy, phi as real)) <= -0.5
    ensures phi != 0 ==> Round(f.arctan(Tan(cy, phi as real))) != 0
  {
    hide Round, Den, Tan, Less, Inverses, SquareRoots, Increasing, Odd;
    var p := if phi < 0 then -phi as real else phi as real;
    if phi != 0 {
      Mirrored(cy, phi as real);
      assert Den(cy, p) >= 0.0;
      DenShrinks(cy, 1.0, p);
      if p > 1.0 {
        TanIncreases(cy, 1.0, p);
        ArctanFacts(f, Tan(cy, 1.0), Tan(cy, p));
      }
      if phi < 0 {
        ArctanOdd(f, Tan(cy, phi as real));
      }
      RoundToZero(f.arctan(Tan(cy, phi as real)));
    }
  }

  lemma RoundToZero(x: real)
    ensures Round(x) == 0 <==> -0.5 < x < 0.5
  {}

  /** The rudder angle phi is commanded again when nothing is changed. */
  ghost predicate Kept(f: Analysis, cy: real, phi: int)
    requires cy > 0.0
  {
    RudderAngle(f, cy, f.arctan(Tan(cy, phi as real))) == phi
  }

  /** The round trip is exact for all whole angles with 0.02 Cy phi^2 <= 1 if and only
      if the thruster is steady. */
  lemma SteadyIff(f: Analysis, cy: real)
    requires IsAnalysis(f) && cy > 0.0
    ensures Steady(f, cy)
       <==> forall phi: int :: Den(cy, phi as real) >= 0.0 ==> Kept(f, cy, phi)
  {
    hide Den, Tan, RudderAngle, IsAnalysis, Round;
    if Steady(f, cy) {
      forall phi: int | Den(cy, phi as real) >= 0.0
        ensures Kept(f, cy, phi)
      {
        RoundTrip(f, cy, phi);
        SteadyAngles(f, cy, phi);
      }
    } else {
      RoundTrip(f, cy, 1);
      RoundToZero(f.arctan(Tan(cy, 1.0)));
      PositiveAngle(f, cy);
      assert 1 as real == 1.0;
      assert !Kept(f, cy, 1);
    }
  }

  lemma PositiveAngle(f: Analysis, cy: real)
    requires IsAnalysis(f) && cy > 0.0 && Den(cy, 1.0) >= 0.0
    ensures f.arctan(Tan(cy, 1.0)) > 0.0
  {
    hide Den, Tan, Less, IsAnalysis;
    TanSign(cy, 1.0);
    ArctanFacts(f, Finite(0.0), Tan(cy, 1.0));
  }

  /** Thrusters with Cy >= 0.01 are steady; one with Cy = 0.005 is not, and commands
      the rudder angle 0 when 1 has been fed back. */
  lemma LargeCyIsSteady(f: Analysis, cy: real)
    requires IsAnalysis(f) && cy >= 0.01
    ensures Steady(f, cy)
  {
    hide Less, Inverses, SquareRoots, Increasing, Odd;
    if Den(cy, 1.0) >= 0.0 {
      if Den(cy, 1.0) > 0.0 {
        OverDen(cy, Den(cy, 1.0));
      }
      LessOrEqual(Finite(0.01), Tan(cy, 1.0));
      ArctanFacts(f, Finite(0.01), Tan(cy, 1.0));
    }
  }

  lemma OverDen(cy: real, d: real)
    requires cy > 0.0 && 0.0 < d <= 1.0
    ensures cy * 1.0 / d >= cy
  {
    var t := cy * 1.0 / d;
    assert t * d == cy;
    Cofactor(t, d, cy);
    assert t * (1.0 - d) >= 0.0;
  }

  lemma LessOrEqual(s: Slope, t: Slope)
    requires s.Finite?
    ensures t == Vertical(true) || (t.Finite? && s.value < t.value) ==> Less(s, t)
  {}

  lemma SmallCyIsNotSteady(f: Analysis)
    requires IsAnalysis(f)
    ensures !Steady(f, 0.005) && RudderAngle(f, 0.005, f.arctan(Tan(0.005, 1.0))) == 0
  {
    hide Less, Inverses, SquareRoots, Increasing, Odd, Round;
    var d := Den(0.005, 1.0);
    assert d == 0.9999;
    var s := Tan(0.005, 1.0);
    assert s == Finite(0.005 / 0.9999);
    SmallLess();
    ArctanFacts(f, s, Finite(0.008));
    PositiveAngle(f, 0.005);
    RoundToZero(f.arctan(s));
  }

  lemma SmallLess()
    ensures Less(Finite(0.005 / 0.9999), Finite(0.008))
  {}

  /** An answer between the thrust angles of two rudder angles commands a rudder angle
      between them. */
  lemma AngleWithin(f: Analysis, cy: real, lower: int, upper: int, alpha: real)
    requires IsAnalysis(f) && cy > 0.0 && Steady(f, cy)
    requires Den(cy, lower as real) >= 0.0 && Den(cy, upper as real) >= 0.0
    requires f.arctan(Tan(cy, lower as real)) <= alpha <= f.arctan(Tan(cy, upper as real))
    ensures -90.0 <= alpha <= 90.0 && (Round(alpha) != 0 ==> f.tangent(alpha) != Finite(0.0))
    ensures lower <= RudderAngle(f, cy, alpha) <= upper
  {
    hide Den, Tan, Less, IsAnalysis, Round, Varphi;
    var l, u := Tan(cy, lower as real), Tan(cy, upper as real);
    ArctanFacts(f, l, l);
    ArctanFacts(f, u, u);
    RoundToZero(alpha);
    SteadyAngles(f, cy, lower);
    SteadyAngles(f, cy, upper);
    if Round(alpha) != 0 {
      AngleOf(f, cy, alpha);
      TangentFacts(f, alpha);
      ArctanFacts(f, Finite(0.0), u);
      var phi := Varphi(f, cy, f.tangent(alpha), alpha > 0.0);
      if phi < lower as real {
        TanIncreases(cy, phi, lower as real);
        ArctanFacts(f, Tan(cy, phi), l);
        assert false;
      }
      if phi > upper as real {
        TanIncreases(cy, upper as real, phi);
        ArctanFacts(f, u, Tan(cy, phi));
        assert false;
      }
      RoundMonotone(lower as real, phi);
      RoundMonotone(phi, upper as real);
      RoundWhole(lower);
      RoundWhole(upper);
    }
  }
}
