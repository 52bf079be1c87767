/** A thruster with a rudder: the box handed to the solver and the command made from its
    answer. The angle of its state is the rudder angle. */
module Rudder {
  import opened Reals
  import opened Thrusters
  import opened RudderAngles
  import opened RudderForce

  datatype Steered = Steered(k: real, cy: real, maxDeltaRotation: int, maxRotation: int, minRotation: int,
                             maxDeltaVarphi: int, maxVarphi: int, minVarphi: int)

  ghost predicate SteeredOk(f: Analysis, r: Steered) {
    && r.k > 0.0 && r.cy > 0.0 && r.minRotation >= 0
    && r.maxDeltaVarphi >= 0 && r.minVarphi <= 0 <= r.maxVarphi
    && Den(r.cy, r.minVarphi as real) >= 0.0 && Den(r.cy, r.maxVarphi as real) >= 0.0
    && Steady(f, r.cy)
  }

  /** The factor by which the rudder turns thrust into effective thrust */
  function TermAt(f: Analysis, cy: real, phi: real): real {
    f.sqrt(TermSquare(cy, phi))
  }

  function Term(f: Analysis, cy: real, phi: int): real {
    TermAt(f, cy, phi as real)
  }

  lemma SqrtOrder(f: Analysis, x: real, y: real)
    requires IsAnalysis(f) && x >= 0.0 && y >= 0.0
    ensures x <= y <==> f.sqrt(x) <= f.sqrt(y)
    ensures x == y <==> f.sqrt(x) == f.sqrt(y)
  {
    hide IsAnalysis;
    SqrtFacts(f, x);
    SqrtFacts(f, y);
    if f.sqrt(x) < f.sqrt(y) {
      SquaresGrow(f.sqrt(x), f.sqrt(y));
    } else if f.sqrt(y) < f.sqrt(x) {
      SquaresGrow(f.sqrt(y), f.sqrt(x));
    }
  }

  /** least and greatest are the extremes of the factor over the angles in [lower, upper]. */
  ghost predicate IsTermRange(f: Analysis, cy: real, lower: real, upper: real, least: real, greatest: real) {
    && (forall phi: real :: lower <= phi <= upper ==> least <= TermAt(f, cy, phi) <= greatest)
    && (exists phi: real :: lower <= phi <= upper && TermAt(f, cy, phi) == least)
    && (exists phi: real :: lower <= phi <= upper && TermAt(f, cy, phi) == greatest)
  }

  lemma TermAtOrder(f: Analysis, cy: real, phi: real, x: real)
    requires IsAnalysis(f) && x >= 0.0
    ensures x <= TermSquare(cy, phi) <==> f.sqrt(x) <= TermAt(f, cy, phi)
    ensures TermSquare(cy, phi) <= x <==> TermAt(f, cy, phi) <= f.sqrt(x)
    ensures TermSquare(cy, phi) == x <==> TermAt(f, cy, phi) == f.sqrt(x)
  {
    hide IsAnalysis, TermSquare;
    TermIsLength(cy, phi);
    SqrtOrder(f, x, TermSquare(cy, phi));
    SqrtOrder(f, TermSquare(cy, phi), x);
  }

  /** The square roots of the computed bounds, which the box uses, are the extremes of
      the factor exactly when the bounds are right. */
  lemma TermRangeIff(f: Analysis, cy: real, lower: real, upper: real)
    requires IsAnalysis(f) && cy > 0.0 && lower <= upper
    ensures var (least, greatest) := TermRange(cy, lower, upper);
            IsTermRange(f, cy, lower, upper, f.sqrt(least), f.sqrt(greatest)) <==> Right(cy, lower, upper)
  {
    hide IsAnalysis, TermSquare, TermAt, TermRange;
    var (least, greatest) := TermRange(cy, lower, upper);
    TermRangeNonneg(cy, lower, upper);
    forall phi: real
      ensures least <= TermSquare(cy, phi) <==> f.sqrt(least) <= TermAt(f, cy, phi)
      ensures TermSquare(cy, phi) <= greatest <==> TermAt(f, cy, phi) <= f.sqrt(greatest)
      ensures TermSquare(cy, phi) == least <==> TermAt(f, cy, phi) == f.sqrt(least)
      ensures TermSquare(cy, phi) == greatest <==> TermAt(f, cy, phi) == f.sqrt(greatest)
    {
      TermAtOrder(f, cy, phi, least);
      TermAtOrder(f, cy, phi, greatest);
    }
  }

  lemma TermPositive(f: Analysis, cy: real, phi: int)
    requires IsAnalysis(f) && cy > 0.0
    ensures Term(f, cy, phi) > 0.0 && Term(f, cy, phi) * Term(f, cy, phi) == TermSquare(cy, phi as real)
  {
    hide IsAnalysis, TermSquare;
    var p := phi as real;
    TermSquarePositive(cy, p);
    SqrtFacts(f, TermSquare(cy, p));
    RootPositive(Term(f, cy, phi), TermSquare(cy, p));
  }

  lemma TermSquarePositive(cy: real, phi: real)
    requires cy > 0.0
    ensures TermSquare(cy, phi) > 0.0
  {
    hide TermSquare;
    TermIsLength(cy, phi);
    var d, x := 1.0 - 0.02 * cy * phi * phi, cy * phi;
    SquareNonneg(d);
    if phi > 0.0 {
      ProductPositive(cy, phi, x);
      ProductPositive(x, x, x * x);
    } else if phi < 0.0 {
      ProductPositive(cy, -phi, -x);
      ProductPositive(-x, -x, x * x);
    } else {
      assert d * d == 1.0;
    }
  }

  lemma RootPositive(t: real, s: real)
    requires t >= 0.0 && t * t == s && s > 0.0
    ensures t > 0.0
  {
    ZeroTimes(t, t);
  }

  lemma ZeroTimes(x: real, y: real)
    ensures x == 0.0 ==> x * y == 0.0
  {}

  /** The coefficient of the effective thrust */
  function Coefficient(f: Analysis, r: Steered, phi: int): real {
    Term(f, r.cy, phi) * r.k
  }

  lemma CoefficientPositive(f: Analysis, r: Steered, phi: int)
    requires IsAnalysis(f) && r.k > 0.0 && r.cy > 0.0
    ensures Coefficient(f, r, phi) > 0.0
  {
    hide IsAnalysis, Term;
    TermPositive(f, r.cy, phi);
    ProductPositive(Term(f, r.cy, phi), r.k, Coefficient(f, r, phi));
  }

  /** calculateu */
  function SteeredRead(f: Analysis, r: Steered, n: int, phi: int): (int, real) {
    if n < r.minRotation then (r.minRotation, Thrust(r.k, r.minRotation))
    else (n, Thrust(Coefficient(f, r, phi), n))
  }

  /** calculateconstraints_rudder */
  function SteeredBox(f: Analysis, r: Steered, n: int, u: real, alpha: real, phi: int): Box
    requires r.cy > 0.0
  {
    var lower, upper := LowerVarphi(r, phi), UpperVarphi(r, phi);
    var (least, greatest) := TermRange(r.cy, lower as real, upper as real);
    Box(f.arctan(Tan(r.cy, lower as real)) - alpha, f.arctan(Tan(r.cy, upper as real)) - alpha,
        LeastThrust(r, n) * f.sqrt(least) - u, GreatestThrust(r, n) * f.sqrt(greatest) - u)
  }

  /** The bounds on the thrust itself */
  function LeastThrust(r: Steered, n: int): real {
    var d, minThrust := r.maxDeltaRotation, Thrust(r.k, r.minRotation);
    if n < d then minThrust else Max(Thrust(r.k, n - d), minThrust)
  }

  function GreatestThrust(r: Steered, n: int): real {
    Min(Thrust(r.k, r.maxRotation), Thrust(r.k, n + r.maxDeltaRotation))
  }

  /** The rudder angles that can be reached from phi */
  function LowerVarphi(r: Steered, phi: int): int {
    Larger(phi - r.maxDeltaVarphi, r.minVarphi)
  }

  function UpperVarphi(r: Steered, phi: int): int {
    Smaller(phi + r.maxDeltaVarphi, r.maxVarphi)
  }

  function Smaller(a: int, b: int): int { if b < a then b else a }

  function Larger(a: int, b: int): int { if a < b then b else a }

  /** calculaterotation */
  function SteeredWrite(f: Analysis, r: Steered, phi: int, u: real): (int, real)
    requires IsAnalysis(f) && r.k > 0.0 && r.cy > 0.0
  {
    CoefficientPositive(f, r, phi);
    var t := RotationOf(u, Coefficient(f, r, phi));
    if t < r.minRotation then (r.minRotation, Thrust(r.k, r.minRotation)) else (t, u)
  }

  function SteeredNext(f: Analysis, r: Steered, s: State, x: Delta): State
    requires IsAnalysis(f) && r.k > 0.0 && r.cy > 0.0
  {
    var (n, u) := SteeredRead(f, r, s.rotation, s.alphaDeg);
    var phi := RudderAngle(f, r.cy, f.arctan(Tan(r.cy, s.alphaDeg as real)) + x.alpha);
    State(SteeredWrite(f, r, phi, u + x.u).0, phi)
  }

  function SteeredBoxAt(f: Analysis, r: Steered, s: State): Box
    requires r.cy > 0.0
  {
    var (n, u) := SteeredRead(f, r, s.rotation, s.alphaDeg);
    SteeredBox(f, r, n, u, f.arctan(Tan(r.cy, s.alphaDeg as real)), s.alphaDeg)
  }

  /** Turning at least as fast as it must, and steering within its limits */
  ghost predicate SteeredGood(r: Steered, s: State) {
    r.minRotation <= s.rotation && r.minVarphi <= s.alphaDeg <= r.maxVarphi
  }

  lemma DenBetween(cy: real, lower: int, phi: int, upper: int)
    requires cy > 0.0 && lower <= phi <= upper
    requires Den(cy, lower as real) >= 0.0 && Den(cy, upper as real) >= 0.0
    ensures Den(cy, phi as real) >= 0.0
  {
    hide Den;
    if phi >= 0 {
      DenShrinks(cy, phi as real, upper as real);
    } else {
      Mirrored(cy, lower as real);
      Mirrored(cy, phi as real);
      DenShrinks(cy, -(phi as real), -(lower as real));
    }
  }

  /** Every answer of the solver, or its failure, keeps the rudder angle within its limits
      and moves it by at most its delta; the thrust angle stays within a quarter turn. */
  lemma SteeredKeeps(f: Analysis, r: Steered, s: State, x: Delta)
    requires IsAnalysis(f) && SteeredOk(f, r) && SteeredGood(r, s) && Admissible(SteeredBoxAt(f, r, s), x)
    ensures SteeredGood(r, SteeredNext(f, r, s, x))
    ensures -r.maxDeltaVarphi <= SteeredNext(f, r, s, x).alphaDeg - s.alphaDeg <= r.maxDeltaVarphi
    ensures x == NO_DELTA ==> SteeredNext(f, r, s, x).alphaDeg == s.alphaDeg
    ensures -90.0 <= f.arctan(Tan(r.cy, s.alphaDeg as real)) + x.alpha <= 90.0
  {
    hide IsAnalysis, Den, Tan, RudderAngle, Steady, Round, RotationOf, TermRange, Coefficient, Thrust;
    var phi := s.alphaDeg;
    var alpha := f.arctan(Tan(r.cy, phi as real));
    DenBetween(r.cy, r.minVarphi, phi, r.maxVarphi);
    if x == NO_DELTA {
      RoundTrip(f, r.cy, phi);
      SteadyAngles(f, r.cy, phi);
      ArctanFacts(f, Tan(r.cy, phi as real), Finite(0.0));
    } else {
      var lower, upper := LowerVarphi(r, phi), UpperVarphi(r, phi);
      DenBetween(r.cy, r.minVarphi, lower, r.maxVarphi);
      DenBetween(r.cy, r.minVarphi, upper, r.maxVarphi);
      AngleWithin(f, r.cy, lower, upper, alpha + x.alpha);
    }
  }

  // ----- a failed solve

  lemma BelowNext(k: real, q: real, n: int)
    requires k > 0.0 && q > 0.0 && n >= 0
    ensures RotationOf(Thrust(k, n), q) <= n <==> Thrust(k, n) < Thrust(q, n + 1)
  {
    hide Thrust, RotationOf, Sqr;
    ThrustFacts(k, n);
    var u := Thrust(k, n);
    var t := RotationOf(u, q);
    RootRange(u, q);
    ThrustQuotient(u, q, n + 1);
    if t <= n {
      SqrOrder(t + 1, n + 1);
    } else {
      SqrOrder(n + 1, t);
    }
  }

  lemma SqrOrder(a: int, b: int)
    requires 0 <= a <= b
    ensures Sqr(a) <= Sqr(b)
  {
    if a < b {
      SqrGrows(a, b);
    }
  }

  /** When the solver fails, the same rudder angle and the same rotation, raised to its
      minimum, are commanded again if and only if the rudder angle survives the round
      trip and the minimal thrust does not read as a faster rotation. */
  lemma FailedSolveIff(f: Analysis, r: Steered, n: int, phi: int)
    requires IsAnalysis(f) && r.k > 0.0 && r.cy > 0.0 && r.minRotation >= 0
    ensures SteeredNext(f, r, State(n, phi), NO_DELTA) == State(Larger(n, r.minRotation), phi)
       <==> (phi == 0 || (Den(r.cy, phi as real) >= 0.0 && Round(f.arctan(Tan(r.cy, phi as real))) != 0))
            && (n >= r.minRotation
                || Thrust(r.k, r.minRotation) < Thrust(Coefficient(f, r, phi), r.minRotation + 1))
  {
    hide IsAnalysis, Den, Tan, RudderAngle, Round, RotationOf, Coefficient, Thrust;
    CoefficientPositive(f, r, phi);
    RoundTrip(f, r.cy, phi);
    if n >= r.minRotation {
      RotationExact(n, Coefficient(f, r, phi));
    } else {
      BelowNext(r.k, Coefficient(f, r, phi), r.minRotation);
    }
  }

  /** So a steady thruster within its limits holds its rudder angle, its rotation from the
      minimum up, and with Cy >= 0.04 any rotation. */
  lemma FailedSolveHolds(f: Analysis, r: Steered, n: int, phi: int)
    requires IsAnalysis(f) && SteeredOk(f, r) && r.minVarphi <= phi <= r.maxVarphi
    requires n >= r.minRotation || r.cy >= 0.04
    ensures SteeredNext(f, r, State(n, phi), NO_DELTA) == State(Larger(n, r.minRotation), phi)
  {
    hide IsAnalysis, Den, Tan, Round, Term, Coefficient, Thrust, SteeredNext, Steady;
    DenBetween(r.cy, r.minVarphi, phi, r.maxVarphi);
    SteadyAngles(f, r.cy, phi);
    FailedSolveIff(f, r, n, phi);
    if n < r.minRotation {
      TermAtLeastOne(f, r.cy, phi);
      CoefficientIs(f, r, phi);
      LargerCoefficient(r.k, Term(f, r.cy, phi), Coefficient(f, r, phi), r.minRotation);
    }
  }

  lemma TermAtLeastOne(f: Analysis, cy: real, phi: int)
    requires IsAnalysis(f) && cy >= 0.04
    ensures Term(f, cy, phi) >= 1.0
  {
    hide Abc, IsAnalysis, Term;
    SquareNonneg(phi as real);
    AtLeastOne(cy, (phi as real) * (phi as real));
    TermSquareIs(cy, phi as real, (phi as real) * (phi as real));
    TermPositive(f, cy, phi);
    if Term(f, cy, phi) < 1.0 {
      SquaresGrow(Term(f, cy, phi), 1.0);
    }
  }

  lemma CoefficientIs(f: Analysis, r: Steered, phi: int)
    ensures Coefficient(f, r, phi) == Term(f, r.cy, phi) * r.k
  {}

  lemma LargerCoefficient(k: real, term: real, q: real, n: int)
    requires k > 0.0 && term >= 1.0 && n >= 0 && q == term * k
    ensures Thrust(k, n) < Thrust(q, n + 1)
  {
    var x, y := Sqr(n), Sqr(n + 1);
    SqrGrows(n, n + 1);
    SqrSign(n);
    ProductPositive(k, y - x, k * y - k * x);
    assert (term - 1.0) * k >= 0.0;
    assert (q - k) * y >= 0.0;
  }

  /** With Cy = 0.0126, a rudder at 30 degrees and a minimum of 13, a rotation below the
      minimum does not come back as the minimum. */
  lemma RotationNotHeld(f: Analysis, r: Steered, n: int)
    requires IsAnalysis(f) && r.k > 0.0 && r.cy == 0.0126 && r.minRotation == 13 && n < 13
    ensures SteeredNext(f, r, State(n, 30), NO_DELTA) != State(13, 30)
  {
    hide IsAnalysis, Den, Tan, Round, Term, Coefficient, SteeredNext, Thrust;
    FailedSolveIff(f, r, n, 30);
    TermAtThirty(f);
    CoefficientIs(f, r, 30);
    ThrustIs(r.k, 13, 169.0);
    ThrustIs(Coefficient(f, r, 30), 14, 196.0);
    var t := Term(f, 0.0126, 30);
    assert 196.0 * t <= 169.0;
    ProductNonneg(169.0 - 196.0 * t, r.k);
  }

  lemma ThrustIs(k: real, n: int, square: real)
    requires Sqr(n) == square
    ensures Thrust(k, n) == k * square
  {}

  /** The factor for Cy = 0.0126 and 30 degrees */
  lemma TermAtThirty(f: Analysis)
    requires IsAnalysis(f)
    ensures 0.8606 <= Term(f, 0.0126, 30) <= 0.8607
  {
    hide IsAnalysis;
    var t := Term(f, 0.0126, 30);
    assert TermSquare(0.0126, 30.0) == 0.74072224;
    TermPositive(f, 0.0126, 30);
    hide Term, TermSquare;
    if t < 0.8606 {
      SquaresGrow(t, 0.8606);
    } else if t > 0.8607 {
      SquaresGrow(0.8607, t);
    }
  }

  // ----- which limits are needed

  /** After a failed solve every rudder angle within the limits is held if and only if
      0.02 Cy phi^2 <= 1 at both limits, and the thruster is steady or its rudder fixed. */
  lemma LimitsIff(f: Analysis, cy: real, lower: int, upper: int)
    requires IsAnalysis(f) && cy > 0.0 && lower <= 0 <= upper
    ensures (forall phi: int :: lower <= phi <= upper ==> Kept(f, cy, phi))
       <==> && Den(cy, lower as real) >= 0.0 && Den(cy, upper as real) >= 0.0
            && (lower == upper == 0 || Steady(f, cy))
  {
    hide IsAnalysis, Den, Tan, Round, Steady, RudderAngle;
    if forall phi: int :: lower <= phi <= upper ==> Kept(f, cy, phi) {
      KeptMeans(f, cy, lower);
      KeptMeans(f, cy, upper);
      if lower < 0 {
        assert Kept(f, cy, -1);
        KeptMeans(f, cy, -1);
      } else if upper > 0 {
        assert Kept(f, cy, 1);
        KeptMeans(f, cy, 1);
      }
    }
    if && Den(cy, lower as real) >= 0.0 && Den(cy, upper as real) >= 0.0
       && (lower == upper == 0 || Steady(f, cy))
    {
      forall phi: int | lower <= phi <= upper
        ensures Kept(f, cy, phi)
      {
        DenBetween(cy, lower, phi, upper);
        RoundTrip(f, cy, phi);
        if phi != 0 {
          SteadyAngles(f, cy, phi);
        }
      }
    }
  }

  lemma KeptMeans(f: Analysis, cy: real, phi: int)
    requires IsAnalysis(f) && cy > 0.0 && Kept(f, cy, phi)
    ensures Den(cy, phi as real) >= 0.0
    ensures phi == 1 || phi == -1 ==> Steady(f, cy)
  {
    hide IsAnalysis, Den, Tan, Round, RudderAngle, Less;
    RoundTrip(f, cy, phi);
    TanSign(cy, phi as real);
    if phi != 0 {
      var alpha := f.arctan(Tan(cy, phi as real));
      RoundToZero(alpha);
      ArctanFacts(f, Finite(0.0), Tan(cy, phi as real));
      ArctanFacts(f, Tan(cy, phi as real), Finite(0.0));
      if phi == -1 {
        Mirrored(cy, -1.0);
        OddAngle(f, Tan(cy, -1.0));
      }
    }
  }

  lemma OddAngle(f: Analysis, s: Slope)
    requires IsAnalysis(f)
    ensures f.arctan(Opposite(s)) == -f.arctan(s)
  {
    hide Inverses, Increasing, SquareRoots;
    ArctanOdd(f, s);
  }

  /** With Cy = 11 and limits of 30 degrees the limit itself is not held. */
  lemma LimitNotHeld(f: Analysis)
    requires IsAnalysis(f)
    ensures !Kept(f, 11.0, 30)
  {
    hide IsAnalysis, Kept, Steady;
    assert Den(11.0, 30.0) == -197.0;
    if Kept(f, 11.0, 30) {
      KeptMeans(f, 11.0, 30);
    }
  }

  // ----- room for an answer

  /** The square of the slowest rotation that can be asked for, and of the fastest */
  function SlowestSqr(r: Steered, n: int): real {
    if n < r.maxDeltaRotation then Sqr(r.minRotation)
    else Max(Sqr(n - r.maxDeltaRotation), Sqr(r.minRotation))
  }

  function FastestSqr(r: Steered, n: int): real {
    Min(Sqr(r.maxRotation), Sqr(n + r.maxDeltaRotation))
  }

  /** The slowest rotation, at the least factor the rudder may have, gives no more
      effective thrust than the fastest one at the greatest. */
  predicate SteeredRoom(r: Steered, s: State)
    requires r.cy > 0.0
  {
    var (least, greatest) := TermRange(r.cy, LowerVarphi(r, s.alphaDeg) as real, UpperVarphi(r, s.alphaDeg) as real);
    var slow, fast := SlowestSqr(r, s.rotation), FastestSqr(r, s.rotation);
    slow * slow * least <= fast * fast * greatest
  }

  lemma ScaledBounds(k: real, a: real, b: real, x: real, y: real, m: real, n: real)
    requires k > 0.0 && m == k * a && n == k * b
    ensures m * x <= n * y <==> a * x <= b * y
  {
    assert k * (a * x) == m * x && k * (b * y) == n * y;
    ScaledOrder(k, b * y, a * x);
  }

  lemma SquaredOrder(a: real, b: real, x: real, y: real, p: real, q: real)
    requires a >= 0.0 && b >= 0.0 && x >= 0.0 && y >= 0.0 && x * x == p && y * y == q
    ensures a * x <= b * y <==> a * a * p <= b * b * q
  {
    var s, t := a * x, b * y;
    ProductNonneg(a, x);
    ProductNonneg(b, y);
    assert s * s == a * a * p && t * t == b * b * q;
    if s < t {
      SquaresGrow(s, t);
    } else if t < s {
      SquaresGrow(t, s);
    }
  }

  lemma ThrustsAre(r: Steered, n: int)
    requires r.k > 0.0
    ensures LeastThrust(r, n) == r.k * SlowestSqr(r, n) && GreatestThrust(r, n) == r.k * FastestSqr(r, n)
    ensures SlowestSqr(r, n) >= 0.0 && FastestSqr(r, n) >= 0.0
  {
    hide Sqr;
    SqrSign(r.minRotation);
    SqrSign(n - r.maxDeltaRotation);
    SqrSign(r.maxRotation);
    SqrSign(n + r.maxDeltaRotation);
    ScaledOrder(r.k, Sqr(n - r.maxDeltaRotation), Sqr(r.minRotation));
    ScaledOrder(r.k, Sqr(r.maxRotation), Sqr(n + r.maxDeltaRotation));
  }

  lemma ScaledOrder(k: real, x: real, y: real)
    requires k > 0.0
    ensures k * x < k * y <==> x < y
  {
    if x < y {
      ProductPositive(k, y - x, k * y - k * x);
    } else {
      ProductNonneg(k, x - y);
    }
  }

  /** The box of a good rudder thruster is not empty if and only if it has room. */
  lemma SteeredHasRoom(f: Analysis, r: Steered, s: State)
    requires IsAnalysis(f) && SteeredOk(f, r) && SteeredGood(r, s)
    ensures Nonempty(SteeredBoxAt(f, r, s)) <==> SteeredRoom(r, s)
  {
    hide *;
    var phi, n := s.alphaDeg, s.rotation;
    GoodParts(f, r, s);
    AnglesInOrder(f, r, phi);
    var (least, greatest) := TermRange(r.cy, LowerVarphi(r, phi) as real, UpperVarphi(r, phi) as real);
    TermRangeNonneg(r.cy, LowerVarphi(r, phi) as real, UpperVarphi(r, phi) as real);
    BoxBounds(f, r, s);
    RoomIs(r, s);
    ThrustsAre(r, n);
    RootsOrder(f, r.k, SlowestSqr(r, n), FastestSqr(r, n), LeastThrust(r, n), GreatestThrust(r, n), least, greatest);
  }

  lemma RootsOrder(f: Analysis, k: real, slow: real, fast: real, m: real, n: real, least: real, greatest: real)
    requires IsAnalysis(f) && least >= 0.0 && greatest >= 0.0
    requires k > 0.0 && slow >= 0.0 && fast >= 0.0 && m == k * slow && n == k * fast
    ensures m * f.sqrt(least) <= n * f.sqrt(greatest) <==> slow * slow * least <= fast * fast * greatest
  {
    hide IsAnalysis;
    SqrtFacts(f, least);
    SqrtFacts(f, greatest);
    ScaledBounds(k, slow, fast, f.sqrt(least), f.sqrt(greatest), m, n);
    SquaredOrder(slow, fast, f.sqrt(least), f.sqrt(greatest), least, greatest);
  }

  lemma GoodParts(f: Analysis, r: Steered, s: State)
    requires SteeredOk(f, r) && SteeredGood(r, s)
    ensures r.k > 0.0 && r.cy > 0.0
    ensures r.minVarphi <= s.alphaDeg <= r.maxVarphi && 0 <= r.minRotation <= s.rotation
  {
    hide Den, Steady;
  }

  lemma BoxBounds(f: Analysis, r: Steered, s: State)
    requires r.cy > 0.0 && r.minRotation <= s.rotation
    ensures var lower, upper := LowerVarphi(r, s.alphaDeg) as real, UpperVarphi(r, s.alphaDeg) as real;
            var (least, greatest) := TermRange(r.cy, lower, upper);
            Nonempty(SteeredBoxAt(f, r, s))
            <==> f.arctan(Tan(r.cy, lower)) <= f.arctan(Tan(r.cy, upper))
                 && LeastThrust(r, s.rotation) * f.sqrt(least) <= GreatestThrust(r, s.rotation) * f.sqrt(greatest)
  {
    hide Tan, TermRange, Coefficient, Thrust, LeastThrust, GreatestThrust, LowerVarphi, UpperVarphi;
  }

  lemma RoomIs(r: Steered, s: State)
    requires r.cy > 0.0
    ensures var lower, upper := LowerVarphi(r, s.alphaDeg) as real, UpperVarphi(r, s.alphaDeg) as real;
            var (least, greatest) := TermRange(r.cy, lower, upper);
            var slow, fast := SlowestSqr(r, s.rotation), FastestSqr(r, s.rotation);
            SteeredRoom(r, s) <==> slow * slow * least <= fast * fast * greatest
  {
    hide TermRange, SlowestSqr, FastestSqr, LowerVarphi, UpperVarphi;
  }

  /** The bounds on the rudder angle, and so on the thrust angle, never cross. */
  lemma AnglesInOrder(f: Analysis, r: Steered, phi: int)
    requires IsAnalysis(f) && SteeredOk(f, r) && r.minVarphi <= phi <= r.maxVarphi
    ensures LowerVarphi(r, phi) <= phi <= UpperVarphi(r, phi)
    ensures f.arctan(Tan(r.cy, LowerVarphi(r, phi) as real)) <= f.arctan(Tan(r.cy, UpperVarphi(r, phi) as real))
  {
    hide IsAnalysis, Den, Tan, Less, Steady;
    var lower, upper := LowerVarphi(r, phi), UpperVarphi(r, phi);
    DenBetween(r.cy, r.minVarphi, lower, r.maxVarphi);
    DenBetween(r.cy, r.minVarphi, upper, r.maxVarphi);
    if lower < upper {
      TanIncreases(r.cy, lower as real, upper as real);
      ArctanFacts(f, Tan(r.cy, lower as real), Tan(r.cy, upper as real));
    }
  }

  /** With Cy >= 0.04 there is room as long as the rotation can be brought back to its
      maximum in one step. */
  lemma LargeCyHasRoom(f: Analysis, r: Steered, s: State)
    requires IsAnalysis(f) && SteeredOk(f, r) && SteeredGood(r, s) && r.cy >= 0.04
    requires r.maxDeltaRotation >= 0 && r.minRotation <= r.maxRotation
        && s.rotation <= r.maxRotation + r.maxDeltaRotation
    ensures SteeredRoom(r, s)
  {
    hide IsAnalysis, Den, Tan, Steady, TermRange, Right, Sqr;
    var lower, upper := LowerVarphi(r, s.alphaDeg) as real, UpperVarphi(r, s.alphaDeg) as real;
    var (least, greatest) := TermRange(r.cy, lower, upper);
    AnglesInOrder(f, r, s.alphaDeg);
    RangeForEveryBox(r.cy);
    RightOrder(r.cy, lower, upper);
    TermRangeNonneg(r.cy, lower, upper);
    SlowestFirst(r, s.rotation);
    var slow, fast := SlowestSqr(r, s.rotation), FastestSqr(r, s.rotation);
    SquareMonotone(slow, fast);
    ProductNonneg(fast * fast - slow * slow, least);
    ProductNonneg(fast * fast, greatest - least);
  }

  lemma RightOrder(cy: real, lower: real, upper: real)
    requires cy > 0.0 && lower <= upper && Right(cy, lower, upper)
    ensures var (least, greatest) := TermRange(cy, lower, upper); least <= greatest
  {
    hide TermRange, TermSquare;
    assert TermSquare(cy, lower) == TermSquare(cy, lower);
  }

  lemma SlowestFirst(r: Steered, n: int)
    requires 0 <= r.minRotation <= n && r.minRotation <= r.maxRotation
    requires r.maxDeltaRotation >= 0 && n <= r.maxRotation + r.maxDeltaRotation
    ensures 0.0 <= SlowestSqr(r, n) <= FastestSqr(r, n)
  {
    hide Sqr;
    var d := r.maxDeltaRotation;
    SqrSign(r.minRotation);
    SqrSign(n - d);
    SqrOrder(r.minRotation, r.maxRotation);
    SqrOrder(r.minRotation, n + d);
    if n >= d {
      SqrOrder(n - d, r.maxRotation);
      SqrOrder(n - d, n + d);
    }
  }

  // ----- what can be reached

  lemma RotationIs(u: real, q: real, n: int)
    requires q > 0.0 && n >= 0 && u >= 0.0 && Thrust(q, n) <= u < Thrust(q, n + 1)
    ensures RotationOf(u, q) == n
  {
    hide Thrust, RotationOf, Sqr;
    var t := RotationOf(u, q);
    RootRange(u, q);
    ThrustQuotient(u, q, n);
    ThrustQuotient(u, q, n + 1);
    if t < n {
      SqrOrder(t + 1, n);
    } else if n < t {
      SqrOrder(n + 1, t);
    }
  }

  /** The state that follows when the answer leads to the rudder angle phi and the thrust
      v, which reads as n turns there. */
  lemma NextIs(f: Analysis, r: Steered, s: State, x: Delta, phi: int, v: real, n: int)
    requires IsAnalysis(f) && r.k > 0.0 && r.cy > 0.0 && Kept(f, r.cy, phi)
    requires SteeredRead(f, r, s.rotation, s.alphaDeg).1 + x.u == v >= 0.0 && r.minRotation <= n && 0 <= n
    requires f.arctan(Tan(r.cy, s.alphaDeg as real)) + x.alpha == f.arctan(Tan(r.cy, phi as real))
    requires var q := Coefficient(f, r, phi); Thrust(q, n) <= v < Thrust(q, n + 1)
    ensures SteeredNext(f, r, s, x) == State(n, phi)
  {
    hide IsAnalysis, Tan, SteeredRead, RudderAngle, Thrust, RotationOf, Coefficient;
    CoefficientPositive(f, r, phi);
    RotationIs(v, Coefficient(f, r, phi), n);
  }

  /** The limits keep the computed bounds of the factor right. */
  predicate Gentle(r: Steered)
    requires r.cy > 0.0
  {
    r.cy >= 0.04 || (Sqr(r.minVarphi) <= Vertex(r.cy) && Sqr(r.maxVarphi) <= Vertex(r.cy))
  }

  lemma GentleRight(r: Steered, lower: real, upper: real)
    requires r.cy > 0.0 && Gentle(r) && r.minVarphi as real <= lower <= upper <= r.maxVarphi as real
    ensures Right(r.cy, lower, upper)
  {
    hide Vertex, TermRange, IsRange;
    SquareRangeIs(lower, upper, lower);
    VertexSign(r.cy);
    var p := Farthest(lower, upper);
    if p >= 0.0 {
      SquareMonotone(p, r.maxVarphi as real);
    } else {
      SquareMonotone(-p, -(r.minVarphi as real));
    }
    RangeIff(r.cy, lower, upper);
  }

  /** The rotations and the rudder angles in reach of s */
  predicate SteeredReach(r: Steered, s: State, t: State) {
    && r.minVarphi <= t.alphaDeg <= r.maxVarphi
    && -r.maxDeltaVarphi <= t.alphaDeg - s.alphaDeg <= r.maxDeltaVarphi
    && r.minRotation <= t.rotation <= r.maxRotation
    && -r.maxDeltaRotation <= t.rotation - s.rotation <= r.maxDeltaRotation
  }

  /** The answer that leads to t */
  lemma SteeredReached(f: Analysis, r: Steered, s: State, t: State) returns (x: Delta)
    requires IsAnalysis(f) && SteeredOk(f, r) && Gentle(r) && SteeredGood(r, s) && SteeredReach(r, s, t)
    ensures Inside(SteeredBoxAt(f, r, s), x) && SteeredNext(f, r, s, x) == t
  {
    hide *;
    var phi := t.alphaDeg;
    GoodParts(f, r, s);
    ReachParts(r, s, t);
    TargetKept(f, r, phi);
    CoefficientPositive(f, r, phi);
    TargetAngle(f, r, s, phi);
    TargetThrust(f, r, s, t);
    var v := Thrust(Coefficient(f, r, phi), t.rotation);
    ThrustIncreases(Coefficient(f, r, phi), t.rotation);
    x := Delta(v - SteeredRead(f, r, s.rotation, s.alphaDeg).1,
               f.arctan(Tan(r.cy, phi as real)) - f.arctan(Tan(r.cy, s.alphaDeg as real)));
    NextIs(f, r, s, x, phi, v, t.rotation);
    InsideBox(f, r, s, x, f.arctan(Tan(r.cy, phi as real)), v);
  }

  lemma ReachParts(r: Steered, s: State, t: State)
    requires r.minRotation >= 0 && SteeredReach(r, s, t)
    ensures 0 <= r.minRotation <= t.rotation && r.minVarphi <= t.alphaDeg <= r.maxVarphi
    ensures LowerVarphi(r, s.alphaDeg) <= t.alphaDeg <= UpperVarphi(r, s.alphaDeg)
  {}

  lemma TargetKept(f: Analysis, r: Steered, phi: int)
    requires IsAnalysis(f) && SteeredOk(f, r) && r.minVarphi <= phi <= r.maxVarphi
    ensures Kept(f, r.cy, phi)
  {
    hide IsAnalysis, Den, Tan, Round, Steady, RudderAngle;
    DenBetween(r.cy, r.minVarphi, phi, r.maxVarphi);
    RoundTrip(f, r.cy, phi);
    SteadyAngles(f, r.cy, phi);
  }

  lemma TargetAngle(f: Analysis, r: Steered, s: State, phi: int)
    requires IsAnalysis(f) && SteeredOk(f, r) && r.minVarphi <= phi <= r.maxVarphi
    requires r.minVarphi <= s.alphaDeg <= r.maxVarphi
    requires LowerVarphi(r, s.alphaDeg) <= phi <= UpperVarphi(r, s.alphaDeg)
    ensures f.arctan(Tan(r.cy, LowerVarphi(r, s.alphaDeg) as real)) <= f.arctan(Tan(r.cy, phi as real))
         <= f.arctan(Tan(r.cy, UpperVarphi(r, s.alphaDeg) as real))
  {
    hide IsAnalysis, Den, Tan, Steady, Less;
    var lower, upper := LowerVarphi(r, s.alphaDeg), UpperVarphi(r, s.alphaDeg);
    DenBetween(r.cy, r.minVarphi, lower, r.maxVarphi);
    DenBetween(r.cy, r.minVarphi, phi, r.maxVarphi);
    DenBetween(r.cy, r.minVarphi, upper, r.maxVarphi);
    if lower < phi {
      TanIncreases(r.cy, lower as real, phi as real);
      ArctanFacts(f, Tan(r.cy, lower as real), Tan(r.cy, phi as real));
    }
    if phi < upper {
      TanIncreases(r.cy, phi as real, upper as real);
      ArctanFacts(f, Tan(r.cy, phi as real), Tan(r.cy, upper as real));
    }
  }

  lemma ThrustIncreases(q: real, n: int)
    requires q > 0.0 && n >= 0
    ensures 0.0 <= Thrust(q, n) < Thrust(q, n + 1)
  {
    ThrustFacts(q, n);
    SqrGrows(n, n + 1);
    ScaledOrder(q, Sqr(n), Sqr(n + 1));
  }

  /** The thrust of the rotation and the angle asked for is within the bounds. */
  lemma TargetThrust(f: Analysis, r: Steered, s: State, t: State)
    requires IsAnalysis(f) && SteeredOk(f, r) && Gentle(r) && SteeredGood(r, s) && SteeredReach(r, s, t)
    ensures var lower, upper := LowerVarphi(r, s.alphaDeg) as real, UpperVarphi(r, s.alphaDeg) as real;
            var (least, greatest) := TermRange(r.cy, lower, upper);
            LeastThrust(r, s.rotation) * f.sqrt(least) <= Thrust(Coefficient(f, r, t.alphaDeg), t.rotation)
            <= GreatestThrust(r, s.rotation) * f.sqrt(greatest)
  {
    hide IsAnalysis, Den, Steady, TermRange, Right, Vertex, Coefficient, Thrust, LeastThrust, GreatestThrust;
    var lower, upper := LowerVarphi(r, s.alphaDeg) as real, UpperVarphi(r, s.alphaDeg) as real;
    var (least, greatest) := TermRange(r.cy, lower, upper);
    GentleRight(r, lower, upper);
    TermRangeIff(f, r.cy, lower, upper);
    TermRangeNonneg(r.cy, lower, upper);
    SqrtFacts(f, least);
    SqrtFacts(f, greatest);
    TargetRotation(r, s.rotation, t.rotation);
    ThrustOfTerm(f, r, t.alphaDeg, t.rotation);
    ThrustFacts(r.k, t.rotation);
    var v, term := Thrust(r.k, t.rotation), Term(f, r.cy, t.alphaDeg);
    assert f.sqrt(least) <= TermAt(f, r.cy, t.alphaDeg as real) <= f.sqrt(greatest);
    ProductsOrdered(LeastThrust(r, s.rotation), v, f.sqrt(least), term);
    ProductsOrdered(v, GreatestThrust(r, s.rotation), term, f.sqrt(greatest));
  }

  lemma ProductsOrdered(a: real, b: real, x: real, y: real)
    requires a <= b && 0.0 <= b && 0.0 <= x <= y
    ensures a * x <= b * y
  {
    ProductNonneg(b - a, x);
    ProductNonneg(b, y - x);
  }

  lemma ThrustOfTerm(f: Analysis, r: Steered, phi: int, n: int)
    ensures Thrust(Coefficient(f, r, phi), n) == Thrust(r.k, n) * Term(f, r.cy, phi)
  {
    hide Term;
    assert (Term(f, r.cy, phi) * r.k) * Sqr(n) == (r.k * Sqr(n)) * Term(f, r.cy, phi);
  }

  lemma TargetRotation(r: Steered, n: int, m: int)
    requires r.k > 0.0 && 0 <= r.minRotation <= n && r.minRotation <= m <= r.maxRotation
    requires -r.maxDeltaRotation <= m - n <= r.maxDeltaRotation
    ensures LeastThrust(r, n) <= Thrust(r.k, m) <= GreatestThrust(r, n)
  {
    hide Thrust;
    ThrustGrows(r.k, r.minRotation, m);
    ThrustGrows(r.k, m, r.maxRotation);
    ThrustGrows(r.k, m, n + r.maxDeltaRotation);
    if n >= r.maxDeltaRotation {
      ThrustGrows(r.k, n - r.maxDeltaRotation, m);
    }
  }

  lemma InsideBox(f: Analysis, r: Steered, s: State, x: Delta, alpha: real, v: real)
    requires r.cy > 0.0 && r.minRotation <= s.rotation
    requires SteeredRead(f, r, s.rotation, s.alphaDeg).1 + x.u == v
    requires f.arctan(Tan(r.cy, s.alphaDeg as real)) + x.alpha == alpha
    ensures var lower, upper := LowerVarphi(r, s.alphaDeg) as real, UpperVarphi(r, s.alphaDeg) as real;
            var (least, greatest) := TermRange(r.cy, lower, upper);
            Inside(SteeredBoxAt(f, r, s), x)
            <==> f.arctan(Tan(r.cy, lower)) <= alpha <= f.arctan(Tan(r.cy, upper))
                 && LeastThrust(r, s.rotation) * f.sqrt(least) <= v
                 <= GreatestThrust(r, s.rotation) * f.sqrt(greatest)
  {
    hide Tan, TermRange, Coefficient, Thrust, LeastThrust, GreatestThrust, LowerVarphi, UpperVarphi;
  }

  /** The effective thrust of n turns at the rudder angle phi */
  function EffectiveThrust(f: Analysis, r: Steered, n: int, phi: real): real {
    Thrust(r.k, n) * TermAt(f, r.cy, phi)
  }

  /** The thrust asked for lies between that of the slowest rotation in reach at some rudder
      angle in reach, and that of the fastest one at some other. */
  lemma SteeredThrustIn(f: Analysis, r: Steered, s: State, x: Delta)
    requires IsAnalysis(f) && SteeredOk(f, r) && Gentle(r) && SteeredGood(r, s) && Inside(SteeredBoxAt(f, r, s), x)
    requires r.minRotation <= r.maxRotation && r.maxDeltaRotation >= 0
    ensures var slow := Larger(s.rotation - r.maxDeltaRotation, r.minRotation);
            var fast := Smaller(s.rotation + r.maxDeltaRotation, r.maxRotation);
            var v := SteeredRead(f, r, s.rotation, s.alphaDeg).1 + x.u;
            exists p: real, q: real ::
              && AngleReached(r, s.alphaDeg, p) && AngleReached(r, s.alphaDeg, q)
              && EffectiveThrust(f, r, slow, p) <= v <= EffectiveThrust(f, r, fast, q)
  {
    hide IsAnalysis, Den, Steady, TermRange, Right, Vertex, Thrust, LeastThrust, GreatestThrust, SteeredBoxAt, Inside;
    hide SteeredRead, TermAt;
    var lower, upper := LowerVarphi(r, s.alphaDeg) as real, UpperVarphi(r, s.alphaDeg) as real;
    var (least, greatest) := TermRange(r.cy, lower, upper);
    GentleRight(r, lower, upper);
    TermRangeIff(f, r.cy, lower, upper);
    InsideBox(f, r, s, x, f.arctan(Tan(r.cy, s.alphaDeg as real)) + x.alpha,
              SteeredRead(f, r, s.rotation, s.alphaDeg).1 + x.u);
    SlowAndFast(r, s.rotation);
    var p: real :| lower <= p <= upper && TermAt(f, r.cy, p) == f.sqrt(least);
    var q: real :| lower <= q <= upper && TermAt(f, r.cy, q) == f.sqrt(greatest);
    assert AngleReached(r, s.alphaDeg, p) && AngleReached(r, s.alphaDeg, q);
  }

  predicate AngleReached(r: Steered, angle: int, phi: real) {
    && r.minVarphi as real <= phi <= r.maxVarphi as real
    && -r.maxDeltaVarphi as real <= phi - angle as real <= r.maxDeltaVarphi as real
  }

  lemma SlowAndFast(r: Steered, n: int)
    requires r.k > 0.0 && 0 <= r.minRotation <= n && r.minRotation <= r.maxRotation && r.maxDeltaRotation >= 0
    ensures LeastThrust(r, n) == Thrust(r.k, Larger(n - r.maxDeltaRotation, r.minRotation))
    ensures GreatestThrust(r, n) == Thrust(r.k, Smaller(n + r.maxDeltaRotation, r.maxRotation))
  {
    hide Thrust;
    var d := r.maxDeltaRotation;
    if n + d <= r.maxRotation {
      ThrustGrows(r.k, n + d, r.maxRotation);
    } else {
      ThrustGrows(r.k, r.maxRotation, n + d);
    }
    if n >= d {
      if n - d <= r.minRotation {
        ThrustGrows(r.k, n - d, r.minRotation);
      } else {
        ThrustGrows(r.k, r.minRotation, n - d);
      }
    }
  }

  /** What is commanded for the thrust u at the rudder angle phi */
  lemma SteeredWriteCommands(f: Analysis, r: Steered, phi: int, u: real)
    requires IsAnalysis(f) && r.k > 0.0 && r.cy > 0.0 && r.minRotation >= 0
    ensures var (n, v) := SteeredWrite(f, r, phi, u);
            Commanded(Coefficient(f, r, phi), r.minRotation, Thrust(r.k, r.minRotation), u, n, v)
  {
    hide IsAnalysis, Coefficient, RotationOf, Thrust, Commanded;
    CoefficientPositive(f, r, phi);
    RotationCommanded(Coefficient(f, r, phi), r.minRotation, Thrust(r.k, r.minRotation), u);
  }

  /** A thruster with Cy = 0.0126 and limits of 30 degrees that an admissible answer
      brings from a good state into a good state without room. */
  lemma Jams(f: Analysis) returns (r: Steered, s: State, x: Delta)
    requires IsAnalysis(f)
    ensures SteeredOk(f, r) && SteeredGood(r, s) && Admissible(SteeredBoxAt(f, r, s), x)
    ensures var next := SteeredNext(f, r, s, x); SteeredGood(r, next) && !SteeredRoom(r, next)
  {
    hide *;
    r := Steered(1.0, 0.0126, 1, 100, 1, 10, 30, -30);
    s := State(100, 20);
    var u := SteeredRead(f, r, 100, 20).1;
    x := Delta(9829.0 - u, f.arctan(Tan(0.0126, 30.0)) - f.arctan(Tan(0.0126, 20.0)));
    JamParameters(f, r);
    JamAdmissible(f, r, s, x);
    JamKept(f, r);
    JamThrust(Coefficient(f, r, 30));
    NextIs(f, r, s, x, 30, 9829.0, 106);
    JamNoRoom(r);
  }

  lemma JamParameters(f: Analysis, r: Steered)
    requires IsAnalysis(f) && r == Steered(1.0, 0.0126, 1, 100, 1, 10, 30, -30)
    ensures SteeredOk(f, r) && SteeredGood(r, State(100, 20)) && SteeredGood(r, State(106, 30))
  {
    hide IsAnalysis, Steady;
    LargeCyIsSteady(f, 0.0126);
    assert Den(0.0126, 30.0) == 0.7732 && Den(0.0126, -30.0) == 0.7732;
  }

  lemma JamRange(lower: real, upper: real)
    requires upper == 30.0 && (lower == 10.0 || lower == 20.0)
    ensures TermRange(0.0126, lower, upper) == (0.74072224, if lower == 10.0 then 0.96611104 else 0.87206464)
  {
    assert 100.0 / 0.0126 > 7900.0;
  }

  lemma JamAdmissible(f: Analysis, r: Steered, s: State, x: Delta)
    requires IsAnalysis(f) && r == Steered(1.0, 0.0126, 1, 100, 1, 10, 30, -30) && s == State(100, 20)
    requires x == Delta(9829.0 - SteeredRead(f, r, 100, 20).1,
        f.arctan(Tan(0.0126, 30.0)) - f.arctan(Tan(0.0126, 20.0)))
    ensures Admissible(SteeredBoxAt(f, r, s), x)
  {
    hide IsAnalysis, SteeredOk, Tan, TermRange, SteeredRead, Thrust;
    JamParameters(f, r);
    JamRange(10.0, 30.0);
    JamAngles(f);
    SqrtBetween(f, 0.74072224, 0.8606, 0.8607);
    SqrtBetween(f, 0.96611104, 0.9829, 0.983);
    JamThrusts();
    var u := SteeredRead(f, r, 100, 20).1;
    var alpha := f.arctan(Tan(0.0126, 20.0));
    assert LowerVarphi(r, 20) == 10 && UpperVarphi(r, 20) == 30;
    assert SteeredRead(f, r, 100, 20).0 == 100 by { JamRead(f, r); }
    assert SteeredBoxAt(f, r, s)
        == Box(f.arctan(Tan(0.0126, 10.0)) - alpha, f.arctan(Tan(0.0126, 30.0)) - alpha,
               9801.0 * f.sqrt(0.74072224) - u, 10000.0 * f.sqrt(0.96611104) - u);
  }

  lemma JamRead(f: Analysis, r: Steered)
    requires r.minRotation == 1
    ensures SteeredRead(f, r, 100, 20).0 == 100
  {}

  lemma JamAngles(f: Analysis)
    requires IsAnalysis(f)
    ensures f.arctan(Tan(0.0126, 10.0)) <= f.arctan(Tan(0.0126, 30.0))
  {
    hide IsAnalysis, Tan, Less;
    assert Den(0.0126, 10.0) == 0.9748 && Den(0.0126, 30.0) == 0.7732;
    TanIncreases(0.0126, 10.0, 30.0);
    ArctanFacts(f, Tan(0.0126, 10.0), Tan(0.0126, 30.0));
  }

  lemma JamThrusts()
    ensures Thrust(1.0, 1) == 1.0 && Thrust(1.0, 99) == 9801.0
    ensures Thrust(1.0, 100) == 10000.0 && Thrust(1.0, 101) == 10201.0
  {}

  lemma SqrtBetween(f: Analysis, x: real, a: real, b: real)
    requires IsAnalysis(f) && 0.0 <= a <= b && a * a <= x <= b * b
    ensures a <= f.sqrt(x) <= b
  {
    hide IsAnalysis;
    SqrtFacts(f, x);
    var t := f.sqrt(x);
    if t < a {
      SquaresGrow(t, a);
    } else if t > b {
      SquaresGrow(b, t);
    }
  }

  lemma JamKept(f: Analysis, r: Steered)
    requires IsAnalysis(f) && r.k == 1.0 && r.cy == 0.0126
    ensures Kept(f, 0.0126, 30) && 0.8606 <= Coefficient(f, r, 30) <= 0.8607
  {
    hide IsAnalysis, Tan, Steady, RudderAngle, Coefficient, Term;
    assert Den(0.0126, 30.0) == 0.7732;
    LargeCyIsSteady(f, 0.0126);
    RoundTrip(f, 0.0126, 30);
    SteadyAngles(f, 0.0126, 30);
    TermAtThirty(f);
    CoefficientIs(f, r, 30);
  }

  lemma JamThrust(q: real)
    requires 0.8606 <= q <= 0.8607
    ensures Thrust(q, 106) <= 9829.0 < Thrust(q, 107)
  {
    hide Thrust;
    ThrustIs(q, 106, 11236.0);
    ThrustIs(q, 107, 11449.0);
  }

  lemma JamNoRoom(r: Steered)
    requires r == Steered(1.0, 0.0126, 1, 100, 1, 10, 30, -30)
    ensures !SteeredRoom(r, State(106, 30))
  {
    hide TermRange;
    JamRange(20.0, 30.0);
    assert SlowestSqr(r, 106) == 11025.0 && FastestSqr(r, 106) == 10000.0;
  }
}
