/** One thruster at a time: the box handed to the solver and the command made from its
    answer. Angles are in degrees, rotations in whole rpm, thrusts in newton. */
module Thrusters {
  import opened Reals

  datatype Tunnel = Tunnel(kPositive: real, kNegative: real, maxDeltaRotation: int, maxRotation: int)

  datatype Azimuth = Azimuth(k: real, maxDeltaRotation: int, maxRotation: int, minRotation: int,
                             maxDeltaAlpha: real, maxAlpha: real, minAlpha: real)

  datatype Twin = Twin(ly: real, kPositive: real, kNegative: real,
                       maxDeltaRotation: int, maxDeltaRotationP2n: int, maxRotation: int)

  /** Bounds on the change of angle and of thrust. */
  datatype Box = Box(lowerAlpha: real, upperAlpha: real, lowerU: real, upperU: real)

  /** What the solver returns for one thruster. */
  datatype Delta = Delta(u: real, alpha: real)

  /** What is commanded, and fed back in the next step. */
  datatype State = State(rotation: int, alphaDeg: int)

  const NO_DELTA := Delta(0.0, 0.0)

  ghost predicate Inside(b: Box, x: Delta) {
    b.lowerAlpha <= x.alpha <= b.upperAlpha && b.lowerU <= x.u <= b.upperU
  }

  /** Any answer within the box, or all zeros when the solver has failed. */
  ghost predicate Admissible(b: Box, x: Delta) {
    x == NO_DELTA || Inside(b, x)
  }

  function Sqr(n: int): real { n as real * n as real }

  function Min(x: real, y: real): real { if y < x then y else x }

  function Max(x: real, y: real): real { if x < y then y else x }

  /** std::round: to the nearest integer, halves away from zero */
  function Round(x: real): int {
    if x >= 0.0 then (x + 0.5).Floor else -((0.5 - x).Floor)
  }

  /** static_cast<int>(sqrt(x)) */
  function Root(x: real): (t: int)
    requires x >= 0.0
    ensures t >= 0 && Sqr(t) <= x < Sqr(t + 1)
  {
    RootUpTo(x, x.Floor)
  }

  function RootUpTo(x: real, n: int): (t: int)
    requires x >= 0.0 && n >= 0 && x < Sqr(n + 1)
    ensures t >= 0 && Sqr(t) <= x < Sqr(t + 1)
    decreases n
  {
    if Sqr(n) <= x then n else RootUpTo(x, n - 1)
  }

  // ----- rotation and thrust

  /** What calculaterotation makes of a thrust of |u| with coefficient k. */
  function RotationOf(u: real, k: real): (t: int)
    requires k > 0.0
    ensures t >= 0
  {
    Root(Abs(u) / k)
  }

  lemma SqrGrows(a: int, b: int)
    requires 0 <= a < b
    ensures Sqr(a) < Sqr(b)
  {
    assert a * a < b * b;
  }

  /** The thrust of rotation n, up to its direction */
  function Thrust(k: real, n: int): real { k * Sqr(n) }

  lemma ThrustFacts(k: real, n: int)
    requires k > 0.0
    ensures Thrust(k, n) >= 0.0 && Thrust(k, -n) == Thrust(k, n) && Thrust(k, 0) == 0.0
  {
    SqrSign(n);
    assert k * Sqr(n) >= 0.0;
  }

  lemma SqrSign(a: int)
    ensures Sqr(a) >= 0.0 && Sqr(-a) == Sqr(a)
  {
    if a < 0 {
      assert a * a == (-a) * (-a) > 0;
    }
  }

  /** A thrust between those of the rotations a and b gives a rotation between them. */
  lemma RotationBetween(u: real, k: real, a: int, b: int)
    requires k > 0.0 && 0 <= a && 0 <= b && Thrust(k, a) <= u <= Thrust(k, b)
    ensures a <= RotationOf(u, k) <= b
  {
    hide *;
    ThrustFacts(k, a);
    RootRange(u, k);
    ThrustQuotient(u, k, a);
    ThrustQuotient(u, k, b);
    var t := RotationOf(u, k);
    if t + 1 < a {
      SqrGrows(t + 1, a);
    }
    if t > b {
      SqrGrows(b, t);
    }
  }

  lemma ThrustQuotient(u: real, k: real, n: int)
    requires k > 0.0
    ensures Thrust(k, n) <= u <==> Sqr(n) <= u / k
    ensures u <= Thrust(k, n) <==> u / k <= Sqr(n)
  {
    hide Sqr;
    QuotientOrder(u, k, Sqr(n));
  }

  lemma RootRange(u: real, k: real)
    requires k > 0.0 && u >= 0.0
    ensures Sqr(RotationOf(u, k)) <= u / k < Sqr(RotationOf(u, k) + 1)
  {}

  /** Thrust and back. */
  lemma RotationExact(n: int, k: real)
    requires k > 0.0
    ensures RotationOf(Thrust(k, n), k) == if n < 0 then -n else n
  {
    var a := if n < 0 then -n else n;
    ThrustFacts(k, n);
    RotationBetween(Thrust(k, n), k, a, a);
  }

  /** What is commanded when the thrust u is asked for: u itself, with n the largest
      rotation whose thrust does not exceed it, or else the least rotation allowed. */
  ghost predicate Commanded(k: real, least: int, leastThrust: real, u: real, n: int, v: real) {
    if Abs(u) < Thrust(k, least) then n == least && v == leastThrust
    else v == u && n >= least && Thrust(k, n) <= Abs(u) < Thrust(k, n + 1)
  }

  lemma RotationCommanded(k: real, least: int, leastThrust: real, u: real)
    requires k > 0.0 && least >= 0
    ensures var n := RotationOf(u, k);
            if n < least then Commanded(k, least, leastThrust, u, least, leastThrust)
            else Commanded(k, least, leastThrust, u, n, u)
  {
    hide RotationOf, Thrust, Sqr;
    var x, n := Abs(u), RotationOf(u, k);
    RotationOfAbs(u, k);
    RootRange(x, k);
    ThrustQuotient(x, k, n);
    ThrustQuotient(x, k, n + 1);
    if n < least {
      ThrustGrows(k, n + 1, least);
    } else {
      ThrustGrows(k, least, n);
    }
  }

  lemma RotationOfAbs(u: real, k: real)
    requires k > 0.0
    ensures RotationOf(Abs(u), k) == RotationOf(u, k)
  {}

  // ----- tunnel thrusters

  ghost predicate TunnelOk(t: Tunnel) {
    t.kPositive > 0.0 && t.kNegative > 0.0 && t.maxDeltaRotation >= 1 && 2 * t.maxDeltaRotation <= t.maxRotation
  }

  /** calculateu: a rotation of 0 is read as 1. */
  function TunnelRead(t: Tunnel, n: int): (int, real) {
    if n < 0 then (n, Thrust(t.kNegative, n))
    else if n > 0 then (n, Thrust(t.kPositive, n))
    else (1, t.kPositive)
  }

  function TunnelBox(t: Tunnel, n: int, u: real, desiredMz: real): Box {
    var d := t.maxDeltaRotation;
    if 0 < n <= d then
      if desiredMz > 0.0 then Box(0.0, 0.0, -u, Thrust(t.kPositive, n + d) - u)
      else Box(-180.0, -180.0, -u, Thrust(t.kNegative, n - d) - u)
    else if -d <= n < 0 then
      if desiredMz > 0.0 then Box(180.0, 180.0, -u, Thrust(t.kPositive, n + d) - u)
      else Box(0.0, 0.0, -u, Thrust(t.kNegative, n - d) - u)
    else if n > d then
      Box(0.0, 0.0, Thrust(t.kPositive, n - d) - u,
          Min(Thrust(t.kPositive, t.maxRotation) - u, Thrust(t.kPositive, n + d) - u))
    else
      Box(0.0, 0.0, Thrust(t.kNegative, n + d) - u,
          Min(Thrust(t.kNegative, n - d) - u, Thrust(t.kNegative, t.maxRotation) - u))
  }

  /** calculaterotation: the rotation and the thrust commanded; never 0. */
  function TunnelWrite(t: Tunnel, u: real, alpha: real): (int, real)
    requires t.kPositive > 0.0 && t.kNegative > 0.0
  {
    if alpha < 0.0 then
      var r := RotationOf(u, t.kNegative);
      if r == 0 then (-1, t.kNegative) else (-r, u)
    else
      var r := RotationOf(u, t.kPositive);
      if r == 0 then (1, t.kPositive) else (r, u)
  }

  function TunnelNext(t: Tunnel, s: State, x: Delta): State
    requires t.kPositive > 0.0 && t.kNegative > 0.0
  {
    var (n, u) := TunnelRead(t, s.rotation);
    var alpha := s.alphaDeg as real + x.alpha;
    State(TunnelWrite(t, u + x.u, alpha).0, Round(alpha))
  }

  function TunnelBoxAt(t: Tunnel, s: State, desiredMz: real): Box {
    var (n, u) := TunnelRead(t, s.rotation);
    TunnelBox(t, n, u, desiredMz)
  }

  /** Running, within its limit, and turning the way its angle says. */
  ghost predicate TunnelGood(t: Tunnel, s: State) {
    && -t.maxRotation <= s.rotation <= t.maxRotation
    && ((s.rotation > 0 && s.alphaDeg == 90) || (s.rotation < 0 && s.alphaDeg == -90))
  }

  /** No step is larger than allowed, but for a reversal from exactly the limit, which
      the rule against a rotation of 0 may carry one further. */
  ghost predicate TunnelSmallStep(t: Tunnel, n: int, r: int) {
    || -t.maxDeltaRotation <= r - n <= t.maxDeltaRotation
    || (n == t.maxDeltaRotation && r == -1)
    || (n == -t.maxDeltaRotation && r == 1)
  }

  lemma TunnelWriteBetween(t: Tunnel, u: real, alpha: real, a: int, b: int)
    requires TunnelOk(t) && 0 <= a && 0 <= b
    requires var k := if alpha < 0.0 then t.kNegative else t.kPositive; Thrust(k, a) <= u <= Thrust(k, b)
    ensures var r := TunnelWrite(t, u, alpha).0;
            if alpha < 0.0 then r <= -1 && ((a <= -r <= b) || (a == 0 && r == -1))
            else r >= 1 && ((a <= r <= b) || (a == 0 && r == 1))
  {
    hide Root, RotationOf, Thrust, Round;
    RotationBetween(u, if alpha < 0.0 then t.kNegative else t.kPositive, a, b);
  }

  lemma TunnelHolds(t: Tunnel, s: State)
    requires TunnelOk(t) && TunnelGood(t, s)
    ensures TunnelNext(t, s, NO_DELTA) == s
  {
    hide Root, RotationOf, Thrust, Round;
    RotationExact(s.rotation, t.kPositive);
    RotationExact(s.rotation, t.kNegative);
    RoundWhole(s.alphaDeg);
  }

  lemma RoundWhole(n: int)
    ensures Round(n as real) == n
  {}

  /** The rotations in reach of n. While it turns slowly the moment that is wanted decides
      the direction, otherwise the direction is kept; the rotation is never 0. */
  predicate TunnelReach(t: Tunnel, n: int, desiredMz: real, r: int) {
    var d := t.maxDeltaRotation;
    if n > d then n - d <= r <= n + d && r <= t.maxRotation
    else if n < -d then n - d <= r <= n + d && -t.maxRotation <= r
    else if desiredMz > 0.0 then r >= 1 && (r <= n + d || r == 1)
    else r <= -1 && (n - d <= r || r == -1)
  }

  predicate TunnelAngle(s: State) {
    s.alphaDeg == if s.rotation > 0 then 90 else -90
  }

  lemma TunnelInReach(t: Tunnel, s: State, desiredMz: real, x: Delta)
    requires TunnelOk(t) && TunnelGood(t, s) && Inside(TunnelBoxAt(t, s, desiredMz), x)
    ensures var r := TunnelNext(t, s, x); TunnelReach(t, s.rotation, desiredMz, r.rotation) && TunnelAngle(r)
  {
    hide Root, RotationOf, Thrust, TunnelWrite, Round;
    var n, d, m := s.rotation, t.maxDeltaRotation, t.maxRotation;
    var (_, u) := TunnelRead(t, n);
    var alpha := s.alphaDeg as real + x.alpha;
    ThrustFacts(t.kPositive, n - d);
    ThrustFacts(t.kNegative, n - d);
    ThrustFacts(t.kNegative, n + d);
    RoundWhole(90);
    RoundWhole(-90);
    if -d <= n <= d {
      TunnelWriteBetween(t, u + x.u, alpha, 0, if desiredMz > 0.0 then n + d else d - n);
    } else if n > d {
      TunnelWriteBetween(t, u + x.u, alpha, n - d, n + d);
      TunnelWriteBetween(t, u + x.u, alpha, n - d, m);
    } else {
      TunnelWriteBetween(t, u + x.u, alpha, -n - d, d - n);
      TunnelWriteBetween(t, u + x.u, alpha, -n - d, m);
    }
  }

  /** The answer that leads to the rotation r */
  lemma TunnelReached(t: Tunnel, s: State, desiredMz: real, r: State) returns (x: Delta)
    requires TunnelOk(t) && TunnelGood(t, s)
    requires TunnelReach(t, s.rotation, desiredMz, r.rotation) && TunnelAngle(r)
    ensures Inside(TunnelBoxAt(t, s, desiredMz), x) && TunnelNext(t, s, x) == r
  {
    hide Root, RotationOf, Thrust, Round;
    var n, d := s.rotation, t.maxDeltaRotation;
    var (_, u) := TunnelRead(t, n);
    var k := if r.rotation > 0 then t.kPositive else t.kNegative;
    var v := if (r.rotation == 1 && n == -d) || (r.rotation == -1 && n == d) then 0.0 else Thrust(k, r.rotation);
    x := Delta(v - u, r.alphaDeg as real - s.alphaDeg as real);
    RotationExact(r.rotation, k);
    RotationExact(0, k);
    RoundWhole(r.alphaDeg);
    TunnelThrusts(t, n, desiredMz, r.rotation, k);
  }

  lemma TunnelThrusts(t: Tunnel, n: int, desiredMz: real, r: int, k: real)
    requires TunnelOk(t) && -t.maxRotation <= n <= t.maxRotation && k > 0.0
    requires TunnelReach(t, n, desiredMz, r)
    ensures var d := t.maxDeltaRotation;
            && Thrust(k, r) >= 0.0 && Thrust(k, 0) == 0.0 && Thrust(k, n + d) >= 0.0 && Thrust(k, n - d) >= 0.0
            && (n > d ==> Thrust(k, n - d) <= Thrust(k, r) <= Thrust(k, n + d))
            && (n < -d ==> Thrust(k, n + d) <= Thrust(k, r) <= Thrust(k, n - d))
            && (n > d || n < -d ==> Thrust(k, r) <= Thrust(k, t.maxRotation))
            && (-d <= n <= d && 0 < r <= n + d ==> Thrust(k, r) <= Thrust(k, n + d))
            && (-d <= n <= d && n - d <= r < 0 ==> Thrust(k, r) <= Thrust(k, n - d))
  {
    hide Thrust;
    var d := t.maxDeltaRotation;
    ThrustFacts(k, r);
    ThrustFacts(k, n + d);
    ThrustFacts(k, n - d);
    if n > d {
      ThrustGrows(k, n - d, r);
      ThrustGrows(k, r, n + d);
      ThrustGrows(k, r, t.maxRotation);
    } else if n < -d {
      ThrustGrows(k, n + d, -r);
      ThrustGrows(k, r, d - n);
      ThrustGrows(k, r, t.maxRotation);
    } else if 0 < r <= n + d {
      ThrustGrows(k, r, n + d);
    } else if n - d <= r < 0 {
      ThrustGrows(k, r, d - n);
    }
  }

  /** The answers within the box lead to exactly the rotations in reach. */
  lemma TunnelReachIff(t: Tunnel, s: State, desiredMz: real, r: State)
    requires TunnelOk(t) && TunnelGood(t, s)
    ensures (exists x :: Inside(TunnelBoxAt(t, s, desiredMz), x) && TunnelNext(t, s, x) == r)
       <==> TunnelReach(t, s.rotation, desiredMz, r.rotation) && TunnelAngle(r)
  {
    hide TunnelBoxAt, TunnelNext, TunnelReach, TunnelGood, Inside;
    if x :| Inside(TunnelBoxAt(t, s, desiredMz), x) && TunnelNext(t, s, x) == r {
      TunnelInReach(t, s, desiredMz, x);
    }
    if TunnelReach(t, s.rotation, desiredMz, r.rotation) && TunnelAngle(r) {
      var x := TunnelReached(t, s, desiredMz, r);
    }
  }

  /** Every answer of the solver, or its failure, keeps a tunnel thruster good. */
  lemma TunnelKeeps(t: Tunnel, s: State, desiredMz: real, x: Delta)
    requires TunnelOk(t) && TunnelGood(t, s) && Admissible(TunnelBoxAt(t, s, desiredMz), x)
    ensures TunnelGood(t, TunnelNext(t, s, x))
    ensures TunnelSmallStep(t, s.rotation, TunnelNext(t, s, x).rotation)
  {
    hide TunnelBoxAt, TunnelNext;
    if x == NO_DELTA {
      TunnelHolds(t, s);
    } else {
      TunnelInReach(t, s, desiredMz, x);
    }
  }

  /** A rotation of 0 that is fed back counts as 1. */
  lemma TunnelReadsZero(t: Tunnel, deg: int, desiredMz: real, x: Delta)
    requires t.kPositive > 0.0 && t.kNegative > 0.0
    ensures TunnelBoxAt(t, State(0, deg), desiredMz) == TunnelBoxAt(t, State(1, deg), desiredMz)
    ensures TunnelNext(t, State(0, deg), x) == TunnelNext(t, State(1, deg), x)
  {
    hide TunnelWrite, TunnelBox, Round;
  }

  lemma TunnelWriteCommands(t: Tunnel, u: real, alpha: real)
    requires t.kPositive > 0.0 && t.kNegative > 0.0
    ensures var (n, v) := TunnelWrite(t, u, alpha);
            if alpha < 0.0 then n < 0 && Commanded(t.kNegative, 1, t.kNegative, u, -n, v)
            else n > 0 && Commanded(t.kPositive, 1, t.kPositive, u, n, v)
  {
    hide RotationOf, Thrust, Commanded;
    RotationCommanded(t.kNegative, 1, t.kNegative, u);
    RotationCommanded(t.kPositive, 1, t.kPositive, u);
  }

  /** The limit on the step is needed: without it some answer exceeds the rotation limit. */
  lemma TunnelLimitNeeded(t: Tunnel) returns (s: State, x: Delta)
    requires t.kPositive > 0.0 && t.kNegative > 0.0 && t.maxDeltaRotation >= 1 && t.maxRotation >= 1
    requires 2 * t.maxDeltaRotation > t.maxRotation
    ensures TunnelGood(t, s) && Admissible(TunnelBoxAt(t, s, 1.0), x)
    ensures !TunnelGood(t, TunnelNext(t, s, x))
  {
    hide Root, RotationOf, Thrust, Round;
    var d := t.maxDeltaRotation;
    var n := if d < t.maxRotation then d else t.maxRotation;
    s := State(n, 90);
    var u := Thrust(t.kPositive, n);
    x := Delta(Thrust(t.kPositive, n + d) - u, 0.0);
    ThrustFacts(t.kPositive, n + d);
    RotationExact(n + d, t.kPositive);
    RoundWhole(90);
  }

  // ----- azimuth thrusters

  ghost predicate AzimuthOk(a: Azimuth) {
    && a.k > 0.0 && a.maxDeltaRotation >= 1 && 0 <= a.minRotation <= a.maxRotation
    && a.minAlpha <= a.maxAlpha && a.maxDeltaAlpha >= 0.0
  }

  function AzimuthRead(a: Azimuth, n: int): (int, real) {
    if n < a.minRotation then (a.minRotation, Thrust(a.k, a.minRotation)) else (n, Thrust(a.k, n))
  }

  function AzimuthBox(a: Azimuth, n: int, u: real, alpha: real): Box {
    var d := a.maxDeltaRotation;
    Box(Max(-a.maxDeltaAlpha, a.minAlpha - alpha),
        Min(a.maxDeltaAlpha, a.maxAlpha - alpha),
        (if n < d then Thrust(a.k, a.minRotation)
         else Max(Thrust(a.k, n - d), Thrust(a.k, a.minRotation))) - u,
        Min(Thrust(a.k, a.maxRotation), Thrust(a.k, n + d)) - u)
  }

  function AzimuthWrite(a: Azimuth, u: real): (int, real)
    requires a.k > 0.0
  {
    var r := RotationOf(u, a.k);
    if r < a.minRotation then (a.minRotation, Thrust(a.k, a.minRotation)) else (r, u)
  }

  function AzimuthNext(a: Azimuth, s: State, x: Delta): State
    requires a.k > 0.0
  {
    var (n, u) := AzimuthRead(a, s.rotation);
    State(AzimuthWrite(a, u + x.u).0, Round(s.alphaDeg as real + x.alpha))
  }

  function AzimuthBoxAt(a: Azimuth, s: State): Box {
    var (n, u) := AzimuthRead(a, s.rotation);
    AzimuthBox(a, n, u, s.alphaDeg as real)
  }

  /** Within the rotation limits, and within the angle limits up to rounding. */
  ghost predicate AzimuthGood(a: Azimuth, s: State) {
    && a.minRotation <= s.rotation <= a.maxRotation
    && Round(a.minAlpha) <= s.alphaDeg <= Round(a.maxAlpha)
  }

  /** Rounding is to a nearest integer, and halves go away from zero. */
  lemma RoundIsNearest(x: real)
    ensures Abs(x - Round(x) as real) <= 0.5
    ensures Abs(x - Round(x) as real) == 0.5 ==> Abs(x) < Abs(Round(x) as real)
  {}

  lemma RoundMonotone(x: real, y: real)
    requires x <= y
    ensures Round(x) <= Round(y)
  {}

  /** A whole angle moved by at most d and rounded moves by at most d rounded. */
  lemma RoundedStep(n: int, x: real, d: real)
    requires -d <= x <= d
    ensures -Round(d) <= Round(n as real + x) - n <= Round(d)
  {}

  /** The rotation moves by at most its delta, the angle by at most its delta rounded. */
  ghost predicate AzimuthSmallStep(a: Azimuth, s: State, r: State) {
    && -a.maxDeltaRotation <= r.rotation - s.rotation <= a.maxDeltaRotation
    && -Round(a.maxDeltaAlpha) <= r.alphaDeg - s.alphaDeg <= Round(a.maxDeltaAlpha)
  }

  lemma AzimuthKeeps(a: Azimuth, s: State, x: Delta)
    requires AzimuthOk(a) && AzimuthGood(a, s) && Admissible(AzimuthBoxAt(a, s), x)
    ensures AzimuthGood(a, AzimuthNext(a, s, x))
    ensures AzimuthSmallStep(a, s, AzimuthNext(a, s, x))
    ensures x == NO_DELTA ==> AzimuthNext(a, s, x) == s
  {
    hide Root, RotationOf, Thrust, Round;
    var n, d := s.rotation, a.maxDeltaRotation;
    var u, alpha := Thrust(a.k, n), s.alphaDeg as real + x.alpha;
    RoundedStep(s.alphaDeg, x.alpha, a.maxDeltaAlpha);
    if x == NO_DELTA {
      RotationExact(n, a.k);
      RoundWhole(s.alphaDeg);
    } else {
      ThrustFacts(a.k, n + d);
      RotationBetween(u + x.u, a.k, a.minRotation, a.maxRotation);
      RotationBetween(u + x.u, a.k, a.minRotation, n + d);
      if n >= d {
        RotationBetween(u + x.u, a.k, n - d, n + d);
      }
      RoundMonotone(alpha, a.maxAlpha);
      RoundMonotone(a.minAlpha, alpha);
    }
  }

  /** The states in reach of s: rotations within their limits, and what the angles that can
      be turned to are rounded to. */
  ghost predicate AzimuthReach(a: Azimuth, s: State, r: State) {
    && a.minRotation <= r.rotation <= a.maxRotation
    && -a.maxDeltaRotation <= r.rotation - s.rotation <= a.maxDeltaRotation
    && exists alpha: real :: AngleInReach(a, s.alphaDeg as real, alpha) && Round(alpha) == r.alphaDeg
  }

  predicate AngleInReach(a: Azimuth, angle: real, alpha: real) {
    a.minAlpha <= alpha <= a.maxAlpha && -a.maxDeltaAlpha <= alpha - angle <= a.maxDeltaAlpha
  }

  /** The answers within the box lead to exactly the states in reach. */
  lemma AzimuthReachIff(a: Azimuth, s: State, r: State)
    requires AzimuthOk(a) && AzimuthGood(a, s)
    ensures (exists x :: Inside(AzimuthBoxAt(a, s), x) && AzimuthNext(a, s, x) == r) <==> AzimuthReach(a, s, r)
  {
    hide Thrust, Round, AzimuthBoxAt, AzimuthNext;
    if x :| Inside(AzimuthBoxAt(a, s), x) && AzimuthNext(a, s, x) == r {
      AzimuthKeeps(a, s, x);
      AzimuthTurns(a, s, x);
      assert AngleInReach(a, s.alphaDeg as real, s.alphaDeg as real + x.alpha);
    }
    if AzimuthReach(a, s, r) {
      var alpha :| AngleInReach(a, s.alphaDeg as real, alpha) && Round(alpha) == r.alphaDeg;
      var x := AzimuthReached(a, s, alpha, r.rotation);
      assert AzimuthNext(a, s, x) == r;
    }
  }

  lemma AzimuthTurns(a: Azimuth, s: State, x: Delta)
    requires AzimuthOk(a) && AzimuthGood(a, s) && Inside(AzimuthBoxAt(a, s), x)
    ensures AngleInReach(a, s.alphaDeg as real, s.alphaDeg as real + x.alpha)
    ensures AzimuthNext(a, s, x).alphaDeg == Round(s.alphaDeg as real + x.alpha)
  {
    hide Thrust, Round, AzimuthWrite;
  }

  /** The answer that leads to the angle alpha and n turns */
  lemma AzimuthReached(a: Azimuth, s: State, alpha: real, n: int) returns (x: Delta)
    requires AzimuthOk(a) && AzimuthGood(a, s) && AngleInReach(a, s.alphaDeg as real, alpha)
    requires a.minRotation <= n <= a.maxRotation && -a.maxDeltaRotation <= n - s.rotation <= a.maxDeltaRotation
    ensures Inside(AzimuthBoxAt(a, s), x) && AzimuthNext(a, s, x) == State(n, Round(alpha))
  {
    hide Root, RotationOf, Thrust, Round;
    var d := a.maxDeltaRotation;
    x := Delta(Thrust(a.k, n) - Thrust(a.k, s.rotation), alpha - s.alphaDeg as real);
    RotationExact(n, a.k);
    ThrustGrows(a.k, n, a.maxRotation);
    ThrustGrows(a.k, n, s.rotation + d);
    ThrustGrows(a.k, a.minRotation, n);
    if s.rotation >= d {
      ThrustGrows(a.k, s.rotation - d, n);
    }
  }

  /** A rotation below the minimum that is fed back counts as the minimum. */
  lemma AzimuthReadsLow(a: Azimuth, s: State, x: Delta)
    requires a.k > 0.0 && s.rotation < a.minRotation
    ensures AzimuthBoxAt(a, s) == AzimuthBoxAt(a, State(a.minRotation, s.alphaDeg))
    ensures AzimuthNext(a, s, x) == AzimuthNext(a, State(a.minRotation, s.alphaDeg), x)
  {
    hide AzimuthWrite, Round, AzimuthBox;
  }

  lemma AzimuthWriteCommands(a: Azimuth, u: real)
    requires AzimuthOk(a)
    ensures var (n, v) := AzimuthWrite(a, u); Commanded(a.k, a.minRotation, Thrust(a.k, a.minRotation), u, n, v)
  {
    hide RotationOf, Thrust, Commanded;
    RotationCommanded(a.k, a.minRotation, Thrust(a.k, a.minRotation), u);
  }

  // ----- twin fixed thrusters

  ghost predicate TwinOk(w: Twin) {
    && w.kPositive > 0.0 && w.kNegative > 0.0
    && 1 <= w.maxDeltaRotationP2n <= w.maxDeltaRotation
    && w.maxDeltaRotation + w.maxDeltaRotationP2n <= w.maxRotation + 1
  }

  function TwinRead(w: Twin, n: int): (int, real) {
    if n < 0 then (n, Thrust(w.kNegative, n))
    else if n > 0 then (n, Thrust(w.kPositive, n))
    else (1, w.kPositive)
  }

  /** The desired thrusts of the pair. */
  function DesiredThrusts(w0: Twin, w1: Twin, fx: real, mz: real): (real, real)
    requires w0.ly != w1.ly
  {
    var deltaL := 1.0 / (w1.ly - w0.ly);
    ((mz + fx * w1.ly) * deltaL, -(mz + fx * w0.ly) * deltaL)
  }

  function TwinBox(w: Twin, n: int, u: real, desired: real): Box {
    var d, p := w.maxDeltaRotation, w.maxDeltaRotationP2n;
    if n >= d then
      Box(0.0, 0.0, Thrust(w.kPositive, n - d) - u,
          Min(Thrust(w.kPositive, w.maxRotation) - u, Thrust(w.kPositive, n + d) - u))
    else if p <= n < d then
      Box(0.0, 0.0, Thrust(w.kPositive, n - p) - u, Thrust(w.kPositive, n + p) - u)
    else if 0 < n < p then
      if desired < 0.0 then
        Box(180.0, 180.0, Thrust(w.kNegative, n - p) - u, Thrust(w.kNegative, n - p) - u)
      else
        Box(0.0, 0.0, Thrust(w.kPositive, n + p) - u, Thrust(w.kPositive, n + p) - u)
    else if -p < n < 0 then
      if desired < 0.0 then
        Box(0.0, 0.0, Thrust(w.kNegative, n - p) - u, Thrust(w.kNegative, n - p) - u)
      else
        Box(-180.0, -180.0, Thrust(w.kPositive, n + p) - u, Thrust(w.kPositive, n + p) - u)
    else if -d < n <= -p then
      Box(0.0, 0.0, Thrust(w.kNegative, n + p) - u, Thrust(w.kNegative, n - p) - u)
    else
      Box(0.0, 0.0, Thrust(w.kNegative, n + d) - u,
          Min(Thrust(w.kNegative, w.maxRotation) - u, Thrust(w.kNegative, n - d) - u))
  }

  function TwinWrite(w: Twin, u: real, alpha: real): (int, real)
    requires w.kPositive > 0.0 && w.kNegative > 0.0
  {
    if alpha > 90.0 then
      var r := RotationOf(u, w.kNegative);
      if r == 0 then (-1, w.kNegative) else (-r, u)
    else
      var r := RotationOf(u, w.kPositive);
      if r == 0 then (1, w.kPositive) else (r, u)
  }

  function TwinNext(w: Twin, s: State, x: Delta): State
    requires w.kPositive > 0.0 && w.kNegative > 0.0
  {
    var (n, u) := TwinRead(w, s.rotation);
    var alpha := s.alphaDeg as real + x.alpha;
    State(TwinWrite(w, u + x.u, alpha).0, Round(alpha))
  }

  function TwinBoxAt(w: Twin, s: State, desired: real): Box {
    var (n, u) := TwinRead(w, s.rotation);
    TwinBox(w, n, u, desired)
  }

  ghost predicate TwinGood(w: Twin, s: State) {
    && -w.maxRotation <= s.rotation <= w.maxRotation
    && ((s.rotation > 0 && s.alphaDeg == 0) || (s.rotation < 0 && s.alphaDeg == 180))
  }

  /** The reversal protocol: the direction changes only inside the band |n| < p2n, by a
      step of exactly p2n that ends inside it again, and only toward the desired thrust. */
  ghost predicate ReversesWell(w: Twin, n: int, r: int, desired: real) {
    var p := w.maxDeltaRotationP2n;
    && (n > 0 && r < 0 ==> n < p && r == n - p && desired < 0.0)
    && (n < 0 && r > 0 ==> -p < n && r == n + p && desired >= 0.0)
  }

  lemma TwinWriteBetween(w: Twin, u: real, alpha: real, a: int, b: int)
    requires TwinOk(w) && 0 <= a && 0 <= b
    requires var k := if alpha > 90.0 then w.kNegative else w.kPositive; Thrust(k, a) <= u <= Thrust(k, b)
    ensures var r := TwinWrite(w, u, alpha).0;
            if alpha > 90.0 then r <= -1 && ((a <= -r <= b) || (a == 0 && r == -1))
            else r >= 1 && ((a <= r <= b) || (a == 0 && r == 1))
  {
    hide Root, RotationOf, Thrust;
    RotationBetween(u, if alpha > 90.0 then w.kNegative else w.kPositive, a, b);
  }

  /** The rotations in reach of n. Inside the band there is only one: a step of exactly p2n
      toward the desired thrust. Outside it the direction is kept; the rotation is never 0. */
  predicate TwinReach(w: Twin, n: int, desired: real, r: int) {
    var d, p := w.maxDeltaRotation, w.maxDeltaRotationP2n;
    if n >= d then r >= 1 && n - d <= r <= n + d && r <= w.maxRotation
    else if n >= p then r >= 1 && n - p <= r <= n + p
    else if n <= -d then r <= -1 && n - d <= r <= n + d && -w.maxRotation <= r
    else if n <= -p then r <= -1 && n - p <= r <= n + p
    else r == if desired < 0.0 then n - p else n + p
  }

  predicate TwinAngle(s: State) {
    s.alphaDeg == if s.rotation > 0 then 0 else 180
  }

  lemma TwinInReach(w: Twin, s: State, desired: real, x: Delta)
    requires TwinOk(w) && TwinGood(w, s) && Inside(TwinBoxAt(w, s, desired), x)
    ensures var r := TwinNext(w, s, x); TwinReach(w, s.rotation, desired, r.rotation) && TwinAngle(r)
  {
    hide Root, RotationOf, Thrust, TwinWrite, Round;
    var n, d, p, m := s.rotation, w.maxDeltaRotation, w.maxDeltaRotationP2n, w.maxRotation;
    var (_, u) := TwinRead(w, n);
    var alpha := s.alphaDeg as real + x.alpha;
    ThrustFacts(w.kNegative, n - p);
    ThrustFacts(w.kNegative, n + p);
    ThrustFacts(w.kNegative, n - d);
    ThrustFacts(w.kNegative, n + d);
    RoundWhole(0);
    RoundWhole(180);
    if n >= d {
      TwinWriteBetween(w, u + x.u, alpha, n - d, n + d);
      TwinWriteBetween(w, u + x.u, alpha, n - d, m);
    } else if p <= n {
      TwinWriteBetween(w, u + x.u, alpha, n - p, n + p);
    } else if -p < n {
      var r := if desired < 0.0 then p - n else n + p;
      TwinWriteBetween(w, u + x.u, alpha, r, r);
    } else if -d < n {
      TwinWriteBetween(w, u + x.u, alpha, -n - p, p - n);
    } else {
      TwinWriteBetween(w, u + x.u, alpha, -n - d, d - n);
      TwinWriteBetween(w, u + x.u, alpha, -n - d, m);
    }
  }

  /** The answer that leads to the rotation r */
  lemma TwinReached(w: Twin, s: State, desired: real, r: State) returns (x: Delta)
    requires TwinOk(w) && TwinGood(w, s)
    requires TwinReach(w, s.rotation, desired, r.rotation) && TwinAngle(r)
    ensures Inside(TwinBoxAt(w, s, desired), x) && TwinNext(w, s, x) == r
  {
    hide Root, RotationOf, Thrust, Round;
    var (_, u) := TwinRead(w, s.rotation);
    var k := if r.rotation > 0 then w.kPositive else w.kNegative;
    x := Delta(Thrust(k, r.rotation) - u, r.alphaDeg as real - s.alphaDeg as real);
    RotationExact(r.rotation, k);
    RoundWhole(r.alphaDeg);
    TwinThrusts(w, s.rotation, desired, r.rotation, k);
  }

  lemma TwinThrusts(w: Twin, n: int, desired: real, r: int, k: real)
    requires TwinOk(w) && -w.maxRotation <= n <= w.maxRotation && n != 0 && k > 0.0
    requires TwinReach(w, n, desired, r)
    ensures var d, p := w.maxDeltaRotation, w.maxDeltaRotationP2n;
            && (n >= d ==> Thrust(k, n - d) <= Thrust(k, r) <= Thrust(k, n + d))
            && (n >= d || n <= -d ==> Thrust(k, r) <= Thrust(k, w.maxRotation))
            && (p <= n < d ==> Thrust(k, n - p) <= Thrust(k, r) <= Thrust(k, n + p))
            && (n <= -d ==> Thrust(k, n + d) <= Thrust(k, r) <= Thrust(k, n - d))
            && (-d < n <= -p ==> Thrust(k, n + p) <= Thrust(k, r) <= Thrust(k, n - p))
  {
    hide Thrust;
    var d, p := w.maxDeltaRotation, w.maxDeltaRotationP2n;
    ThrustFacts(k, n - d);
    ThrustFacts(k, n - p);
    ThrustFacts(k, r);
    if n >= d {
      ThrustGrows(k, n - d, r);
      ThrustGrows(k, r, n + d);
      ThrustGrows(k, r, w.maxRotation);
    } else if n >= p {
      ThrustGrows(k, n - p, r);
      ThrustGrows(k, r, n + p);
    } else if n <= -d {
      ThrustGrows(k, n + d, -r);
      ThrustGrows(k, r, d - n);
      ThrustGrows(k, r, w.maxRotation);
    } else if n <= -p {
      ThrustGrows(k, n + p, -r);
      ThrustGrows(k, r, p - n);
    }
  }

  /** The answers within the box lead to exactly the rotations in reach. */
  lemma TwinReachIff(w: Twin, s: State, desired: real, r: State)
    requires TwinOk(w) && TwinGood(w, s)
    ensures (exists x :: Inside(TwinBoxAt(w, s, desired), x) && TwinNext(w, s, x) == r)
       <==> TwinReach(w, s.rotation, desired, r.rotation) && TwinAngle(r)
  {
    hide TwinBoxAt, TwinNext, TwinReach, TwinGood, Inside;
    if x :| Inside(TwinBoxAt(w, s, desired), x) && TwinNext(w, s, x) == r {
      TwinInReach(w, s, desired, x);
    }
    if TwinReach(w, s.rotation, desired, r.rotation) && TwinAngle(r) {
      var x := TwinReached(w, s, desired, r);
    }
  }

  lemma TwinKeeps(w: Twin, s: State, desired: real, x: Delta)
    requires TwinOk(w) && TwinGood(w, s) && Admissible(TwinBoxAt(w, s, desired), x)
    ensures var r := TwinNext(w, s, x);
            && TwinGood(w, r)
            && -w.maxDeltaRotation <= r.rotation - s.rotation <= w.maxDeltaRotation
            && ReversesWell(w, s.rotation, r.rotation, desired)
            && (x == NO_DELTA ==> r == s)
  {
    hide TwinBoxAt, TwinNext;
    if x == NO_DELTA {
      TwinHolds(w, s);
    } else {
      TwinInReach(w, s, desired, x);
    }
  }

  /** A rotation of 0 that is fed back counts as 1. */
  lemma TwinReadsZero(w: Twin, deg: int, desired: real, x: Delta)
    requires w.kPositive > 0.0 && w.kNegative > 0.0
    ensures TwinBoxAt(w, State(0, deg), desired) == TwinBoxAt(w, State(1, deg), desired)
    ensures TwinNext(w, State(0, deg), x) == TwinNext(w, State(1, deg), x)
  {
    hide TwinWrite, TwinBox, Round;
  }

  lemma TwinWriteCommands(w: Twin, u: real, alpha: real)
    requires w.kPositive > 0.0 && w.kNegative > 0.0
    ensures var (n, v) := TwinWrite(w, u, alpha);
            if alpha > 90.0 then n < 0 && Commanded(w.kNegative, 1, w.kNegative, u, -n, v)
            else n > 0 && Commanded(w.kPositive, 1, w.kPositive, u, n, v)
  {
    hide RotationOf, Thrust, Commanded;
    RotationCommanded(w.kNegative, 1, w.kNegative, u);
    RotationCommanded(w.kPositive, 1, w.kPositive, u);
  }

  lemma TwinHolds(w: Twin, s: State)
    requires TwinOk(w) && TwinGood(w, s)
    ensures TwinNext(w, s, NO_DELTA) == s
  {
    hide Root, RotationOf, Thrust, Round;
    RotationExact(s.rotation, w.kPositive);
    RotationExact(s.rotation, w.kNegative);
    RoundWhole(s.alphaDeg);
  }

  /** The sum of the desired thrusts is the force, their moment is exactly the moment. */
  lemma DesiredThrustsBalance(w0: Twin, w1: Twin, fx: real, mz: real)
    requires w0.ly != w1.ly
    ensures var (t0, t1) := DesiredThrusts(w0, w1, fx, mz);
            t0 + t1 == fx && -(w0.ly * t0) - w1.ly * t1 == mz
  {
    var d := w1.ly - w0.ly;
    var k := 1.0 / d;
    assert k * d == 1.0;
    var a, b := mz + fx * w1.ly, mz + fx * w0.ly;
    assert a - b == fx * d;
    assert a * k - b * k == (a - b) * k;
    assert fx * d * k == fx * (k * d) == fx;
    assert w1.ly * b - w0.ly * a == mz * d;
    assert w1.ly * (b * k) - w0.ly * (a * k) == (w1.ly * b - w0.ly * a) * k;
    assert mz * d * k == mz * (k * d) == mz;
  }

  /** The limits are needed: with a larger band some answer exceeds the rotation limit. */
  lemma TwinLimitNeeded(w: Twin) returns (s: State, x: Delta)
    requires w.kPositive > 0.0 && w.kNegative > 0.0 && w.maxRotation >= 1
    requires 1 <= w.maxDeltaRotationP2n <= w.maxDeltaRotation && w.maxDeltaRotation >= 2
    requires w.maxDeltaRotation + w.maxDeltaRotationP2n > w.maxRotation + 1
    ensures TwinGood(w, s) && Admissible(TwinBoxAt(w, s, 1.0), x)
    ensures !TwinGood(w, TwinNext(w, s, x))
  {
    hide Root, RotationOf, Thrust, Round;
    var d, p := w.maxDeltaRotation, w.maxDeltaRotationP2n;
    var n := if d - 1 < w.maxRotation then d - 1 else w.maxRotation;
    s := State(n, 0);
    var u := Thrust(w.kPositive, n);
    x := Delta(Thrust(w.kPositive, n + p) - u, 0.0);
    ThrustGrows(w.kPositive, n - p, n + p);
    RotationExact(n + p, w.kPositive);
    RoundWhole(0);
  }

  /** And with a band wider than the largest step, some answer takes a larger one. */
  lemma TwinBandNeeded(w: Twin) returns (s: State, x: Delta)
    requires w.kPositive > 0.0 && w.kNegative > 0.0 && w.maxRotation >= 1
    requires 1 <= w.maxDeltaRotation < w.maxDeltaRotationP2n
    ensures TwinGood(w, s) && Admissible(TwinBoxAt(w, s, -1.0), x)
    ensures TwinNext(w, s, x).rotation < s.rotation - w.maxDeltaRotation
  {
    hide Root, RotationOf, Thrust, Round;
    var p := w.maxDeltaRotationP2n;
    s := State(-1, 180);
    x := Delta(Thrust(w.kNegative, -1 - p) - Thrust(w.kNegative, -1), 0.0);
    RotationExact(-1 - p, w.kNegative);
  }

  // ----- boxes that are not empty

  predicate Nonempty(b: Box) {
    b.lowerAlpha <= b.upperAlpha && b.lowerU <= b.upperU
  }

  /** A good tunnel thruster always has room. */
  lemma TunnelHasRoom(t: Tunnel, s: State, desiredMz: real)
    requires TunnelOk(t) && TunnelGood(t, s)
    ensures Nonempty(TunnelBoxAt(t, s, desiredMz))
  {
    hide Thrust;
    var n, d := s.rotation, t.maxDeltaRotation;
    ThrustFacts(t.kPositive, n);
    ThrustFacts(t.kNegative, n);
    ThrustFacts(t.kNegative, n - d);
    ThrustFacts(t.kNegative, n + d);
    ThrustFacts(t.kPositive, n - d);
    ThrustFacts(t.kPositive, n + d);
    if n > 0 {
      ThrustGrows(t.kPositive, n - d, n + d);
      ThrustGrows(t.kPositive, n - d, t.maxRotation);
    } else {
      ThrustGrows(t.kNegative, n + d, d - n);
      ThrustFacts(t.kNegative, d - n);
      ThrustGrows(t.kNegative, n + d, t.maxRotation);
    }
  }

  /** So has a good azimuth thruster, if and only if some allowed angle can be reached. */
  lemma AzimuthHasRoom(a: Azimuth, s: State)
    requires AzimuthOk(a) && AzimuthGood(a, s)
    ensures Nonempty(AzimuthBoxAt(a, s))
       <==> s.alphaDeg as real - a.maxDeltaAlpha <= a.maxAlpha && a.minAlpha <= s.alphaDeg as real + a.maxDeltaAlpha
    ensures a.maxDeltaAlpha >= 0.5 ==> Nonempty(AzimuthBoxAt(a, s))
  {
    hide Thrust, Round;
    var n, d := s.rotation, a.maxDeltaRotation;
    RoundIsNearest(a.minAlpha);
    RoundIsNearest(a.maxAlpha);
    ThrustGrows(a.k, a.minRotation, a.maxRotation);
    ThrustGrows(a.k, a.minRotation, n + d);
    if n >= d {
      ThrustGrows(a.k, n - d, a.maxRotation);
      ThrustGrows(a.k, n - d, n + d);
    }
  }

  /** And a good twin thruster. */
  lemma TwinHasRoom(w: Twin, s: State, desired: real)
    requires TwinOk(w) && TwinGood(w, s)
    ensures Nonempty(TwinBoxAt(w, s, desired))
  {
    hide Thrust;
    var n, d, p, m := s.rotation, w.maxDeltaRotation, w.maxDeltaRotationP2n, w.maxRotation;
    if n > 0 {
      if n >= d {
        ThrustGrows(w.kPositive, n - d, n + d);
        ThrustGrows(w.kPositive, n - d, m);
      } else if n >= p {
        ThrustGrows(w.kPositive, n - p, n + p);
      }
    } else {
      ThrustFacts(w.kNegative, n - p);
      ThrustFacts(w.kNegative, n - d);
      if n <= -d {
        ThrustGrows(w.kNegative, n + d, d - n);
        ThrustGrows(w.kNegative, n + d, m);
      } else if n <= -p {
        ThrustGrows(w.kNegative, n + p, p - n);
      }
    }
  }

  lemma ThrustGrows(k: real, a: int, b: int)
    requires k > 0.0 && -b <= a <= b
    ensures Thrust(k, a) <= Thrust(k, b)
  {
    assert a * a <= b * b by {
      assert (b - a) * (b + a) >= 0;
      assert (b - a) * (b + a) == b * b - a * a;
    }
    MulMonotone(k, Sqr(a), Sqr(b));
  }

  lemma MulMonotone(k: real, x: real, y: real)
    requires k > 0.0 && x <= y
    ensures k * x <= k * y
  {}

  // ----- whole runs of one twin thruster

  /** A run: each state follows from the one before by some admissible answer. */
  ghost predicate TwinRun(w: Twin, ss: seq<State>, desired: seq<real>) {
    && w.kPositive > 0.0 && w.kNegative > 0.0
    && |ss| == |desired| + 1
    && forall i :: 0 <= i < |desired| ==> TwinMoves(w, ss[i], ss[i+1], desired[i])
  }

  ghost predicate TwinMoves(w: Twin, s: State, r: State, desired: real)
    requires w.kPositive > 0.0 && w.kNegative > 0.0
  {
    exists x: Delta :: Admissible(TwinBoxAt(w, s, desired), x) && r == TwinNext(w, s, x)
  }

  lemma {:induction false} TwinRunGood(w: Twin, ss: seq<State>, desired: seq<real>, i: nat)
    requires TwinOk(w) && TwinRun(w, ss, desired) && TwinGood(w, ss[0]) && i < |ss|
    ensures TwinGood(w, ss[i])
    ensures i > 0 ==> ReversesWell(w, ss[i-1].rotation, ss[i].rotation, desired[i-1])
  {
    hide TwinNext, TwinBox, TwinBoxAt;
    if i == 0 {
    } else {
      TwinRunGood(w, ss, desired, i - 1);
      assert TwinMoves(w, ss[i-1], ss[i-1+1], desired[i-1]);
      var x :| Admissible(TwinBoxAt(w, ss[i-1], desired[i-1]), x) && ss[i] == TwinNext(w, ss[i-1], x);
      TwinKeeps(w, ss[i-1], desired[i-1], x);
    }
  }

  /** The thruster turns one way before step i and the other way after it. */
  ghost predicate Reversal(ss: seq<State>, i: int) {
    0 < i < |ss| && (ss[i-1].rotation > 0) != (ss[i].rotation > 0)
  }

  /** While the sign of the desired thrust is held, a thruster reverses at most once. */
  lemma ReversesAtMostOnce(w: Twin, ss: seq<State>, desired: seq<real>, i: nat, j: nat)
    requires TwinOk(w) && TwinRun(w, ss, desired) && TwinGood(w, ss[0])
    requires i < j && Reversal(ss, i) && Reversal(ss, j)
    ensures exists k :: i - 1 <= k < j && (desired[k] < 0.0) != (desired[i-1] < 0.0)
  {
    hide TwinRun, TwinOk;
    TwinRunGood(w, ss, desired, i - 1);
    TwinRunGood(w, ss, desired, i);
    TwinRunGood(w, ss, desired, j - 1);
    TwinRunGood(w, ss, desired, j);
    RunLengths(w, ss, desired);
    if forall k :: i - 1 <= k < j ==> (desired[k] < 0.0) == (desired[i-1] < 0.0) {
      DirectionHeld(w, ss, desired, i, j - 1, desired[i-1] < 0.0);
    }
  }

  lemma RunLengths(w: Twin, ss: seq<State>, desired: seq<real>)
    requires TwinRun(w, ss, desired)
    ensures |ss| == |desired| + 1
  {}

  /** Turning the way that is desired goes on as long as it is desired. */
  lemma {:induction false} DirectionHeld(w: Twin, ss: seq<State>, desired: seq<real>, i: nat, j: nat, down: bool)
    requires TwinOk(w) && TwinRun(w, ss, desired) && TwinGood(w, ss[0]) && i <= j < |ss|
    requires if down then ss[i].rotation < 0 else ss[i].rotation > 0
    requires forall k :: i <= k < j ==> (desired[k] < 0.0) == down
    ensures if down then ss[j].rotation < 0 else ss[j].rotation > 0
    decreases j
  {
    if i < j {
      DirectionHeld(w, ss, desired, i, j - 1, down);
      TwinRunGood(w, ss, desired, j - 1);
      TwinRunGood(w, ss, desired, j);
      assert (desired[j-1] < 0.0) == down;
    }
  }
}
