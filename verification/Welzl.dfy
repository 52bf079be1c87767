/** The steps of Welzl's recursion, on values: `ch` are the levels that define the
    current ball, of which the first n are forced, and `inner` are the points treated. */
module Welzl {
  import opened Vectors
  import opened Balls
  import opened Circumsphere
  import opened Barycentric
  import opened Dimension

  /** The ball on top of ch is the smallest around `inner` with the first n points on
      its boundary: it contains them, and its centre is a certified combination. */
  ghost predicate Best(ch: seq<Level>, n: nat, inner: seq<Vec>, d: nat) {
    && Chain(ch, d)
    && 0 < |ch| && n <= |ch|
    && AllOfSize(inner, d)
    && Contains(Top(ch), inner)
    && Certified(Top(ch), Points(ch), n)
  }

  /** The points above level n are among `inner`. */
  ghost predicate SupportIn(ch: seq<Level>, n: nat, inner: seq<Vec>) {
    forall i :: n <= i < |ch| ==> ch[i].p in inner
  }

  /** o contains `inner` and has the points of the levels low on its boundary. */
  ghost predicate Allowed(o: Ball, inner: seq<Vec>, low: seq<Level>, d: nat) {
    && |o.c| == d
    && AllOfSize(inner, d)
    && Sized(low, d)
    && Feasible(o, inner, Points(low), d)
  }

  lemma BestIsSmallest(ch: seq<Level>, n: nat, inner: seq<Vec>, d: nat)
    requires Best(ch, n, inner, d) && SupportIn(ch, n, inner)
    ensures AllOfSize(Points(ch)[..n], d) && Smallest(Top(ch), inner, Points(ch)[..n], d)
  {
    hide Chain, Certified, Feasible;
    ChainSized(ch, d);
    CertifiedIsSmallest(Top(ch), Points(ch), n, inner, d);
  }

  /** With no point treated yet, the circumsphere of the forced points is best. */
  lemma StartBest(ch: seq<Level>, d: nat)
    requires Chain(ch, d) && |ch| > 0
    ensures Best(ch, |ch|, [], d)
  {
    hide Chain;
    ChainSized(ch, d);
    OnSphere(ch, d);
    WeightsAreAffine(ch, d);
    assert PositiveFrom(Weights(ch, d), |ch|);
  }

  /** d+1 forced points leave no choice, so no point needs to be treated. */
  lemma FullBest(ch: seq<Level>, d: nat, o: Ball, inner: seq<Vec>)
    requires Chain(ch, d) && |ch| == d + 1 && Allowed(o, inner, ch, d)
    ensures Best(ch, |ch|, inner, d)
  {
    hide Chain, Certified;
    FullChainIsUnique(ch, d, o);
    StartBest(ch, d);
  }

  lemma BestOfSame(ch: seq<Level>, n: nat, inner: seq<Vec>, other: seq<Vec>, d: nat)
    requires Best(ch, n, inner, d) && forall x :: x in other ==> x in inner
    ensures Best(ch, n, other, d)
  {
    hide Chain, Certified, Power;
    assert forall i :: 0 <= i < |other| ==> other[i] in inner;
  }

  lemma AllowedForSame(o: Ball, inner: seq<Vec>, other: seq<Vec>, low: seq<Level>, d: nat)
    requires Allowed(o, inner, low, d) && forall x :: x in other ==> x in inner
    ensures Allowed(o, other, low, d)
  {
    hide Power;
    assert forall i :: 0 <= i < |other| ==> other[i] in inner;
  }

  lemma SkipPoint(ch: seq<Level>, n: nat, inner: seq<Vec>, p: Vec, d: nat)
    requires Best(ch, n, inner, d) && |p| == d && Power(Top(ch), p) <= 0.0
    ensures Best(ch, n, inner + [p], d)
  {
    hide Chain, Certified, Power;
    ChainSized(ch, d);
  }

  /** A point that depends on the forced points has the same power in every ball through
      them: when it is outside of one, it is on none. */
  lemma {:induction false} DependentPoint(low: seq<Level>, d: nat, b: Ball, o: Ball, p: Vec)
    requires Chain(low, d) && |low| > 0 && |b.c| == |o.c| == |p| == d
    requires Through(b, Points(low)) && Through(o, Points(low)) && Part(low, p) == Zero(d)
    ensures Power(b, p) == Power(o, p)
  {
    hide Chain, Power, Dot, Residual, Coefs;
    ChainSized(low, d);
    var w := Minus(b.c, o.c);
    forall i | 0 <= i < |low| ensures Dot(low[i].p, w) == Dot(low[0].p, w) {
      assert Points(low)[i] == low[i].p && Points(low)[0] == low[0].p;
      SamePowers(b, o, low[i].p, low[0].p);
    }
    NormalFromPoints(low, d, w, |low|);
    var q := Minus(p, low[0].p);
    ResidualNormal(low, Coefs(low, q), q, |low|, w);
    DotZero(d, w);
    DotMinus(p, low[0].p, w);
    assert Points(low)[0] == low[0].p;
    PowersDiffer(b, o, p, low[0].p);
  }

  lemma PowersDiffer(b: Ball, o: Ball, x: Vec, y: Vec)
    requires |b.c| == |o.c| == |x| == |y| && Dot(x, Minus(b.c, o.c)) == Dot(y, Minus(b.c, o.c))
    ensures Power(b, x) - Power(o, x) == Power(b, y) - Power(o, y)
  {
    hide Dot, SqrDist;
    Expand(x, b.c);
    Expand(x, o.c);
    Expand(y, b.c);
    Expand(y, o.c);
    DotMinus(b.c, o.c, x);
    DotMinus(b.c, o.c, y);
  }

  lemma HeightSign(low: seq<Level>, p: Vec, d: nat)
    requires Chain(low, d) && |low| > 0 && |p| == d
    ensures Height(low, p, d) >= 0.0
    ensures Height(low, p, d) == 0.0 ==> Part(low, p) == Zero(d)
  {
    hide Chain, Dot, Residual;
    ChainSized(low, d);
    Nonneg(Part(low, p));
  }

  lemma PointsPrefix(ch: seq<Level>, n: nat)
    requires n <= |ch|
    ensures Points(ch[..n]) == Points(ch)[..n]
  {}

  /** When p lies outside the best ball, forcing it is possible and independent. */
  lemma ForcePoint(ch: seq<Level>, n: nat, inner: seq<Vec>, p: Vec, o: Ball, d: nat) returns (m: Ball)
    requires Best(ch, n, inner, d) && 0 < n && |p| == d && Power(Top(ch), p) > 0.0
    requires Allowed(o, inner, ch[..n], d) && Power(o, p) <= 0.0
    ensures AllOfSize(Points(ch[..n]) + [p], d) && Feasible(m, inner, Points(ch[..n]) + [p], d)
    ensures Height(ch[..n], p, d) > 0.0
  {
    hide Chain, Power, Height, Part, Certified;
    var low := ch[..n];
    ChainPrefix(ch, d, n);
    ChainSized(ch, d);
    PointsPrefix(ch, n);
    assert Through(Top(ch), Points(ch)) by { OnSphere(ch, d); }
    assert Through(Top(ch), Points(low));
    m := BoundaryBallExists(Top(ch), o, p, inner, Points(low), d);
    var forced := Points(low) + [p];
    assert Power(m, forced[n]) == 0.0;
    assert Through(m, Points(low)) by {
      assert forall i :: 0 <= i < n ==> forced[i] == Points(low)[i];
    }
    HeightSign(low, p, d);
    if Height(low, p, d) == 0.0 {
      DependentPoint(low, d, Top(ch), m, p);
    }
  }

  /** After the recursive call with p forced, p may be released again: the new ball is
      best for all points treated so far and p, with p in the support. */
  lemma ReleasePoint(old_: seq<Level>, n: nat, before: seq<Vec>, ch: seq<Level>, after: seq<Vec>, d: nat)
    requires Best(old_, n, before, d) && SupportIn(old_, n, before)
    requires n < |ch| && Best(ch, n + 1, after, d) && SupportIn(ch, n + 1, after)
    requires ch[..n] == old_[..n] && Power(Top(old_), ch[n].p) > 0.0
    requires (forall x :: x in before ==> x in after) && (forall x :: x in after ==> x in before)
    ensures Best(ch, n, [ch[n].p] + after, d) && SupportIn(ch, n, [ch[n].p] + after)
  {
    hide Chain, Power, Certified;
    var b, m := Top(old_), Top(ch);
    ChainSized(old_, d);
    ChainSized(ch, d);
    assert Through(b, Points(old_)) by { OnSphere(old_, d); }
    assert Through(m, Points(ch)) by { OnSphere(ch, d); }
    assert forall i :: 0 <= i < n ==> old_[i] == old_[..n][i] == ch[..n][i] == ch[i];
    forall i | 0 <= i < |old_|
      ensures if i < n then Power(m, Points(old_)[i]) == 0.0 else Power(m, Points(old_)[i]) <= 0.0
    {
      if i < n {
        assert Points(old_)[i] == Points(ch)[i];
      } else {
        assert Points(old_)[i] in after;
      }
    }
    forall i | 0 <= i < n ensures Power(b, Points(ch)[i]) == 0.0 {
      assert Points(old_)[i] == Points(ch)[i];
    }
    forall i | n < i < |ch| ensures Power(b, Points(ch)[i]) <= 0.0 {
      assert Points(ch)[i] in before;
    }
    ForcedPointIsSupport(b, Points(old_), m, Points(ch), n);
    assert Power(m, Points(ch)[n]) == 0.0;
  }

  /** A point outside the current ball is independent of the forced points, or else the
      current radius is positive, so that the threshold of push is positive too. */
  lemma IndependentOrPositive(ch: seq<Level>, n: nat, p: Vec, d: nat)
    requires Chain(ch, d) && 0 < n <= |ch| && |p| == d && Power(Top(ch), p) > 0.0
    ensures Height(ch[..n], p, d) > 0.0 || (Top(ch).r > 0.0 && Height(ch[..n], p, d) >= 0.0)
  {
    hide Chain, Height, Part, Power;
    ChainSized(ch, d);
    ChainPrefix(ch, d, n);
    HeightSign(ch[..n], p, d);
    if |ch| == 1 {
      assert ch[..n] == ch;
      SinglePoint(ch, p, d);
    } else {
      PositiveRadius(ch, d);
    }
  }

  lemma SinglePoint(ch: seq<Level>, p: Vec, d: nat)
    requires Chain(ch, d) && |ch| == 1 && |p| == d && Power(Top(ch), p) > 0.0
    ensures Height(ch, p, d) > 0.0
  {
    hide SqrDist;
    assert ch[..0] == [] && Extends([], ch[0], d);
    FirstLevel(ch[0], d);
    assert Part(ch, p) == Minus(p, ch[0].p);
    SquareIsDist(p, ch[0].p);
  }

  lemma SquareIsDist(x: Vec, y: Vec)
    requires |x| == |y|
    ensures Dot(Minus(x, y), Minus(x, y)) == SqrDist(x, y)
  {}

  lemma {:induction false} PositiveRadius(ch: seq<Level>, d: nat)
    requires Chain(ch, d) && |ch| > 0
    ensures Top(ch).r >= 0.0 && (|ch| > 1 ==> Top(ch).r > 0.0)
  {
    hide Extends, Power, NewLevel, Part, Positive;
    var n := |ch| - 1;
    var low := ch[..n];
    if n == 0 {
      FirstLevel(ch[0], d);
    } else {
      PositiveRadius(low, d);
      RadiusStep(low, ch[n], d);
      if n == 1 && Power(Top(low), ch[1].p) == 0.0 {
        SecondPointIsOther(low, ch[1], d);
      }
    }
  }

  lemma SecondPointIsOther(low: seq<Level>, l: Level, d: nat)
    requires Chain(low, d) && |low| == 1 && Extends(low, l, d)
    ensures Power(Top(low), l.p) > 0.0
  {
    hide SqrDist, Dot;
    assert low[..0] == [] && Extends([], low[0], d);
    FirstLevel(low[0], d);
    StepFacts(low, l, d);
    assert Part(low, l.p) == Minus(l.p, low[0].p);
    SquareIsDist(l.p, low[0].p);
  }

  ghost predicate NonnegWeights(ch: seq<Level>, d: nat)
    requires Sized(ch, d) && |ch| > 0
  {
    forall i :: 0 <= i < |ch| ==> Weights(ch, d)[i] >= 0.0
  }

  /** The optimality certificate: when back-substitution gives no negative weight and no
      point has a positive excess, the ball is the smallest one around the points. */
  lemma OptimalityCertificate(ch: seq<Level>, pts: seq<Vec>, d: nat)
    requires Chain(ch, d) && |ch| > 0 && Sized(ch, d) && NonnegWeights(ch, d)
    requires AllOfSize(pts, d) && Contains(Top(ch), pts) && SupportIn(ch, 0, pts)
    ensures Smallest(Top(ch), pts, [], d)
  {
    hide Chain, Power, SqrDist, Affine;
    OnSphere(ch, d);
    WeightsAreAffine(ch, d);
    var l := Weights(ch, d);
    forall o: Ball | Feasible(o, pts, [], d) ensures o.r >= Top(ch).r + SqrDist(Top(ch).c, o.c) {
      forall i | 0 <= i < |ch| ensures Power(o, Points(ch)[i]) <= 0.0 {
        assert ch[i].p in pts;
      }
      CombinationIsBest(Top(ch), Points(ch), l, 0, o);
    }
  }

  /** In a certified ball back-substitution finds positive weights only. */
  lemma CertifiedWeights(ch: seq<Level>, d: nat)
    requires Chain(ch, d) && |ch| > 0 && Sized(ch, d) && Certified(Top(ch), Points(ch), 0)
    ensures forall i :: 0 <= i < |ch| ==> Weights(ch, d)[i] > 0.0
  {
    hide Chain;
    var l :| Affine(l, Points(ch), Top(ch).c) && PositiveFrom(l, 0);
    WeightsAreUnique(ch, d, l);
  }
}
