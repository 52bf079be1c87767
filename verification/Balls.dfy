/** Balls, what it means to be the smallest one, and the two facts that make the
    recursion of Welzl's algorithm work. A ball is a centre and a squared radius;
    a negative squared radius is the empty ball. */
module Balls {
  import opened Vectors

  datatype Ball = Ball(c: Vec, r: real)

  /** How far x lies outside b: the `excess` of a point. */
  function Power(b: Ball, x: Vec): real
    requires |b.c| == |x|
  {
    SqrDist(x, b.c) - b.r
  }

  ghost predicate Through(b: Ball, xs: seq<Vec>)
    requires AllOfSize(xs, |b.c|)
  {
    forall i :: 0 <= i < |xs| ==> Power(b, xs[i]) == 0.0
  }

  ghost predicate Contains(b: Ball, xs: seq<Vec>)
    requires AllOfSize(xs, |b.c|)
  {
    forall i :: 0 <= i < |xs| ==> Power(b, xs[i]) <= 0.0
  }

  /** b contains `inner` and has `forced` on its boundary. */
  ghost predicate Feasible(b: Ball, inner: seq<Vec>, forced: seq<Vec>, d: nat)
    requires AllOfSize(inner, d) && AllOfSize(forced, d)
  {
    |b.c| == d && Contains(b, inner) && Through(b, forced)
  }

  /** b is the smallest of the feasible balls; any other centre costs radius,
      so there is only one. */
  ghost predicate Smallest(b: Ball, inner: seq<Vec>, forced: seq<Vec>, d: nat)
    requires AllOfSize(inner, d) && AllOfSize(forced, d)
  {
    && Feasible(b, inner, forced, d)
    && forall o: Ball :: Feasible(o, inner, forced, d) ==> o.r >= b.r + SqrDist(b.c, o.c)
  }

  lemma SmallestIsUnique(b: Ball, o: Ball, inner: seq<Vec>, forced: seq<Vec>, d: nat)
    requires AllOfSize(inner, d) && AllOfSize(forced, d)
    requires Smallest(b, inner, forced, d) && Feasible(o, inner, forced, d)
    ensures o.r >= b.r && (o.r == b.r ==> o == b)
  {
    SqrDistNonneg(b.c, o.c);
  }

  // ----- certificates

  ghost predicate Affine(l: seq<real>, xs: seq<Vec>, c: Vec)
    requires AllOfSize(xs, |c|)
  {
    |l| == |xs| && Sum(l, |l|) == 1.0 && Comb(l, xs, |c|, |l|) == c
  }

  ghost predicate PositiveFrom(l: seq<real>, k: nat) {
    forall i :: k <= i < |l| ==> l[i] > 0.0
  }

  /** All of xs lie on the sphere of b, and its centre is an affine combination of
      them in which all but the first k weights are positive. */
  ghost predicate Certified(b: Ball, xs: seq<Vec>, k: nat)
    requires AllOfSize(xs, |b.c|)
  {
    Through(b, xs) && exists l: seq<real> :: Affine(l, xs, b.c) && PositiveFrom(l, k)
  }

  function Norms(xs: seq<Vec>): (r: seq<real>)
    ensures |r| == |xs| && forall i :: 0 <= i < |xs| ==> r[i] == Dot(xs[i], xs[i])
  {
    seq(|xs|, i requires 0 <= i < |xs| => Dot(xs[i], xs[i]))
  }

  function Powers(b: Ball, xs: seq<Vec>): (r: seq<real>)
    requires AllOfSize(xs, |b.c|)
    ensures |r| == |xs| && forall i :: 0 <= i < |xs| ==> r[i] == Power(b, xs[i])
  {
    seq(|xs|, i requires 0 <= i < |xs| => Power(b, xs[i]))
  }

  lemma {:induction false} PowerSum(l: seq<real>, xs: seq<Vec>, b: Ball, k: nat)
    requires AllOfSize(xs, |b.c|) && k <= |l| == |xs|
    ensures DotTo(l, Powers(b, xs), k)
         == DotTo(l, Norms(xs), k) - 2.0 * Dot(Comb(l, xs, |b.c|, k), b.c)
            + Sum(l, k) * (Dot(b.c, b.c) - b.r)
  {
    hide Dot, SqrDist, DotTo;
    if k == 0 {
      DotZero(|b.c|, b.c);
      DotToStart(l, Powers(b, xs), k);
      DotToStart(l, Norms(xs), k);
    } else {
      DotToLast(l, Powers(b, xs), k);
      DotToLast(l, Norms(xs), k);
      PowerSum(l, xs, b, k - 1);
      var t, x := l[k-1], xs[k-1];
      Expand(x, b.c);
      DotPlus(Comb(l, xs, |b.c|, k - 1), t, x, b.c);
      OneMoreTerm(DotTo(l, Norms(xs), k - 1), Dot(Comb(l, xs, |b.c|, k - 1), b.c), Sum(l, k - 1),
                  t, Norms(xs)[k-1], Dot(x, b.c), Dot(b.c, b.c), b.r, Powers(b, xs)[k-1]);
      assert Sum(l, k) == Sum(l, k - 1) + t;
      assert Dot(Comb(l, xs, |b.c|, k), b.c) == Dot(Comb(l, xs, |b.c|, k - 1), b.c) + t * Dot(x, b.c);
    }
  }

  lemma OneMoreTerm(n: real, w: real, s: real, t: real, xx: real, xc: real, cc: real, r: real, p: real)
    requires p == xx - 2.0 * xc + cc - r
    ensures (n - 2.0 * w + s * (cc - r)) + t * p
         == (n + t * xx) - 2.0 * (w + t * xc) + (s + t) * (cc - r)
  {
    assert t * (xx - 2.0 * xc + cc - r) == t * xx - 2.0 * (t * xc) + t * (cc - r);
  }

  lemma {:induction false} DotToOnZeros(l: seq<real>, g: seq<real>, k: nat)
    requires k <= |l| && k <= |g| && forall i :: 0 <= i < k ==> g[i] == 0.0
    ensures DotTo(l, g, k) == 0.0
  {
    DotToZero(g, l, k);
    DotToSymmetric(l, g, k);
  }

  /** Averaging the powers of any other ball o over a certificate of b yields the
      power of o at the centre of b, plus the squared radius of b. */
  lemma AveragePower(b: Ball, xs: seq<Vec>, l: seq<real>, o: Ball)
    requires AllOfSize(xs, |b.c|) && Through(b, xs) && Affine(l, xs, b.c) && |o.c| == |b.c|
    ensures Dot(l, Powers(o, xs)) == Power(o, b.c) + b.r
  {
    PowerSum(l, xs, b, |l|);
    PowerSum(l, xs, o, |l|);
    DotToOnZeros(l, Powers(b, xs), |l|);
    Expand(b.c, o.c);
  }

  lemma {:induction false} DotToNonpos(l: seq<real>, g: seq<real>, n: nat, k: nat)
    requires k <= |l| && k <= |g|
    requires forall i :: 0 <= i < k ==> if i < n then g[i] == 0.0 else l[i] >= 0.0 && g[i] <= 0.0
    ensures DotTo(l, g, k) <= 0.0
  {
    if k == 0 {
    } else {
      DotToNonpos(l, g, n, k - 1);
      if k > n {
        assert l[k-1] * g[k-1] <= 0.0;
      }
    }
  }

  /** A ball whose centre is a combination of points on its sphere, with no negative
      weight after the first k, beats every ball that contains these points and has
      the first k of them on its boundary. */
  lemma CombinationIsBest(b: Ball, xs: seq<Vec>, l: seq<real>, k: nat, o: Ball)
    requires AllOfSize(xs, |b.c|) && Through(b, xs) && Affine(l, xs, b.c) && |o.c| == |b.c|
    requires forall i :: k <= i < |l| ==> l[i] >= 0.0
    requires forall i :: 0 <= i < |xs| ==> if i < k then Power(o, xs[i]) == 0.0 else Power(o, xs[i]) <= 0.0
    ensures Power(o, b.c) <= -b.r
    ensures o.r >= b.r + SqrDist(b.c, o.c)
  {
    AveragePower(b, xs, l, o);
    DotToNonpos(l, Powers(o, xs), k, |l|);
  }

  lemma CertifiedIsBest(b: Ball, xs: seq<Vec>, k: nat, o: Ball)
    requires AllOfSize(xs, |b.c|) && Certified(b, xs, k) && |o.c| == |b.c|
    requires forall i :: 0 <= i < |xs| ==> if i < k then Power(o, xs[i]) == 0.0 else Power(o, xs[i]) <= 0.0
    ensures Power(o, b.c) <= -b.r
    ensures o.r >= b.r + SqrDist(b.c, o.c)
  {
    hide SqrDist, Power;
    var l :| Affine(l, xs, b.c) && PositiveFrom(l, k);
    CombinationIsBest(b, xs, l, k, o);
  }

  lemma CertifiedIsSmallest(b: Ball, xs: seq<Vec>, k: nat, inner: seq<Vec>, d: nat)
    requires |b.c| == d && AllOfSize(xs, d) && AllOfSize(inner, d) && k <= |xs|
    requires Certified(b, xs, k) && Contains(b, inner)
    requires forall i :: k <= i < |xs| ==> xs[i] in inner
    ensures Smallest(b, inner, xs[..k], d)
  {
    forall o: Ball | Feasible(o, inner, xs[..k], d) ensures o.r >= b.r + SqrDist(b.c, o.c) {
      forall i | 0 <= i < |xs|
        ensures if i < k then Power(o, xs[i]) == 0.0 else Power(o, xs[i]) <= 0.0
      {
        if i < k {
          assert xs[i] == xs[..k][i];
        }
      }
      CertifiedIsBest(b, xs, k, o);
    }
  }

  // ----- moving from one ball to another

  /** The ball whose power function is (1-t) times that of b plus t times that of o. */
  function Mix(b: Ball, t: real, o: Ball): (m: Ball)
    requires |b.c| == |o.c|
    ensures |m.c| == |b.c|
  {
    var c := Plus(b.c, t, Minus(o.c, b.c));
    Ball(c, Dot(c, c) - (1.0 - t) * (Dot(b.c, b.c) - b.r) - t * (Dot(o.c, o.c) - o.r))
  }

  lemma MixPower(b: Ball, t: real, o: Ball, x: Vec)
    requires |b.c| == |o.c| == |x|
    ensures Power(Mix(b, t, o), x) == (1.0 - t) * Power(b, x) + t * Power(o, x)
  {
    hide Dot, SqrDist;
    var c := Mix(b, t, o).c;
    Expand(x, c);
    Expand(x, b.c);
    Expand(x, o.c);
    DotPlus(b.c, t, Minus(o.c, b.c), x);
    DotMinus(o.c, b.c, x);
    MixedSquares(t, Dot(x, x), Dot(x, b.c), Dot(x, o.c), Dot(b.c, b.c) - b.r, Dot(o.c, o.c) - o.r);
  }

  lemma MixedSquares(t: real, xx: real, xb: real, xo: real, m: real, n: real)
    ensures (1.0 - t) * (xx - 2.0 * xb + m) + t * (xx - 2.0 * xo + n)
         == xx - 2.0 * (xb + t * (xo - xb)) + (1.0 - t) * m + t * n
  {
    assert t * (xx - 2.0 * xo + n) == t * xx - 2.0 * (t * xo) + t * n;
    assert (1.0 - t) * (xx - 2.0 * xb + m) == xx - 2.0 * xb + m - t * (xx - 2.0 * xb + m);
    assert t * (xx - 2.0 * xb + m) == t * xx - 2.0 * (t * xb) + t * m;
  }

  /** Whenever a ball o may contain p as well, some ball has p on its boundary. */
  lemma BoundaryBallExists(b: Ball, o: Ball, p: Vec, inner: seq<Vec>, forced: seq<Vec>, d: nat) returns (m: Ball)
    requires |p| == d && AllOfSize(inner, d) && AllOfSize(forced, d)
    requires Feasible(b, inner, forced, d) && Power(b, p) > 0.0
    requires Feasible(o, inner, forced, d) && Power(o, p) <= 0.0
    ensures AllOfSize(forced + [p], d) && Feasible(m, inner, forced + [p], d)
  {
    hide Power, Mix;
    var t := BoundaryWeight(Power(b, p), Power(o, p));
    m := Mix(b, t, o);
    MixPower(b, t, o, p);
    MixFeasible(b, t, o, inner, forced, d);
    assert forall i :: 0 <= i < |forced| ==> (forced + [p])[i] == forced[i];
  }

  lemma BoundaryWeight(u: real, w: real) returns (t: real)
    requires u > 0.0 && w <= 0.0
    ensures 0.0 <= t <= 1.0 && (1.0 - t) * u + t * w == 0.0
  {
    t := u / (u - w);
    assert t * (u - w) == u;
  }

  lemma MixFeasible(b: Ball, t: real, o: Ball, inner: seq<Vec>, forced: seq<Vec>, d: nat)
    requires AllOfSize(inner, d) && AllOfSize(forced, d) && 0.0 <= t <= 1.0
    requires Feasible(b, inner, forced, d) && Feasible(o, inner, forced, d)
    ensures Feasible(Mix(b, t, o), inner, forced, d)
  {
    hide Power, Mix;
    forall i | 0 <= i < |inner| ensures Power(Mix(b, t, o), inner[i]) <= 0.0 {
      MixPower(b, t, o, inner[i]);
      MixSign(t, Power(b, inner[i]), Power(o, inner[i]));
    }
    forall i | 0 <= i < |forced| ensures Power(Mix(b, t, o), forced[i]) == 0.0 {
      MixPower(b, t, o, forced[i]);
      MixSign(t, Power(b, forced[i]), Power(o, forced[i]));
    }
  }

  lemma MixSign(t: real, x: real, y: real)
    requires 0.0 <= t <= 1.0 && x <= 0.0 && y <= 0.0
    ensures (1.0 - t) * x + t * y <= 0.0
    ensures x == 0.0 && y == 0.0 ==> (1.0 - t) * x + t * y == 0.0
  {
    assert (1.0 - t) * x <= 0.0;
    assert t * y <= 0.0;
  }

  lemma {:induction false} OnlyPositiveTerm(l: seq<real>, g: seq<real>, k: nat, n: nat)
    requires n <= |l| && n <= |g| && k < |l| && k < |g| && l[k] <= 0.0 && g[k] > 0.0
    requires forall i :: 0 <= i < n && i != k ==> if i < k then g[i] == 0.0 else l[i] >= 0.0 && g[i] <= 0.0
    ensures DotTo(l, g, n) <= 0.0
  {
    if n == 0 {
    } else {
      OnlyPositiveTerm(l, g, k, n - 1);
      if n - 1 >= k {
        assert l[n-1] * g[n-1] <= 0.0;
      }
    }
  }

  lemma AverageIsPositive(b: Ball, m: Ball, p: Vec)
    requires |b.c| == |m.c| == |p| && Power(b, p) > 0.0 && Power(m, p) == 0.0
    requires m.r >= b.r + SqrDist(b.c, m.c)
    ensures Power(b, m.c) + m.r > 0.0
  {
    hide Dot;
    SqrDistNonneg(b.c, m.c);
  }

  /** The heart of the algorithm: when p = xs[k] was outside the ball b that is best
      for the first k points of xs and the later ones, then in the ball m that was
      computed with p forced, the weight of p is positive, so p need not be forced. */
  lemma ForcedPointIsSupport(b: Ball, bs: seq<Vec>, m: Ball, xs: seq<Vec>, k: nat)
    requires |b.c| == |m.c| && AllOfSize(bs, |b.c|) && AllOfSize(xs, |b.c|) && k < |xs|
    requires Certified(b, bs, k) && Certified(m, xs, k + 1)
    requires forall i :: 0 <= i < |bs| ==> if i < k then Power(m, bs[i]) == 0.0 else Power(m, bs[i]) <= 0.0
    requires forall i :: 0 <= i < k ==> Power(b, xs[i]) == 0.0
    requires Power(b, xs[k]) > 0.0
    requires forall i :: k < i < |xs| ==> Power(b, xs[i]) <= 0.0
    ensures Certified(m, xs, k)
  {
    hide SqrDist, DotTo, Power;
    var l :| Affine(l, xs, m.c) && PositiveFrom(l, k + 1);
    assert Dot(l, Powers(b, xs)) > 0.0 by {
      CertifiedIsBest(b, bs, k, m);
      AveragePower(m, xs, l, b);
      AverageIsPositive(b, m, xs[k]);
    }
    if l[k] <= 0.0 {
      OnlyPositiveTerm(l, Powers(b, xs), k, |l|);
      assert false;
    }
    assert PositiveFrom(l, k);
  }

  /** Raising p from outside b strictly raises the radius. */
  lemma LargerBall(b: Ball, bs: seq<Vec>, m: Ball, p: Vec)
    requires |b.c| == |m.c| == |p| && AllOfSize(bs, |b.c|)
    requires Certified(b, bs, 0) && Contains(m, bs)
    requires Power(b, p) > 0.0 && Power(m, p) <= 0.0
    ensures m.r > b.r
  {
    CertifiedIsBest(b, bs, 0, m);
    SqrDistNonneg(b.c, m.c);
  }
}
