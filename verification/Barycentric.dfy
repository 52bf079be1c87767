/** The weights that `suboptimality` computes by back-substitution: the one way to
    write the current centre as an affine combination of the pushed points. */
module Barycentric {
  import opened Vectors
  import opened Balls
  import opened Circumsphere

  function Fs(ch: seq<Level>): (r: seq<real>)
    ensures |r| == |ch| && forall i :: 0 <= i < |ch| ==> r[i] == if i == 0 then 0.0 else ch[i].f
  {
    seq(|ch|, i requires 0 <= i < |ch| => if i == 0 then 0.0 else ch[i].f)
  }

  /** The right-hand sides that are left once the weights t, t+1, ... are known. */
  function Back(ch: seq<Level>, d: nat, t: nat): (r: seq<real>)
    requires Sized(ch, d) && 1 <= t <= |ch|
    ensures |r| == t
    decreases |ch| - t
  {
    if t == |ch| then Fs(ch)
    else
      var up := Back(ch, d, t + 1);
      Plus(up[..t], -up[t], ch[t].a)
  }

  function Weight(ch: seq<Level>, d: nat, t: nat): real
    requires Sized(ch, d) && 1 <= t < |ch|
  {
    Back(ch, d, t + 1)[t]
  }

  /** What the weights t, t+1, ... leave of the total of 1. */
  function Rest(ch: seq<Level>, d: nat, t: nat): real
    requires Sized(ch, d) && 1 <= t <= |ch|
    decreases |ch| - t
  {
    if t == |ch| then 1.0 else Rest(ch, d, t + 1) - Weight(ch, d, t)
  }

  function Weights(ch: seq<Level>, d: nat): (r: seq<real>)
    requires Sized(ch, d) && |ch| > 0
    ensures |r| == |ch| && r[0] == Rest(ch, d, 1)
    ensures forall i :: 1 <= i < |ch| ==> r[i] == Weight(ch, d, i)
  {
    seq(|ch|, i requires 0 <= i < |ch| => if i == 0 then Rest(ch, d, 1) else Weight(ch, d, i))
  }

  lemma BackStep(ch: seq<Level>, d: nat, t: nat, i: nat)
    requires Sized(ch, d) && 1 <= i < t < |ch|
    ensures Back(ch, d, t)[i] == Back(ch, d, t + 1)[i] - ch[t].a[i] * Back(ch, d, t + 1)[t]
  {}

  lemma BackStart(ch: seq<Level>, d: nat, i: nat)
    requires Sized(ch, d) && 1 <= i < |ch|
    ensures Back(ch, d, |ch|)[i] == ch[i].f
  {}

  lemma RestStep(ch: seq<Level>, d: nat, t: nat)
    requires Sized(ch, d) && 1 <= t <= |ch|
    ensures t == |ch| ==> Rest(ch, d, t) == 1.0
    ensures t < |ch| ==> Rest(ch, d, t) == Rest(ch, d, t + 1) - Back(ch, d, t + 1)[t]
    ensures t < |ch| ==> Weights(ch, d)[t] == Back(ch, d, t + 1)[t]
    ensures Weights(ch, d)[0] == Rest(ch, d, 1)
  {}

  function Vs(ch: seq<Level>, w: Vec): (r: seq<real>)
    requires Sized(ch, |w|)
    ensures |r| == |ch| && forall i :: 0 <= i < |ch| ==> r[i] == if i == 0 then 0.0 else Dot(ch[i].v, w)
  {
    seq(|ch|, i requires 0 <= i < |ch| => if i == 0 then 0.0 else Dot(ch[i].v, w))
  }

  lemma {:induction false} ResidualAlong(ch: seq<Level>, a: seq<real>, q: Vec, i: nat, w: Vec)
    requires |w| == |q| && Sized(ch, |q|) && 1 <= i <= |ch| && i <= |a|
    ensures Dot(q, w) == Dot(Residual(ch, a, q, i), w) + DotTo(a, Vs(ch, w), i)
  {
    hide Dot;
    if i > 1 {
      ResidualAlong(ch, a, q, i - 1, w);
      DotPlus(Residual(ch, a, q, i - 1), -a[i-1], ch[i-1].v, w);
    } else {
      assert DotTo(a, Vs(ch, w), 0) == 0.0;
    }
  }

  lemma PointAlong(ch: seq<Level>, d: nat, t: nat, w: Vec)
    requires Chain(ch, d) && 1 <= t < |ch| && |w| == d
    ensures Dot(ch[t].p, w) - Dot(ch[0].p, w) == Dot(ch[t].v, w) + DotTo(ch[t].a, Vs(ch, w), t)
  {
    hide Dot, Residual;
    ChainAt(ch, d, t);
    var low, q := ch[..t], Minus(ch[t].p, ch[0].p);
    assert low[0] == ch[0];
    ResidualAlong(low, Coefs(low, q), q, t, w);
    DotMinus(ch[t].p, ch[0].p, w);
    assert Vs(low, w)[..t] == Vs(ch, w)[..t];
    DotToCongruent(ch[t].a, Vs(low, w), Vs(ch, w), t);
  }

  lemma {:induction false} CentreAlong(ch: seq<Level>, d: nat, k: nat, w: Vec)
    requires Chain(ch, d) && k < |ch| && |w| == d
    ensures Dot(ch[k].c, w) == Dot(ch[0].p, w) + DotTo(Fs(ch), Vs(ch, w), k + 1)
  {
    hide Dot, Residual, Extends, NewLevel, Part;
    ChainAt(ch, d, k);
    if k == 0 {
      FirstLevel(ch[0], d);
      assert DotTo(Fs(ch), Vs(ch, w), 0) == 0.0;
    } else {
      CentreAlong(ch, d, k - 1, w);
      StepFacts(ch[..k], ch[k], d);
      DotPlus(ch[k-1].c, ch[k].f, ch[k].v, w);
    }
  }

  /** The centre seen along w, with the terms of level t and up expressed by points. */
  ghost function Mixed(ch: seq<Level>, d: nat, t: nat, w: Vec): real
    requires Sized(ch, d) && 1 <= t <= |ch| && |w| == d
  {
    var l, ps := Weights(ch, d), Dots(Points(ch), w);
    DotTo(l, ps, |ch|) - DotTo(l, ps, t) - (1.0 - Rest(ch, d, t)) * ps[0]
      + DotTo(Back(ch, d, t), Vs(ch, w), t)
  }

  lemma BackAlong(ch: seq<Level>, d: nat, t: nat, w: Vec)
    requires Sized(ch, d) && 1 <= t < |ch| && |w| == d
    ensures DotTo(Back(ch, d, t), Vs(ch, w), t)
         == DotTo(Back(ch, d, t + 1), Vs(ch, w), t) - Weight(ch, d, t) * DotTo(ch[t].a, Vs(ch, w), t)
  {
    hide Dot, DotTo;
    var up, vs := Back(ch, d, t + 1), Vs(ch, w);
    DotToPlus(up[..t], -up[t], ch[t].a, vs[..t], t);
    assert vs[..t][..t] == vs[..t] && up[..t][..t] == up[..t];
    DotToCongruent(up[..t], vs[..t], vs, t);
    DotToCongruent(vs, up[..t], up, t);
    DotToCongruent(ch[t].a, vs[..t], vs, t);
    DotToCongruent(Back(ch, d, t), vs[..t], vs, t);
  }

  lemma MixedStep(ch: seq<Level>, d: nat, t: nat, w: Vec)
    requires Sized(ch, d) && 1 <= t < |ch| && |w| == d
    requires Dot(ch[t].p, w) - Dot(ch[0].p, w) == Dot(ch[t].v, w) + DotTo(ch[t].a, Vs(ch, w), t)
    ensures Mixed(ch, d, t, w) == Mixed(ch, d, t + 1, w)
  {
    hide Dot, DotTo, Vs, Points, Back;
    var l, ps, up, vs := Weights(ch, d), Dots(Points(ch), w), Back(ch, d, t + 1), Vs(ch, w);
    BackAlong(ch, d, t, w);
    DotToStep(l, ps, t);
    DotToStep(up, vs, t);
    assert Rest(ch, d, t) == Rest(ch, d, t + 1) - l[t];
    hide Back, Rest, Weight;
    ShiftTerm(DotTo(l, ps, |ch|), DotTo(l, ps, t), l[t], ps[t], ps[0], Rest(ch, d, t + 1),
              DotTo(up, vs, t), vs[t], DotTo(ch[t].a, vs, t));
  }

  /** Back-substitution moves the terms of the centre from the directions v to the
      points, one level at a time, without changing their total. */
  lemma {:induction false} BackSubstitution(ch: seq<Level>, d: nat, t: nat, w: Vec)
    requires Chain(ch, d) && 1 <= t <= |ch| && |w| == d
    ensures Mixed(ch, d, t, w) == DotTo(Fs(ch), Vs(ch, w), |ch|)
    decreases |ch| - t
  {
    if t < |ch| {
      hide Mixed, Dot;
      BackSubstitution(ch, d, t + 1, w);
      PointAlong(ch, d, t, w);
      MixedStep(ch, d, t, w);
    } else {
      assert (1.0 - Rest(ch, d, t)) * Dots(Points(ch), w)[0] == 0.0;
    }
  }

  lemma MixedAtOne(ch: seq<Level>, d: nat, w: Vec)
    requires Sized(ch, d) && |ch| > 0 && |w| == d
    ensures Mixed(ch, d, 1, w) == DotTo(Weights(ch, d), Dots(Points(ch), w), |ch|) - Dot(ch[0].p, w)
  {
    hide Dot, DotTo, Back, Rest, Weight, Points, Vs;
    var l, ps := Weights(ch, d), Dots(Points(ch), w);
    DotToStep(l, ps, 0);
    DotToStep(Back(ch, d, 1), Vs(ch, w), 0);
    WholeAndRest(DotTo(l, ps, |ch|), l[0], ps[0], Back(ch, d, 1)[0], Vs(ch, w)[0],
                 DotTo(l, ps, 1), DotTo(Back(ch, d, 1), Vs(ch, w), 1));
  }

  lemma WholeAndRest(s: real, l: real, p: real, b: real, v: real, first: real, left: real)
    requires v == 0.0 && first == 0.0 + l * p && left == 0.0 + b * v
    ensures s - first - (1.0 - l) * p + left == s - p
  {
    assert b * v == 0.0;
    assert l * p + (1.0 - l) * p == p;
  }

  lemma ShiftTerm(s: real, low: real, l: real, p: real, p0: real, rest: real, u: real, v: real, a: real)
    requires p - p0 == v + a
    ensures s - (low + l * p) - (1.0 - rest) * p0 + (u + l * v)
         == s - low - (1.0 - (rest - l)) * p0 + (u + -l * a)
  {
    assert l * p - l * p0 == l * (p - p0) == l * v + l * a;
    assert (1.0 - (rest - l)) * p0 == (1.0 - rest) * p0 + l * p0;
  }

  lemma {:induction false} RestIsSum(ch: seq<Level>, d: nat, t: nat)
    requires Sized(ch, d) && 1 <= t <= |ch|
    ensures Sum(Weights(ch, d), |ch|) - Sum(Weights(ch, d), t) == 1.0 - Rest(ch, d, t)
    decreases |ch| - t
  {
    hide Weight, Back;
    if t < |ch| {
      RestIsSum(ch, d, t + 1);
    }
  }

  /** The weights sum to one and combine the pushed points to the centre on top. */
  lemma WeightsAreAffine(ch: seq<Level>, d: nat)
    requires Chain(ch, d) && |ch| > 0
    ensures Affine(Weights(ch, d), Points(ch), Top(ch).c)
  {
    hide Dot, Mixed, Extends;
    var l, n := Weights(ch, d), |ch|;
    RestIsSum(ch, d, 1);
    assert Sum(l, 1) == Sum(l, 0) + l[0];
    var m := Comb(l, Points(ch), d, n);
    var w := Minus(m, Top(ch).c);
    hide Weights, Points, Fs, Vs;
    DotComb(l, Points(ch), w, n);
    BackSubstitution(ch, d, 1, w);
    MixedAtOne(ch, d, w);
    CentreAlong(ch, d, n - 1, w);
    EqualByDots(m, Top(ch).c);
  }

  // ----- uniqueness

  /** Along v_k, the points below level k coincide, and point k stands out. */
  lemma AlongTop(ch: seq<Level>, d: nat, k: nat)
    requires Chain(ch, d) && 1 <= k < |ch|
    ensures forall i :: 0 <= i < k ==> Dot(ch[i].p, ch[k].v) == Dot(ch[0].p, ch[k].v)
    ensures Dot(ch[k].p, ch[k].v) - Dot(ch[0].p, ch[k].v) > 0.0
  {
    hide Dot, Residual;
    ChainAt(ch, d, k);
    var low, v := ch[..k], ch[k].v;
    StepFacts(low, ch[k], d);
    PartDot(low, ch[k].p, d);
    ChainNormal(low, d, v);
    assert forall i :: 0 <= i < k ==> low[i] == ch[i];
    NewPointAlongPart(low, ch[k].p, d);
  }

  lemma {:induction false} DifferenceAlong(l: seq<real>, m: seq<real>, g: seq<real>, g0: real, k: nat, n: nat)
    requires k < |l| == |m| == |g| && n <= |l|
    requires forall i :: 0 <= i < k ==> g[i] == g0
    requires forall i :: k < i < |l| ==> l[i] == m[i]
    ensures DotTo(l, g, n) - DotTo(m, g, n)
         == (Sum(l, n) - Sum(m, n)) * g0 + if n <= k then 0.0 else (l[k] - m[k]) * (g[k] - g0)
  {
    hide DotTo;
    if n == 0 {
      DotToStart(l, g, n);
      DotToStart(m, g, n);
    } else {
      var i := n - 1;
      DifferenceAlong(l, m, g, g0, k, i);
      DotToLast(l, g, n);
      DotToLast(m, g, n);
      OneDifference(DotTo(l, g, i), DotTo(m, g, i), Sum(l, i), Sum(m, i), l[i], m[i], g[i], g0);
      assert Sum(l, n) == Sum(l, i) + l[i] && Sum(m, n) == Sum(m, i) + m[i];
      assert i < k ==> g[i] == g0;
      assert i > k ==> l[i] == m[i];
    }
  }

  lemma OneDifference(x: real, y: real, s: real, t: real, l: real, m: real, g: real, g0: real)
    ensures (x + l * g) - (y + m * g) == x - y + (l - m) * g0 + (l - m) * (g - g0)
    ensures (s + l - (t + m)) * g0 == (s - t) * g0 + (l - m) * g0
    ensures g == g0 || l == m ==> (l - m) * (g - g0) == 0.0
  {
    assert (l - m) * g0 + (l - m) * (g - g0) == (l - m) * g == l * g - m * g;
  }

  lemma OnlyDifference(l: seq<real>, m: seq<real>, g: seq<real>, k: nat)
    requires 1 <= k < |l| == |m| == |g| && Sum(l, |l|) == Sum(m, |l|)
    requires forall i :: 0 <= i < k ==> g[i] == g[0]
    requires forall i :: k < i < |l| ==> l[i] == m[i]
    requires DotTo(l, g, |l|) == DotTo(m, g, |l|) && g[k] > g[0]
    ensures l[k] == m[k]
  {
    hide DotTo, Sum;
    DifferenceAlong(l, m, g, g[0], k, |l|);
    var x, y := l[k] - m[k], g[k] - g[0];
    assert x * y == 0.0;
  }

  lemma {:induction false} AgreeFrom(ch: seq<Level>, d: nat, c: Vec, l: seq<real>, m: seq<real>, k: nat)
    requires Chain(ch, d) && 1 <= k <= |ch| && |c| == d
    requires Affine(l, Points(ch), c) && Affine(m, Points(ch), c)
    ensures forall i :: k <= i < |ch| ==> l[i] == m[i]
    decreases |ch| - k
  {
    hide Dot;
    if k < |ch| {
      AgreeFrom(ch, d, c, l, m, k + 1);
      AlongTop(ch, d, k);
      var n, v := |ch|, ch[k].v;
      var g := Dots(Points(ch), v);
      DotComb(l, Points(ch), v, n);
      DotComb(m, Points(ch), v, n);
      OnlyDifference(l, m, g, k);
    }
  }

  lemma {:induction false} SumCongruent(l: seq<real>, m: seq<real>, k: nat)
    requires 1 <= k <= |l| == |m| && forall i :: 1 <= i < k ==> l[i] == m[i]
    ensures Sum(l, k) - Sum(m, k) == l[0] - m[0]
  {
    if k > 1 {
      SumCongruent(l, m, k - 1);
    } else {
      assert Sum(l, 0) == Sum(m, 0);
    }
  }

  /** The pushed points are affinely independent: no other weights give the centre. */
  lemma WeightsAreUnique(ch: seq<Level>, d: nat, l: seq<real>)
    requires Chain(ch, d) && |ch| > 0 && Affine(l, Points(ch), Top(ch).c)
    ensures l == Weights(ch, d)
  {
    var m := Weights(ch, d);
    WeightsAreAffine(ch, d);
    AgreeFrom(ch, d, Top(ch).c, l, m, 1);
    SumCongruent(l, m, |ch|);
  }
}
