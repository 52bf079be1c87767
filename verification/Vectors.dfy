/** Vectors of reals with a fixed number of coordinates, and their dot product.
    Every vector operation is an instance of `Plus(x, t, y)`, which is x + t*y. */
module Vectors {

  type Vec = seq<real>

  function Zero(d: nat): (r: Vec)
    ensures |r| == d && forall i :: 0 <= i < d ==> r[i] == 0.0
  {
    seq(d, i => 0.0)
  }

  function Plus(x: Vec, t: real, y: Vec): (r: Vec)
    requires |x| == |y|
    ensures |r| == |x| && forall i :: 0 <= i < |x| ==> r[i] == x[i] + t * y[i]
  {
    seq(|x|, i requires 0 <= i < |x| => x[i] + t * y[i])
  }

  function Minus(x: Vec, y: Vec): (r: Vec)
    requires |x| == |y|
    ensures |r| == |x| && forall i :: 0 <= i < |x| ==> r[i] == x[i] - y[i]
  {
    Plus(x, -1.0, y)
  }

  /** The sum of the first k products, accumulated from the left as the loops do. */
  function DotTo(x: Vec, y: Vec, k: nat): real
    requires k <= |x| && k <= |y|
  {
    if k == 0 then 0.0 else DotTo(x, y, k - 1) + x[k-1] * y[k-1]
  }

  lemma DotToStep(x: Vec, y: Vec, k: nat)
    requires k < |x| && k < |y|
    ensures DotTo(x, y, 0) == 0.0
    ensures DotTo(x, y, k + 1) == DotTo(x, y, k) + x[k] * y[k]
  {}

  lemma DotToStart(x: Vec, y: Vec, k: nat)
    requires k == 0
    ensures DotTo(x, y, k) == 0.0
  {}

  lemma DotToLast(x: Vec, y: Vec, k: nat)
    requires 0 < k <= |x| && k <= |y|
    ensures DotTo(x, y, k) == DotTo(x, y, k - 1) + x[k-1] * y[k-1]
  {}

  function Dot(x: Vec, y: Vec): real
    requires |x| == |y|
  {
    DotTo(x, y, |x|)
  }

  function SqrDist(x: Vec, y: Vec): real
    requires |x| == |y|
  {
    Dot(Minus(x, y), Minus(x, y))
  }

  // ----- the laws of the dot product

  lemma {:induction false} DotToPlus(x: Vec, t: real, y: Vec, w: Vec, k: nat)
    requires |x| == |y| == |w| && k <= |x|
    ensures DotTo(Plus(x, t, y), w, k) == DotTo(x, w, k) + t * DotTo(y, w, k)
  {
    if k == 0 {
    } else {
      DotToPlus(x, t, y, w, k - 1);
      var a, b, c, e := DotTo(x, w, k - 1), DotTo(y, w, k - 1), x[k-1], y[k-1];
      assert (c + t * e) * w[k-1] == c * w[k-1] + t * (e * w[k-1]);
      assert t * (b + e * w[k-1]) == t * b + t * (e * w[k-1]);
    }
  }

  lemma {:induction false} DotToSymmetric(x: Vec, y: Vec, k: nat)
    requires k <= |x| && k <= |y|
    ensures DotTo(x, y, k) == DotTo(y, x, k)
  {
    if k == 0 {
    } else {
      DotToSymmetric(x, y, k - 1);
    }
  }

  lemma {:induction false} DotToZero(x: Vec, y: Vec, k: nat)
    requires k <= |x| && k <= |y| && forall i :: 0 <= i < k ==> x[i] == 0.0
    ensures DotTo(x, y, k) == 0.0
  {
    if k == 0 {
    } else {
      DotToZero(x, y, k - 1);
    }
  }

  lemma {:induction false} DotToSelf(x: Vec, k: nat)
    requires k <= |x|
    ensures DotTo(x, x, k) >= 0.0
    ensures DotTo(x, x, k) == 0.0 <==> forall i :: 0 <= i < k ==> x[i] == 0.0
  {
    if k == 0 {
    } else {
      DotToSelf(x, k - 1);
      AddTerm(x, x, k);
    }
  }

  lemma {:induction false} DotToCongruent(x: Vec, y: Vec, z: Vec, k: nat)
    requires k <= |x| && k <= |y| && k <= |z| && y[..k] == z[..k]
    ensures DotTo(x, y, k) == DotTo(x, z, k) && DotTo(y, x, k) == DotTo(z, x, k)
  {
    if k == 0 {
    } else {
      assert y[k-1] == y[..k][k-1] == z[k-1];
      assert y[..k-1] == y[..k][..k-1] == z[..k-1];
      DotToCongruent(x, y, z, k - 1);
    }
  }

  /** Vectors that look alike from every direction are equal. */
  lemma EqualByDots(x: Vec, y: Vec)
    requires |x| == |y| && Dot(x, Minus(x, y)) == Dot(y, Minus(x, y))
    ensures x == y
  {
    hide Dot;
    DotMinus(x, y, Minus(x, y));
    SqrDistNonneg(x, y);
  }

  lemma AddTerm(x: Vec, y: Vec, k: nat)
    requires 0 < k <= |x| && k <= |y|
    ensures x[k-1] == 0.0 ==> DotTo(x, y, k) == DotTo(x, y, k - 1)
    ensures x[k-1] > 0.0 && y[k-1] > 0.0 ==> DotTo(x, y, k) > DotTo(x, y, k - 1)
    ensures x[k-1] < 0.0 && y[k-1] < 0.0 ==> DotTo(x, y, k) > DotTo(x, y, k - 1)
  {
    if x[k-1] < 0.0 && y[k-1] < 0.0 {
      assert x[k-1] * y[k-1] > 0.0;
    }
  }

  lemma Symmetric(x: Vec, y: Vec)
    requires |x| == |y|
    ensures Dot(x, y) == Dot(y, x)
  {
    DotToSymmetric(x, y, |x|);
  }

  lemma DotPlus(x: Vec, t: real, y: Vec, w: Vec)
    requires |x| == |y| == |w|
    ensures Dot(Plus(x, t, y), w) == Dot(x, w) + t * Dot(y, w)
    ensures Dot(w, Plus(x, t, y)) == Dot(w, x) + t * Dot(w, y)
  {
    DotToPlus(x, t, y, w, |x|);
    Symmetric(Plus(x, t, y), w);
    Symmetric(x, w);
    Symmetric(y, w);
  }

  lemma DotMinus(x: Vec, y: Vec, w: Vec)
    requires |x| == |y| == |w|
    ensures Dot(Minus(x, y), w) == Dot(x, w) - Dot(y, w)
    ensures Dot(w, Minus(x, y)) == Dot(w, x) - Dot(w, y)
  {
    DotPlus(x, -1.0, y, w);
  }

  lemma DotZero(d: nat, w: Vec)
    requires |w| == d
    ensures Dot(Zero(d), w) == 0.0 && Dot(w, Zero(d)) == 0.0
  {
    DotToZero(Zero(d), w, d);
    Symmetric(Zero(d), w);
  }

  lemma Nonneg(x: Vec)
    ensures Dot(x, x) >= 0.0
    ensures Dot(x, x) == 0.0 <==> x == Zero(|x|)
  {
    DotToSelf(x, |x|);
  }

  /** |x + t y|^2 */
  lemma NormPlus(x: Vec, t: real, y: Vec)
    requires |x| == |y|
    ensures Dot(Plus(x, t, y), Plus(x, t, y)) == Dot(x, x) + 2.0 * t * Dot(x, y) + t * t * Dot(y, y)
  {
    var s := Plus(x, t, y);
    DotPlus(x, t, y, s);
    DotPlus(x, t, y, x);
    DotPlus(x, t, y, y);
    Symmetric(x, y);
    assert t * (Dot(x, y) + t * Dot(y, y)) == t * Dot(x, y) + t * t * Dot(y, y);
  }

  lemma Expand(x: Vec, y: Vec)
    requires |x| == |y|
    ensures SqrDist(x, y) == Dot(x, x) - 2.0 * Dot(x, y) + Dot(y, y)
  {
    NormPlus(x, -1.0, y);
  }

  lemma SqrDistNonneg(x: Vec, y: Vec)
    requires |x| == |y|
    ensures SqrDist(x, y) >= 0.0 && SqrDist(x, y) == SqrDist(y, x)
    ensures SqrDist(x, y) == 0.0 <==> x == y
  {
    Nonneg(Minus(x, y));
    Expand(x, y);
    Expand(y, x);
    Symmetric(x, y);
    if Minus(x, y) == Zero(|x|) {
      forall i | 0 <= i < |x| ensures x[i] == y[i] {
        assert Minus(x, y)[i] == 0.0;
      }
    }
  }

  /** The unit vector along coordinate i */
  function Unit(d: nat, i: nat): (r: Vec)
    ensures |r| == d && forall j :: 0 <= j < d ==> r[j] == if j == i then 1.0 else 0.0
  {
    seq(d, j => if j == i then 1.0 else 0.0)
  }

  lemma {:induction false} UnitTo(d: nat, i: nat, x: Vec, k: nat)
    requires k <= d == |x|
    ensures DotTo(Unit(d, i), x, k) == if i < k then x[i] else 0.0
  {
    if k == 0 {
    } else {
      UnitTo(d, i, x, k - 1);
    }
  }

  // ----- linear combinations

  predicate AllOfSize(xs: seq<Vec>, d: nat) {
    forall i :: 0 <= i < |xs| ==> |xs[i]| == d
  }

  /** The sum of l[i] * xs[i] over i < k. */
  function Comb(l: seq<real>, xs: seq<Vec>, d: nat, k: nat): (r: Vec)
    requires AllOfSize(xs, d) && k <= |xs| && k <= |l|
    ensures |r| == d
  {
    if k == 0 then Zero(d) else Plus(Comb(l, xs, d, k - 1), l[k-1], xs[k-1])
  }

  function Sum(l: seq<real>, k: nat): real
    requires k <= |l|
  {
    if k == 0 then 0.0 else Sum(l, k - 1) + l[k-1]
  }

  function Dots(xs: seq<Vec>, w: Vec): (r: seq<real>)
    requires AllOfSize(xs, |w|)
    ensures |r| == |xs| && forall i :: 0 <= i < |xs| ==> r[i] == Dot(xs[i], w)
  {
    seq(|xs|, i requires 0 <= i < |xs| => Dot(xs[i], w))
  }

  lemma {:induction false} DotComb(l: seq<real>, xs: seq<Vec>, w: Vec, k: nat)
    requires AllOfSize(xs, |w|) && k <= |xs| && k <= |l|
    ensures Dot(Comb(l, xs, |w|, k), w) == DotTo(l, Dots(xs, w), k)
  {
    if k == 0 {
      DotZero(|w|, w);
    } else {
      DotComb(l, xs, w, k - 1);
      DotPlus(Comb(l, xs, |w|, k - 1), l[k-1], xs[k-1], w);
    }
  }
}
