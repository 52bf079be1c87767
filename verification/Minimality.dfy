/** The support points are a minimal set with the same smallest enclosing ball. */
module Minimality {
  import opened Vectors
  import opened Balls
  import opened Circumsphere
  import opened Barycentric

  /** The points of a chain are affinely independent, so that an affine function can
      take any values on them. */
  lemma {:induction false} Interpolate(ch: seq<Level>, d: nat, y: seq<real>, k: nat) returns (w: Vec)
    requires Chain(ch, d) && 1 <= k <= |ch| == |y|
    ensures |w| == d
    ensures forall i :: 0 <= i < k ==> Dot(ch[i].p, w) - Dot(ch[0].p, w) == y[i] - y[0]
  {
    hide Chain, Dot;
    ChainSized(ch, d);
    if k == 1 {
      w := Zero(d);
    } else {
      var u := Interpolate(ch, d, y, k - 1);
      AlongTop(ch, d, k - 1);
      var v, p, o := ch[k-1].v, ch[k-1].p, ch[0].p;
      var n, e := Dot(p, v) - Dot(o, v), (y[k-1] - y[0]) - (Dot(p, u) - Dot(o, u));
      w := Plus(u, e / n, v);
      forall i | 0 <= i < k ensures Dot(ch[i].p, w) - Dot(o, w) == y[i] - y[0] {
        DotPlus(u, e / n, v, ch[i].p);
        DotPlus(u, e / n, v, o);
        if i == k - 1 {
          Correction(e / n, e, n, Dot(p, v), Dot(o, v));
        }
      }
    }
  }

  lemma Correction(t: real, e: real, n: real, x: real, y: real)
    requires n > 0.0 && t == e / n && n == x - y
    ensures t * x - t * y == e
  {
    assert t * n == e;
    assert t * (x - y) == t * x - t * y;
  }

  function Indicator(n: nat, j: nat): (r: seq<real>)
    ensures |r| == n && forall i :: 0 <= i < n ==> r[i] == if i == j then 1.0 else 0.0
  {
    seq(n, i => if i == j then 1.0 else 0.0)
  }

  lemma {:induction false} AverageIndicator(l: seq<real>, g: seq<real>, j: nat, c: real, k: nat)
    requires k <= |l| == |g| && forall i :: 0 <= i < |g| ==> g[i] == c + if i == j then 1.0 else 0.0
    ensures DotTo(l, g, k) == Sum(l, k) * c + if j < k then l[j] else 0.0
  {
    if k == 0 {
    } else {
      AverageIndicator(l, g, j, c, k - 1);
      assert (Sum(l, k - 1) + l[k-1]) * c == Sum(l, k - 1) * c + l[k-1] * c;
      assert l[k-1] * (c + 1.0) == l[k-1] * c + l[k-1];
    }
  }

  lemma StepDown(l: real, n: real) returns (t: real)
    requires l > 0.0 && n >= 0.0
    ensures 2.0 * t * l + t * t * n < 0.0
  {
    var m := n + 1.0;
    var u := l / m;
    assert u * m == l && u > 0.0;
    t := -u;
    assert t * t * n == u * (u * n);
    assert u * n == l - u;
    assert u * (2.0 * l) > u * (l - u);
  }

  /** Without its j-th support point a certified ball is no longer the smallest. */
  lemma DroppingShrinks(ch: seq<Level>, d: nat, j: nat) returns (o: Ball)
    requires Chain(ch, d) && j < |ch| && Certified(Top(ch), Points(ch), 0)
    ensures |o.c| == d && o.r < Top(ch).r
    ensures forall i :: 0 <= i < |ch| && i != j ==> |ch[i].p| == d && Power(o, ch[i].p) <= 0.0
  {
    hide Chain, Dot, SqrDist, DotTo;
    ChainSized(ch, d);
    var b, n := Top(ch), |ch|;
    var l :| Affine(l, Points(ch), b.c) && PositiveFrom(l, 0);
    var w := Interpolate(ch, d, Indicator(n, j), n);
    var off := Dot(ch[0].p, w) - Indicator(n, j)[0];
    var g := Dots(Points(ch), w);
    DotComb(l, Points(ch), w, n);
    AverageIndicator(l, g, j, off, n);
    assert Dot(b.c, w) == off + l[j];
    Nonneg(w);
    var t := StepDown(l[j], Dot(w, w));
    o := Ball(Plus(b.c, t, w), b.r + 2.0 * t * l[j] + t * t * Dot(w, w));
    forall i | 0 <= i < n && i != j ensures Power(o, ch[i].p) <= 0.0 {
      MoveCentre(ch[i].p, b.c, t, w);
      assert g[i] == off;
      assert Power(b, Points(ch)[i]) == 0.0;
      Moved(SqrDist(ch[i].p, b.c), t, Dot(ch[i].p, w), Dot(b.c, w), l[j], Dot(w, w));
    }
  }

  lemma Moved(s: real, t: real, x: real, c: real, l: real, n: real)
    requires x - c == -l
    ensures s - 2.0 * t * (x - c) + t * t * n == s + 2.0 * t * l + t * t * n
  {}
}
