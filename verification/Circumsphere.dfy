/** The incremental circumsphere: what `push` stores at each level, as pure values.
    Level 0 holds the first forced point; level k holds the component v of the k-th
    point orthogonal to the earlier ones, and the circumsphere (c, r) of points 0..k. */
module Circumsphere {
  import opened Vectors
  import opened Balls

  datatype Level = Level(p: Vec, v: Vec, a: seq<real>, z: real, f: real, c: Vec, r: real)

  predicate Sized(ch: seq<Level>, d: nat) {
    forall k :: 0 <= k < |ch| ==>
      |ch[k].p| == |ch[k].v| == |ch[k].c| == d && |ch[k].a| == k
  }

  predicate Positive(ch: seq<Level>) {
    forall i :: 1 <= i < |ch| ==> ch[i].z > 0.0
  }

  /** The Gram-Schmidt coefficients of q against levels 1..; entry 0 is unused. */
  function Coefs(ch: seq<Level>, q: Vec): (r: seq<real>)
    requires Sized(ch, |q|) && Positive(ch)
    ensures |r| == |ch|
    ensures forall i :: 0 <= i < |ch| ==> r[i] == if i == 0 then 0.0 else Dot(ch[i].v, q) * (2.0 / ch[i].z)
  {
    seq(|ch|, i requires 0 <= i < |ch| => if i == 0 then 0.0 else Dot(ch[i].v, q) * (2.0 / ch[i].z))
  }

  /** q after its components along levels 1..i-1 have been taken away. */
  function Residual(ch: seq<Level>, a: seq<real>, q: Vec, i: nat): (r: Vec)
    requires Sized(ch, |q|) && i <= |ch| && i <= |a|
    ensures |r| == |q|
  {
    if i <= 1 then q else Plus(Residual(ch, a, q, i - 1), -a[i-1], ch[i-1].v)
  }

  function Part(ch: seq<Level>, p: Vec): (r: Vec)
    requires |ch| > 0 && Sized(ch, |p|) && Positive(ch)
    ensures |r| == |p|
  {
    var q := Minus(p, ch[0].p);
    Residual(ch, Coefs(ch, q), q, |ch|)
  }

  /** The level that an accepted push of p puts on top of ch. */
  function NewLevel(ch: seq<Level>, p: Vec): (l: Level)
    requires Sized(ch, |p|) && Positive(ch)
    requires |ch| > 0 ==> Dot(Part(ch, p), Part(ch, p)) != 0.0
    ensures l.p == p && |l.v| == |l.c| == |p| && |l.a| == |ch|
  {
    if |ch| == 0 then
      Level(p, Zero(|p|), [], 0.0, 0.0, p, 0.0)
    else
      var top := ch[|ch|-1];
      var v := Part(ch, p);
      var z := 2.0 * Dot(v, v);
      var e := SqrDist(p, top.c) - top.r;
      var f := e / z;
      Level(p, v, Coefs(ch, Minus(p, ch[0].p)), z, f, Plus(top.c, f, v), top.r + e * f / 2.0)
  }

  /** l is the level an accepted push puts on ch, with nonzero z. */
  ghost predicate Extends(ch: seq<Level>, l: Level, d: nat)
    requires Sized(ch, d) && Positive(ch)
    ensures Extends(ch, l, d) ==> |l.p| == |l.v| == |l.c| == d && |l.a| == |ch| && (|ch| > 0 ==> l.z > 0.0)
  {
    && |l.p| == d
    && (|ch| > 0 ==> Dot(Part(ch, l.p), Part(ch, l.p)) > 0.0)
    && l == NewLevel(ch, l.p)
  }

  /** ch was built by accepted pushes with nonzero z. */
  ghost predicate Chain(ch: seq<Level>, d: nat) {
    && Sized(ch, d)
    && Positive(ch)
    && (|ch| > 0 ==>
          var low := ch[..|ch|-1];
          Chain(low, d) && Extends(low, ch[|ch|-1], d))
  }

  function Points(ch: seq<Level>): (r: seq<Vec>)
    ensures |r| == |ch| && forall i :: 0 <= i < |ch| ==> r[i] == ch[i].p
  {
    seq(|ch|, i requires 0 <= i < |ch| => ch[i].p)
  }

  function Top(ch: seq<Level>): Ball
    requires |ch| > 0
  {
    Ball(ch[|ch|-1].c, ch[|ch|-1].r)
  }

  lemma {:induction false} ChainPrefix(ch: seq<Level>, d: nat, k: nat)
    requires Chain(ch, d) && k <= |ch|
    ensures Chain(ch[..k], d)
  {
    hide Extends;
    var n := |ch| - 1;
    if k <= n {
      ChainPrefix(ch[..n], d, k);
      assert ch[..n][..k] == ch[..k];
    } else {
      assert ch[..k] == ch;
    }
  }

  lemma ChainAt(ch: seq<Level>, d: nat, k: nat)
    requires Chain(ch, d) && k < |ch|
    ensures Chain(ch[..k], d) && Extends(ch[..k], ch[k], d)
  {
    hide Extends, Positive;
    ChainPrefix(ch, d, k + 1);
    var up := ch[..k+1];
    assert up[..k] == ch[..k] && up[k] == ch[k];
  }

  lemma ChainGrows(ch: seq<Level>, p: Vec, d: nat)
    requires Chain(ch, d) && |p| == d
    requires |ch| > 0 ==> Dot(Part(ch, p), Part(ch, p)) > 0.0
    ensures Chain(ch + [NewLevel(ch, p)], d)
  {
    var n := ch + [NewLevel(ch, p)];
    assert n[..|n|-1] == ch;
  }

  /** The squared distance of p from the affine hull of the points of ch. */
  ghost function Height(ch: seq<Level>, p: Vec, d: nat): real {
    if |ch| > 0 && Chain(ch, d) && |p| == d then Dot(Part(ch, p), Part(ch, p)) else 1.0
  }

  lemma ChainSized(ch: seq<Level>, d: nat)
    requires Chain(ch, d)
    ensures Sized(ch, d) && Positive(ch)
  {}

  lemma FirstLevelIsChain(p: Vec)
    ensures var l := NewLevel([], p); Chain([l], |p|) && l.p == p && l.c == p && l.r == 0.0
  {
    var l := NewLevel([], p);
    assert [l][..0] == [];
    assert Chain([], |p|) && Extends([], l, |p|);
  }

  /** The next level of a chain, field by field. */
  lemma NextLevel(ch: seq<Level>, p: Vec, d: nat) returns (l: Level)
    requires Chain(ch, d) && |ch| > 0 && |p| == d && Height(ch, p, d) > 0.0
    ensures Extends(ch, l, d) && Chain(ch + [l], d)
    ensures l.p == p && l.v == Part(ch, p) && l.a == Coefs(ch, Minus(p, ch[0].p))
    ensures l.z == 2.0 * Height(ch, p, d) == 2.0 * Dot(l.v, l.v)
    ensures l.f == Power(Top(ch), p) / l.z
    ensures l.c == Plus(Top(ch).c, l.f, l.v) && l.r == Top(ch).r + Power(Top(ch), p) * l.f / 2.0
  {
    hide Part, Dot, Residual;
    l := NewLevel(ch, p);
    ChainGrows(ch, p, d);
  }

  ghost predicate Orthogonal(ch: seq<Level>, d: nat)
    requires Sized(ch, d)
  {
    forall i, j :: 1 <= i < j < |ch| ==> Dot(ch[i].v, ch[j].v) == 0.0
  }

  /** w is orthogonal to every direction stored in ch. */
  ghost predicate Normal(ch: seq<Level>, w: Vec)
    requires Sized(ch, |w|)
  {
    forall i :: 1 <= i < |ch| ==> Dot(ch[i].v, w) == 0.0
  }

  // ----- Gram-Schmidt

  lemma TakeComponent(x: real, z: real, n: real)
    requires z == 2.0 * n && z > 0.0
    ensures x + -(x * (2.0 / z)) * n == 0.0
  {
    var y := 2.0 / z;
    assert y * n == 1.0;
    assert x * y * n == x * (y * n);
  }

  lemma {:induction false} ResidualDot(ch: seq<Level>, q: Vec, i: nat, m: nat)
    requires Sized(ch, |q|) && Orthogonal(ch, |q|) && i <= |ch| && 1 <= m < |ch|
    requires forall k :: 1 <= k < |ch| ==> ch[k].z > 0.0 && ch[k].z == 2.0 * Dot(ch[k].v, ch[k].v)
    ensures Dot(ch[m].v, Residual(ch, Coefs(ch, q), q, i)) == if m < i then 0.0 else Dot(ch[m].v, q)
  {
    hide Dot;
    if i > 1 {
      var a := Coefs(ch, q);
      ResidualDot(ch, q, i - 1, m);
      DotPlus(Residual(ch, a, q, i - 1), -a[i-1], ch[i-1].v, ch[m].v);
      if m == i - 1 {
        TakeComponent(Dot(ch[m].v, q), ch[m].z, Dot(ch[m].v, ch[m].v));
      } else {
        Symmetric(ch[m].v, ch[i-1].v);
      }
    }
  }

  lemma {:induction false} ResidualNormal(ch: seq<Level>, a: seq<real>, q: Vec, i: nat, w: Vec)
    requires |w| == |q| && Sized(ch, |q|) && Normal(ch, w) && i <= |ch| && i <= |a|
    ensures Dot(Residual(ch, a, q, i), w) == Dot(q, w)
  {
    hide Dot;
    if i > 1 {
      ResidualNormal(ch, a, q, i - 1, w);
      DotPlus(Residual(ch, a, q, i - 1), -a[i-1], ch[i-1].v, w);
    }
  }

  /** The directions of a chain are pairwise orthogonal, and z is twice their squared length. */
  lemma {:induction false} ChainOrthogonal(ch: seq<Level>, d: nat)
    requires Chain(ch, d)
    ensures Orthogonal(ch, d)
    ensures forall k :: 1 <= k < |ch| ==> ch[k].z == 2.0 * Dot(ch[k].v, ch[k].v)
  {
    hide Dot, Residual;
    var n := |ch| - 1;
    if n <= 0 {
    } else {
      var low := ch[..n];
      ChainOrthogonal(low, d);
      assert forall k :: 1 <= k < n ==> low[k] == ch[k];
      forall i | 1 <= i < n ensures Dot(ch[i].v, ch[n].v) == 0.0 {
        ResidualDot(low, Minus(ch[n].p, ch[0].p), n, i);
      }
    }
  }

  lemma PartDot(ch: seq<Level>, p: Vec, d: nat)
    requires Chain(ch, d) && |ch| > 0 && |p| == d
    ensures Normal(ch, Part(ch, p))
  {
    ChainOrthogonal(ch, d);
    forall i | 1 <= i < |ch| ensures Dot(ch[i].v, Part(ch, p)) == 0.0 {
      ResidualDot(ch, Minus(p, ch[0].p), |ch|, i);
    }
  }

  /** Seen along a direction orthogonal to the chain, all points and centres coincide. */
  lemma {:induction false} ChainNormal(ch: seq<Level>, d: nat, w: Vec)
    requires Chain(ch, d) && |w| == d && Normal(ch, w)
    ensures forall k :: 0 <= k < |ch| ==> Dot(ch[k].p, w) == Dot(ch[0].p, w) == Dot(ch[k].c, w)
  {
    hide Dot, Residual;
    var n := |ch| - 1;
    if n <= 0 {
    } else {
      var low := ch[..n];
      assert forall k :: 0 <= k < n ==> low[k] == ch[k];
      ChainNormal(low, d, w);
      var q := Minus(ch[n].p, ch[0].p);
      ResidualNormal(low, Coefs(low, q), q, n, w);
      DotMinus(ch[n].p, ch[0].p, w);
      DotPlus(ch[n-1].c, ch[n].f, ch[n].v, w);
    }
  }

  // ----- the sphere

  lemma MoveCentre(p: Vec, c: Vec, f: real, v: Vec)
    requires |p| == |c| == |v|
    ensures SqrDist(p, Plus(c, f, v))
         == SqrDist(p, c) - 2.0 * f * (Dot(p, v) - Dot(c, v)) + f * f * Dot(v, v)
  {
    hide Dot;
    var m := Plus(c, f, v);
    Expand(p, m);
    Expand(p, c);
    DotPlus(c, f, v, p);
    NormPlus(c, f, v);
    SquareMoved(Dot(p, p), Dot(p, c), Dot(p, v), Dot(c, c), Dot(c, v), Dot(v, v), f);
    hide SqrDist;
  }

  lemma SquareMoved(pp: real, pc: real, pv: real, cc: real, cv: real, vv: real, f: real)
    ensures pp - 2.0 * (pc + f * pv) + (cc + 2.0 * f * cv + f * f * vv)
         == (pp - 2.0 * pc + cc) - 2.0 * f * (pv - cv) + f * f * vv
  {
    assert 2.0 * f * (pv - cv) == 2.0 * (f * pv) - 2.0 * f * cv;
  }

  /** What one accepted push adds, with f no longer written as a quotient. */
  lemma StepFacts(ch: seq<Level>, l: Level, d: nat)
    requires Chain(ch, d) && |ch| > 0 && Extends(ch, l, d)
    ensures l.v == Part(ch, l.p) && l.z == 2.0 * Dot(l.v, l.v) && Dot(l.v, l.v) > 0.0
    ensures l.f * l.z == Power(Top(ch), l.p)
    ensures l.c == Plus(Top(ch).c, l.f, l.v)
    ensures l.r == Top(ch).r + l.f * l.f * Dot(l.v, l.v)
  {
    hide Dot, Residual, SqrDist, Part;
    RadiusOfStep(Top(ch).r, Power(Top(ch), l.p), l.f, l.z, Dot(l.v, l.v));
  }

  lemma RadiusOfStep(r: real, e: real, f: real, z: real, n: real)
    requires z == 2.0 * n && z > 0.0 && f == e / z
    ensures f * z == e && r + e * f / 2.0 == r + f * f * n
  {
    assert f * f * z == f * (f * z) == e * f;
  }

  lemma NewPointAlongPart(ch: seq<Level>, p: Vec, d: nat)
    requires Chain(ch, d) && |ch| > 0 && |p| == d
    ensures var v := Part(ch, p); Dot(p, v) - Dot(Top(ch).c, v) == Dot(v, v)
  {
    hide Dot, Residual;
    var v, q := Part(ch, p), Minus(p, ch[0].p);
    PartDot(ch, p, d);
    ChainNormal(ch, d, v);
    ResidualNormal(ch, Coefs(ch, q), q, |ch|, v);
    DotMinus(p, ch[0].p, v);
  }

  /** Moving the centre along a direction in which x and the centre coincide. */
  lemma OldPointStays(x: Vec, top: Ball, l: Level)
    requires |x| == |top.c| == |l.v| && Power(top, x) == 0.0 && Dot(x, l.v) == Dot(top.c, l.v)
    requires l.c == Plus(top.c, l.f, l.v) && l.r == top.r + l.f * l.f * Dot(l.v, l.v)
    ensures Power(Ball(l.c, l.r), x) == 0.0
  {
    hide Dot, SqrDist;
    MoveCentre(x, top.c, l.f, l.v);
  }

  lemma NewPointArrives(top: Ball, l: Level)
    requires |l.p| == |top.c| == |l.v| && Dot(l.p, l.v) - Dot(top.c, l.v) == Dot(l.v, l.v)
    requires l.z == 2.0 * Dot(l.v, l.v) && l.f * l.z == Power(top, l.p)
    requires l.c == Plus(top.c, l.f, l.v) && l.r == top.r + l.f * l.f * Dot(l.v, l.v)
    ensures Power(Ball(l.c, l.r), l.p) == 0.0
  {
    hide Dot, SqrDist;
    MoveCentre(l.p, top.c, l.f, l.v);
    assert l.f * l.z == 2.0 * l.f * Dot(l.v, l.v);
  }

  /** Every pushed point is at squared distance exactly r from the centre on top. */
  lemma {:induction false} OnSphere(ch: seq<Level>, d: nat)
    requires Chain(ch, d) && |ch| > 0
    ensures Through(Top(ch), Points(ch))
  {
    hide Dot, Residual, SqrDist, Part, NewLevel;
    var n := |ch| - 1;
    if n == 0 {
      assert Extends(ch[..0], ch[0], d);
      FirstLevel(ch[0], d);
    } else {
      var low := ch[..n];
      assert Points(ch) == Points(low) + [ch[n].p];
      OnSphere(low, d);
      hide Extends;
      StepFacts(low, ch[n], d);
      PartDot(low, ch[n].p, d);
      ChainNormal(low, d, ch[n].v);
      NewPointAlongPart(low, ch[n].p, d);
      NewPointArrives(Top(low), ch[n]);
      forall i | 0 <= i < n ensures Power(Top(ch), ch[i].p) == 0.0 {
        assert Points(low)[i] == low[i].p == ch[i].p;
        OldPointStays(ch[i].p, Top(low), ch[n]);
      }
    }
  }

  lemma FirstLevel(l: Level, d: nat)
    requires Extends([], l, d)
    ensures l.c == l.p && l.r == 0.0 && Power(Ball(l.c, l.r), l.p) == 0.0
  {
    SqrDistNonneg(l.p, l.p);
  }

  /** The squared radius never shrinks; it grows strictly exactly when the new point
      was off the sphere of the level below, and otherwise the ball stays. */
  lemma RadiusStep(ch: seq<Level>, l: Level, d: nat)
    requires Chain(ch, d) && |ch| > 0 && Extends(ch, l, d)
    ensures Power(Top(ch), l.p) != 0.0 ==> l.r > Top(ch).r
    ensures Power(Top(ch), l.p) == 0.0 ==> Ball(l.c, l.r) == Top(ch)
  {
    hide Dot, SqrDist, Part, NewLevel, Extends, Power;
    StepFacts(ch, l, d);
    StepSign(l.f, l.f, l.z, Dot(l.v, l.v));
    if l.f == 0.0 {
      assert l.c == Top(ch).c;
    }
  }

  lemma StepSign(f: real, g: real, z: real, n: real)
    requires z > 0.0 && n > 0.0 && f == g
    ensures f == 0.0 <==> f * z == 0.0
    ensures f == 0.0 ==> f * g * n == 0.0
    ensures f != 0.0 ==> f * g * n > 0.0
  {
    if f > 0.0 {
      assert f * z > 0.0;
      assert f * g > 0.0;
      assert f * g * n > 0.0;
    } else if f < 0.0 {
      assert f * z < 0.0;
      assert f * g > 0.0;
      assert f * g * n > 0.0;
    }
  }
}
