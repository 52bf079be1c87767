/** Why d+1 levels are enough: d coordinates leave room for at most d pairwise
    orthogonal directions, so a full chain determines the ball. */
module Dimension {
  import opened Vectors
  import opened Balls
  import opened Circumsphere
  import opened Barycentric

  ghost predicate OrthogonalFamily(us: seq<Vec>, d: nat) {
    && AllOfSize(us, d)
    && (forall i :: 0 <= i < |us| ==> Dot(us[i], us[i]) > 0.0)
    && (forall i, j :: 0 <= i < j < |us| ==> Dot(us[i], us[j]) == 0.0)
  }

  /** x without its components along the first k vectors of us. */
  ghost function Drop(x: Vec, us: seq<Vec>, k: nat): (r: Vec)
    requires OrthogonalFamily(us, |x|) && k <= |us|
    ensures |r| == |x|
  {
    if k == 0 then x
    else Plus(Drop(x, us, k - 1), -(Dot(x, us[k-1]) / Dot(us[k-1], us[k-1])), us[k-1])
  }

  /** The squared length of those components. */
  ghost function Energy(x: Vec, us: seq<Vec>, k: nat): real
    requires OrthogonalFamily(us, |x|) && k <= |us|
  {
    if k == 0 then 0.0
    else Energy(x, us, k - 1) + Dot(x, us[k-1]) * (Dot(x, us[k-1]) / Dot(us[k-1], us[k-1]))
  }

  lemma {:induction false} DropDot(x: Vec, us: seq<Vec>, k: nat, m: nat)
    requires OrthogonalFamily(us, |x|) && k <= |us| && m < |us|
    ensures Dot(Drop(x, us, k), us[m]) == if m < k then 0.0 else Dot(x, us[m])
  {
    hide Dot;
    if k == 0 {
    } else {
      DropDot(x, us, k - 1, m);
      var u := us[k-1];
      DotPlus(Drop(x, us, k - 1), -(Dot(x, u) / Dot(u, u)), u, us[m]);
      if m == k - 1 {
        Cancel(Dot(x, u), Dot(u, u));
      } else {
        Symmetric(u, us[m]);
        assert -(Dot(x, u) / Dot(u, u)) * Dot(u, us[m]) == 0.0;
      }
    }
  }

  lemma Cancel(x: real, n: real)
    requires n > 0.0
    ensures -(x / n) * n == -x
    ensures 2.0 * -(x / n) * x + -(x / n) * -(x / n) * n == -(x * (x / n))
  {
    var y := x / n;
    assert y * n == x;
    assert -y * -y * n == y * (y * n);
  }

  lemma {:induction false} DropNorm(x: Vec, us: seq<Vec>, k: nat)
    requires OrthogonalFamily(us, |x|) && k <= |us|
    ensures Dot(Drop(x, us, k), Drop(x, us, k)) == Dot(x, x) - Energy(x, us, k)
  {
    hide Dot;
    if k == 0 {
    } else {
      DropNorm(x, us, k - 1);
      DropDot(x, us, k - 1, k - 1);
      var u := us[k-1];
      NormPlus(Drop(x, us, k - 1), -(Dot(x, u) / Dot(u, u)), u);
      Cancel(Dot(x, u), Dot(u, u));
    }
  }

  /** Bessel's inequality. */
  lemma Bessel(x: Vec, us: seq<Vec>, k: nat)
    requires OrthogonalFamily(us, |x|) && k <= |us|
    ensures Energy(x, us, k) <= Dot(x, x)
  {
    hide Dot;
    DropNorm(x, us, k);
    Nonneg(Drop(x, us, k));
  }

  /** The energies of the first i unit vectors, added up. */
  ghost function Energies(us: seq<Vec>, d: nat, k: nat, i: nat): real
    requires OrthogonalFamily(us, d) && k <= |us| && i <= d
  {
    if i == 0 then 0.0 else Energies(us, d, k, i - 1) + Energy(Unit(d, i - 1), us, k)
  }

  lemma {:induction false} EnergiesBound(us: seq<Vec>, d: nat, k: nat, i: nat)
    requires OrthogonalFamily(us, d) && k <= |us| && i <= d
    ensures Energies(us, d, k, i) <= i as real
  {
    if i == 0 {
    } else {
      EnergiesBound(us, d, k, i - 1);
      Bessel(Unit(d, i - 1), us, k);
      UnitTo(d, i - 1, Unit(d, i - 1), d);
    }
  }

  lemma EnergyOfUnit(us: seq<Vec>, d: nat, k: nat, i: nat)
    requires OrthogonalFamily(us, d) && 0 < k <= |us| && i < d
    ensures var u := us[k-1];
            Energy(Unit(d, i), us, k) == Energy(Unit(d, i), us, k - 1) + u[i] * (u[i] / Dot(u, u))
  {
    UnitTo(d, i, us[k-1], d);
    DotIsDotTo(Unit(d, i), us[k-1]);
    hide Dot, DotTo, Unit;
  }

  lemma {:induction false} EnergiesSplit(us: seq<Vec>, d: nat, k: nat, i: nat)
    requires OrthogonalFamily(us, d) && 0 < k <= |us| && i <= d
    ensures var u := us[k-1];
            Energies(us, d, k, i) == Energies(us, d, k - 1, i) + DotTo(u, u, i) / Dot(u, u)
  {
    var u := us[k-1];
    if i == 0 {
      assert DotTo(u, u, 0) == 0.0;
    } else {
      hide Dot, Unit, DotTo, Energy;
      EnergiesSplit(us, d, k, i - 1);
      EnergyOfUnit(us, d, k, i - 1);
      AddQuotients(u, i - 1, Dot(u, u));
    }
  }

  lemma DotIsDotTo(x: Vec, y: Vec)
    requires |x| == |y|
    ensures Dot(x, y) == DotTo(x, y, |x|)
  {}

  lemma AddQuotients(u: Vec, i: nat, n: real)
    requires n > 0.0 && i < |u|
    ensures DotTo(u, u, i + 1) / n == DotTo(u, u, i) / n + u[i] * (u[i] / n)
  {
    hide DotTo;
    DotToStep(u, u, i);
    QuotientOfSum(DotTo(u, u, i), u[i], u[i], n);
  }

  lemma QuotientOfSum(s: real, x: real, y: real, n: real)
    requires n > 0.0
    ensures (s + x * y) / n == s / n + x * (y / n)
  {}

  lemma {:induction false} EnergiesCount(us: seq<Vec>, d: nat, k: nat)
    requires OrthogonalFamily(us, d) && k <= |us|
    ensures Energies(us, d, k, d) == k as real
  {
    if k == 0 {
      NoEnergy(us, d, d);
    } else {
      EnergiesCount(us, d, k - 1);
      EnergiesSplit(us, d, k, d);
    }
  }

  lemma {:induction false} NoEnergy(us: seq<Vec>, d: nat, i: nat)
    requires OrthogonalFamily(us, d) && i <= d
    ensures Energies(us, d, 0, i) == 0.0
  {
    if i == 0 {
    } else {
      NoEnergy(us, d, i - 1);
    }
  }

  /** In d dimensions there are at most d pairwise orthogonal nonzero vectors. */
  lemma AtMostDimension(us: seq<Vec>, d: nat)
    requires OrthogonalFamily(us, d)
    ensures |us| <= d
  {
    EnergiesCount(us, d, |us|);
    EnergiesBound(us, d, |us|, d);
  }

  // ----- what this means for a chain

  function Directions(ch: seq<Level>): (r: seq<Vec>)
    requires |ch| > 0
    ensures |r| == |ch| - 1 && forall i :: 1 <= i < |ch| ==> r[i-1] == ch[i].v
  {
    seq(|ch| - 1, i requires 0 <= i < |ch| - 1 => ch[i+1].v)
  }

  lemma ChainFamily(ch: seq<Level>, d: nat)
    requires Chain(ch, d) && |ch| > 0
    ensures OrthogonalFamily(Directions(ch), d)
  {
    hide Dot, Extends;
    ChainOrthogonal(ch, d);
    var us := Directions(ch);
    forall i | 0 <= i < |us| ensures us[i] == ch[i+1].v && |us[i]| == d && Dot(us[i], us[i]) > 0.0 {
      assert ch[i+1].z > 0.0;
    }
    forall i, j | 0 <= i < j < |us| ensures Dot(us[i], us[j]) == 0.0 {
      assert us[i] == ch[i+1].v && us[j] == ch[j+1].v;
    }
  }

  /** Affine independence is limited by the dimension. */
  lemma ChainLength(ch: seq<Level>, d: nat)
    requires Chain(ch, d)
    ensures |ch| <= d + 1
  {
    if |ch| > 0 {
      ChainFamily(ch, d);
      AtMostDimension(Directions(ch), d);
    }
  }

  lemma NoNormalLeft(ch: seq<Level>, d: nat, w: Vec)
    requires Chain(ch, d) && |ch| == d + 1 && |w| == d && Normal(ch, w)
    ensures w == Zero(d)
  {
    Nonneg(w);
    if Dot(w, w) > 0.0 {
      hide Dot, Extends;
      ChainFamily(ch, d);
      var us := Directions(ch) + [w];
      forall i, j | 0 <= i < j < |us| ensures Dot(us[i], us[j]) == 0.0 {
        assert us[i] == ch[i+1].v;
        if j < d {
          assert us[j] == Directions(ch)[j] && us[i] == Directions(ch)[i];
        }
      }
      AtMostDimension(us, d);
    }
  }

  lemma {:induction false} NormalFromPoints(ch: seq<Level>, d: nat, w: Vec, k: nat)
    requires Chain(ch, d) && |w| == d && 1 <= k <= |ch|
    requires forall i :: 0 <= i < |ch| ==> Dot(ch[i].p, w) == Dot(ch[0].p, w)
    ensures forall i :: 1 <= i < k ==> Dot(ch[i].v, w) == 0.0
  {
    hide Dot, Extends, DotTo;
    if k > 1 {
      NormalFromPoints(ch, d, w, k - 1);
      PointAlong(ch, d, k - 1, w);
      DotToOnZeros(ch[k-1].a, Vs(ch, w), k - 1);
    }
  }

  lemma SamePowers(b: Ball, o: Ball, x: Vec, y: Vec)
    requires |b.c| == |o.c| == |x| == |y|
    requires Power(b, x) == Power(o, x) && Power(b, y) == Power(o, y)
    ensures Dot(x, Minus(b.c, o.c)) == Dot(y, Minus(b.c, o.c))
  {
    hide Dot, SqrDist;
    Expand(x, b.c);
    Expand(x, o.c);
    Expand(y, b.c);
    Expand(y, o.c);
    DotMinus(b.c, o.c, x);
    DotMinus(b.c, o.c, y);
  }

  /** A ball with all points of a full chain on its boundary is the chain's own. */
  lemma FullChainIsUnique(ch: seq<Level>, d: nat, o: Ball)
    requires Chain(ch, d) && |ch| == d + 1 && |o.c| == d && Through(o, Points(ch))
    ensures o == Top(ch)
  {
    hide Dot, Extends, SqrDist, Power;
    var b := Top(ch);
    OnSphere(ch, d);
    var w := Minus(b.c, o.c);
    forall i | 0 <= i < |ch| ensures Dot(ch[i].p, w) == Dot(ch[0].p, w) {
      assert Points(ch)[i] == ch[i].p && Points(ch)[0] == ch[0].p;
      SamePowers(b, o, ch[i].p, ch[0].p);
    }
    NormalFromPoints(ch, d, w, |ch|);
    NoNormalLeft(ch, d, w);
    SameCentre(b, o, ch[0].p);
  }

  lemma SameCentre(b: Ball, o: Ball, x: Vec)
    requires |b.c| == |o.c| == |x| && Minus(b.c, o.c) == Zero(|x|)
    requires Power(b, x) == Power(o, x)
    ensures b == o
  {
    forall i | 0 <= i < |x| ensures b.c[i] == o.c[i] {
      assert Minus(b.c, o.c)[i] == 0.0;
    }
    assert b.c == o.c;
  }
}
