/** Gaertner's smallest enclosing ball: move-to-front and pivoting over Welzl's recursion.
    `ch` is the ghost value of the levels that the last accepted pushes left in the arrays. */
module Miniball {
  import opened Reals
  import opened Vectors
  import opened Balls
  import opened Circumsphere
  import opened Barycentric
  import opened Minimality
  import opened Welzl
  import opened Lists

  function MbSqr(r: real): real { r * r }

  lemma MbSqrStep(x: Vec, k: nat)
    requires k < |x|
    ensures DotTo(x, x, k + 1) == DotTo(x, x, k) + MbSqr(x[k]) && DotTo(x, x, 0) == 0.0
  {
    DotToStep(x, x, k);
  }

  lemma PowerIs(b: Ball, p: Vec)
    requires |b.c| == |p|
    ensures Power(b, p) == -b.r + DotTo(Minus(p, b.c), Minus(p, b.c), |p|)
  {}

  class Miniball {
    const d: nat
    const points: seq<Vec>
    const eps: real           // the square of the machine epsilon of the number type
    const tol: real           // default_tol

    var L: seq<Node>
    var nextId: nat
    var supportEnd: Iterator
    var fsize: nat            // number of forced points
    var ssize: nat            // number of support points

    var currentC: nat         // current_c points to this row of c
    var currentSqrR: real
    const c: array<Vec>       // the rows of c, v and a have d entries
    const v: array<Vec>
    const a: array<Vec>
    const sqrR: array<real>
    const q0: array<real>
    const z: array<real>
    const f: array<real>

    ghost var ch: seq<Level>
    var rejected: bool        // some push has returned false
    var finished: bool        // pivot_mb has come to its end

    ghost predicate Apart() {
      && c != v && v != a && a != c
      && sqrR != q0 && sqrR != z && sqrR != f && q0 != z && q0 != f && z != f
    }

    ghost predicate Shapes() {
      && Apart()
      && c.Length == v.Length == a.Length == d + 1
      && sqrR.Length == z.Length == f.Length == d + 1 && q0.Length == d
      && AllOfSize(points, d) && eps >= 0.0 && tol >= 0.0
    }

    /** Every row has d entries. */
    ghost predicate Rows()
      reads c, v, a
    {
      AllOfSize(c[..], d) && AllOfSize(v[..], d) && AllOfSize(a[..], d)
    }

    /** The centre and radius rows hold the levels ls. */
    ghost predicate Spheres(ls: seq<Level>)
      requires Shapes() && |ls| <= d + 1
      reads c, sqrR, f
    {
      forall k :: 0 <= k < |ls| ==> c[k] == ls[k].c && sqrR[k] == ls[k].r && (k > 0 ==> f[k] == ls[k].f)
    }

    /** So do the Gram-Schmidt rows. */
    ghost predicate Directions(ls: seq<Level>)
      requires Shapes() && |ls| <= d + 1
      reads v, z
    {
      forall k :: 1 <= k < |ls| ==> v[k] == ls[k].v && z[k] == ls[k].z
    }

    ghost predicate Coefficients(ls: seq<Level>)
      requires Shapes() && |ls| <= d + 1
      reads a
    {
      forall k :: 1 <= k < |ls| ==> |ls[k].a| == k <= |a[k]| && a[k][1..k] == ls[k].a[1..]
    }

    ghost predicate ListOk()
      reads `L, `nextId, `supportEnd
    {
      && Distinct(L)
      && (forall i :: 0 <= i < |L| ==> L[i].pit < |points| && L[i].id < nextId)
      && exists s :: 0 <= s <= |L| && supportEnd == ItAt(L, s)
    }

    ghost predicate Levels()
      reads `ch, `fsize, `ssize
    {
      fsize <= ssize == |ch| <= d + 1 && Chain(ch, d)
    }

    /** The levels whose Gram-Schmidt rows no rejected push can have overwritten. */
    ghost function Intact(): (ls: seq<Level>)
      requires fsize <= |ch|
      reads `ch, `fsize, `rejected
      ensures |ls| <= |ch|
    {
      if rejected then ch[..fsize] else ch
    }

    ghost predicate Stored()
      requires Shapes() && fsize <= |ch| == ssize <= d + 1
      reads `ch, `fsize, `ssize, `rejected, `currentC, `currentSqrR, c, v, a, sqrR, q0, z, f
    {
      && Rows()
      && Spheres(ch)
      && Directions(Intact())
      && Coefficients(Intact())
      && (ssize > 0 ==> q0[..] == ch[0].p && currentC == ssize - 1)
      && (ssize == 0 ==> currentC == 0)
      && c[currentC] == Current().c && currentSqrR == Current().r
    }

    ghost predicate Valid()
      reads `L, `nextId, `supportEnd, `ch, `fsize, `ssize, `rejected, `currentC, `currentSqrR
      reads c, v, a, sqrR, q0, z, f
    {
      Shapes() && ListOk() && Levels() && Stored()
    }

    /** The ball that center() and squared_radius() report. */
    ghost function Current(): Ball
      reads `ch
    {
      if |ch| == 0 then Ball(Zero(d), -1.0) else Top(ch)
    }

    // ----- excess

    method Excess(pit: nat) returns (e: real)
      requires Valid() && pit < |points|
      ensures |Current().c| == d && e == Power(Current(), points[pit])
    {
      hide *;
      CentreStored(pit);
      var p := points[pit];
      ghost var m := Minus(p, Current().c);
      DotToStart(m, m, 0);
      e := -currentSqrR;
      for k := 0 to d
        invariant e == -currentSqrR + DotTo(m, m, k)
      {
        MbSqrStep(m, k);
        assert m[k] == p[k] - c[currentC][k];
        e := e + MbSqr(p[k] - c[currentC][k]);
      }
      PowerIs(Current(), p);
    }

    lemma CentreStored(pit: nat)
      requires Valid() && pit < |points|
      ensures currentC < c.Length && c[currentC] == Current().c && |Current().c| == |points[pit]| == d
      ensures currentSqrR == Current().r
    {}

    // ----- push

    /** v_k := Q_k */
    method SetDifference(k: nat, p: Vec, ghost origin: Vec)
      requires Shapes() && Rows() && 1 <= k <= d && |p| == d && q0[..] == origin
      modifies v
      ensures Rows() && v[k] == Minus(p, origin)
      ensures forall i :: 0 <= i <= d && i != k ==> v[i] == old(v[i])
    {
      ghost var q := Minus(p, origin);
      for i := 0 to d
        invariant |v[k]| == d && forall j :: 0 <= j < i ==> v[k][j] == q[j]
        invariant forall i' :: 0 <= i' <= d && i' != k ==> v[i'] == old(v[i'])
      {
        assert q0[i] == q0[..][i];
        v[k] := v[k][i := p[i] - q0[i]];
      }
    }

    /** The coefficients a_{k,i} for i < k. */
    method SetCoefficients(k: nat, ghost q: Vec, ghost low: seq<Level>)
      requires Shapes() && Rows() && 1 <= k <= d && k == |low| && |q| == d
      requires Sized(low, d) && Positive(low) && Directions(low) && v[k] == q
      modifies a
      ensures Rows() && a[k][1..k] == Coefs(low, q)[1..]
      ensures forall i :: 0 <= i <= d && i != k ==> a[i] == old(a[i])
    {
      for i := 1 to k
        invariant Rows() && forall j :: 1 <= j < i ==> a[k][j] == Coefs(low, q)[j]
        invariant forall i' :: 0 <= i' <= d && i' != k ==> a[i'] == old(a[i'])
      {
        SetCoefficient(k, i, low[i].v, q);
        assert a[k][i] == Dot(low[i].v, q) * (2.0 / low[i].z);
      }
    }

    method SetCoefficient(k: nat, i: nat, ghost w: Vec, ghost q: Vec)
      requires Shapes() && Rows() && 1 <= i < k <= d && |w| == |q| == d && v[i] == w && v[k] == q && z[i] != 0.0
      modifies a
      ensures Rows() && a[k][i] == Dot(w, q) * (2.0 / z[i])
      ensures forall j :: 0 <= j < d && j != i ==> a[k][j] == old(a[k])[j]
      ensures forall i' :: 0 <= i' <= d && i' != k ==> a[i'] == old(a[i'])
    {
      hide DotTo;
      assert DotTo(w, q, 0) == 0.0 by { DotToStep(w, q, 0); }
      a[k] := a[k][i := 0.0];
      for j := 0 to d
        invariant |a[k]| == d && a[k][i] == DotTo(w, q, j)
        invariant forall j' :: 0 <= j' < d && j' != i ==> a[k][j'] == old(a[k])[j']
        invariant forall i' :: 0 <= i' <= d && i' != k ==> a[i'] == old(a[i'])
      {
        DotToStep(w, q, j);
        a[k] := a[k][i := a[k][i] + v[i][j] * v[k][j]];
      }
      a[k] := a[k][i := a[k][i] * (2.0 / z[i])];
    }

    /** v_k := Q_k - \bar{Q}_k */
    method Orthogonalise(k: nat, ghost q: Vec, ghost low: seq<Level>, ghost co: seq<real>)
      requires Shapes() && Rows() && 1 <= k <= d && k == |low| == |co| && |q| == d && Sized(low, d)
      requires v[k] == q && Directions(low) && a[k][1..k] == co[1..]
      modifies v
      ensures Rows() && v[k] == Residual(low, co, q, k)
      ensures forall i :: 0 <= i <= d && i != k ==> v[i] == old(v[i])
    {
      for i := 1 to k
        invariant v[k] == Residual(low, co, q, i)
        invariant forall i' :: 0 <= i' <= d && i' != k ==> v[i'] == old(v[i'])
      {
        assert a[k][i] == a[k][1..k][i-1] == co[1..][i-1] == co[i];
        SubtractComponent(k, i, Residual(low, co, q, i), low[i].v);
      }
    }

    method SubtractComponent(k: nat, i: nat, ghost x: Vec, ghost w: Vec)
      requires Shapes() && 1 <= i < k <= d && |a[k]| == |x| == |w| == d && v[k] == x && v[i] == w
      modifies v
      ensures v[k] == Plus(x, -a[k][i], w)
      ensures forall i' :: 0 <= i' <= d && i' != k ==> v[i'] == old(v[i'])
    {
      for j := 0 to d
        invariant |v[k]| == d
        invariant forall j' :: 0 <= j' < d ==> v[k][j'] == if j' < j then x[j'] + -a[k][i] * w[j'] else x[j']
        invariant forall i' :: 0 <= i' <= d && i' != k ==> v[i'] == old(v[i'])
      {
        v[k] := v[k][j := v[k][j] - a[k][i] * v[i][j]];
      }
      assert v[k] == Plus(x, -a[k][i], w);
    }

    method SetZ(k: nat, ghost x: Vec)
      requires Shapes() && 1 <= k <= d && |x| == d && v[k] == x
      modifies z
      ensures z[k] == 2.0 * Dot(x, x)
      ensures forall i :: 0 <= i <= d && i != k ==> z[i] == old(z[i])
    {
      assert DotTo(x, x, 0) == 0.0;
      hide MbSqr, DotTo;
      z[k] := 0.0;
      for j := 0 to d
        invariant z[k] == DotTo(x, x, j)
        invariant forall i :: 0 <= i <= d && i != k ==> z[i] == old(z[i])
      {
        MbSqrStep(x, j);
        z[k] := z[k] + MbSqr(v[k][j]);
      }
      z[k] := z[k] * 2.0;
    }

    /** Update f, c and sqr_r at level k. */
    method SetSphere(k: nat, p: Vec, ghost low: seq<Level>, ghost l: Level)
      requires Shapes() && Rows() && 1 <= k == |low| <= d && |p| == |l.v| == |Top(low).c| == d && Spheres(low)
      requires v[k] == l.v && z[k] == l.z != 0.0 && l.f == Power(Top(low), p) / l.z
      requires l.c == Plus(Top(low).c, l.f, l.v) && l.r == Top(low).r + Power(Top(low), p) * l.f / 2.0
      modifies c, sqrR, f
      ensures Rows() && Spheres(low + [l])
    {
      hide Power;
      assert c[k-1] == low[k-1].c && sqrR[k-1] == low[k-1].r;
      var e := SphereExcess(k, p, Top(low));
      f[k] := e / z[k];
      SetCentre(k, Top(low).c, l.v);
      sqrR[k] := sqrR[k-1] + e * f[k] / 2.0;
    }

    method SetCentre(k: nat, ghost x: Vec, ghost w: Vec)
      requires Shapes() && Rows() && 1 <= k <= d && |x| == |w| == d && c[k-1] == x && v[k] == w
      modifies c
      ensures Rows() && c[k] == Plus(x, f[k], w)
      ensures forall i :: 0 <= i <= d && i != k ==> c[i] == old(c[i])
    {
      for i := 0 to d
        invariant |c[k]| == d && forall j :: 0 <= j < i ==> c[k][j] == x[j] + f[k] * w[j]
        invariant forall i' :: 0 <= i' <= d && i' != k ==> c[i'] == old(c[i'])
      {
        c[k] := c[k][i := c[k-1][i] + f[k] * v[k][i]];
      }
    }

    method SphereExcess(k: nat, p: Vec, ghost b: Ball) returns (e: real)
      requires Shapes() && 1 <= k <= d && |p| == |b.c| == d && c[k-1] == b.c && sqrR[k-1] == b.r
      ensures e == Power(b, p)
    {
      ghost var m := Minus(p, b.c);
      assert DotTo(m, m, 0) == 0.0;
      hide MbSqr, DotTo;
      e := -sqrR[k-1];
      for i := 0 to d
        invariant e == -b.r + DotTo(m, m, i)
      {
        MbSqrStep(m, i);
        e := e + MbSqr(p[i] - c[k-1][i]);
      }
    }

    /** A push divides by z, so z must not vanish unless the threshold rejects it first. */
    ghost predicate Divisible(pit: nat)
      requires pit < |points| && fsize <= |ch|
      reads `ch, `fsize, `currentSqrR
    {
      fsize > 0 ==>
        var h := Height(ch[..fsize], points[pit], d);
        h > 0.0 || 2.0 * h < eps * currentSqrR
    }

    ghost predicate Accepts(pit: nat)
      requires pit < |points| && fsize <= |ch|
      reads `ch, `fsize, `currentSqrR
    {
      fsize > 0 ==> 2.0 * Height(ch[..fsize], points[pit], d) >= eps * currentSqrR
    }

    method SetOrigin(p: Vec)
      requires Shapes() && |p| == d
      modifies q0
      ensures q0[..] == p
    {
      for i := 0 to d
        invariant forall j :: 0 <= j < i ==> q0[j] == p[j]
      {
        q0[i] := p[i];
      }
    }

    method SetFirstCentre(ghost p: Vec)
      requires Shapes() && Rows() && q0[..] == p
      modifies c, sqrR
      ensures Rows() && c[0] == p && sqrR[0] == 0.0
    {
      sqrR[0] := 0.0;
      for i := 0 to d
        invariant Rows() && sqrR[0] == 0.0 && forall j :: 0 <= j < i ==> c[0][j] == p[j]
      {
        assert q0[i] == q0[..][i];
        c[0] := c[0][i := q0[i]];
      }
    }

    /** The last lines of push: level k is complete and becomes the current ball. */
    method Advance(ghost ls: seq<Level>)
      requires Shapes() && fsize <= d
      modifies `fsize, `ssize, `currentC, `currentSqrR, `ch
      ensures currentC == old(fsize) && currentSqrR == sqrR[old(fsize)] && fsize == ssize == old(fsize) + 1 && ch == ls
    {
      currentC := fsize;
      currentSqrR := sqrR[fsize];
      fsize := fsize + 1;
      ssize := fsize;
      ch := ls;
    }

    lemma TopRows(ls: seq<Level>)
      requires Shapes() && 0 < |ls| <= d + 1 && Spheres(ls)
      ensures c.Length == sqrR.Length == d + 1 && ls[..|ls|] == ls
      ensures v != c && z != sqrR && z != f
      ensures sqrR[|ls|-1] == ls[|ls|-1].r && c[|ls|-1] == ls[|ls|-1].c
    {
    }

    method Commit(ghost ls: seq<Level>)
      requires Shapes() && ListOk() && Rows() && fsize <= d && |ls| == fsize + 1 && Chain(ls, d)
      requires Spheres(ls) && Directions(ls) && Coefficients(ls) && q0[..] == ls[0].p
      modifies `fsize, `ssize, `currentC, `currentSqrR, `ch
      ensures Valid() && ch == ls && fsize == ssize == old(fsize) + 1
    {
      hide Shapes, Chain, ListOk, Rows, Spheres, Directions, Coefficients;
      TopRows(ls);
      Advance(ls);
    }

    /** The first forced point is its own ball. */
    method PushFirst(pit: nat)
      requires Valid() && pit < |points| && fsize == 0
      modifies `fsize, `ssize, `currentC, `currentSqrR, `ch, c, sqrR, q0
      ensures Valid() && fsize == ssize == 1
      ensures |ch| == 1 && ch[0].p == points[pit]
    {
      FirstLevelIsChain(points[pit]);
      ghost var l := NewLevel([], points[pit]);
      hide Chain, NewLevel, ListOk;
      SetOrigin(points[pit]);
      SetFirstCentre(points[pit]);
      Commit([l]);
    }

    /** Q_k becomes its part orthogonal to the lower levels, with z_k. */
    method SetPart(k: nat, p: Vec, ghost low: seq<Level>)
      requires Shapes() && Rows() && 1 <= k <= d && |p| == d && k == |low| && Chain(low, d) && Sized(low, d)
      requires Directions(low) && Coefficients(low) && q0[..] == low[0].p
      modifies v, a, z
      ensures Rows() && z[k] == 2.0 * Height(low, p, d) && Positive(low) && v[k] == Part(low, p)
      ensures a[k][1..k] == Coefs(low, Minus(p, low[0].p))[1..]
      ensures Directions(low) && Coefficients(low)
    {
      hide Chain, Dot, Residual, Coefs, Extends, Plus, Sized;
      ChainSized(low, d);
      ghost var q := Minus(p, low[0].p);
      ghost var w := Part(low, p);
      ghost var co := Coefs(low, q);
      SetDifference(k, p, low[0].p);
      SetCoefficients(k, q, low);
      Orthogonalise(k, q, low, co);
      assert v[k] == w;
      hide Part;
      SetZ(k, w);
    }

    /** The rest of an accepted push of p on top of the levels low. */
    method SetLevel(k: nat, p: Vec, ghost low: seq<Level>) returns (ghost l: Level)
      requires Shapes() && Rows() && 1 <= k <= d && |p| == d && k == |low| && Chain(low, d)
      requires Sized(low, d) && Positive(low) && Spheres(low) && Height(low, p, d) > 0.0
      requires v[k] == Part(low, p) && z[k] == 2.0 * Height(low, p, d)
      modifies c, sqrR, f
      ensures Rows() && Chain(low + [l], d) && l.p == p && l.v == v[k] && l.z == z[k]
      ensures l.a == Coefs(low, Minus(p, low[0].p))
      ensures Spheres(low + [l])
    {
      hide Shapes, Rows, Spheres, Chain, Part, Power, Height, Coefs, Extends, Sized, Positive;
      l := NextLevel(low, p, d);
      TopRows(low);
      SetSphere(k, p, low, l);
    }

    lemma GramAppend(low: seq<Level>, l: Level)
      requires Shapes() && 1 <= |low| <= d && Directions(low) && Coefficients(low)
      requires Rows() && v[|low|] == l.v && z[|low|] == l.z && |l.a| == |low|
      requires a[|low|][1..|low|] == l.a[1..]
      ensures Directions(low + [l]) && Coefficients(low + [l])
    {
    }

    /** A rejected push has spoilt the rows of its level only. */
    method Reject()
      requires Shapes() && ListOk() && Levels() && Rows() && Spheres(ch) && 1 <= fsize
      requires Directions(ch[..fsize]) && Coefficients(ch[..fsize]) && q0[..] == ch[0].p
      requires currentC == ssize - 1 && c[currentC] == Current().c && currentSqrR == Current().r
      modifies `rejected
      ensures Valid() && rejected
    {
      hide Chain, ListOk, Spheres, Directions, Coefficients;
      rejected := true;
    }

    /** The last accepted push put the point on top of the levels low. */
    ghost predicate IsPushed(low: seq<Level>, pit: nat)
      requires pit < |points|
      reads `ch, `fsize, `ssize
    {
      fsize == ssize == |ch| == |low| + 1 && ch[..|low|] == low && ch[|low|].p == points[pit]
    }

    /** A push on top of k >= 1 forced points. */
    method PushNext(pit: nat) returns (accepted: bool)
      requires Valid() && pit < |points| && 1 <= fsize <= d && Divisible(pit)
      modifies `fsize, `ssize, `currentC, `currentSqrR, `ch, `rejected, c, v, a, sqrR, z, f
      ensures Valid()
      ensures accepted == old(Accepts(pit))
      ensures accepted ==> IsPushed(old(ch[..fsize]), pit) && rejected == old(rejected)
      ensures !accepted ==> rejected && fsize == old(fsize) && ssize == old(ssize) && ch == old(ch)
    {
      hide Shapes, Rows, Spheres, Directions, Coefficients, Chain, Part, Height, ListOk, Coefs, Sized, Positive, Top;
      SplitStored(fsize, pit);
      var k, p := fsize, points[pit];
      ghost var low := ch[..k];
      var threshold := eps * currentSqrR;
      SetPart(k, p, low);
      if z[k] < threshold {
        Reject();
        return false;
      }
      ghost var l := SetLevel(k, p, low);
      GramAppend(low, l);
      Commit(low + [l]);
      return true;
    }

    /** Everything a push at level k reads and keeps. */
    lemma SplitStored(k: nat, pit: nat)
      requires Valid() && 1 <= k <= fsize && pit < |points|
      ensures Chain(ch[..k], d) && Sized(ch[..k], d) && Positive(ch[..k])
      ensures Spheres(ch[..k]) && Directions(ch[..k]) && Coefficients(ch[..k])
      ensures Rows() && q0[..] == ch[0].p && |points[pit]| == d && Apart()
      ensures c.Length == z.Length == v.Length == a.Length == d + 1
    {
      hide Chain, Sized, Positive, ListOk, Rows, Part, Top;
      ChainPrefix(ch, d, k);
      ChainSized(ch[..k], d);
    }

    method Push(pit: nat) returns (accepted: bool)
      requires Valid() && pit < |points| && fsize <= d && Divisible(pit)
      modifies `fsize, `ssize, `currentC, `currentSqrR, `ch, `rejected, c, v, a, sqrR, q0, z, f
      ensures Valid()
      ensures accepted == old(Accepts(pit))
      ensures accepted ==> IsPushed(old(ch[..fsize]), pit) && rejected == old(rejected)
      ensures !accepted ==> rejected && fsize == old(fsize) && ssize == old(ssize) && ch == old(ch)
    {
      hide Shapes, Stored, ListOk, Chain, Height;
      if fsize == 0 {
        PushFirst(pit);
        return true;
      } else {
        accepted := PushNext(pit);
      }
    }

    method Pop()
      requires Valid() && fsize > 0
      modifies `fsize
      ensures Valid() && fsize == old(fsize) - 1
    {
      hide Shapes, Rows, Spheres, Directions, Coefficients, Chain, ListOk, Top;
      PopStored();
      fsize := fsize - 1;
    }

    lemma PopStored()
      requires Valid() && fsize > 0
      ensures Directions(ch[..fsize-1]) && Coefficients(ch[..fsize-1])
    {
      hide Rows, Spheres, Chain, ListOk, Top;
      var low := ch[..fsize];
      assert forall k :: 0 <= k < fsize ==> low[k] == ch[k];
    }

    // ----- the list

    ghost predicate PitsOk(ls: seq<Node>) {
      forall i :: 0 <= i < |ls| ==> ls[i].pit < |points|
    }

    ghost function NodePoints(ls: seq<Node>): (r: seq<Vec>)
      requires PitsOk(ls)
      ensures |r| == |ls| && forall i :: 0 <= i < |ls| ==> r[i] == points[ls[i].pit]
    {
      seq(|ls|, i requires 0 <= i < |ls| => points[ls[i].pit])
    }

    lemma SamePoints(ls: seq<Node>, ms: seq<Node>)
      requires PitsOk(ms) && forall i :: 0 <= i < |ls| ==> ls[i] in ms
      ensures PitsOk(ls) && forall x :: x in NodePoints(ls) ==> x in NodePoints(ms)
    {
      assert PitsOk(ls) by {
        forall i | 0 <= i < |ls| ensures ls[i].pit < |points| {
          var j :| 0 <= j < |ms| && ms[j] == ls[i];
        }
      }
      forall x | x in NodePoints(ls) ensures x in NodePoints(ms) {
        var i :| 0 <= i < |ls| && NodePoints(ls)[i] == x;
        var j :| 0 <= j < |ms| && ms[j] == ls[i];
        assert NodePoints(ms)[j] == x;
      }
    }

    /** [L.begin(), support_end) has s nodes: the points pushed above the forced ones. */
    ghost predicate SupportAt(s: nat)
      reads `L, `supportEnd, `ch, `fsize
    {
      && s <= |L| && PitsOk(L)
      && supportEnd == ItAt(L, s)
      && fsize + s == |ch|
      && forall i :: 0 <= i < s ==> ch[fsize+i].p == points[L[i].pit]
    }

    method MtfMoveToFront(j: Iterator, ghost k: nat, ghost s: nat)
      requires ListOk() && s <= k < |L| && j == ItAt(L, k) && supportEnd == ItAt(L, s)
      modifies `L, `supportEnd
      ensures ListOk() && L == MoveToFront(old(L), k)
      ensures supportEnd == ItAt(L, s + 1)
    {
      ItAtInjective(L, s, k);
      DistanceItAt(L, s);
      DistanceItAt(L, k);
      MoveToFrontPermutes(L, k);
      if supportEnd == j {
        supportEnd := Next(L, supportEnd);
      }
      L := MoveToFront(L, Distance(L, j));
      assert supportEnd == ItAt(L, s + 1);
    }

    // ----- mtf_mb

    /** The numeric state of a run without rejected push: the points of L[..k] are treated. */
    ghost predicate Treated(k: nat)
      requires k <= |L| && PitsOk(L)
      reads `L, `ch, `fsize
    {
      Best(ch, fsize, NodePoints(L[..k]), d)
    }

    /** Some ball contains the points of L[..k] and has the forced points on its boundary. */
    ghost predicate Possible(o: Ball, k: nat)
      requires k <= |L| && PitsOk(L) && fsize <= |ch|
      reads `L, `ch, `fsize
    {
      Allowed(o, NodePoints(L[..k]), ch[..fsize], d)
    }

    lemma DivisibleHere(k: nat, o: Ball)
      requires Valid() && 0 < fsize && k < |L| && PitsOk(L)
      requires |Current().c| == d && Power(Current(), points[L[k].pit]) > 0.0
      requires eps > 0.0 || (Treated(k) && Possible(o, k + 1))
      ensures Divisible(L[k].pit)
      ensures eps > 0.0 || Accepts(L[k].pit)
    {
      hide Chain, Height, Stored, ListOk, Best, Allowed, Power;
      var p := points[L[k].pit];
      IndependentOrPositive(ch, fsize, p, d);
      if Height(ch[..fsize], p, d) <= 0.0 {
        if eps > 0.0 {
          CurrentRadius();
          ProductPositive(eps, currentSqrR, eps * currentSqrR);
        } else {
          var m := ForceNode(k, o);
        }
      }
    }

    lemma CurrentRadius()
      requires Valid() && 0 < |ch|
      ensures currentSqrR == Top(ch).r
    {}

    lemma ForceNode(k: nat, o: Ball) returns (m: Ball)
      requires k < |L| && PitsOk(L) && 0 < fsize <= |ch| && |points[L[k].pit]| == d
      requires Treated(k) && Possible(o, k + 1) && Power(Top(ch), points[L[k].pit]) > 0.0
      ensures AllOfSize(Points(ch[..fsize]) + [points[L[k].pit]], d) && AllOfSize(NodePoints(L[..k]), d)
      ensures Feasible(m, NodePoints(L[..k]), Points(ch[..fsize]) + [points[L[k].pit]], d)
      ensures Height(ch[..fsize], points[L[k].pit], d) > 0.0
    {
      hide Chain, Height, Power, Certified;
      var p, inner, more := points[L[k].pit], NodePoints(L[..k]), NodePoints(L[..k+1]);
      assert more == inner + [p];
      assert Power(o, more[k]) <= 0.0;
      AllowedForSame(o, more, inner, ch[..fsize], d);
      m := ForcePoint(ch, fsize, inner, p, o, d);
    }

    /** The points of the support are among those of L[..k]. */
    lemma SupportTreated(k: nat)
      requires fsize <= |ch| && SupportAt(|ch| - fsize) && |ch| - fsize <= k <= |L|
      ensures SupportIn(ch, fsize, NodePoints(L[..k]))
    {
      forall i | fsize <= i < |ch| ensures ch[i].p in NodePoints(L[..k]) {
        var t := i - fsize;
        assert ch[fsize+t].p == NodePoints(L[..k])[t];
      }
    }

    lemma SupportToFront(l: seq<Node>, k: nat, s: nat, n: nat)
      requires PitsOk(l) && s <= k < |l| && |ch| == n + 1 + s && ch[n].p == points[l[k].pit]
      requires forall i :: 0 <= i < s ==> ch[n+1+i].p == points[l[i].pit]
      ensures PitsOk(MoveToFront(l, k))
      ensures forall i :: 0 <= i < s + 1 ==> ch[n+i].p == points[MoveToFront(l, k)[i].pit]
    {
      var r := MoveToFront(l, k);
      forall i | 0 <= i < |r| ensures r[i].pit < |points| {
        assert r[i] == if i == 0 then l[k] else if i <= k then l[i-1] else l[i];
      }
      forall i | 0 <= i < s + 1 ensures ch[n+i].p == points[r[i].pit] {
        if i > 0 {
          var t := i - 1;
          assert ch[n+1+t].p == points[l[t].pit];
        }
      }
    }

    lemma PushedPossible(low: seq<Level>, n: nat, m: Ball, inner: seq<Vec>, p: Vec)
      requires Chain(ch, d) && |ch| == n + 1 && n <= |low| && ch[..n] == low[..n] && ch[n].p == p
      requires AllOfSize(inner, d) && AllOfSize(Points(low[..n]) + [p], d)
      requires Feasible(m, inner, Points(low[..n]) + [p], d)
      ensures Allowed(m, inner, ch[..n+1], d)
    {
      hide Chain, Power;
      ChainSized(ch, d);
      assert ch[..n+1] == ch;
      forall i | 0 <= i < |ch| ensures Points(ch)[i] == (Points(low[..n]) + [p])[i] {
        if i < n {
          assert ch[i] == ch[..n][i] == low[..n][i];
        }
      }
      assert Points(ch) == Points(low[..n]) + [p];
    }

    /** The node at position k lies outside the best ball for those before it. */
    ghost predicate Outside(l: seq<Node>, low: seq<Level>, n: nat, k: nat)
      requires k < |l| && PitsOk(l)
    {
      var inner, p := NodePoints(l[..k]), points[l[k].pit];
      && Best(low, n, inner, d) && SupportIn(low, n, inner)
      && |p| == d == |Top(low).c| && Power(Top(low), p) > 0.0
    }

    /** Releasing the point that mtf_mb was called with, on the state it left. */
    lemma Release(n: nat, low: seq<Level>, l0: seq<Node>, l1: seq<Node>, k: nat)
      requires PitsOk(l0) && PitsOk(l1) && n < |ch| && Permuted(l0, l1, k) && k < |l0|
      requires Outside(l0, low, n, k)
      requires Best(ch, n + 1, NodePoints(l1[..k]), d) && SupportIn(ch, n + 1, NodePoints(l1[..k]))
      requires ch[..n] == low[..n] && ch[n].p == points[l0[k].pit]
      ensures Best(ch, n, [ch[n].p] + NodePoints(l1[..k]), d)
    {
      hide Best, Power, Chain;
      var before, after := l0[..k], l1[..k];
      SamePrefixNodes(before, after);
      SamePrefixNodes(after, before);
      SamePoints(before, after);
      SamePoints(after, before);
      ReleasePoint(low, n, NodePoints(before), ch, NodePoints(after), d);
    }

    /** The body of the loop of mtf_mb for the point at position k. */
    method Treat(j: Iterator, ghost k: nat, ghost o: Ball)
      requires Valid() && 1 <= fsize <= d && k < |L| && j == ItAt(L, k)
      requires SupportAt(ssize - fsize) && ssize - fsize <= k
      requires eps > 0.0 || (!rejected && Treated(k) && Possible(o, k + 1))
      modifies `L, `supportEnd, `fsize, `ssize, `currentC, `currentSqrR, `ch, `rejected, c, v, a, sqrR, q0, z, f
      ensures Valid() && fsize == old(fsize) && ch[..fsize] == old(ch[..fsize])
      ensures Permuted(old(L), L, k + 1)
      ensures SupportAt(ssize - fsize) && ssize - fsize <= k + 1
      ensures (old(rejected) ==> rejected) && (eps > 0.0 || !rejected)
      ensures !rejected && old(Treated(k) && Possible(o, k + 1)) ==> Treated(k + 1)
      decreases k, 3
    {
      hide Shapes, Stored, Chain, Power, Best, Allowed, Height, Certified, Feasible, Top;
      SizesHere(k);
      var e := Excess(j.node.pit);
      if e > 0.0 {
        ForceIn(j, k, o);
      } else if Treated(k) {
        SkipNode(k);
      }
    }

    lemma SizesHere(k: nat)
      requires Valid() && 0 < |ch| && k < |L| && PitsOk(L)
      ensures |Current().c| == d && |points[L[k].pit]| == d && Current() == Top(ch) && Chain(ch, d)
    {
      ChainSized(ch, d);
      hide Chain, Spheres, ListOk;
    }

    lemma SkipNode(k: nat)
      requires k < |L| && PitsOk(L) && 0 < |ch| && |Top(ch).c| == |points[L[k].pit]| == d
      requires Treated(k) && Power(Top(ch), points[L[k].pit]) <= 0.0
      ensures Treated(k + 1)
    {
      hide Best, Power;
      var p := points[L[k].pit];
      SkipPoint(ch, fsize, NodePoints(L[..k]), p, d);
      assert NodePoints(L[..k+1]) == NodePoints(L[..k]) + [p];
    }

    /** B := B + p, mtf_mb, B := B - p, move to front. */
    method ForceIn(j: Iterator, ghost k: nat, ghost o: Ball)
      requires Valid() && 1 <= fsize <= d && k < |L| && j == ItAt(L, k)
      requires SupportAt(ssize - fsize) && ssize - fsize <= k
      requires |Current().c| == d && |points[L[k].pit]| == d && Power(Current(), points[L[k].pit]) > 0.0
      requires eps > 0.0 || (!rejected && Treated(k) && Possible(o, k + 1))
      modifies `L, `supportEnd, `fsize, `ssize, `currentC, `currentSqrR, `ch, `rejected, c, v, a, sqrR, q0, z, f
      ensures Valid() && fsize == old(fsize) && ch[..fsize] == old(ch[..fsize])
      ensures Permuted(old(L), L, k + 1)
      ensures SupportAt(ssize - fsize) && ssize - fsize <= k + 1
      ensures (old(rejected) ==> rejected) && (eps > 0.0 || !rejected)
      ensures !rejected && old(Treated(k) && Possible(o, k + 1)) ==> Treated(k + 1)
      decreases k, 2
    {
      hide Shapes, Stored, Chain, Power, Best, Allowed, Height, Certified, Feasible, Top, ListOk, Permuted, Accepts,
           Divisible;
      DivisibleHere(k, o);
      SizesHere(k);
      ghost var n, low, l0, p := fsize, ch, L, points[L[k].pit];
      ghost var numeric := Treated(k) && Possible(o, k + 1);
      ghost var m := o;
      SupportTreated(k);
      if numeric {
        m := ForceNode(k, o);
        assert Outside(l0, low, n, k);
      }
      PermutedNot(L, k + 1);
      var pushed := Push(j.node.pit);
      if pushed {
        if numeric {
          PushedPossible(low, n, m, NodePoints(l0[..k]), p);
        }
        Recurse(j, k, low, m, numeric);
      }
    }

    /** After an accepted push of p on the n forced levels of low. */
    method Recurse(j: Iterator, ghost k: nat, ghost low: seq<Level>, ghost m: Ball, ghost numeric: bool)
      requires Valid() && PitsOk(L) && k < |L| && j == ItAt(L, k)
      requires 1 < fsize == ssize == |ch| <= d + 1 && fsize <= |low| + 1 && ch[..fsize-1] == low[..fsize-1]
      requires ch[fsize-1].p == points[L[k].pit]
      requires eps > 0.0 || (!rejected && numeric)
      requires numeric ==> Possible(m, k) && Outside(L, low, fsize - 1, k)
      modifies `L, `supportEnd, `fsize, `ssize, `currentC, `currentSqrR, `ch, `rejected, c, v, a, sqrR, q0, z, f
      ensures Valid() && fsize == old(fsize) - 1 && ch[..fsize] == low[..fsize]
      ensures Permuted(old(L), L, k + 1)
      ensures SupportAt(ssize - fsize) && ssize - fsize <= k + 1
      ensures (old(rejected) ==> rejected) && (eps > 0.0 || !rejected)
      ensures !rejected && numeric ==> Treated(k + 1)
      decreases k, 1
    {
      hide Shapes, Stored, Chain, Power, Best, Allowed, Certified, Top, ListOk, Permuted, Outside;
      ghost var n, l0 := fsize - 1, L;
      MtfMb(j, k, m);
      SameIterators(l0, L, k, k);
      KeptForced(old(ch), low, n);
      SupportTreated(k);
      if numeric && !rejected {
        Release(n, low, l0, L, k);
      }
      Restore(j, k, n, l0);
    }

    lemma KeptForced(before: seq<Level>, low: seq<Level>, n: nat)
      requires n < |before| == n + 1 <= |ch| && n <= |low| && before[..n] == low[..n] && ch[..n+1] == before
      ensures ch[..n] == low[..n] && ch[n] == before[n]
    {
      assert ch[..n+1][..n] == ch[..n];
      assert ch[n] == ch[..n+1][n];
    }

    /** B := B - p, and p moves to the front of the support. */
    method Restore(j: Iterator, ghost k: nat, ghost n: nat, ghost l0: seq<Node>)
      requires Valid() && fsize == n + 1 && k < |L| && Permuted(l0, L, k) && j == ItAt(l0, k)
      requires SupportAt(ssize - fsize) && ssize - fsize <= k && ch[n].p == points[L[k].pit]
      modifies `L, `supportEnd, `fsize
      ensures Valid() && fsize == n && Permuted(l0, L, k + 1)
      ensures SupportAt(ssize - fsize) && ssize - fsize <= k + 1
      ensures NodePoints(L[..k+1]) == [ch[n].p] + NodePoints(old(L[..k]))
    {
      hide Shapes, Stored, Chain, Permuted, ListOk;
      Opening();
      PermutedToFront(l0, L, k);
      SupportToFront(L, k, ssize - fsize, n);
      Pop();
      MtfMoveToFront(j, k, ssize - n - 1);
      assert L[..k+1] == [old(L)[k]] + old(L)[..k];
    }

    /** Algorithm 1: mtf_mb(L_{n-1}, B). */
    method MtfMb(n: Iterator, ghost nPos: nat, ghost o: Ball)
      requires Valid() && 1 <= fsize == ssize <= d + 1 && nPos <= |L| && n == ItAt(L, nPos) && PitsOk(L)
      requires eps > 0.0 || (!rejected && Possible(o, nPos))
      modifies `L, `supportEnd, `fsize, `ssize, `currentC, `currentSqrR, `ch, `rejected, c, v, a, sqrR, q0, z, f
      ensures Valid() && fsize == old(fsize) && ch[..fsize] == old(ch)
      ensures Permuted(old(L), L, nPos)
      ensures SupportAt(ssize - fsize) && ssize - fsize <= nPos
      ensures (old(rejected) ==> rejected) && (eps > 0.0 || !rejected)
      ensures !rejected && old(Possible(o, nPos)) ==> Treated(nPos)
      decreases nPos, 0, nPos + 1
    {
      hide Shapes, Stored, Chain, Power, Best, Allowed, Height, Certified, Feasible, Top, Permuted, ListOk;
      ghost var l0, base, possible := L, ch, Possible(o, nPos);
      assert ch[..fsize] == ch;
      assert possible ==> Allowed(o, NodePoints(l0[..nPos]), base, d);
      NoSupport();
      StartTreated(nPos, o);
      PermutedNot(L, 0);
      PermutedNot(L, nPos);
      if fsize == d + 1 {
        return;
      }
      var i := ItAt(L, 0);
      ghost var k := 0;
      while i != n
        invariant k <= nPos && Permuted(l0, L, k) && nPos <= |L| && i == ItAt(L, k) && n == ItAt(L, nPos)
        invariant Valid() && fsize == old(fsize) <= |ch| && ch[..fsize] == base
        invariant SupportAt(ssize - fsize) && ssize - fsize <= k
        invariant (old(rejected) ==> rejected) && (eps > 0.0 || !rejected)
        invariant !rejected && possible ==> Treated(k)
        decreases nPos - k
      {
        i := Iterate(i, k, nPos, l0, o, possible);
        k := k + 1;
      }
      AtEnd(k, nPos);
    }

    /** One turn of the loop: j = i++, then the body for j. */
    method Iterate(i: Iterator, ghost k: nat, ghost nPos: nat, ghost l0: seq<Node>, ghost o: Ball, ghost possible: bool)
      returns (next: Iterator)
      requires Valid() && 1 <= fsize <= d && k <= nPos <= |L| && i == ItAt(L, k) != ItAt(L, nPos)
      requires nPos <= |l0| && Permuted(l0, L, k) && PitsOk(l0) && SupportAt(ssize - fsize) && ssize - fsize <= k
      requires possible ==> Allowed(o, NodePoints(l0[..nPos]), ch[..fsize], d)
      requires eps > 0.0 || (!rejected && possible)
      requires !rejected && possible ==> Treated(k)
      modifies `L, `supportEnd, `fsize, `ssize, `currentC, `currentSqrR, `ch, `rejected, c, v, a, sqrR, q0, z, f
      ensures Valid() && fsize == old(fsize) <= |ch| && ch[..fsize] == old(ch[..fsize])
      ensures k < nPos <= |L| && Permuted(l0, L, k + 1) && next == ItAt(L, k + 1) && ItAt(L, nPos) == ItAt(old(L), nPos)
      ensures SupportAt(ssize - fsize) && ssize - fsize <= k + 1
      ensures (old(rejected) ==> rejected) && (eps > 0.0 || !rejected)
      ensures !rejected && possible ==> Treated(k + 1)
      decreases nPos, 0, nPos - k, 0
    {
      hide *;
      Opening();
      AdvanceIterator(l0, k, nPos);
      StillPossible(l0, nPos, k, o);
      ghost var l1 := L;
      var j := i;
      next := Next(L, i);
      Treat(j, k, o);
      Opening();
      PermutedAgain(l0, l1, L, k + 1);
      SameIterators(l1, L, k + 1, nPos);
    }

    lemma Opening()
      requires Valid()
      ensures ListOk() && Distinct(L) && fsize <= ssize == |ch| <= d + 1
    {}

    method NoSupport()
      requires Valid() && fsize == |ch|
      modifies `supportEnd
      ensures Valid() && SupportAt(0)
    {
      hide Shapes, Stored, Chain;
      supportEnd := ItAt(L, 0);
    }

    lemma AtEnd(k: nat, nPos: nat)
      requires ListOk() && k <= nPos <= |L| && ItAt(L, k) == ItAt(L, nPos)
      ensures k == nPos
    {
      ItAtInjective(L, k, nPos);
    }

    /** Before the loop, and after the early return with d+1 forced points. */
    lemma StartTreated(nPos: nat, o: Ball)
      requires Chain(ch, d) && 1 <= fsize == |ch| <= d + 1 && nPos <= |L| && PitsOk(L)
      ensures Treated(0)
      ensures fsize == d + 1 && Possible(o, nPos) ==> Treated(nPos)
    {
      hide Chain, Allowed;
      assert NodePoints(L[..0]) == [];
      assert ch[..fsize] == ch;
      StartBest(ch, d);
      if fsize == d + 1 && Possible(o, nPos) {
        FullBest(ch, d, o, NodePoints(L[..nPos]));
      }
    }

    lemma AdvanceIterator(l0: seq<Node>, k: nat, nPos: nat)
      requires ListOk() && k <= nPos <= |L| && Permuted(l0, L, k) && ItAt(L, k) != ItAt(L, nPos)
      ensures k < nPos && Permuted(l0, L, k + 1) && PitsOk(L)
      ensures Next(L, ItAt(L, k)) == ItAt(L, k + 1) && Distance(L, ItAt(L, k)) < |L|
    {
      DistanceItAt(L, k);
      PermutedLater(l0, L, k);
    }

    static lemma SameIterators(l: seq<Node>, m: seq<Node>, k: nat, n: nat)
      requires Permuted(l, m, k) && k <= n <= |l|
      ensures |m| == |l| && ItAt(l, k) == ItAt(m, k) && ItAt(l, n) == ItAt(m, n) && (k < |l| ==> m[k] == l[k])
    {
      assert n < |l| ==> l[n] == l[k..][n-k] == m[k..][n-k] == m[n];
      assert k < |l| ==> l[k] == l[k..][0] == m[k..][0] == m[k];
    }

    static lemma PermutedNot(l: seq<Node>, k: nat)
      requires k <= |l|
      ensures Permuted(l, l, k)
    {}

    /** The next point of the list is one of those that o was allowed for. */
    lemma StillPossible(l: seq<Node>, nPos: nat, k: nat, o: Ball)
      requires k <= nPos <= |l| && PitsOk(l) && PitsOk(L) && fsize <= |ch| && Permuted(l, L, k)
      ensures k < nPos && Allowed(o, NodePoints(l[..nPos]), ch[..fsize], d) ==> Possible(o, k + 1)
    {
      if k == nPos {
        return;
      }
      SamePrefixNodes(L[..k], l[..k]);
      var now := L[..k+1];
      forall i | 0 <= i < |now| ensures now[i] in l[..nPos] {
        if i < k {
          assert now[i] == L[..k][i] && L[..k][i] in l[..k];
          assert l[..nPos][..k] == l[..k];
        } else {
          assert now[i] == L[k..][0] == l[k..][0] == l[..nPos][k];
        }
      }
      SamePoints(now, l[..nPos]);
      if Allowed(o, NodePoints(l[..nPos]), ch[..fsize], d) {
        AllowedForSame(o, NodePoints(l[..nPos]), NodePoints(L[..k+1]), ch[..fsize], d);
      }
    }

    // ----- pivot_mb

    /** No point is forced, and [L.begin(), support_end) are the support points. */
    ghost predicate Between()
      reads `L, `nextId, `supportEnd, `ch, `fsize, `ssize, `rejected, `currentC, `currentSqrR
      reads c, v, a, sqrR, q0, z, f
    {
      Valid() && fsize == 0 && SupportAt(ssize) && |points| > 0
    }

    /** In a run without rejected push, the current ball is certified by its support. */
    ghost predicate Sound()
      reads `L, `ch, `ssize, `rejected
    {
      !rejected ==>
        ssize == 0 || (ssize <= |L| && PitsOk(L) && Best(ch, 0, NodePoints(L[..ssize]), d))
    }

    /** No input point has a positive excess beyond the tolerance. */
    ghost predicate Settled()
      reads `ch
    {
      && |Current().c| == d && AllOfSize(points, d)
      && Current().r >= 0.0
      && forall i :: 0 <= i < |points| ==> Power(Current(), points[i]) <= tol * Current().r
    }

    /** The farthest point outside the current ball. */
    method FindPivot() returns (pivot: nat, maxE: real)
      requires Between()
      ensures pivot < |points| && maxE >= 0.0 && |Current().c| == d && AllOfSize(points, d)
      ensures forall i :: 0 <= i < |points| ==> Power(Current(), points[i]) <= maxE
      ensures maxE > 0.0 ==> Power(Current(), points[pivot]) == maxE
    {
      CurrentSize();
      pivot, maxE := 0, 0.0;
      hide *;
      for k := 0 to |points|
        invariant pivot < |points| && maxE >= 0.0
        invariant forall i :: 0 <= i < k ==> Power(Current(), points[i]) <= maxE
        invariant maxE > 0.0 ==> Power(Current(), points[pivot]) == maxE
      {
        var e := Excess(k);
        if e > maxE {
          maxE, pivot := e, k;
        }
      }
    }

    lemma CurrentSize()
      requires Between()
      ensures Valid() && |Current().c| == d && AllOfSize(points, d) && |points| > 0
      ensures currentSqrR == Current().r && (ssize > 0 ==> Current() == Top(ch) && Chain(ch, d))
      ensures ssize == |ch| <= d + 1 && (ssize == 0 ==> Current() == Ball(Zero(d), -1.0))
      ensures tol >= 0.0 && ListOk() && SupportAt(ssize) && PitsOk(L) && ssize <= |L|
    {
      ChainSized(ch, d);
      hide Chain, Spheres;
    }

    method PivotMoveToFront(pit: nat, ghost s: nat)
      requires ListOk() && pit < |points| && s <= |L| && supportEnd == ItAt(L, s) && s <= d
      modifies `L, `nextId, `supportEnd
      ensures ListOk() && |L| == |old(L)| + 1 && L[0].pit == pit && L[1..] == old(L)
      ensures supportEnd == ItAt(L, s + 1)
    {
      L := [Node(nextId, pit)] + L;
      nextId := nextId + 1;
      assert forall i :: 1 <= i < |L| ==> L[i] == old(L)[i-1];
      assert Distinct(L);
      DistanceItAt(L, s + 1);
      if Distance(L, supportEnd) == d + 2 {
        // the support never has d+2 points, so there is nothing to trim
        assert false;
      }
    }

    /** The ball around the same centre that just reaches p. */
    ghost function Reaching(b: Ball, p: Vec): Ball
      requires |b.c| == |p|
    {
      Ball(b.c, SqrDist(p, b.c))
    }

    lemma ReachingIsAllowed(b: Ball, p: Vec, inner: seq<Vec>, low: seq<Level>)
      requires |b.c| == |p| == d && AllOfSize(inner, d) && Contains(b, inner) && Power(b, p) > 0.0
      requires Sized(low, d) && |low| == 1 && low[0].p == p
      ensures Allowed(Reaching(b, p), inner, low, d)
    {
      hide SqrDist;
      assert Points(low) == [p];
    }

    lemma FirstSupport(ls: seq<Level>)
      requires Best(ls, 1, [], d) && |ls| == 1
      ensures Best(ls, 0, [ls[0].p], d)
    {
      hide Chain, Power;
      ChainSized(ls, d);
      var l :| Affine(l, Points(ls), Top(ls).c) && PositiveFrom(l, 1);
      assert l[0] == Sum(l, 1) == 1.0;
      assert PositiveFrom(l, 0);
      assert Points(ls)[0] == ls[0].p;
    }

    /** The new ball, with the pivot released, is certified and strictly larger. */
    lemma PivotReleased(old_: seq<Level>, l0: seq<Node>, l1: seq<Node>, s: nat, p: Vec)
      requires PitsOk(l0) && PitsOk(l1) && Permuted(l0, l1, s) && |p| == d && s == |old_|
      requires 0 < |ch| <= s + 1 && ch[0].p == p && Best(ch, 1, NodePoints(l1[..s]), d)
      requires SupportIn(ch, 1, NodePoints(l1[..s]))
      requires s == 0 || (Best(old_, 0, NodePoints(l0[..s]), d) && SupportIn(old_, 0, NodePoints(l0[..s])))
      requires s > 0 ==> |Top(old_).c| == d && Power(Top(old_), p) > 0.0
      ensures Best(ch, 0, [p] + NodePoints(l1[..s]), d)
      ensures Top(ch).r > if s == 0 then -1.0 else Top(old_).r
    {
      hide Chain, Power, Best, Top;
      var before, after := l0[..s], l1[..s];
      if s == 0 {
        assert NodePoints(after) == [];
        FirstSupport(ch);
        assert [p] + NodePoints(after) == [ch[0].p];
        ChainOfBest(ch, 0, [p]);
        PositiveRadius(ch, d);
      } else {
        SamePrefixNodes(before, after);
        SamePrefixNodes(after, before);
        SamePoints(before, after);
        SamePoints(after, before);
        assert ch[..0] == old_[..0];
        ReleasePoint(old_, 0, NodePoints(before), ch, NodePoints(after), d);
        GrowsStrictly(old_, NodePoints(before), [p] + NodePoints(after), p);
      }
    }

    lemma ChainOfBest(ls: seq<Level>, n: nat, inner: seq<Vec>)
      requires Best(ls, n, inner, d)
      ensures Chain(ls, d) && 0 < |ls|
    {}

    lemma GrowsStrictly(old_: seq<Level>, before: seq<Vec>, after: seq<Vec>, p: Vec)
      requires Best(old_, 0, before, d) && SupportIn(old_, 0, before) && Best(ch, 0, after, d)
      requires |p| == d == |Top(old_).c| && Power(Top(old_), p) > 0.0 && p in after
      requires forall x :: x in before ==> x in after
      ensures Top(ch).r > Top(old_).r
    {
      hide Chain, Power, Certified;
      ChainSized(old_, d);
      ChainSized(ch, d);
      forall i | 0 <= i < |old_| ensures Power(Top(ch), Points(old_)[i]) <= 0.0 {
        assert Points(old_)[i] in after;
      }
      LargerBall(Top(old_), Points(old_), Top(ch), p);
    }

    lemma CurrentContains(s: nat)
      requires s == ssize == |ch| && s <= |L| && PitsOk(L) && Sound() && |Current().c| == d && AllOfSize(points, d)
      ensures !rejected ==> Contains(Current(), NodePoints(L[..s]))
    {
      hide Chain, Power, Certified;
    }

    lemma ReachingForced(b: Ball, p: Vec, s: nat)
      requires |b.c| == |p| == d && Power(b, p) > 0.0 && AllOfSize(points, d)
      requires s <= |L| && PitsOk(L) && fsize == |ch| == 1 && Chain(ch, d) && ch[0].p == p
      ensures Contains(b, NodePoints(L[..s])) ==> Possible(Reaching(b, p), s)
    {
      hide Chain, Power;
      ChainSized(ch, d);
      if Contains(b, NodePoints(L[..s])) {
        ReachingIsAllowed(b, p, NodePoints(L[..s]), ch);
      }
    }

    /** Putting the pivot in front of the list completes the support. */
    lemma PivotSupport(l1: seq<Node>, s: nat, p: Vec)
      requires fsize == 0 && 0 < ssize == |ch| && ssize <= s + 1 && s <= |l1| && PitsOk(l1) && PitsOk(L)
      requires |L| == |l1| + 1 && L[1..] == l1 && points[L[0].pit] == p == ch[0].p
      requires supportEnd == ItAt(L, ssize)
      requires forall i :: 0 <= i < ssize - 1 ==> ch[1+i].p == points[l1[i].pit]
      ensures SupportAt(ssize)
      ensures Best(ch, 0, [p] + NodePoints(l1[..s]), d) ==> Best(ch, 0, NodePoints(L[..ssize]), d)
    {
      hide Best;
      assert forall i :: 1 <= i < |L| ==> L[i] == l1[i-1];
      forall i | 0 <= i < ssize ensures ch[0+i].p == points[L[i].pit] {
        if i > 0 {
          var t := i - 1;
          assert ch[1+t].p == points[l1[t].pit];
        }
      }
      if Best(ch, 0, [p] + NodePoints(l1[..s]), d) {
        var small, large := NodePoints(L[..ssize]), [p] + NodePoints(l1[..s]);
        forall x | x in small ensures x in large {
          var i :| 0 <= i < |small| && small[i] == x;
          assert x == large[i];
        }
        BestOfSame(ch, 0, large, small, d);
      }
    }

    /** The ball is the smallest around p and the points of ls. */
    ghost predicate BestWith(p: Vec, ls: seq<Node>)
      reads `ch
    {
      PitsOk(ls) && Best(ch, 0, [p] + NodePoints(ls), d)
    }

    ghost predicate BestOf(ls: seq<Node>)
      reads `ch
    {
      PitsOk(ls) && Best(ch, 0, NodePoints(ls), d)
    }

    /** B := {}, and the pivot becomes the first support point. */
    method Install(pivot: nat, ghost s: nat)
      requires Valid() && fsize == 1 && SupportAt(ssize - 1) && ssize - 1 <= s <= |L|
      requires pivot < |points| && ch[0].p == points[pivot]
      modifies `L, `nextId, `supportEnd, `fsize
      ensures Between()
      ensures BestWith(ch[0].p, old(L[..s])) ==> BestOf(L[..ssize])
    {
      hide Shapes, Stored, Chain, Best, ListOk;
      ghost var l1 := L;
      Opening();
      Pop();
      Opening();
      PivotMoveToFront(pivot, ssize - 1);
      Opening();
      PivotSupport(l1, s, points[pivot]);
    }

    /** Processing a pivot outside the current ball. */
    method TreatPivot(pivot: nat)
      requires Between() && pivot < |points| && Sound()
      requires |Current().c| == |points[pivot]| == d && Power(Current(), points[pivot]) > 0.0
      requires eps > 0.0 || !rejected
      modifies `L, `nextId, `supportEnd, `fsize, `ssize, `currentC, `currentSqrR, `ch, `rejected, c, v, a, sqrR, q0,
               z, f
      ensures Between() && Sound() && 0 < ssize
      ensures (old(rejected) ==> rejected) && (eps > 0.0 || !rejected)
      ensures !rejected ==> Current().r > old(Current()).r
    {
      hide Shapes, Stored, Chain, Power, Best, Allowed, Height, Certified, Feasible, Top, ListOk, Permuted, Contains,
           Reaching, Possible, SupportIn, NodePoints;
      CurrentSize();
      ghost var s, before, l0, b, p := ssize, ch, L, Current(), points[pivot];
      SupportTreated(s);
      CurrentContains(s);
      PermutedNot(L, s);
      var pushed := Push(pivot);
      if pushed {
        ReachingForced(b, p, s);
        MtfMb(supportEnd, s, Reaching(b, p));
        assert ch[0] == ch[..1][0];
        SameIterators(l0, L, s, s);
        SupportTreated(s);
        if !rejected {
          PivotReleased(before, l0, L, s, p);
        }
        Install(pivot, s);
      }
    }

    /** A point outside the current ball is not among its support points. */
    lemma PivotIsNew(pivot: nat)
      requires Between() && pivot < |points| && |Current().c| == |points[pivot]| == d
      requires Power(Current(), points[pivot]) > 0.0
      ensures ssize <= |L| && pivot !in Pits(L[..ssize])
    {
      CurrentSize();
      if ssize > 0 {
        OnSphere(ch, d);
        hide Chain, Power, Shapes, Stored, ListOk;
        forall i | 0 <= i < ssize ensures Pits(L[..ssize])[i] != pivot {
          assert ch[0+i].p == points[L[i].pit];
          assert Power(Top(ch), Points(ch)[i]) == 0.0;
        }
      }
    }

    /** One round of pivot_mb. */
    method PivotRound()
      requires Between() && Sound() && (eps > 0.0 || !rejected)
      modifies `L, `nextId, `supportEnd, `fsize, `ssize, `currentC, `currentSqrR, `ch, `rejected, c, v, a, sqrR, q0,
               z, f
      ensures Between() && Sound()
      ensures (old(rejected) ==> rejected) && (eps > 0.0 || !rejected)
      ensures if old(currentSqrR) < currentSqrR then ssize > 0 else !rejected ==>
        Settled() && ch == old(ch) && currentSqrR == old(currentSqrR)
    {
      hide Shapes, Stored, Power, ListOk, Chain, Best;
      CurrentSize();
      var pivot, maxE := FindPivot();
      if currentSqrR < 0.0 || maxE > currentSqrR * tol {
        OutsideExists(pivot, maxE);
        PivotIsNew(pivot);
        DistanceItAt(L, ssize);
        if pivot !in Pits(L[..Distance(L, supportEnd)]) {
          TreatPivot(pivot);
          CurrentSize();
        }
      }
    }

    lemma OutsideExists(pivot: nat, maxE: real)
      requires Between() && pivot < |points|
      requires |Current().c| == d && AllOfSize(points, d) && maxE >= 0.0
      requires forall i :: 0 <= i < |points| ==> Power(Current(), points[i]) <= maxE
      requires maxE > 0.0 ==> Power(Current(), points[pivot]) == maxE
      requires currentSqrR < 0.0 || maxE > currentSqrR * tol
      ensures Power(Current(), points[pivot]) > 0.0 && Distinct(L)
    {
      hide *;
      CurrentSize();
      DistinctL();
      if currentSqrR < 0.0 {
        FirstPoint();
        SqrDistNonneg(points[0], Current().c);
        PowerDistance(Current(), points[0]);
        if ssize > 0 {
          PositiveRadius(ch, d);
        }
      } else {
        ProductNonneg(currentSqrR, tol);
      }
    }

    lemma FirstPoint()
      requires AllOfSize(points, d) && |points| > 0
      ensures |points[0]| == d
    {}

    lemma DistinctL()
      requires ListOk()
      ensures Distinct(L)
    {}

    static lemma PowerDistance(b: Ball, p: Vec)
      requires |b.c| == |p|
      ensures Power(b, p) == SqrDist(p, b.c) - b.r
    {}

    // ----- termination: the radius climbs through the smallest balls of subsets

    ghost predicate EnclosesPits(b: Ball, u: set<nat>) {
      && |b.c| == d && AllOfSize(points, d)
      && forall i :: i in u && i < |points| ==> Power(b, points[i]) <= 0.0
    }

    ghost predicate SmallestOf(b: Ball, u: set<nat>) {
      && EnclosesPits(b, u)
      && forall o: Ball :: EnclosesPits(o, u) ==> o.r >= b.r
    }

    ghost predicate Exceeds(u: set<nat>, r: real) {
      exists b: Ball :: SmallestOf(b, u) && b.r > r
    }

    static ghost function Below(n: nat): (r: set<nat>)
      ensures forall i: nat :: i in r <==> i < n
    {
      if n == 0 then {} else Below(n - 1) + {n - 1}
    }

    ghost function AllPits(): set<nat> {
      Below(|points|)
    }

    /** The subsets of the input whose smallest enclosing ball is larger than r. */
    ghost function Larger(r: real): set<set<nat>> {
      set u: set<nat> | u <= AllPits() && Exceeds(u, r)
    }

    lemma ClimbsTo(r: real, b: Ball, u: set<nat>)
      requires u <= AllPits() && SmallestOf(b, u) && b.r > r
      ensures Larger(b.r) < Larger(r)
    {
      hide EnclosesPits;
      assert u in Larger(r);
      forall w | w in Larger(b.r) ensures w in Larger(r) {
        var o :| SmallestOf(o, w) && o.r > b.r;
        assert SmallestOf(o, w) && o.r > r;
      }
      assert u !in Larger(b.r);
    }

    ghost function SupportPits(): set<nat>
      requires ssize <= |L|
      reads `L, `ssize
    {
      set i | 0 <= i < ssize :: L[i].pit
    }

    lemma CurrentIsSmallestOfSupport()
      requires ssize <= |L| && PitsOk(L) && SupportAt(ssize) && fsize == 0 && AllOfSize(points, d) && |ch| == ssize
      requires Best(ch, 0, NodePoints(L[..ssize]), d)
      ensures SmallestOf(Top(ch), SupportPits()) && SupportPits() <= AllPits()
    {
      hide Chain, Power, Certified;
      ChainSized(ch, d);
      var inner := NodePoints(L[..ssize]);
      SupportTreated(ssize);
      BestIsSmallest(ch, 0, inner, d);
      forall i | i in SupportPits() ensures Power(Top(ch), points[i]) <= 0.0 {
        var j :| 0 <= j < ssize && L[j].pit == i;
        assert Power(Top(ch), inner[j]) <= 0.0;
      }
      forall o: Ball | EnclosesPits(o, SupportPits()) ensures o.r >= Top(ch).r {
        forall j | 0 <= j < |inner| ensures Power(o, inner[j]) <= 0.0 {
          assert L[j].pit in SupportPits();
        }
        assert Feasible(o, inner, Points(ch)[..0], d);
        SqrDistNonneg(Top(ch).c, o.c);
      }
    }

    lemma Climbs(r: real)
      requires Between() && Sound() && !rejected && 0 < ssize && currentSqrR > r
      ensures Larger(currentSqrR) < Larger(r)
    {
      CurrentSize();
      hide Shapes, Stored, ListOk, Chain, SmallestOf, Best;
      CurrentIsSmallestOfSupport();
      ClimbsTo(r, Top(ch), SupportPits());
    }

    /** Algorithm 2: pivot_mb over all points. A run without rejected push ends; after a
        rejected push the model gives up when `patience` more rounds have not ended it. */
    method PivotMb(patience: nat) returns (finished: bool)
      requires Between() && Sound() && !rejected
      modifies `L, `nextId, `supportEnd, `fsize, `ssize, `currentC, `currentSqrR, `ch, `rejected, c, v, a, sqrR, q0,
               z, f
      ensures Between() && Sound() && (eps > 0.0 || !rejected)
      ensures !rejected ==> finished && Settled() && 0 < ssize
    {
      hide Shapes, Stored, Power, ListOk, Chain, Best, Settled, SupportAt, Larger, Between, Sound;
      var loopsWithoutProgress, left := 0, patience;
      while loopsWithoutProgress < 2 && (!rejected || left > 0)
        invariant Between() && Sound() && (eps > 0.0 || !rejected)
        invariant !rejected && loopsWithoutProgress > 0 ==> Settled()
        invariant 0 <= loopsWithoutProgress <= 2
        decreases !rejected, if rejected then left else 0, Larger(currentSqrR), 2 - loopsWithoutProgress
      {
        if rejected {
          left := left - 1;
        }
        var oldSqrR := currentSqrR;
        ghost var wasRejected := rejected;
        PivotRound();
        if oldSqrR < currentSqrR {
          loopsWithoutProgress := 0;
          if !rejected {
            Climbs(oldSqrR);
          }
        } else {
          loopsWithoutProgress := loopsWithoutProgress + 1;
        }
      }
      finished := loopsWithoutProgress >= 2;
      SettledHasSupport();
    }

    lemma SettledHasSupport()
      requires Between()
      ensures Settled() ==> 0 < ssize
    {
      CurrentSize();
    }

    // ----- the certificate

    /** l[i] by back-substitution, from the weights of the levels above. */
    method WeightOf(i: nat, l: array<real>) returns (w: real)
      requires Valid() && 1 <= i < ssize && l.Length == d + 1
      requires !rejected ==> forall k :: i < k < ssize ==> l[k] == Back(ch, d, k + 1)[k]
      ensures !rejected ==> w == Back(ch, d, i + 1)[i]
    {
      hide *;
      Opening();
      CoefficientsStored();
      BackStart(ch, d, i);
      w := f[i];
      var k := ssize - 1;
      while k > i
        invariant i <= k < ssize
        invariant !rejected ==> w == Back(ch, d, k + 1)[i]
      {
        BackStep(ch, d, k, i);
        w := w - a[k][i] * l[k];
        k := k - 1;
      }
    }

    lemma CoefficientsStored()
      requires Valid()
      ensures a.Length == f.Length == d + 1 && ssize <= d + 1
      ensures forall k :: 1 <= k < ssize ==> |a[k]| == d && f[k] == ch[k].f
      ensures forall k, i :: !rejected && 1 <= i < k < ssize ==> |ch[k].a| == k && a[k][i] == ch[k].a[i]
      ensures Sized(ch, d)
    {
      ChainSized(ch, d);
      hide Chain, ListOk, Directions, Sized, Apart, Current;
      forall k, i | !rejected && 1 <= i < k < ssize ensures |ch[k].a| == k && a[k][i] == ch[k].a[i] {
        assert a[k][1..k][i-1] == ch[k].a[1..][i-1];
      }
    }

    /** r is the absolute value of the most negative weight, or 0. */
    ghost predicate MostNegative(r: real)
      reads `ch
    {
      && |ch| > 0 && Sized(ch, d) && r >= 0.0
      && (forall i :: 0 <= i < |ch| ==> Weights(ch, d)[i] >= -r)
      && (r > 0.0 ==> exists i :: 0 <= i < |ch| && Weights(ch, d)[i] == -r)
    }

    /** minL is the smallest of 0 and the weights from i on. */
    ghost predicate SmallestFrom(i: nat, minL: real)
      reads `ch
    {
      && |ch| > 0 && Sized(ch, d) && minL <= 0.0
      && (forall k :: i <= k < |ch| ==> Weights(ch, d)[k] >= minL)
      && (minL < 0.0 ==> exists k :: i <= k < |ch| && Weights(ch, d)[k] == minL)
    }

    lemma SmallestStep(i: nat, minL: real, w: real)
      requires SmallestFrom(i + 1, minL) && i < |ch| && w == Weights(ch, d)[i]
      ensures SmallestFrom(i, if w < minL then w else minL)
    {}

    lemma SmallestIsMostNegative(minL: real)
      requires SmallestFrom(0, minL)
      ensures MostNegative(if minL < 0.0 then -minL else 0.0)
    {}

    method Suboptimality() returns (r: real)
      requires Valid() && 0 < ssize
      ensures r >= 0.0
      ensures !rejected ==> MostNegative(r)
    {
      hide *;
      Opening();
      CoefficientsStored();
      RestStep(ch, d, ssize);
      assert SmallestFrom(ssize, 0.0) by { NothingSmallest(); }
      var l := new real[d + 1];
      var minL := 0.0;
      l[0] := 1.0;
      var i := ssize - 1;
      while i > 0
        invariant 0 <= i < ssize && minL <= 0.0 && Valid()
        invariant !rejected ==> l[0] == Rest(ch, d, i + 1)
        invariant !rejected ==> forall k :: i < k < ssize ==> l[k] == Back(ch, d, k + 1)[k]
        invariant !rejected ==> SmallestFrom(i + 1, minL)
      {
        RestStep(ch, d, i);
        var w := WeightOf(i, l);
        l[i] := w;
        if !rejected {
          SmallestStep(i, minL, w);
        }
        if l[i] < minL {
          minL := l[i];
        }
        l[0] := l[0] - l[i];
        i := i - 1;
      }
      RestStep(ch, d, 1);
      if !rejected {
        SmallestStep(0, minL, l[0]);
      }
      if l[0] < minL {
        minL := l[0];
      }
      if !rejected {
        SmallestIsMostNegative(minL);
      }
      r := if minL < 0.0 then -minL else 0.0;
    }

    lemma NothingSmallest()
      requires Valid() && 0 < ssize
      ensures SmallestFrom(ssize, 0.0)
    {
      CoefficientsStored();
    }

    /** The maximum excess of any point, relative to the squared radius. */
    method RelativeError() returns (err: real, subopt: real)
      requires Between() && 0 < ssize
      ensures err >= 0.0 && ErrorIs(err)
      ensures subopt >= 0.0 && (!rejected ==> MostNegative(subopt))
    {
      hide Power, Shapes, Stored, ListOk, Between, Chain, Valid, SupportAt, ErrorIs, MostNegative;
      CurrentSize();
      RadiusNonneg();
      var maxE := 0.0;
      for it := 0 to ssize
        invariant maxE == 0.0
      {
        SupportOnSphere(it);
        var e := Excess(L[it].pit);
        if e < 0.0 {
          e := -e;
        }
        if e > maxE {
          maxE := e;
        }
      }
      for i := 0 to |points|
        invariant maxE >= 0.0 && forall k :: 0 <= k < i ==> Power(Current(), points[k]) <= maxE
        invariant maxE > 0.0 ==> exists k :: 0 <= k < i && Power(Current(), points[k]) == maxE
      {
        var e := Excess(i);
        if e > maxE {
          maxE := e;
        }
      }
      subopt := Suboptimality();
      err := if currentSqrR == 0.0 then 0.0 else maxE / currentSqrR;
      ErrorFound(maxE, err);
    }

    /** err is the largest excess over the squared radius, or 0. */
    ghost predicate ErrorIs(err: real)
      reads `ch
    {
      && |Current().c| == d && AllOfSize(points, d) && Current().r >= 0.0
      && (Current().r == 0.0 ==> err == 0.0)
      && (Current().r > 0.0 ==> forall i :: 0 <= i < |points| ==> Power(Current(), points[i]) <= err * Current().r)
      && (err > 0.0 ==> exists i :: 0 <= i < |points| && Power(Current(), points[i]) == err * Current().r)
    }

    lemma ErrorFound(maxE: real, err: real)
      requires |Current().c| == d && AllOfSize(points, d) && Current().r >= 0.0 && maxE >= 0.0
      requires forall k :: 0 <= k < |points| ==> Power(Current(), points[k]) <= maxE
      requires maxE > 0.0 ==> exists k :: 0 <= k < |points| && Power(Current(), points[k]) == maxE
      requires err == if Current().r == 0.0 then 0.0 else maxE / Current().r
      ensures ErrorIs(err) && err >= 0.0
    {
      hide Power;
      if Current().r > 0.0 {
        Ratio(maxE, Current().r);
      }
    }

    lemma RadiusNonneg()
      requires Between() && 0 < ssize
      ensures Current().r >= 0.0
    {
      CurrentSize();
      PositiveRadius(ch, d);
    }

    static lemma Ratio(x: real, y: real)
      requires x >= 0.0 && y > 0.0
      ensures x / y >= 0.0 && x / y * y == x && (x / y > 0.0 ==> x > 0.0)
    {}

    lemma SupportOnSphere(it: nat)
      requires Between() && it < ssize
      ensures it < |L| && L[it].pit < |points| && |Current().c| == d && |points[L[it].pit]| == d
      ensures Power(Current(), points[L[it].pit]) == 0.0
    {
      CurrentSize();
      OnSphere(ch, d);
      hide Chain, Power, Shapes, Stored, ListOk;
      assert ch[0+it].p == points[L[it].pit];
      assert Power(Top(ch), Points(ch)[it]) == 0.0;
    }

    method IsValid() returns (ok: bool)
      requires Between() && 0 < ssize
      ensures Sized(ch, d)
      ensures !rejected && Current().r > 0.0 ==> (ok <==> Settled() && NonnegWeights(ch, d))
      ensures !rejected && Current().r == 0.0 ==> (ok <==> NonnegWeights(ch, d))
    {
      hide Power, Between, Valid;
      var err, subopt := RelativeError();
      ok := err <= tol && subopt == 0.0;
      CurrentSize();
      ChainSized(ch, d);
      ErrorMeaning(err);
      if !rejected {
        assert subopt == 0.0 <==> NonnegWeights(ch, d);
      }
    }

    lemma ErrorMeaning(err: real)
      requires ErrorIs(err) && tol >= 0.0 && 0 < |ch|
      ensures Current().r > 0.0 ==> (err <= tol <==> Settled())
      ensures Current().r == 0.0 ==> err == 0.0
    {
      hide Power;
      var r := Current().r;
      if r > 0.0 {
        if err <= tol {
          Monotone(err, tol, r);
        } else {
          var i :| 0 <= i < |points| && Power(Current(), points[i]) == err * r;
          StrictlyMonotone(tol, err, r);
        }
      }
    }

    static lemma Monotone(x: real, y: real, r: real)
      requires x <= y && r > 0.0
      ensures x * r <= y * r
    {}

    static lemma StrictlyMonotone(x: real, y: real, r: real)
      requires x < y && r > 0.0
      ensures x * r < y * r
    {}

    // ----- the constructor and what it has computed

    static method CreateRows(d: nat) returns (c: array<Vec>, v: array<Vec>, a: array<Vec>)
      ensures fresh(c) && fresh(v) && fresh(a) && c != v && v != a && a != c
      ensures c.Length == v.Length == a.Length == d + 1
      ensures forall i :: 0 <= i <= d ==> c[i] == v[i] == a[i] == Zero(d)
    {
      c := new Vec[d + 1](i => Zero(d));
      v := new Vec[d + 1](i => Zero(d));
      a := new Vec[d + 1](i => Zero(d));
    }

    static method CreateArrays(d: nat)
      returns (sqrR: array<real>, z: array<real>, f: array<real>, q0: array<real>)
      ensures fresh(sqrR) && fresh(z) && fresh(f) && fresh(q0)
      ensures sqrR != q0 && sqrR != z && sqrR != f && q0 != z && q0 != f && z != f
      ensures sqrR.Length == z.Length == f.Length == d + 1 && q0.Length == d
    {
      sqrR, z, f, q0 := new real[d + 1], new real[d + 1], new real[d + 1], new real[d];
    }

    /** Computes the smallest enclosing ball of a nonempty set of points. With an exact
        number type, whose epsilon is 0, no push is ever rejected. */
    constructor (d: nat, points: seq<Vec>, eps: real, tol: real, patience: nat)
      requires |points| > 0 && AllOfSize(points, d) && eps >= 0.0 && tol >= 0.0
      ensures this.d == d && this.points == points && this.eps == eps && this.tol == tol
      ensures Between() && Sound() && ssize <= d + 1
      ensures eps == 0.0 ==> !rejected
      ensures !rejected ==> finished && Settled() && 0 < ssize
    {
      hide *;
      this.d, this.points, this.eps, this.tol := d, points, eps, tol;
      L, nextId, supportEnd := [], 0, End;
      fsize, ssize := 0, 0;
      currentC, currentSqrR := 0, -1.0;
      var rc, rv, ra := CreateRows(d);
      var rs, rz, rf, rq := CreateArrays(d);
      c, v, a := rc, rv, ra;
      sqrR, z, f, q0 := rs, rz, rf, rq;
      ch, rejected, finished := [], false, false;
      new;
      StartsBetween();
      var done := PivotMb(patience);
      finished := done;
      StaysBetween();
    }

    lemma StartsBetween()
      requires c != v && v != a && a != c
      requires sqrR != q0 && sqrR != z && sqrR != f && q0 != z && q0 != f && z != f
      requires c.Length == v.Length == a.Length == d + 1
      requires sqrR.Length == z.Length == f.Length == d + 1 && q0.Length == d
      requires AllOfSize(points, d) && |points| > 0 && eps >= 0.0 && tol >= 0.0
      requires L == [] && supportEnd == End && fsize == ssize == 0 && ch == []
      requires currentC == 0 && currentSqrR == -1.0 && !rejected
      requires forall i :: 0 <= i <= d ==> c[i] == v[i] == a[i] == Zero(d)
      ensures Between() && Sound()
    {
      assert Chain([], d);
      assert supportEnd == ItAt(L, 0);
    }

    lemma StaysBetween()
      requires Between()
      ensures ssize <= d + 1
    {}

    lemma SupportIsInput()
      requires Between()
      ensures SupportIn(ch, 0, points)
    {
      CurrentSize();
      hide Shapes, Stored, ListOk, Chain;
      forall i | 0 <= i < |ch| ensures ch[i].p in points {
        assert ch[0+i].p == points[L[i].pit];
      }
    }

    lemma CertifiedSupport()
      requires Between() && Sound() && !rejected && 0 < ssize
      ensures Chain(ch, d) && Sized(ch, d) && |ch| > 0 && Current() == Top(ch) && AllOfSize(points, d)
      ensures Certified(Top(ch), Points(ch), 0) && NonnegWeights(ch, d)
    {
      CurrentSize();
      ChainSized(ch, d);
      hide Shapes, Stored, ListOk, Chain, Certified;
      CertifiedWeights(ch, d);
    }

    /** A run without rejected push that tolerates nothing has found the smallest
        enclosing ball of the input, and there is only one. */
    lemma ResultIsSmallest()
      requires Between() && Sound() && !rejected && 0 < ssize && Settled() && tol == 0.0
      ensures AllOfSize(points, d) && Smallest(Current(), points, [], d)
    {
      hide *;
      CertifiedSupport();
      SupportIsInput();
      SettledExactly();
      OptimalityCertificate(ch, points, d);
    }

    lemma SettledExactly()
      requires Settled() && tol == 0.0
      ensures |Current().c| == d && AllOfSize(points, d) && Contains(Current(), points)
    {
      hide Power;
      assert tol * Current().r == 0.0;
    }

    /** Whatever is tolerated, the ball is the smallest one of its support points, which
        lie on its boundary; and no support point can be left out. */
    lemma SupportIsMinimal(j: nat) returns (o: Ball)
      requires Between() && Sound() && !rejected && 0 < ssize && j < ssize
      ensures AllOfSize(Points(ch), d) && Through(Current(), Points(ch)) && Smallest(Current(), Points(ch), [], d)
      ensures |o.c| == d && o.r < Current().r
      ensures forall i :: 0 <= i < |ch| && i != j ==> |ch[i].p| == d && Power(o, ch[i].p) <= 0.0
    {
      CertifiedSupport();
      CurrentSize();
      OnSphere(ch, d);
      hide Shapes, Stored, ListOk, Chain, Certified, Power, Between;
      forall i | 0 <= i < |ch| ensures ch[i].p in Points(ch) {
        assert ch[i].p == Points(ch)[i];
      }
      OptimalityCertificate(ch, Points(ch), d);
      o := DroppingShrinks(ch, d, j);
    }

    /** is_valid() accepts the result of every run without rejected push. */
    method CheckResult() returns (ok: bool)
      requires Between() && Sound() && !rejected && 0 < ssize && Settled()
      ensures ok
    {
      CertifiedSupport();
      hide Shapes, Stored, ListOk, Chain, Certified, Power, Between, Settled;
      SettledRadius();
      ok := IsValid();
    }

    lemma SettledRadius()
      requires Settled()
      ensures Current().r >= 0.0
    {}
  }
}
