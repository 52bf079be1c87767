/** The quadratic program of a step always has room in its slacks, and has at most one
    optimum, so the answer does not depend on the solver. */
module Optimum {
  import opened Reals
  import opened Vectors
  import opened QuadraticProgram

  /** x minimises the objective over the feasible points. */
  ghost predicate Optimal(d: Step, m: nat, x: Vec)
    requires IsStep(d, m)
  {
    Feasible(d, m, x) && forall z :: Feasible(d, m, z) ==> Objective(d, m, x) <= Objective(d, m, z)
  }

  ghost predicate MosekOptimal(p: MosekData, n: nat, x: Vec)
    requires IsMosek(p, n)
  {
    MosekFeasible(p, n, x) && forall z :: MosekFeasible(p, n, z) ==> MosekObjective(p, n, x) <= MosekObjective(p, n, z)
  }

  ghost predicate OsqpOptimal(p: OsqpData, n: nat, x: Vec)
    requires IsOsqp(p, n)
  {
    OsqpFeasible(p, n, x) && forall z :: OsqpFeasible(p, n, z) ==> OsqpObjective(p, n, x) <= OsqpObjective(p, n, z)
  }

  /** The weights the controller uses: those on the changes are positive, those on the
      force error may be zero. */
  ghost predicate Weighted(d: Step, m: nat)
    requires IsStep(d, m)
  {
    && (forall i :: 0 <= i < m ==> d.qU[i] > 0.0 && d.omega[i] > 0.0)
    && (forall r :: 0 <= r < 3 ==> d.q[r] >= 0.0)
  }

  function Mid(x: Vec, y: Vec): (z: Vec)
    requires |x| == |y|
    ensures |z| == |x| && forall i :: 0 <= i < |x| ==> z[i] == 0.5 * x[i] + 0.5 * y[i]
  {
    seq(|x|, i requires 0 <= i < |x| => 0.5 * x[i] + 0.5 * y[i])
  }

  lemma {:induction false} DotToMid(w: Vec, x: Vec, y: Vec, k: nat)
    requires |x| == |y| && k <= |w| && k <= |x|
    ensures DotTo(w, Mid(x, y), k) == 0.5 * DotTo(w, x, k) + 0.5 * DotTo(w, y, k)
  {
    if k == 0 {
    } else {
      DotToMid(w, x, y, k - 1);
    }
  }

  lemma SquareOfMid(w: real, x: real, y: real, z: real, e: real)
    requires z == 0.5 * x + 0.5 * y && e == x - y
    ensures w * (z * z) == 0.5 * (w * (x * x)) + 0.5 * (w * (y * y)) - 0.25 * (w * (e * e))
  {
    assert z * z == 0.25 * (x * x) + 0.5 * (x * y) + 0.25 * (y * y);
    assert e * e == x * x - 2.0 * (x * y) + y * y;
    assert z * z == 0.5 * (x * x) + 0.5 * (y * y) - 0.25 * (e * e);
  }

  lemma SquaresStep(w: Vec, x: Vec, k: nat)
    requires k <= |w| && k <= |x|
    ensures SquaresTo(w, x, k) == if k == 0 then 0.0 else SquaresTo(w, x, k - 1) + w[k-1] * (x[k-1] * x[k-1])
  {}

  lemma {:induction false} SquaresOfMid(w: Vec, x: Vec, y: Vec, k: nat)
    requires |x| == |y| && k <= |w| && k <= |x|
    ensures SquaresTo(w, Mid(x, y), k)
         == 0.5 * SquaresTo(w, x, k) + 0.5 * SquaresTo(w, y, k) - 0.25 * SquaresTo(w, Minus(x, y), k)
  {
    hide SquaresTo, Mid, Minus;
    SquaresStep(w, x, k);
    SquaresStep(w, y, k);
    SquaresStep(w, Mid(x, y), k);
    SquaresStep(w, Minus(x, y), k);
    if k == 0 {
    } else {
      SquaresOfMid(w, x, y, k - 1);
      SquareOfMid(w[k-1], x[k-1], y[k-1], Mid(x, y)[k-1], Minus(x, y)[k-1]);
    }
  }

  lemma {:induction false} SquaresSign(w: Vec, e: Vec, k: nat)
    requires k <= |w| && k <= |e| && forall i :: 0 <= i < k ==> w[i] >= 0.0
    ensures SquaresTo(w, e, k) >= 0.0
    ensures SquaresTo(w, e, k) == 0.0 ==> forall i :: 0 <= i < k && w[i] > 0.0 ==> e[i] == 0.0
  {
    if k == 0 {
    } else {
      SquaresSign(w, e, k - 1);
      WeightedSquare(w[k-1], e[k-1], w[k-1] * (e[k-1] * e[k-1]));
    }
  }

  lemma WeightedSquare(w: real, e: real, t: real)
    requires w >= 0.0 && t == w * (e * e)
    ensures t >= 0.0
    ensures t == 0.0 && w > 0.0 ==> e == 0.0
  {
    var s := e * e;
    assert s >= 0.0;
    if w > 0.0 && e != 0.0 {
      if e > 0.0 { ProductPositive(e, e, s); } else { ProductPositive(-e, -e, s); }
      ProductPositive(w, s, t);
    }
  }

  lemma MidFeasible(d: Step, m: nat, x: Vec, y: Vec)
    requires IsStep(d, m) && Feasible(d, m, x) && Feasible(d, m, y)
    ensures Feasible(d, m, Mid(x, y))
  {
    var z := Mid(x, y);
    assert z[m..] == Mid(x[m..], y[m..]);
    forall r | 0 <= r < 3
      ensures Balance(d, m, z, r) == d.b[r]
    {
      assert Balance(d, m, x, r) == d.b[r] && Balance(d, m, y, r) == d.b[r];
      DotToMid(d.bAlpha[r], x, y, m);
      DotToMid(d.dBalphaU[r], x[m..], y[m..], m);
    }
  }

  lemma MidObjective(d: Step, m: nat, x: Vec, y: Vec)
    requires IsStep(d, m) && |x| == |y| == 2 * m + 3
    ensures Objective(d, m, Mid(x, y))
         == 0.5 * Objective(d, m, x) + 0.5 * Objective(d, m, y)
            - 0.125 * SquaresTo(Diagonal(d), Minus(x, y), 2 * m + 3)
  {
    hide DotTo, SquaresTo;
    ObjectiveIs(d, m, x);
    ObjectiveIs(d, m, y);
    ObjectiveIs(d, m, Mid(x, y));
    hide Objective;
    DotToMid(Linear(d), x, y, 2 * m + 3);
    SquaresOfMid(Diagonal(d), x, y, 2 * m + 3);
  }

  /** Equal changes need equal force errors. */
  lemma SlackIsDetermined(d: Step, m: nat, x: Vec, y: Vec)
    requires IsStep(d, m) && Feasible(d, m, x) && Feasible(d, m, y)
    requires forall i :: 0 <= i < 2 * m ==> x[i] == y[i]
    ensures x == y
  {
    hide DotTo;
    assert x[..m] == y[..m];
    assert x[m..][..m] == y[m..][..m];
    forall i | 2 * m <= i < 2 * m + 3
      ensures x[i] == y[i]
    {
      var r := i - 2 * m;
      assert Balance(d, m, x, r) == d.b[r] && Balance(d, m, y, r) == d.b[r];
      DotToCongruent(d.bAlpha[r], x, y, m);
      DotToCongruent(d.dBalphaU[r], x[m..], y[m..], m);
    }
  }

  /** There is at most one optimum. */
  lemma UniqueOptimum(d: Step, m: nat, x: Vec, y: Vec)
    requires IsStep(d, m) && Weighted(d, m) && Optimal(d, m, x) && Optimal(d, m, y)
    ensures x == y
  {
    hide Objective, SquaresTo, Balance;
    var n, w, e := 2 * m + 3, Diagonal(d), Minus(x, y);
    MidFeasible(d, m, x, y);
    MidObjective(d, m, x, y);
    forall i | 0 <= i < n
      ensures w[i] >= 0.0 && (i < 2 * m ==> w[i] > 0.0)
    {
      assert i < m ==> w[i] == d.qU[i];
      assert m <= i < 2 * m ==> w[i] == d.omega[i - m];
      assert 2 * m <= i ==> w[i] == d.q[i - 2 * m];
    }
    SquaresSign(w, e, n);
    assert SquaresTo(w, e, n) == 0.0;
    assert forall i :: 0 <= i < 2 * m ==> e[i] == 0.0;
    SlackIsDetermined(d, m, x, y);
  }

  /** Whatever the two solvers return as optimal is the same vector. */
  lemma SolversAgree(d: Step, m: nat, infinity: real, x: Vec, y: Vec)
    requires IsStep(d, m) && Weighted(d, m)
    requires IsMosek(MosekOf(d, m, infinity), 2 * m + 3) && MosekOptimal(MosekOf(d, m, infinity), 2 * m + 3, x)
    requires IsOsqp(OsqpOf(d, m), 2 * m + 3) && OsqpOptimal(OsqpOf(d, m), 2 * m + 3, y)
    ensures x == y && Optimal(d, m, x)
  {
    hide MosekOf, OsqpOf, MosekFeasible, OsqpFeasible, Balance, InBox, MosekObjective, OsqpObjective, Objective,
         IsMosek, IsOsqp;
    SameProgram(d, m, infinity, x);
    SameProgram(d, m, infinity, y);
    forall z | Feasible(d, m, z)
      ensures Objective(d, m, x) <= Objective(d, m, z) && Objective(d, m, y) <= Objective(d, m, z)
    {
      SameProgram(d, m, infinity, z);
      FeasibleLength(d, m, z);
    }
    FeasibleLength(d, m, x);
    FeasibleLength(d, m, y);
    UniqueOptimum(d, m, x, y);
  }

  lemma FeasibleLength(d: Step, m: nat, x: Vec)
    requires IsStep(d, m) && Feasible(d, m, x)
    ensures |x| == 2 * m + 3
  {}

  /** The force error that balances given changes */
  function Slack(d: Step, m: nat, x: Vec, r: nat): real
    requires IsStep(d, m) && |x| == 2 * m && r < 3
  {
    d.b[r] - DotTo(d.bAlpha[r], x, m) - DotTo(d.dBalphaU[r], x[m..], m)
  }

  /** Given changes together with the errors that balance them */
  function Balanced(d: Step, m: nat, u: Vec): Vec
    requires IsStep(d, m) && |u| == 2 * m
  {
    u + [Slack(d, m, u, 0), Slack(d, m, u, 1), Slack(d, m, u, 2)]
  }

  lemma BalancedHolds(d: Step, m: nat, u: Vec, r: nat)
    requires IsStep(d, m) && |u| == 2 * m && r < 3
    ensures Balance(d, m, Balanced(d, m, u), r) == d.b[r]
  {
    hide DotTo;
    var x := Balanced(d, m, u);
    assert x[..m] == u[..m];
    assert x[m..][..m] == u[m..][..m];
    DotToCongruent(d.bAlpha[r], x, u, m);
    DotToCongruent(d.dBalphaU[r], x[m..], u[m..], m);
    assert x[2 * m + r] == Slack(d, m, u, r);
  }

  /** Any changes inside the box extend to a feasible point, so the program is feasible
      if and only if the box is not empty. */
  lemma FeasibleIff(d: Step, m: nat)
    requires IsStep(d, m)
    ensures (exists x :: Feasible(d, m, x))
       <==> forall i :: 0 <= i < m ==> d.lowerU[i] <= d.upperU[i] && d.lowerAlpha[i] <= d.upperAlpha[i]
  {
    hide Balance, Slack;
    if exists x :: Feasible(d, m, x) {
      var x :| Feasible(d, m, x);
      assert InBox(d, m, x);
    }
    if forall i :: 0 <= i < m ==> d.lowerU[i] <= d.upperU[i] && d.lowerAlpha[i] <= d.upperAlpha[i] {
      var u := d.lowerU + d.lowerAlpha;
      forall r | 0 <= r < 3
        ensures Balance(d, m, Balanced(d, m, u), r) == d.b[r]
      {
        BalancedHolds(d, m, u, r);
      }
      assert Feasible(d, m, Balanced(d, m, u));
    }
  }
}
