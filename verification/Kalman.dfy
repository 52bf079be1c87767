/** The linear Kalman filter: its covariance stays symmetric and positive semidefinite,
    the innovation is always invertible, and the gain is the best one. */
module Kalman {
  import opened Reals
  import opened Vectors
  import opened Matrices

  function Predicted(a: Matrix, p: Matrix, q: Matrix, n: nat): (r: Matrix)
    requires IsMatrix(a, n, n) && IsMatrix(p, n, n) && IsMatrix(q, n, n)
    ensures IsMatrix(r, n, n)
  {
    Add(Mul(Mul(a, p, n), Transpose(a, n), n), 1.0, q, n)
  }

  /** H P H' + R */
  function Innovation(h: Matrix, p: Matrix, r: Matrix, m: nat, n: nat): (s: Matrix)
    requires IsMatrix(h, m, n) && IsMatrix(p, n, n) && IsMatrix(r, m, m)
    ensures IsMatrix(s, m, m)
  {
    Add(Mul(Mul(h, p, n), Transpose(h, n), m), 1.0, r, m)
  }

  /** (I - K H) P */
  function Corrected(k: Matrix, h: Matrix, p: Matrix, m: nat, n: nat): (r: Matrix)
    requires IsMatrix(k, n, m) && IsMatrix(h, m, n) && IsMatrix(p, n, n)
    ensures IsMatrix(r, n, n)
  {
    Mul(Add(Identity(n), -1.0, Mul(k, h, n), n), p, n)
  }

  /** What the filter is given: a covariance and positive definite measurement noise */
  ghost predicate Setting(h: Matrix, p: Matrix, r: Matrix, m: nat, n: nat) {
    IsMatrix(h, m, n) && Covariance(p, n) && Symmetrical(r, m) && Definite(r, m)
  }

  lemma SettingParts(h: Matrix, p: Matrix, r: Matrix, m: nat, n: nat)
    requires Setting(h, p, r, m, n)
    ensures IsMatrix(h, m, n) && IsMatrix(p, n, n) && IsMatrix(r, m, m) && Symmetrical(p, n) && Symmetrical(r, m)
  {}

  lemma FormOfPredicted(a: Matrix, p: Matrix, q: Matrix, n: nat, x: Vec, y: Vec)
    requires IsMatrix(a, n, n) && IsMatrix(p, n, n) && IsMatrix(q, n, n) && |x| == |y| == n
    ensures Form(Predicted(a, p, q, n), x, y)
         == Form(p, Dots(Transpose(a, n), x), Dots(Transpose(a, n), y)) + Form(q, x, y)
  {
    hide Form, Mul, Transpose, Add;
    FormOfAdd(Mul(Mul(a, p, n), Transpose(a, n), n), 1.0, q, x, y);
    FormOfCongruence(a, p, n, x, y);
  }

  lemma FormOfInnovation(h: Matrix, p: Matrix, r: Matrix, m: nat, n: nat, x: Vec, y: Vec)
    requires IsMatrix(h, m, n) && IsMatrix(p, n, n) && IsMatrix(r, m, m) && |x| == |y| == m
    ensures Form(Innovation(h, p, r, m, n), x, y)
         == Form(p, Dots(Transpose(h, n), x), Dots(Transpose(h, n), y)) + Form(r, x, y)
  {
    hide Form, Mul, Transpose, Add;
    FormOfAdd(Mul(Mul(h, p, n), Transpose(h, n), m), 1.0, r, x, y);
    FormOfCongruence(h, p, n, x, y);
  }

  /** predict keeps the covariance symmetric and positive semidefinite. */
  lemma PredictKeeps(a: Matrix, p: Matrix, q: Matrix, n: nat)
    requires IsMatrix(a, n, n) && Covariance(p, n) && Covariance(q, n)
    ensures Covariance(Predicted(a, p, q, n), n)
  {
    hide Form, Predicted, Transpose, Dots;
    var s, t := Predicted(a, p, q, n), Transpose(a, n);
    forall x: Vec, y: Vec | |x| == |y| == n
      ensures Form(s, x, y) == Form(s, y, x)
    {
      FormOfPredicted(a, p, q, n, x, y);
      FormOfPredicted(a, p, q, n, y, x);
      FormSymmetric(p, n, Dots(t, x), Dots(t, y));
      FormSymmetric(q, n, x, y);
    }
    SymmetricByForms(s, n);
    forall x: Vec | |x| == n
      ensures Form(s, x, x) >= 0.0
    {
      FormOfPredicted(a, p, q, n, x, x);
    }
  }

  /** The innovation matrix is symmetric positive definite, hence invertible. */
  lemma InnovationDefinite(h: Matrix, p: Matrix, r: Matrix, m: nat, n: nat)
    requires Setting(h, p, r, m, n)
    ensures Symmetrical(Innovation(h, p, r, m, n), m) && Definite(Innovation(h, p, r, m, n), m)
  {
    hide Form, Innovation, Transpose, Dots;
    var s, t := Innovation(h, p, r, m, n), Transpose(h, n);
    forall x: Vec, y: Vec | |x| == |y| == m
      ensures Form(s, x, y) == Form(s, y, x)
    {
      FormOfInnovation(h, p, r, m, n, x, y);
      FormOfInnovation(h, p, r, m, n, y, x);
      FormSymmetric(p, n, Dots(t, x), Dots(t, y));
      FormSymmetric(r, m, x, y);
    }
    SymmetricByForms(s, m);
    forall x: Vec | |x| == m && x != Zero(m)
      ensures Form(s, x, x) > 0.0
    {
      FormOfInnovation(h, p, r, m, n, x, x);
    }
  }

  function InverseInnovation(h: Matrix, p: Matrix, r: Matrix, m: nat, n: nat): (t: Matrix)
    requires Setting(h, p, r, m, n)
    ensures IsMatrix(t, m, m)
  {
    InnovationDefinite(h, p, r, m, n);
    Inverse(Innovation(h, p, r, m, n), m)
  }

  /** P H' (H P H' + R)^-1 */
  function Gain(h: Matrix, p: Matrix, r: Matrix, m: nat, n: nat): (k: Matrix)
    requires Setting(h, p, r, m, n)
    ensures IsMatrix(k, n, m)
  {
    Mul(Mul(p, Transpose(h, n), m), InverseInnovation(h, p, r, m, n), m)
  }

  function Posterior(h: Matrix, p: Matrix, r: Matrix, m: nat, n: nat): (s: Matrix)
    requires Setting(h, p, r, m, n)
    ensures IsMatrix(s, n, n)
  {
    Corrected(Gain(h, p, r, m, n), h, p, m, n)
  }

  // ----- the posterior as a form

  lemma GainApplied(h: Matrix, p: Matrix, r: Matrix, m: nat, n: nat, u: Vec)
    requires Setting(h, p, r, m, n) && |u| == m
    ensures Dots(Gain(h, p, r, m, n), u)
         == Dots(p, Dots(Transpose(h, n), Dots(InverseInnovation(h, p, r, m, n), u)))
  {
    hide Dots, Mul, Transpose, InverseInnovation, Form;
    Associative(Mul(p, Transpose(h, n), m), InverseInnovation(h, p, r, m, n), u);
    Associative(p, Transpose(h, n), Dots(InverseInnovation(h, p, r, m, n), u));
  }

  /** (I - G H) y == y - G (H y) */
  lemma ResidualApplied(g: Matrix, h: Matrix, m: nat, n: nat, y: Vec)
    requires IsMatrix(g, n, m) && IsMatrix(h, m, n) && |y| == n
    ensures Dots(Add(Identity(n), -1.0, Mul(g, h, n), n), y) == Minus(y, Dots(g, Dots(h, y)))
  {
    hide Dots, Mul, Identity, Plus;
    AddApplied(Identity(n), -1.0, Mul(g, h, n), y);
    IdentityApplied(n, y);
    Associative(g, h, y);
  }

  /** z'P(H'v) == (H P z)'v */
  lemma CrossForm(h: Matrix, p: Matrix, m: nat, n: nat, z: Vec, v: Vec)
    requires IsMatrix(h, m, n) && Symmetrical(p, n) && |z| == n && |v| == m
    ensures Form(p, z, Dots(Transpose(h, n), v)) == Dot(Dots(h, Dots(p, z)), v)
  {
    hide Dots, Transpose, Dot;
    var w := Dots(Transpose(h, n), v);
    FormSymmetric(p, n, z, w);
    assert Form(p, w, z) == Dot(w, Dots(p, z));
    Adjoint(h, v, Dots(p, z));
    Symmetric(v, Dots(h, Dots(p, z)));
  }

  /** x'P_post y == x'Py - (HPx)'S^-1(HPy) */
  lemma PosteriorForm(h: Matrix, p: Matrix, r: Matrix, m: nat, n: nat, x: Vec, y: Vec)
    requires Setting(h, p, r, m, n) && |x| == |y| == n
    ensures Form(Posterior(h, p, r, m, n), x, y)
         == Form(p, x, y) - Form(InverseInnovation(h, p, r, m, n), Dots(h, Dots(p, x)), Dots(h, Dots(p, y)))
  {
    hide Dots, Transpose, Dot, Gain, InverseInnovation, Mul, Identity, Add;
    var k, t := Gain(h, p, r, m, n), InverseInnovation(h, p, r, m, n);
    var py := Dots(p, y);
    var u := Dots(h, py);
    Associative(Add(Identity(n), -1.0, Mul(k, h, n), n), p, y);
    ResidualApplied(k, h, m, n, py);
    GainApplied(h, p, r, m, n, u);
    DotMinus(py, Dots(k, u), x);
    CrossForm(h, p, m, n, x, Dots(t, u));
  }

  lemma InverseInnovationFacts(h: Matrix, p: Matrix, r: Matrix, m: nat, n: nat)
    requires Setting(h, p, r, m, n)
    ensures Covariance(InverseInnovation(h, p, r, m, n), m)
  {
    hide Inverse, Covariance, Form, Innovation, Definite, Symmetrical, Setting;
    SettingParts(h, p, r, m, n);
    InnovationDefinite(h, p, r, m, n);
    InverseCovariance(Innovation(h, p, r, m, n), m);
  }

  /** correct never increases the covariance. */
  lemma CorrectShrinks(h: Matrix, p: Matrix, r: Matrix, m: nat, n: nat, x: Vec)
    requires Setting(h, p, r, m, n) && |x| == n
    ensures Form(Posterior(h, p, r, m, n), x, x) <= Form(p, x, x)
  {
    hide Form, Dots, Posterior, InverseInnovation;
    PosteriorForm(h, p, r, m, n, x, x);
    InverseInnovationFacts(h, p, r, m, n);
  }

  // ----- every other gain is worse

  /** The covariance of the error when any gain g is used: (I - G H) P (I - G H)' + G R G' */
  function Joseph(g: Matrix, h: Matrix, p: Matrix, r: Matrix, m: nat, n: nat): (s: Matrix)
    requires IsMatrix(g, n, m) && IsMatrix(h, m, n) && IsMatrix(p, n, n) && IsMatrix(r, m, m)
    ensures IsMatrix(s, n, n)
  {
    var e := Add(Identity(n), -1.0, Mul(g, h, n), n);
    Add(Mul(Mul(e, p, n), Transpose(e, n), n), 1.0, Mul(Mul(g, r, m), Transpose(g, m), n), n)
  }

  /** (I - G H)' x == x - H'(G'x) */
  lemma ResidualTransposed(g: Matrix, h: Matrix, m: nat, n: nat, x: Vec)
    requires IsMatrix(g, n, m) && IsMatrix(h, m, n) && |x| == n
    ensures Dots(Transpose(Add(Identity(n), -1.0, Mul(g, h, n), n), n), x)
         == Minus(x, Dots(Transpose(h, n), Dots(Transpose(g, m), x)))
  {
    hide Dots, Transpose, Dot, Mul, Identity, Add, Plus;
    var e := Add(Identity(n), -1.0, Mul(g, h, n), n);
    var w := Dots(Transpose(g, m), x);
    var l, z := Dots(Transpose(e, n), x), Minus(x, Dots(Transpose(h, n), w));
    var d := Minus(l, z);
    Adjoint(e, x, d);
    ResidualApplied(g, h, m, n, d);
    DotMinus(d, Dots(g, Dots(h, d)), x);
    Adjoint(g, x, Dots(h, d));
    Adjoint(h, w, d);
    DotMinus(x, Dots(Transpose(h, n), w), d);
    EqualByDots(l, z);
  }

  /** The quadratic in w = G'x that a gain leaves */
  ghost function Spread(h: Matrix, p: Matrix, r: Matrix, m: nat, n: nat, x: Vec, w: Vec): real
    requires IsMatrix(h, m, n) && IsMatrix(p, n, n) && IsMatrix(r, m, m) && |x| == n && |w| == m
  {
    var z := Minus(x, Dots(Transpose(h, n), w));
    Form(p, z, z) + Form(r, w, w)
  }

  lemma JosephForm(g: Matrix, h: Matrix, p: Matrix, r: Matrix, m: nat, n: nat, x: Vec)
    requires IsMatrix(g, n, m) && IsMatrix(h, m, n) && IsMatrix(p, n, n) && IsMatrix(r, m, m) && |x| == n
    ensures Form(Joseph(g, h, p, r, m, n), x, x) == Spread(h, p, r, m, n, x, Dots(Transpose(g, m), x))
  {
    hide Form, Dots, Mul, Transpose, Add, Identity, Plus;
    var e := Add(Identity(n), -1.0, Mul(g, h, n), n);
    FormOfAdd(Mul(Mul(e, p, n), Transpose(e, n), n), 1.0, Mul(Mul(g, r, m), Transpose(g, m), n), x, x);
    FormOfCongruence(e, p, n, x, x);
    FormOfCongruence(g, r, m, x, x);
    ResidualTransposed(g, h, m, n, x);
  }

  lemma SquareOfDifference(a: Matrix, n: nat, x: Vec, y: Vec)
    requires Symmetrical(a, n) && |x| == |y| == n
    ensures Form(a, Minus(x, y), Minus(x, y)) == Form(a, x, x) - 2.0 * Form(a, x, y) + Form(a, y, y)
  {
    hide Form, Plus;
    FormPlus(a, x, -1.0, y, Minus(x, y));
    FormPlusRight(a, x, x, -1.0, y);
    FormPlusRight(a, y, x, -1.0, y);
    FormSymmetric(a, n, x, y);
  }

  /** Completing the square: the spread is the posterior form plus a square. */
  lemma SpreadSquare(h: Matrix, p: Matrix, r: Matrix, m: nat, n: nat, x: Vec, w: Vec)
    requires Setting(h, p, r, m, n) && |x| == n && |w| == m
    ensures var v := Dots(InverseInnovation(h, p, r, m, n), Dots(h, Dots(p, x)));
            Spread(h, p, r, m, n, x, w)
            == Form(Posterior(h, p, r, m, n), x, x) + Form(Innovation(h, p, r, m, n), Minus(w, v), Minus(w, v))
  {
    hide Form, Dots, Transpose, Dot, Posterior, Innovation, InverseInnovation, Plus, Covariance, Inverse;
    SettingParts(h, p, r, m, n);
    var s, t := Innovation(h, p, r, m, n), InverseInnovation(h, p, r, m, n);
    var u := Dots(h, Dots(p, x));
    var v, y := Dots(t, u), Dots(Transpose(h, n), w);
    InnovationDefinite(h, p, r, m, n);
    SquareOfDifference(p, n, x, y);
    SquareOfDifference(s, m, w, v);
    CrossForm(h, p, m, n, x, w);
    FormOfInnovation(h, p, r, m, n, w, w);
    PosteriorForm(h, p, r, m, n, x, x);
    InnovationInverts(h, p, r, m, n, u, w);
    Symmetric(u, w);
  }

  lemma CovarianceParts(p: Matrix, n: nat)
    requires Covariance(p, n)
    ensures Symmetrical(p, n) && Semidefinite(p, n)
  {}

  /** With v = S^-1 u: w'Sv == w'u and v'Sv == u'S^-1 u */
  lemma InnovationInverts(h: Matrix, p: Matrix, r: Matrix, m: nat, n: nat, u: Vec, w: Vec)
    requires Setting(h, p, r, m, n) && |u| == |w| == m
    ensures var s, t := Innovation(h, p, r, m, n), InverseInnovation(h, p, r, m, n);
            && Dots(s, Dots(t, u)) == u
            && Form(s, w, Dots(t, u)) == Dot(w, u)
            && Form(s, Dots(t, u), Dots(t, u)) == Form(t, u, u)
  {
    hide Dots, Dot, Innovation, Inverse;
    InnovationDefinite(h, p, r, m, n);
    InverseApplied(Innovation(h, p, r, m, n), m, u);
    var t := InverseInnovation(h, p, r, m, n);
    Symmetric(Dots(t, u), u);
  }

  /** The gain is optimal: no gain leaves a smaller error in any direction. */
  lemma GainIsBest(g: Matrix, h: Matrix, p: Matrix, r: Matrix, m: nat, n: nat, x: Vec)
    requires Setting(h, p, r, m, n) && IsMatrix(g, n, m) && |x| == n
    ensures Form(Posterior(h, p, r, m, n), x, x) <= Form(Joseph(g, h, p, r, m, n), x, x)
  {
    hide Form, Dots, Transpose, Posterior, Innovation, InverseInnovation, Spread, Joseph;
    var w := Dots(Transpose(g, m), x);
    JosephForm(g, h, p, r, m, n, x);
    SpreadSquare(h, p, r, m, n, x, w);
    InnovationDefinite(h, p, r, m, n);
    DefiniteNonneg(Innovation(h, p, r, m, n), m, Minus(w, Dots(InverseInnovation(h, p, r, m, n), Dots(h, Dots(p, x)))));
  }

  lemma DefiniteNonneg(s: Matrix, m: nat, x: Vec)
    requires Definite(s, m) && |x| == m
    ensures Form(s, x, x) >= 0.0
  {
    if x == Zero(m) {
      DotZero(m, Dots(s, x));
    }
  }

  /** K'x == S^-1 (H P x) */
  lemma GainTransposed(h: Matrix, p: Matrix, r: Matrix, m: nat, n: nat, x: Vec)
    requires Setting(h, p, r, m, n) && |x| == n
    ensures Dots(Transpose(Gain(h, p, r, m, n), m), x)
         == Dots(InverseInnovation(h, p, r, m, n), Dots(h, Dots(p, x)))
  {
    hide Dots, Transpose, Dot, Gain, InverseInnovation, Plus, Covariance;
    SettingParts(h, p, r, m, n);
    var k, t, u := Gain(h, p, r, m, n), InverseInnovation(h, p, r, m, n), Dots(h, Dots(p, x));
    var l, z := Dots(Transpose(k, m), x), Dots(t, u);
    var d := Minus(l, z);
    Adjoint(k, x, d);
    GainApplied(h, p, r, m, n, d);
    CrossForm(h, p, m, n, x, Dots(t, d));
    InverseInnovationFacts(h, p, r, m, n);
    CovarianceParts(t, m);
    FormSymmetric(t, m, u, d);
    Symmetric(d, Dots(t, u));
    EqualByDots(l, z);
  }

  /** The posterior is the error covariance of the filter's own gain. */
  lemma PosteriorIsJoseph(h: Matrix, p: Matrix, r: Matrix, m: nat, n: nat, x: Vec)
    requires Setting(h, p, r, m, n) && |x| == n
    ensures Form(Posterior(h, p, r, m, n), x, x) == Form(Joseph(Gain(h, p, r, m, n), h, p, r, m, n), x, x)
  {
    hide Form, Dots, Transpose, Posterior, Innovation, InverseInnovation, Spread, Joseph, Gain;
    var v := Dots(InverseInnovation(h, p, r, m, n), Dots(h, Dots(p, x)));
    JosephForm(Gain(h, p, r, m, n), h, p, r, m, n, x);
    GainTransposed(h, p, r, m, n, x);
    SpreadSquare(h, p, r, m, n, x, v);
    NoDifference(Innovation(h, p, r, m, n), m, v);
  }

  lemma NoDifference(s: Matrix, m: nat, v: Vec)
    requires IsMatrix(s, m, m) && |v| == m
    ensures Form(s, Minus(v, v), Minus(v, v)) == 0.0
  {
    assert Minus(v, v) == Zero(m);
    DotZero(m, Dots(s, Zero(m)));
  }

  /** correct keeps the covariance symmetric and positive semidefinite. */
  lemma CorrectKeeps(h: Matrix, p: Matrix, r: Matrix, m: nat, n: nat)
    requires Setting(h, p, r, m, n)
    ensures Covariance(Posterior(h, p, r, m, n), n)
  {
    hide Form, Dots, Transpose, Posterior, Innovation, InverseInnovation, Spread, Joseph, Gain, Plus;
    var s, t := Posterior(h, p, r, m, n), InverseInnovation(h, p, r, m, n);
    InverseInnovationFacts(h, p, r, m, n);
    forall x: Vec, y: Vec | |x| == |y| == n
      ensures Form(s, x, y) == Form(s, y, x)
    {
      PosteriorForm(h, p, r, m, n, x, y);
      PosteriorForm(h, p, r, m, n, y, x);
      FormSymmetric(p, n, x, y);
      FormSymmetric(t, m, Dots(h, Dots(p, x)), Dots(h, Dots(p, y)));
    }
    SymmetricByForms(s, n);
    forall x: Vec | |x| == n
      ensures Form(s, x, x) >= 0.0
    {
      PosteriorIsJoseph(h, p, r, m, n, x);
      JosephForm(Gain(h, p, r, m, n), h, p, r, m, n, x);
      SpreadNonneg(h, p, r, m, n, x, Dots(Transpose(Gain(h, p, r, m, n), m), x));
    }
  }

  lemma SpreadNonneg(h: Matrix, p: Matrix, r: Matrix, m: nat, n: nat, x: Vec, w: Vec)
    requires Setting(h, p, r, m, n) && |x| == n && |w| == m
    ensures Spread(h, p, r, m, n, x, w) >= 0.0
  {
    hide Form, Dots, Transpose, Plus;
    DefiniteNonneg(r, m, w);
  }

  /** What is left of the uncertainty seen by the sensors is at most their noise:
      H P_post H' never exceeds R. */
  lemma SensorBounds(h: Matrix, p: Matrix, r: Matrix, m: nat, n: nat, w: Vec)
    requires Setting(h, p, r, m, n) && |w| == m
    ensures var x := Dots(Transpose(h, n), w); Form(Posterior(h, p, r, m, n), x, x) <= Form(r, w, w)
  {
    hide Form, Dots, Transpose, Posterior, Innovation, InverseInnovation, Plus;
    var x := Dots(Transpose(h, n), w);
    SpreadSquare(h, p, r, m, n, x, w);
    InnovationDefinite(h, p, r, m, n);
    DefiniteNonneg(Innovation(h, p, r, m, n), m, Minus(w, Dots(InverseInnovation(h, p, r, m, n), Dots(h, Dots(p, x)))));
    NoDifference(p, n, x);
  }

  // ----- the corrected state

  /** How badly the state x + P c fits: its distance from the prior, weighted by P, and
      its distance from the measurement, weighted by R^-1. d is the measurement minus H x. */
  ghost function Misfit(h: Matrix, p: Matrix, r: Matrix, m: nat, n: nat, d: Vec, c: Vec): real
    requires Setting(h, p, r, m, n) && |d| == m && |c| == n
  {
    var e := Minus(d, Dots(h, Dots(p, c)));
    Form(p, c, c) + Form(Inverse(r, m), e, e)
  }

  lemma InnovationApplied(h: Matrix, p: Matrix, r: Matrix, m: nat, n: nat, v: Vec)
    requires IsMatrix(h, m, n) && IsMatrix(p, n, n) && IsMatrix(r, m, m) && |v| == m
    ensures Dots(Innovation(h, p, r, m, n), v)
         == Plus(Dots(h, Dots(p, Dots(Transpose(h, n), v))), 1.0, Dots(r, v))
  {
    hide Dots, Transpose, Mul, Plus;
    AddApplied(Mul(Mul(h, p, n), Transpose(h, n), m), 1.0, r, v);
    Associative(Mul(h, p, n), Transpose(h, n), v);
    Associative(h, p, Dots(Transpose(h, n), v));
  }

  /** A semidefinite form lies above its tangents. */
  lemma AboveTangent(a: Matrix, n: nat, x: Vec, y: Vec)
    requires Covariance(a, n) && |x| == |y| == n
    ensures Form(a, x, x) >= Form(a, y, y) + 2.0 * (Form(a, x, y) - Form(a, y, y))
  {
    hide Form, Plus;
    SquareOfDifference(a, n, x, y);
  }

  /** The correction K d is P c0 for the c0 of least misfit; another c fits worse by at
      least the weighted distance from c0. */
  lemma CorrectionIsBestFit(h: Matrix, p: Matrix, r: Matrix, m: nat, n: nat, d: Vec, c: Vec)
    requires Setting(h, p, r, m, n) && |d| == m && |c| == n
    ensures var c0 := Dots(Transpose(h, n), Dots(InverseInnovation(h, p, r, m, n), d));
            && Dots(Gain(h, p, r, m, n), d) == Dots(p, c0)
            && Misfit(h, p, r, m, n, d, c0) + Form(p, Minus(c, c0), Minus(c, c0)) <= Misfit(h, p, r, m, n, d, c)
  {
    hide Form, Dots, Transpose, Dot, Gain, Innovation, InverseInnovation, Plus, Covariance, Inverse, Setting;
    SettingParts(h, p, r, m, n);
    GainApplied(h, p, r, m, n, d);
    var v := Dots(InverseInnovation(h, p, r, m, n), d);
    var c0 := Dots(Transpose(h, n), v);
    var y, y0 := Dots(h, Dots(p, c)), Dots(h, Dots(p, c0));
    var e, e0 := Minus(d, y), Minus(d, y0);
    NoiseInverse(h, p, r, m, n);
    ResidualOfFit(h, p, r, m, n, d);
    SquareOfDifference(p, n, c, c0);
    AboveTangent(Inverse(r, m), m, e, e0);
    CrossForm(h, p, m, n, c, v);
    CrossForm(h, p, m, n, c0, v);
    TangentAt(r, m, e, v);
    TangentAt(r, m, e0, v);
    DotMinus(d, y, v);
    DotMinus(d, y0, v);
  }

  /** How badly the state x + P c fits: its distance from the prior x, weighted by P, and
      the distance of H (x + P c) from the measurement z, weighted by R^-1 */
  ghost function StateMisfit(h: Matrix, p: Matrix, r: Matrix, m: nat, n: nat, x: Vec, z: Vec, c: Vec): real
    requires Setting(h, p, r, m, n) && |x| == |c| == n && |z| == m
  {
    var e := Minus(z, Dots(h, Plus(x, 1.0, Dots(p, c))));
    Form(p, c, c) + Form(Inverse(r, m), e, e)
  }

  /** y is the state of least misfit. */
  ghost predicate IsBestFit(h: Matrix, p: Matrix, r: Matrix, m: nat, n: nat, x: Vec, z: Vec, y: Vec)
    requires Setting(h, p, r, m, n) && |x| == n && |z| == m
  {
    exists c0: Vec :: |c0| == n && IsBestAt(h, p, r, m, n, x, z, y, c0)
  }

  ghost predicate IsBestAt(h: Matrix, p: Matrix, r: Matrix, m: nat, n: nat, x: Vec, z: Vec, y: Vec, c0: Vec)
    requires Setting(h, p, r, m, n) && |x| == |c0| == n && |z| == m
  {
    && y == Plus(x, 1.0, Dots(p, c0))
    && forall c: Vec :: |c| == n ==> StateMisfit(h, p, r, m, n, x, z, c0) <= StateMisfit(h, p, r, m, n, x, z, c)
  }

  lemma MisfitOfState(h: Matrix, p: Matrix, r: Matrix, m: nat, n: nat, x: Vec, z: Vec, c: Vec)
    requires Setting(h, p, r, m, n) && |x| == |c| == n && |z| == m
    ensures StateMisfit(h, p, r, m, n, x, z, c) == Misfit(h, p, r, m, n, Minus(z, Dots(h, x)), c)
  {
    hide Form, Dots, Inverse;
    var hx, y := Dots(h, x), Dots(h, Dots(p, c));
    AppliedPlus(h, x, 1.0, Dots(p, c));
    assert Minus(z, Plus(hx, 1.0, y)) == Minus(Minus(z, hx), y);
  }

  /** The corrected state is the one of least misfit to prior and measurement. */
  lemma StateIsBestFit(h: Matrix, p: Matrix, r: Matrix, m: nat, n: nat, x: Vec, z: Vec)
    requires Setting(h, p, r, m, n) && |x| == n && |z| == m
    ensures IsBestFit(h, p, r, m, n, x, z, Moved(x, Gain(h, p, r, m, n), z, h, m, n))
  {
    hide Form, Dots, Transpose, Gain, InverseInnovation, Plus, Minus, Inverse, Setting, StateMisfit, Misfit;
    SettingParts(h, p, r, m, n);
    var d := Minus(z, Dots(h, x));
    var c0 := Dots(Transpose(h, n), Dots(InverseInnovation(h, p, r, m, n), d));
    MisfitOfState(h, p, r, m, n, x, z, c0);
    forall c: Vec | |c| == n
      ensures Dots(Gain(h, p, r, m, n), d) == Dots(p, c0)
      ensures StateMisfit(h, p, r, m, n, x, z, c0) <= StateMisfit(h, p, r, m, n, x, z, c)
    {
      CorrectionIsBestFit(h, p, r, m, n, d, c);
      PriorNonneg(h, p, r, m, n, Minus(c, c0));
      MisfitOfState(h, p, r, m, n, x, z, c);
    }
    CorrectionIsBestFit(h, p, r, m, n, d, c0);
    assert IsBestAt(h, p, r, m, n, x, z, Moved(x, Gain(h, p, r, m, n), z, h, m, n), c0);
  }

  lemma PriorNonneg(h: Matrix, p: Matrix, r: Matrix, m: nat, n: nat, e: Vec)
    requires Setting(h, p, r, m, n) && |e| == n
    ensures Form(p, e, e) >= 0.0 && Covariance(p, n)
  {
    hide Form;
  }

  /** There is only one such state. */
  lemma BestFitIsUnique(h: Matrix, p: Matrix, r: Matrix, m: nat, n: nat, x: Vec, z: Vec, y: Vec)
    requires Setting(h, p, r, m, n) && |x| == n && |z| == m && IsBestFit(h, p, r, m, n, x, z, y)
    ensures y == Moved(x, Gain(h, p, r, m, n), z, h, m, n)
  {
    hide Form, Dots, Transpose, Gain, InverseInnovation, Plus, Minus, Inverse, Setting, StateMisfit, Misfit;
    SettingParts(h, p, r, m, n);
    var d := Minus(z, Dots(h, x));
    var c0 := Dots(Transpose(h, n), Dots(InverseInnovation(h, p, r, m, n), d));
    var c: Vec :| |c| == n && IsBestAt(h, p, r, m, n, x, z, y, c);
    MisfitOfState(h, p, r, m, n, x, z, c0);
    MisfitOfState(h, p, r, m, n, x, z, c);
    CorrectionIsBestFit(h, p, r, m, n, d, c);
    PriorNonneg(h, p, r, m, n, Minus(c, c0));
    SameImage(p, n, c, c0);
  }

  lemma SameImage(p: Matrix, n: nat, x: Vec, y: Vec)
    requires Covariance(p, n) && |x| == |y| == n && Form(p, Minus(x, y), Minus(x, y)) <= 0.0
    ensures Dots(p, x) == Dots(p, y)
  {
    hide Form, Dots;
    KernelOfForm(p, n, Minus(x, y));
    AppliedPlus(p, x, -1.0, y);
    forall i | 0 <= i < n
      ensures Dots(p, x)[i] == Dots(p, y)[i]
    {
      assert Plus(Dots(p, x), -1.0, Dots(p, y))[i] == 0.0;
    }
  }

  /** A semidefinite form vanishes only where its matrix does. */
  lemma KernelOfForm(p: Matrix, n: nat, e: Vec)
    requires Covariance(p, n) && |e| == n && Form(p, e, e) <= 0.0
    ensures Dots(p, e) == Zero(n)
  {
    hide Form, Dots, Plus, Dot;
    var w := Dots(p, e);
    var a, b := Dot(w, w), Form(p, w, w);
    var t := a / (b + 1.0);
    FormSymmetric(p, n, e, w);
    assert Form(p, w, e) == a by { FormIs(p, w, e); }
    FormPlus(p, e, -t, w, Plus(e, -t, w));
    FormPlusRight(p, e, e, -t, w);
    FormPlusRight(p, w, e, -t, w);
    Nonneg(w);
    NoDescent(a, b, t);
  }

  lemma FormIs(a: Matrix, x: Vec, y: Vec)
    requires |x| == |a| && AllOfSize(a, |y|)
    ensures Form(a, x, y) == Dot(x, Dots(a, y))
  {}

  lemma NoDescent(a: real, b: real, t: real)
    requires a >= 0.0 && b >= 0.0 && t == a / (b + 1.0) && -2.0 * t * a + t * t * b >= 0.0
    ensures a == 0.0
  {
    var q := t * t;
    SquareNonneg(t);
    ProductNonneg(q, b);
    assert t * (b + 1.0) == a;
    assert t * a == t * (t * b) + t * t == q * b + q;
    if t != 0.0 {
      NoZeroProduct(t, t);
    }
  }

  /** What remains between measurement and corrected state is R S^-1 times what was there
      before, so it never grows, weighted by R^-1. */
  lemma ResidualShrinks(h: Matrix, p: Matrix, r: Matrix, m: nat, n: nat, x: Vec, z: Vec)
    requires Setting(h, p, r, m, n) && |x| == n && |z| == m
    ensures var before := Minus(z, Dots(h, x));
            var after := Minus(z, Dots(h, Moved(x, Gain(h, p, r, m, n), z, h, m, n)));
            && after == Dots(r, Dots(InverseInnovation(h, p, r, m, n), before))
            && Form(Inverse(r, m), after, after) <= Form(Inverse(r, m), before, before)
  {
    hide Form, Dots, Transpose, Gain, InverseInnovation, Inverse, Setting, Misfit;
    SettingParts(h, p, r, m, n);
    var d := Minus(z, Dots(h, x));
    var c0 := Dots(Transpose(h, n), Dots(InverseInnovation(h, p, r, m, n), d));
    CorrectionIsBestFit(h, p, r, m, n, d, Zero(n));
    ResidualOfFit(h, p, r, m, n, d);
    AppliedPlus(h, x, 1.0, Dots(p, c0));
    var hx, y := Dots(h, x), Dots(h, Dots(p, c0));
    assert Minus(z, Plus(hx, 1.0, y)) == Minus(d, y);
    MisfitParts(h, p, r, m, n, d, c0);
    MisfitAtZero(h, p, r, m, n, d);
    PriorNonneg(h, p, r, m, n, c0);
    PriorNonneg(h, p, r, m, n, Minus(Zero(n), c0));
  }

  lemma MisfitParts(h: Matrix, p: Matrix, r: Matrix, m: nat, n: nat, d: Vec, c: Vec)
    requires Setting(h, p, r, m, n) && |d| == m && |c| == n
    ensures var e := Minus(d, Dots(h, Dots(p, c)));
            Misfit(h, p, r, m, n, d, c) == Form(p, c, c) + Form(Inverse(r, m), e, e)
  {}

  lemma MisfitAtZero(h: Matrix, p: Matrix, r: Matrix, m: nat, n: nat, d: Vec)
    requires Setting(h, p, r, m, n) && |d| == m
    ensures Misfit(h, p, r, m, n, d, Zero(n)) == Form(Inverse(r, m), d, d)
  {
    hide Dots, Inverse, Dot;
    DotZero(n, Dots(p, Zero(n)));
    ZeroApplied(p, n);
    ImageOfZero(h, n);
    assert Minus(d, Zero(m)) == d;
  }

  lemma ImageOfZero(h: Matrix, n: nat)
    requires AllOfSize(h, n)
    ensures Dots(h, Zero(n)) == Zero(|h|)
  {
    hide Dot;
    forall i | 0 <= i < |h|
      ensures Dots(h, Zero(n))[i] == 0.0
    {
      DotZero(n, h[i]);
      Symmetric(h[i], Zero(n));
    }
  }

  lemma NoiseInverse(h: Matrix, p: Matrix, r: Matrix, m: nat, n: nat)
    requires Setting(h, p, r, m, n)
    ensures Covariance(p, n) && Definite(r, m) && Covariance(Inverse(r, m), m)
  {
    hide Inverse, Form;
    InverseCovariance(r, m);
  }

  lemma ResidualOfFit(h: Matrix, p: Matrix, r: Matrix, m: nat, n: nat, d: Vec)
    requires Setting(h, p, r, m, n) && |d| == m
    ensures var v := Dots(InverseInnovation(h, p, r, m, n), d);
            Minus(d, Dots(h, Dots(p, Dots(Transpose(h, n), v)))) == Dots(r, v)
  {
    hide Dots, Dot, Innovation, Inverse, Transpose, Form;
    var v := Dots(InverseInnovation(h, p, r, m, n), d);
    InnovationDefinite(h, p, r, m, n);
    InverseApplied(Innovation(h, p, r, m, n), m, d);
    InnovationApplied(h, p, r, m, n, v);
  }

  lemma TangentAt(r: Matrix, m: nat, e: Vec, v: Vec)
    requires Definite(r, m) && |e| == |v| == m
    ensures Form(Inverse(r, m), e, Dots(r, v)) == Dot(e, v)
  {
    hide Dots, Dot, Inverse;
    InverseApplied(r, m, v);
  }

  // ----- runs

  ghost predicate Below(p: Matrix, s: Matrix, n: nat) {
    IsMatrix(p, n, n) && IsMatrix(s, n, n) && forall x: Vec :: |x| == n ==> Form(p, x, x) <= Form(s, x, x)
  }

  lemma PredictMonotone(a: Matrix, p: Matrix, s: Matrix, q: Matrix, n: nat)
    requires IsMatrix(a, n, n) && IsMatrix(q, n, n) && Below(p, s, n)
    ensures Below(Predicted(a, p, q, n), Predicted(a, s, q, n), n)
  {
    hide Form, Dots, Transpose, Predicted;
    forall x: Vec | |x| == n
      ensures Form(Predicted(a, p, q, n), x, x) <= Form(Predicted(a, s, q, n), x, x)
    {
      FormOfPredicted(a, p, q, n, x, x);
      FormOfPredicted(a, s, q, n, x, x);
    }
  }

  lemma CorrectMonotone(h: Matrix, p: Matrix, s: Matrix, r: Matrix, m: nat, n: nat)
    requires Setting(h, p, r, m, n) && Setting(h, s, r, m, n) && Below(p, s, n)
    ensures Below(Posterior(h, p, r, m, n), Posterior(h, s, r, m, n), n)
  {
    hide Form, Dots, Transpose, Posterior, Gain, Joseph, Plus;
    forall x: Vec | |x| == n
      ensures Form(Posterior(h, p, r, m, n), x, x) <= Form(Posterior(h, s, r, m, n), x, x)
    {
      var g := Gain(h, s, r, m, n);
      GainIsBest(g, h, p, r, m, n, x);
      JosephForm(g, h, p, r, m, n, x);
      JosephForm(g, h, s, r, m, n, x);
      PosteriorIsJoseph(h, s, r, m, n, x);
    }
  }

  lemma StepKeeps(a: Matrix, p: Matrix, h: Matrix, q: Matrix, r: Matrix, m: nat, n: nat)
    requires IsMatrix(a, n, n) && Setting(h, p, r, m, n) && Covariance(q, n)
    ensures Setting(h, Predicted(a, p, q, n), r, m, n)
    ensures Setting(h, Posterior(h, Predicted(a, p, q, n), r, m, n), r, m, n)
  {
    hide Form, Predicted, Posterior;
    PredictKeeps(a, p, q, n);
    CorrectKeeps(h, Predicted(a, p, q, n), r, m, n);
  }

  /** One predict and one correct */
  function Advanced(a: Matrix, p: Matrix, h: Matrix, q: Matrix, r: Matrix, m: nat, n: nat): (s: Matrix)
    requires IsMatrix(a, n, n) && Setting(h, p, r, m, n) && Covariance(q, n)
    ensures Setting(h, s, r, m, n)
  {
    StepKeeps(a, p, h, q, r, m, n);
    Posterior(h, Predicted(a, p, q, n), r, m, n)
  }

  /** The covariance after the first k steps of a run, the system matrices of its steps
      being given */
  function AfterRun(systems: seq<Matrix>, k: nat, p: Matrix, h: Matrix, q: Matrix, r: Matrix, m: nat,
      n: nat): (s: Matrix)
    requires k <= |systems| && forall i :: 0 <= i < |systems| ==> IsMatrix(systems[i], n, n)
    requires Setting(h, p, r, m, n) && Covariance(q, n)
    ensures Setting(h, s, r, m, n)
  {
    hide Setting, Covariance, Advanced;
    if k == 0 then p
    else Advanced(systems[k-1], AfterRun(systems, k - 1, p, h, q, r, m, n), h, q, r, m, n)
  }

  lemma AdvancedMonotone(a: Matrix, p: Matrix, s: Matrix, h: Matrix, q: Matrix, r: Matrix, m: nat, n: nat)
    requires IsMatrix(a, n, n) && Covariance(q, n)
    requires Setting(h, p, r, m, n) && Setting(h, s, r, m, n) && Below(p, s, n)
    ensures Below(Advanced(a, p, h, q, r, m, n), Advanced(a, s, h, q, r, m, n), n)
  {
    hide Form, Predicted, Posterior, Below, Setting;
    SettingParts(h, p, r, m, n);
    SettingParts(h, s, r, m, n);
    assert IsMatrix(q, n, n);
    hide Covariance;
    StepKeeps(a, p, h, q, r, m, n);
    StepKeeps(a, s, h, q, r, m, n);
    PredictMonotone(a, p, s, q, n);
    CorrectMonotone(h, Predicted(a, p, q, n), Predicted(a, s, q, n), r, m, n);
  }

  /** Two filters with the same models that start with ordered covariances keep them
      ordered through every run, whatever the system matrices. */
  lemma {:induction false} RunsStayOrdered(systems: seq<Matrix>, k: nat, p: Matrix, s: Matrix, h: Matrix, q: Matrix,
      r: Matrix, m: nat, n: nat)
    requires k <= |systems| && forall i :: 0 <= i < |systems| ==> IsMatrix(systems[i], n, n)
    requires Setting(h, p, r, m, n) && Setting(h, s, r, m, n) && Covariance(q, n) && Below(p, s, n)
    ensures Below(AfterRun(systems, k, p, h, q, r, m, n), AfterRun(systems, k, s, h, q, r, m, n), n)
  {
    hide Form, Advanced, Below, Setting, Covariance;
    if k == 0 {
    } else {
      RunsStayOrdered(systems, k - 1, p, s, h, q, r, m, n);
      AdvancedMonotone(systems[k-1], AfterRun(systems, k - 1, p, h, q, r, m, n),
        AfterRun(systems, k - 1, s, h, q, r, m, n),
                       h, q, r, m, n);
    }
  }

  // ----- the filter

  lemma IdentityCovariance(n: nat)
    ensures Covariance(Identity(n), n)
  {
    hide Dots, Dot;
    forall x: Vec | |x| == n
      ensures Form(Identity(n), x, x) >= 0.0
    {
      IdentityApplied(n, x);
      Nonneg(x);
    }
  }

  /** The gain and the covariance that correct leaves, starting from p */
  ghost predicate IsCorrection(h: Matrix, p: Matrix, r: Matrix, m: nat, n: nat, k: Matrix, s: Matrix) {
    && Setting(h, p, r, m, n)
    && k == Gain(h, p, r, m, n)
    && s == Posterior(h, p, r, m, n)
    && Covariance(s, n) && Below(s, p, n)
  }

  function Drifted(x: Vec, a: Matrix, b: Matrix, u: Vec, l: nat, n: nat): (y: Vec)
    requires IsMatrix(a, n, n) && IsMatrix(b, n, l) && |x| == n && |u| == l
    ensures |y| == n
  {
    Plus(Dots(a, x), 1.0, Dots(b, u))
  }

  /** The prediction is linear in the state and the input. */
  lemma DriftedIsLinear(x: Vec, y: Vec, t: real, a: Matrix, b: Matrix, u: Vec, v: Vec, l: nat, n: nat)
    requires IsMatrix(a, n, n) && IsMatrix(b, n, l) && |x| == |y| == n && |u| == |v| == l
    ensures Drifted(Plus(x, t, y), a, b, Plus(u, t, v), l, n)
         == Plus(Drifted(x, a, b, u, l, n), t, Drifted(y, a, b, v, l, n))
  {
    hide Dots;
    AppliedPlus(a, x, t, y);
    AppliedPlus(b, u, t, v);
    var ax, ay, bu, bv := Dots(a, x), Dots(a, y), Dots(b, u), Dots(b, v);
    var s, r := Plus(Plus(ax, t, ay), 1.0, Plus(bu, t, bv)), Plus(Plus(ax, 1.0, bu), t, Plus(ay, 1.0, bv));
    forall i | 0 <= i < n
      ensures s[i] == r[i]
    {
      assert t * (ay[i] + bv[i]) == t * ay[i] + t * bv[i];
    }
    assert s == r;
  }

  /** A unit of state j moves the prediction by column j of A, a unit of input j by column
      j of B. */
  lemma DriftedColumns(a: Matrix, b: Matrix, l: nat, n: nat, i: nat, j: nat)
    requires IsMatrix(a, n, n) && IsMatrix(b, n, l) && i < n
    ensures j < n ==> Drifted(Unit(n, j), a, b, Zero(l), l, n)[i] == a[i][j]
    ensures j < l ==> Drifted(Zero(n), a, b, Unit(l, j), l, n)[i] == b[i][j]
  {
    hide Dot;
    Symmetric(a[i], Zero(n));
    Symmetric(b[i], Zero(l));
    DotZero(n, a[i]);
    DotZero(l, b[i]);
    if j < n {
      DotUnit(n, j, a[i]);
    }
    if j < l {
      DotUnit(l, j, b[i]);
    }
  }

  lemma DotUnit(d: nat, i: nat, x: Vec)
    requires |x| == d && i < d
    ensures Dot(x, Unit(d, i)) == x[i]
  {
    Symmetric(x, Unit(d, i));
    UnitTo(d, i, x, d);
  }

  function Moved(x: Vec, k: Matrix, z: Vec, h: Matrix, m: nat, n: nat): (y: Vec)
    requires IsMatrix(k, n, m) && IsMatrix(h, m, n) && |x| == n && |z| == m
    ensures |y| == n
  {
    Plus(x, 1.0, Dots(k, Minus(z, Dots(h, x))))
  }

  class KalmanFilter {
    const l: nat
    const m: nat
    const n: nat
    var a: Matrix
    var b: Matrix
    var h: Matrix
    var q: Matrix
    var r: Matrix
    var p: Matrix
    var k: Matrix
    var x: Vec

    ghost predicate Valid()
      reads this
    {
      && IsMatrix(a, n, n) && IsMatrix(b, n, l) && IsMatrix(k, n, m) && |x| == n
      && Covariance(q, n) && Setting(h, p, r, m, n)
    }

    constructor (l: nat, m: nat, n: nat, a: Matrix, b: Matrix, h: Matrix, q: Matrix, r: Matrix)
      requires IsMatrix(a, n, n) && IsMatrix(b, n, l) && IsMatrix(h, m, n)
      requires Covariance(q, n) && Symmetrical(r, m) && Definite(r, m)
      ensures Valid() && this.l == l && this.m == m && this.n == n
      ensures this.a == a && this.b == b && this.h == h && this.q == q && this.r == r
      ensures p == Identity(n) && x == Zero(n)
    {
      hide Form;
      this.l, this.m, this.n := l, m, n;
      this.a, this.b, this.h, this.q, this.r := a, b, h, q, r;
      p, x := Identity(n), Zero(n);
      k := seq(n, i => Zero(m));
      IdentityCovariance(n);
    }

    method SetInitial(x0: Vec, p0: Matrix)
      requires Valid() && |x0| == n && Covariance(p0, n)
      modifies this`x, this`p
      ensures Valid() && x == x0 && p == p0
    {
      hide Form;
      x, p := x0, p0;
    }

    method SetQ(q: Matrix)
      requires Valid() && Covariance(q, n)
      modifies this`q
      ensures Valid() && this.q == q
    {
      hide Form;
      this.q := q;
    }

    method SetR(r: Matrix)
      requires Valid() && Symmetrical(r, m) && Definite(r, m)
      modifies this`r
      ensures Valid() && this.r == r
    {
      hide Form;
      this.r := r;
    }

    method UpdateSystem(a: Matrix, b: Matrix)
      requires Valid() && IsMatrix(a, n, n) && IsMatrix(b, n, l)
      modifies this`a, this`b
      ensures Valid() && this.a == a && this.b == b
    {
      hide Form;
      this.a, this.b := a, b;
    }

    method Predict(u: Vec)
      requires Valid() && |u| == l
      modifies this`x, this`p
      ensures Valid()
      ensures x == Drifted(old(x), a, b, u, l, n) && p == Predicted(a, old(p), q, n)
    {
      hide Form, Predicted;
      PredictKeeps(a, p, q, n);
      x := Plus(Dots(a, x), 1.0, Dots(b, u));
      p := Add(Mul(Mul(a, p, n), Transpose(a, n), n), 1.0, q, n);
      PredictedIs(a, old(p), q, n);
    }

    method Correct(z: Vec)
      requires Valid() && |z| == m
      modifies this`k, this`x, this`p
      ensures Valid()
      ensures IsCorrection(h, old(p), r, m, n, k, p)
      ensures x == Moved(old(x), k, z, h, m, n) && IsBestFit(h, old(p), r, m, n, old(x), z, x)
    {
      hide Form, Innovation, Inverse, Mul, Posterior, Corrected, IsBestFit;
      StateIsBestFit(h, p, r, m, n, x, z);
      InnovationDefinite(h, p, r, m, n);
      CorrectKeeps(h, p, r, m, n);
      CorrectDecreases(h, p, r, m, n);
      k := Mul(Mul(p, Transpose(h, n), m), Inverse(Innovation(h, p, r, m, n), m), m);
      x := Plus(x, 1.0, Dots(k, Minus(z, Dots(h, x))));
      p := Corrected(k, h, p, m, n);
      PosteriorIs(h, old(p), r, m, n);
    }

    method LinearKalman(u: Vec, z: Vec)
      requires Valid() && |u| == l && |z| == m
      modifies this`k, this`x, this`p
      ensures Valid()
      ensures IsCorrection(h, Predicted(a, old(p), q, n), r, m, n, k, p)
      ensures var prior := Drifted(old(x), a, b, u, l, n);
              x == Moved(prior, k, z, h, m, n) && IsBestFit(h, Predicted(a, old(p), q, n), r, m, n, prior, z, x)
    {
      hide Form, Predicted, Posterior, Gain, Below, Covariance, Dots, Plus, Symmetrical, Definite, IsBestFit;
      Predict(u);
      Correct(z);
    }

    method UpdateSystemOnly(a: Matrix)
      requires Valid() && IsMatrix(a, n, n)
      modifies this`a
      ensures Valid() && this.a == a
    {
      hide Form;
      this.a := a;
    }

    /** linearkalman with a new system matrix, the control matrix staying */
    method LinearKalmanFor(a: Matrix, u: Vec, z: Vec)
      requires Valid() && IsMatrix(a, n, n) && |u| == l && |z| == m
      modifies this`a, this`k, this`x, this`p
      ensures Valid() && this.a == a
      ensures IsCorrection(h, Predicted(a, old(p), q, n), r, m, n, k, p)
      ensures var prior := Drifted(old(x), a, b, u, l, n);
              x == Moved(prior, k, z, h, m, n) && IsBestFit(h, Predicted(a, old(p), q, n), r, m, n, prior, z, x)
    {
      hide Form, Predicted, Posterior, Gain, Below, Covariance, Dots, Plus, Symmetrical, Definite, IsBestFit;
      UpdateSystemOnly(a);
      Predict(u);
      Correct(z);
    }

    /** linearkalman with a new system */
    method LinearKalmanWith(a: Matrix, b: Matrix, u: Vec, z: Vec)
      requires Valid() && IsMatrix(a, n, n) && IsMatrix(b, n, l) && |u| == l && |z| == m
      modifies this`a, this`b, this`k, this`x, this`p
      ensures Valid() && this.a == a && this.b == b
      ensures IsCorrection(h, Predicted(a, old(p), q, n), r, m, n, k, p)
      ensures var prior := Drifted(old(x), a, b, u, l, n);
              x == Moved(prior, k, z, h, m, n) && IsBestFit(h, Predicted(a, old(p), q, n), r, m, n, prior, z, x)
    {
      hide Form, Predicted, Posterior, Gain, Below, Covariance, Dots, Plus, Symmetrical, Definite, IsBestFit;
      UpdateSystem(a, b);
      Predict(u);
      Correct(z);
    }
  }

  lemma PredictedIs(a: Matrix, p: Matrix, q: Matrix, n: nat)
    requires IsMatrix(a, n, n) && IsMatrix(p, n, n) && IsMatrix(q, n, n)
    ensures Predicted(a, p, q, n) == Add(Mul(Mul(a, p, n), Transpose(a, n), n), 1.0, q, n)
  {}

  lemma PosteriorIs(h: Matrix, p: Matrix, r: Matrix, m: nat, n: nat)
    requires Setting(h, p, r, m, n)
    ensures Posterior(h, p, r, m, n) == Corrected(Gain(h, p, r, m, n), h, p, m, n)
  {}

  lemma CorrectDecreases(h: Matrix, p: Matrix, r: Matrix, m: nat, n: nat)
    requires Setting(h, p, r, m, n)
    ensures Below(Posterior(h, p, r, m, n), p, n)
  {
    hide Form, Posterior;
    forall x: Vec | |x| == n
      ensures Form(Posterior(h, p, r, m, n), x, x) <= Form(p, x, x)
    {
      CorrectShrinks(h, p, r, m, n, x);
    }
  }
}
