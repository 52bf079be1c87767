/** Matrices as sequences of rows, and the forms x'Ay that describe them. A product with
    a vector is `Dots(a, x)`. */
module Matrices {
  import opened Vectors

  type Matrix = seq<Vec>

  predicate IsMatrix(a: Matrix, rows: nat, columns: nat) {
    |a| == rows && AllOfSize(a, columns)
  }

  function Transpose(a: Matrix, columns: nat): (r: Matrix)
    requires AllOfSize(a, columns)
    ensures IsMatrix(r, columns, |a|)
  {
    seq(columns, j requires 0 <= j < columns => seq(|a|, i requires 0 <= i < |a| => a[i][j]))
  }

  /** The product: entry (i, j) is the dot product of row i of a and column j of b. */
  function Mul(a: Matrix, b: Matrix, columns: nat): (r: Matrix)
    requires AllOfSize(a, |b|) && AllOfSize(b, columns)
    ensures IsMatrix(r, |a|, columns)
  {
    seq(|a|, i requires 0 <= i < |a| => Dots(Transpose(b, columns), a[i]))
  }

  /** a + t b */
  function Add(a: Matrix, t: real, b: Matrix, columns: nat): (r: Matrix)
    requires |a| == |b| && AllOfSize(a, columns) && AllOfSize(b, columns)
    ensures IsMatrix(r, |a|, columns)
  {
    seq(|a|, i requires 0 <= i < |a| => Plus(a[i], t, b[i]))
  }

  function Identity(n: nat): (r: Matrix)
    ensures IsMatrix(r, n, n)
  {
    seq(n, i requires 0 <= i => Unit(n, i))
  }

  /** x'Ay */
  function Form(a: Matrix, x: Vec, y: Vec): real
    requires |x| == |a| && AllOfSize(a, |y|)
  {
    Dot(x, Dots(a, y))
  }

  // ----- products and transposes

  lemma {:induction false} CombIsTranspose(l: Vec, a: Matrix, columns: nat, j: nat, k: nat)
    requires AllOfSize(a, columns) && |l| == |a| && j < columns && k <= |a|
    ensures Comb(l, a, columns, k)[j] == DotTo(Transpose(a, columns)[j], l, k)
  {
    if k == 0 {
    } else {
      CombIsTranspose(l, a, columns, j, k - 1);
    }
  }

  lemma TransposeApplied(a: Matrix, columns: nat, x: Vec)
    requires IsMatrix(a, |x|, columns)
    ensures Dots(Transpose(a, columns), x) == Comb(x, a, columns, |a|)
  {
    hide Comb, Transpose;
    var l, r := Dots(Transpose(a, columns), x), Comb(x, a, columns, |a|);
    forall j | 0 <= j < columns
      ensures l[j] == r[j]
    {
      CombIsTranspose(x, a, columns, j, |a|);
    }
    assert l == r;
  }

  /** x'(Ay) == (A'x)'y */
  lemma Adjoint(a: Matrix, x: Vec, y: Vec)
    requires IsMatrix(a, |x|, |y|)
    ensures Dot(x, Dots(a, y)) == Dot(Dots(Transpose(a, |y|), x), y)
  {
    hide Comb, Transpose, DotTo;
    TransposeApplied(a, |y|, x);
    DotComb(x, a, y, |a|);
  }

  /** (AB)x == A(Bx) */
  lemma Associative(a: Matrix, b: Matrix, x: Vec)
    requires AllOfSize(a, |b|) && AllOfSize(b, |x|)
    ensures Dots(Mul(a, b, |x|), x) == Dots(a, Dots(b, x))
  {
    hide Dot, Transpose;
    var l, r := Dots(Mul(a, b, |x|), x), Dots(a, Dots(b, x));
    forall i | 0 <= i < |a|
      ensures l[i] == r[i]
    {
      assert Mul(a, b, |x|)[i] == Dots(Transpose(b, |x|), a[i]);
      Adjoint(b, a[i], x);
    }
    assert l == r;
  }

  lemma AddApplied(a: Matrix, t: real, b: Matrix, x: Vec)
    requires |a| == |b| && AllOfSize(a, |x|) && AllOfSize(b, |x|)
    ensures Dots(Add(a, t, b, |x|), x) == Plus(Dots(a, x), t, Dots(b, x))
  {
    hide Dot;
    var l, r := Dots(Add(a, t, b, |x|), x), Plus(Dots(a, x), t, Dots(b, x));
    forall i | 0 <= i < |a|
      ensures l[i] == r[i]
    {
      DotPlus(a[i], t, b[i], x);
    }
    assert l == r;
  }

  lemma IdentityApplied(n: nat, x: Vec)
    requires |x| == n
    ensures Dots(Identity(n), x) == x
  {
    forall i | 0 <= i < n
      ensures Dots(Identity(n), x)[i] == x[i]
    {
      UnitTo(n, i, x, n);
    }
  }

  lemma AppliedPlus(a: Matrix, x: Vec, t: real, y: Vec)
    requires |x| == |y| && AllOfSize(a, |x|)
    ensures Dots(a, Plus(x, t, y)) == Plus(Dots(a, x), t, Dots(a, y))
  {
    hide Dot;
    var l, r := Dots(a, Plus(x, t, y)), Plus(Dots(a, x), t, Dots(a, y));
    forall i | 0 <= i < |a|
      ensures l[i] == r[i]
    {
      DotPlus(x, t, y, a[i]);
    }
    assert l == r;
  }

  // ----- forms

  lemma FormPlus(a: Matrix, x: Vec, t: real, y: Vec, z: Vec)
    requires |x| == |y| == |a| && AllOfSize(a, |z|)
    ensures Form(a, Plus(x, t, y), z) == Form(a, x, z) + t * Form(a, y, z)
  {
    DotPlus(x, t, y, Dots(a, z));
  }

  lemma FormPlusRight(a: Matrix, z: Vec, x: Vec, t: real, y: Vec)
    requires |x| == |y| && |z| == |a| && AllOfSize(a, |x|)
    ensures Form(a, z, Plus(x, t, y)) == Form(a, z, x) + t * Form(a, z, y)
  {
    AppliedPlus(a, x, t, y);
    DotPlus(Dots(a, x), t, Dots(a, y), z);
  }

  lemma FormOfAdd(a: Matrix, t: real, b: Matrix, x: Vec, y: Vec)
    requires |a| == |b| == |x| && AllOfSize(a, |y|) && AllOfSize(b, |y|)
    ensures Form(Add(a, t, b, |y|), x, y) == Form(a, x, y) + t * Form(b, x, y)
  {
    AddApplied(a, t, b, y);
    DotPlus(Dots(a, y), t, Dots(b, y), x);
  }

  /** x'(A P A')y == (A'x)'P(A'y) */
  lemma FormOfCongruence(a: Matrix, p: Matrix, n: nat, x: Vec, y: Vec)
    requires IsMatrix(p, n, n) && IsMatrix(a, |x|, n) && |x| == |y|
    ensures Form(Mul(Mul(a, p, n), Transpose(a, n), |y|), x, y)
         == Form(p, Dots(Transpose(a, n), x), Dots(Transpose(a, n), y))
  {
    hide Dots, Transpose, Mul, Dot;
    var t := Transpose(a, n);
    Associative(Mul(a, p, n), t, y);
    Associative(a, p, Dots(t, y));
    Adjoint(a, x, Dots(p, Dots(t, y)));
  }

  predicate Symmetrical(a: Matrix, n: nat) {
    IsMatrix(a, n, n) && forall i, j :: 0 <= i < n && 0 <= j < n ==> a[i][j] == a[j][i]
  }

  ghost predicate Semidefinite(a: Matrix, n: nat) {
    IsMatrix(a, n, n) && forall x: Vec :: |x| == n ==> Form(a, x, x) >= 0.0
  }

  ghost predicate Definite(a: Matrix, n: nat) {
    IsMatrix(a, n, n) && forall x: Vec :: |x| == n && x != Zero(n) ==> Form(a, x, x) > 0.0
  }

  ghost predicate Covariance(a: Matrix, n: nat) {
    Symmetrical(a, n) && Semidefinite(a, n)
  }

  lemma TransposeOfSymmetrical(a: Matrix, n: nat)
    requires Symmetrical(a, n)
    ensures Transpose(a, n) == a
  {
    var t := Transpose(a, n);
    forall i | 0 <= i < n
      ensures t[i] == a[i]
    {
      assert forall j :: 0 <= j < n ==> t[i][j] == a[i][j];
    }
  }

  lemma FormSymmetric(a: Matrix, n: nat, x: Vec, y: Vec)
    requires Symmetrical(a, n) && |x| == |y| == n
    ensures Form(a, x, y) == Form(a, y, x)
  {
    TransposeOfSymmetrical(a, n);
    Adjoint(a, x, y);
    Symmetric(Dots(a, x), y);
  }

  lemma EntryIsForm(a: Matrix, n: nat, i: nat, j: nat)
    requires IsMatrix(a, n, n) && i < n && j < n
    ensures Form(a, Unit(n, i), Unit(n, j)) == a[i][j]
  {
    UnitTo(n, i, Dots(a, Unit(n, j)), n);
    UnitTo(n, j, a[i], n);
    Symmetric(a[i], Unit(n, j));
  }

  lemma SymmetricByForms(a: Matrix, n: nat)
    requires IsMatrix(a, n, n)
    requires forall x: Vec, y: Vec :: |x| == |y| == n ==> Form(a, x, y) == Form(a, y, x)
    ensures Symmetrical(a, n)
  {
    hide Form, Unit;
    forall i, j | 0 <= i < n && 0 <= j < n
      ensures a[i][j] == a[j][i]
    {
      EntryIsForm(a, n, i, j);
      EntryIsForm(a, n, j, i);
    }
  }

  lemma EqualByForms(a: Matrix, b: Matrix, n: nat)
    requires IsMatrix(a, n, n) && IsMatrix(b, n, n)
    requires forall x: Vec, y: Vec :: |x| == |y| == n ==> Form(a, x, y) == Form(b, x, y)
    ensures a == b
  {
    hide Form, Unit;
    forall i, j | 0 <= i < n && 0 <= j < n
      ensures a[i][j] == b[i][j]
    {
      EntryIsForm(a, n, i, j);
      EntryIsForm(b, n, i, j);
    }
    forall i | 0 <= i < n
      ensures a[i] == b[i]
    {
      assert forall j :: 0 <= j < n ==> a[i][j] == b[i][j];
    }
  }

  // ----- the inverse of a positive definite matrix, by elimination

  /** The matrix without its last row and column, the last unknown eliminated */
  function Schur(s: Matrix, n: nat): (r: Matrix)
    requires n > 0 && IsMatrix(s, n, n) && s[n-1][n-1] != 0.0
    ensures IsMatrix(r, n - 1, n - 1)
  {
    seq(n - 1, i requires 0 <= i < n - 1 => Plus(s[i][..n-1], -s[i][n-1] / s[n-1][n-1], s[n-1][..n-1]))
  }

  lemma {:induction false} DotLast(x: Vec, y: Vec)
    requires |x| == |y| > 0
    ensures Dot(x, y) == Dot(x[..|x|-1], y[..|x|-1]) + x[|x|-1] * y[|x|-1]
  {
    var k := |x| - 1;
    assert x[..k] == x[..k][..k] && y[..k] == y[..k][..k];
    DotToCongruent(x, y, y[..k], k);
    DotToCongruent(y[..k], x, x[..k], k);
  }

  /** The last unknown that makes the last row of s x vanish */
  function Vanishing(s: Matrix, n: nat, y: Vec): real
    requires n > 0 && IsMatrix(s, n, n) && s[n-1][n-1] != 0.0 && |y| == n - 1
  {
    -Dot(s[n-1][..n-1], y) / s[n-1][n-1]
  }

  lemma SchurApplied(s: Matrix, n: nat, y: Vec)
    requires n > 0 && IsMatrix(s, n, n) && s[n-1][n-1] != 0.0 && |y| == n - 1
    ensures Dots(s, y + [Vanishing(s, n, y)]) == Dots(Schur(s, n), y) + [0.0]
  {
    hide Dot;
    var k, a, e := n - 1, s[n-1][n-1], Dot(s[n-1][..n-1], y);
    var t := Vanishing(s, n, y);
    var x := y + [t];
    assert x[..k] == y;
    assert t * a == -e;
    forall i | 0 <= i < n
      ensures Dots(s, x)[i] == (Dots(Schur(s, n), y) + [0.0])[i]
    {
      DotLast(s[i], x);
      if i < k {
        DotPlus(s[i][..k], -s[i][k] / a, s[k][..k], y);
        Eliminated(s[i][k], a, e, t);
      } else {
        assert Dots(s, x)[k] == e + a * t;
      }
    }
  }

  lemma Eliminated(c: real, a: real, e: real, t: real)
    requires a != 0.0 && t * a == -e
    ensures c * t == (-c / a) * e
  {
    var q := -c / a;
    assert q * a == -c;
    assert q * e == -(q * (t * a)) == -((q * a) * t);
  }

  lemma PivotPositive(s: Matrix, n: nat)
    requires n > 0 && Definite(s, n)
    ensures s[n-1][n-1] > 0.0
  {
    var e := Unit(n, n - 1);
    assert e[n-1] == 1.0 && Zero(n)[n-1] == 0.0;
    EntryIsForm(s, n, n - 1, n - 1);
  }

  lemma SchurDefinite(s: Matrix, n: nat)
    requires n > 0 && Definite(s, n)
    ensures s[n-1][n-1] > 0.0 && Definite(Schur(s, n), n - 1)
  {
    hide Dot;
    PivotPositive(s, n);
    forall y: Vec | |y| == n - 1 && y != Zero(n - 1)
      ensures Form(Schur(s, n), y, y) > 0.0
    {
      var x := y + [Vanishing(s, n, y)];
      SchurApplied(s, n, y);
      assert x[..n-1] == y;
      var z := Dots(s, x);
      assert z[..n-1] == Dots(Schur(s, n), y);
      DotLast(x, z);
      assert Zero(n)[..n-1] == Zero(n - 1);
      assert x != Zero(n);
      assert Form(s, x, x) > 0.0;
    }
  }

  /** The right side once the last unknown is eliminated */
  function Reduced(s: Matrix, n: nat, w: Vec): (r: Vec)
    requires n > 0 && IsMatrix(s, n, n) && s[n-1][n-1] != 0.0 && |w| == n
    ensures |r| == n - 1
  {
    seq(n - 1, i requires 0 <= i < n - 1 => w[i] - s[i][n-1] * w[n-1] / s[n-1][n-1])
  }

  /** The solution of s x = w */
  function Solve(s: Matrix, n: nat, w: Vec): (x: Vec)
    requires IsMatrix(s, n, n) && |w| == n && Definite(s, n)
    ensures |x| == n
    decreases n
  {
    if n == 0 then []
    else
      SchurDefinite(s, n);
      var y := Solve(Schur(s, n), n - 1, Reduced(s, n, w));
      y + [(w[n-1] - Dot(s[n-1][..n-1], y)) / s[n-1][n-1]]
  }

  lemma {:induction false} SolveSolves(s: Matrix, n: nat, w: Vec)
    requires Definite(s, n) && |w| == n
    ensures Dots(s, Solve(s, n, w)) == w
    decreases n
  {
    hide Dot, Schur, Reduced, Dots;
    if n == 0 {
    } else {
      SchurDefinite(s, n);
      var y := Solve(Schur(s, n), n - 1, Reduced(s, n, w));
      SolveSolves(Schur(s, n), n - 1, Reduced(s, n, w));
      SolvedRows(s, n, w, y);
    }
  }

  lemma SolvedRows(s: Matrix, n: nat, w: Vec, y: Vec)
    requires n > 0 && IsMatrix(s, n, n) && s[n-1][n-1] != 0.0 && |w| == n && |y| == n - 1
    requires Dots(Schur(s, n), y) == Reduced(s, n, w)
    ensures Dots(s, y + [(w[n-1] - Dot(s[n-1][..n-1], y)) / s[n-1][n-1]]) == w
  {
    hide Dot, Schur, Reduced;
    var x := y + [(w[n-1] - Dot(s[n-1][..n-1], y)) / s[n-1][n-1]];
    forall i | 0 <= i < n
      ensures Dots(s, x)[i] == w[i]
    {
      SolvedRow(s, n, w, y, x, i);
    }
    assert Dots(s, x) == w;
  }

  lemma SchurRow(s: Matrix, n: nat, y: Vec, i: nat)
    requires n > 0 && IsMatrix(s, n, n) && s[n-1][n-1] != 0.0 && |y| == n - 1 && i < n - 1
    ensures Dots(Schur(s, n), y)[i] == Dot(s[i][..n-1], y) + (-s[i][n-1] / s[n-1][n-1]) * Dot(s[n-1][..n-1], y)
  {
    hide Dot;
    DotPlus(s[i][..n-1], -s[i][n-1] / s[n-1][n-1], s[n-1][..n-1], y);
  }

  lemma ReducedAt(s: Matrix, n: nat, w: Vec, i: nat)
    requires n > 0 && IsMatrix(s, n, n) && s[n-1][n-1] != 0.0 && |w| == n && i < n - 1
    ensures Reduced(s, n, w)[i] == w[i] - s[i][n-1] * w[n-1] / s[n-1][n-1]
  {}

  lemma SolvedRow(s: Matrix, n: nat, w: Vec, y: Vec, x: Vec, i: nat)
    requires n > 0 && IsMatrix(s, n, n) && s[n-1][n-1] != 0.0 && |w| == n && |y| == n - 1 && i < n
    requires Dots(Schur(s, n), y) == Reduced(s, n, w)
    requires x == y + [(w[n-1] - Dot(s[n-1][..n-1], y)) / s[n-1][n-1]]
    ensures Dot(s[i], x) == w[i]
  {
    hide Dot, Schur, Reduced;
    var k, a, e := n - 1, s[n-1][n-1], Dot(s[n-1][..n-1], y);
    var last := (w[k] - e) / a;
    assert x[..k] == y && x[k] == last;
    DotLast(s[i], x);
    if i < k {
      SchurRow(s, n, y, i);
      ReducedAt(s, n, w, i);
      BackSubstituted(s[i][k], a, e, w[k], last);
    } else {
      assert a * last == w[k] - e;
    }
  }

  lemma BackSubstituted(c: real, a: real, e: real, w: real, last: real)
    requires a != 0.0 && last == (w - e) / a
    ensures c * last == (-c / a) * e + c * w / a
  {
    var q, g := w / a, -e / a;
    assert q * a == w && g * a == -e;
    Eliminated(c, a, e, g);
    assert (last - q - g) * a == 0.0;
    assert last == q + g;
    assert c * last == c * q + c * g;
    QuotientOfProduct(c, w, a, q);
  }

  lemma QuotientOfProduct(c: real, w: real, a: real, q: real)
    requires a != 0.0 && q * a == w
    ensures c * w / a == c * q
  {
    assert (c * q) * a == c * w;
  }

  /** A positive definite matrix is injective. */
  lemma DefiniteInjective(s: Matrix, n: nat, x: Vec, y: Vec)
    requires Definite(s, n) && |x| == |y| == n && Dots(s, x) == Dots(s, y)
    ensures x == y
  {
    hide Dot;
    var e := Minus(x, y);
    AppliedPlus(s, x, -1.0, y);
    assert Dots(s, e) == Zero(n);
    DotZero(n, e);
    assert Form(s, e, e) == 0.0;
    assert e == Zero(n);
    forall i | 0 <= i < n
      ensures x[i] == y[i]
    {
      assert e[i] == 0.0;
    }
  }

  /** The inverse: its columns solve for the unit vectors. */
  function Inverse(s: Matrix, n: nat): (t: Matrix)
    requires IsMatrix(s, n, n) && Definite(s, n)
    ensures IsMatrix(t, n, n)
  {
    Transpose(seq(n, j requires 0 <= j < n => Solve(s, n, Unit(n, j))), n)
  }

  lemma InverseColumn(s: Matrix, n: nat, j: nat)
    requires Definite(s, n) && j < n
    ensures Transpose(Inverse(s, n), n)[j] == Solve(s, n, Unit(n, j))
  {
    hide Solve, Unit;
  }

  /** A positive definite matrix times its inverse is the identity. */
  lemma InverseIsRight(s: Matrix, n: nat)
    requires Definite(s, n)
    ensures Mul(s, Inverse(s, n), n) == Identity(n)
  {
    hide Dot, Solve, Inverse;
    var p := Mul(s, Inverse(s, n), n);
    forall i, j | 0 <= i < n && 0 <= j < n
      ensures p[i][j] == Unit(n, i)[j]
    {
      var x := Solve(s, n, Unit(n, j));
      SolveSolves(s, n, Unit(n, j));
      InverseColumn(s, n, j);
      assert p[i][j] == Dot(x, s[i]);
      Symmetric(x, s[i]);
      assert Dots(s, x)[i] == Unit(n, j)[i];
    }
    hide *;
    forall i | 0 <= i < n
      ensures p[i] == Identity(n)[i]
    {
      assert forall j :: 0 <= j < n ==> p[i][j] == Unit(n, i)[j];
      IdentityRow(n, i);
    }
  }

  lemma IdentityRow(n: nat, i: nat)
    requires i < n
    ensures Identity(n)[i] == Unit(n, i)
  {}

  lemma RightInverseApplied(s: Matrix, t: Matrix, n: nat, w: Vec)
    requires IsMatrix(s, n, n) && IsMatrix(t, n, n) && Mul(s, t, n) == Identity(n) && |w| == n
    ensures Dots(s, Dots(t, w)) == w
  {
    Associative(s, t, w);
    IdentityApplied(n, w);
  }

  lemma InverseApplied(s: Matrix, n: nat, w: Vec)
    requires Definite(s, n) && |w| == n
    ensures Dots(s, Dots(Inverse(s, n), w)) == w && Dots(Inverse(s, n), Dots(s, w)) == w
  {
    hide Inverse, Mul;
    InverseIsRight(s, n);
    RightInverseApplied(s, Inverse(s, n), n, w);
    RightInverseApplied(s, Inverse(s, n), n, Dots(s, w));
    DefiniteInjective(s, n, w, Dots(Inverse(s, n), Dots(s, w)));
  }

  /** Any right inverse of a positive definite matrix is the inverse. */
  lemma InverseIsUnique(s: Matrix, n: nat, t: Matrix)
    requires Definite(s, n) && IsMatrix(t, n, n) && Mul(s, t, n) == Identity(n)
    ensures t == Inverse(s, n)
  {
    hide Inverse, Mul, Dots;
    InverseIsRight(s, n);
    forall x: Vec, y: Vec | |x| == |y| == n
      ensures Form(t, x, y) == Form(Inverse(s, n), x, y)
    {
      RightInverseApplied(s, t, n, y);
      RightInverseApplied(s, Inverse(s, n), n, y);
      DefiniteInjective(s, n, Dots(t, y), Dots(Inverse(s, n), y));
    }
    EqualByForms(t, Inverse(s, n), n);
  }

  /** The inverse of a symmetric positive definite matrix is again one. */
  lemma InverseCovariance(s: Matrix, n: nat)
    requires Symmetrical(s, n) && Definite(s, n)
    ensures Covariance(Inverse(s, n), n)
    ensures Definite(Inverse(s, n), n)
  {
    hide Inverse, Mul, Dots, Dot;
    var t := Inverse(s, n);
    forall x: Vec, y: Vec | |x| == |y| == n
      ensures Form(t, x, y) == Form(t, y, x)
    {
      InverseForm(s, n, x, y);
      InverseForm(s, n, y, x);
      FormSymmetric(s, n, Dots(t, x), Dots(t, y));
    }
    SymmetricByForms(t, n);
    forall x: Vec | |x| == n
      ensures Form(t, x, x) >= 0.0 && (x != Zero(n) ==> Form(t, x, x) > 0.0)
    {
      InverseForm(s, n, x, x);
      InverseApplied(s, n, x);
      if Dots(t, x) == Zero(n) {
        ZeroApplied(s, n);
        DotZero(n, x);
      }
    }
  }

  lemma ZeroApplied(s: Matrix, n: nat)
    requires IsMatrix(s, n, n)
    ensures Dots(s, Zero(n)) == Zero(n)
  {
    hide Dot;
    forall i | 0 <= i < n
      ensures Dots(s, Zero(n))[i] == 0.0
    {
      DotZero(n, s[i]);
    }
  }

  /** x'Ty == (Ty)'S(Tx) for T the inverse of S */
  lemma InverseForm(s: Matrix, n: nat, x: Vec, y: Vec)
    requires Definite(s, n) && |x| == |y| == n
    ensures Form(Inverse(s, n), x, y) == Form(s, Dots(Inverse(s, n), y), Dots(Inverse(s, n), x))
  {
    hide Inverse, Dot;
    InverseApplied(s, n, x);
    Symmetric(x, Dots(Inverse(s, n), y));
  }
}
