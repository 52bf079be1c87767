/** The quadratic program of one allocation step, and what the two solver formats denote.
    The unknowns are x = (du, dalpha, s): m changes of thrust, m changes of angle and
    the three components of the error of the resulting force. */
module QuadraticProgram {
  import opened Vectors

  /** The data of one step: the two 3 x m matrices, the right side, the box, and the
      linear and the (diagonal) quadratic objective. */
  datatype Step = Step(
    bAlpha: seq<Vec>, dBalphaU: seq<Vec>, b: Vec,
    lowerU: Vec, upperU: Vec, lowerAlpha: Vec, upperAlpha: Vec,
    gU: Vec, dRho: Vec,
    qU: Vec, omega: Vec, q: Vec)

  ghost predicate IsStep(d: Step, m: nat) {
    && |d.bAlpha| == |d.dBalphaU| == |d.b| == |d.q| == 3
    && (forall r :: 0 <= r < 3 ==> |d.bAlpha[r]| == m)
    && (forall r :: 0 <= r < 3 ==> |d.dBalphaU[r]| == m)
    && |d.lowerU| == |d.upperU| == |d.lowerAlpha| == |d.upperAlpha| == m
    && |d.gU| == |d.dRho| == |d.qU| == |d.omega| == m
  }

  // ----- the program itself

  function Balance(d: Step, m: nat, x: Vec, r: nat): real
    requires IsStep(d, m) && |x| == 2 * m + 3 && r < 3
  {
    DotTo(d.bAlpha[r], x, m) + DotTo(d.dBalphaU[r], x[m..], m) + x[2 * m + r]
  }

  ghost predicate InBox(d: Step, m: nat, x: Vec)
    requires IsStep(d, m) && |x| == 2 * m + 3
  {
    && (forall i :: 0 <= i < m ==> d.lowerU[i] <= x[i] <= d.upperU[i])
    && (forall i :: 0 <= i < m ==> d.lowerAlpha[i] <= x[m + i] <= d.upperAlpha[i])
  }

  ghost predicate Feasible(d: Step, m: nat, x: Vec)
    requires IsStep(d, m)
  {
    && |x| == 2 * m + 3
    && (forall r :: 0 <= r < 3 ==> Balance(d, m, x, r) == d.b[r])
    && InBox(d, m, x)
  }

  function SquaresTo(w: Vec, x: Vec, k: nat): real
    requires k <= |w| && k <= |x|
  {
    if k == 0 then 0.0 else SquaresTo(w, x, k - 1) + w[k-1] * (x[k-1] * x[k-1])
  }

  /** The linear costs of the changes of thrust and of angle, and half the weighted squares
      of both and of the force error */
  function Objective(d: Step, m: nat, x: Vec): real
    requires IsStep(d, m) && |x| == 2 * m + 3
  {
    var du, dalpha, s := x[..m], x[m..2 * m], x[2 * m..];
    Dot(d.gU, du) + Dot(d.dRho, dalpha)
    + 0.5 * (SquaresTo(d.qU, du, m) + SquaresTo(d.omega, dalpha, m) + SquaresTo(d.q, s, 3))
  }

  /** The linear and the quadratic coefficients of all unknowns */
  function Linear(d: Step): Vec {
    d.gU + d.dRho + [0.0, 0.0, 0.0]
  }

  function Diagonal(d: Step): Vec {
    d.qU + d.omega + d.q
  }

  lemma {:induction false} SquaresOfConcat(v: Vec, w: Vec, x: Vec, k: nat)
    requires k <= |w| && |v| + k <= |x|
    ensures SquaresTo(v + w, x, |v| + k) == SquaresTo(v, x[..|v|], |v|) + SquaresTo(w, x[|v|..], k)
  {
    if k == 0 {
      SquaresOfPrefix(v, w, x, |v|);
    } else {
      SquaresOfConcat(v, w, x, k - 1);
    }
  }

  lemma {:induction false} SquaresOfPrefix(v: Vec, w: Vec, x: Vec, k: nat)
    requires k <= |v| <= |x|
    ensures SquaresTo(v + w, x, k) == SquaresTo(v, x[..|v|], k)
  {
    if k == 0 {
    } else {
      SquaresOfPrefix(v, w, x, k - 1);
    }
  }

  lemma {:induction false} DotOfConcat(v: Vec, w: Vec, x: Vec, k: nat)
    requires k <= |w| && |v| + k <= |x|
    ensures DotTo(v + w, x, |v| + k) == DotTo(v, x[..|v|], |v|) + DotTo(w, x[|v|..], k)
  {
    if k == 0 {
      DotOfPrefix(v, w, x, |v|);
    } else {
      DotOfConcat(v, w, x, k - 1);
    }
  }

  lemma {:induction false} DotOfPrefix(v: Vec, w: Vec, x: Vec, k: nat)
    requires k <= |v| <= |x|
    ensures DotTo(v + w, x, k) == DotTo(v, x[..|v|], k)
  {
    if k == 0 {
    } else {
      DotOfPrefix(v, w, x, k - 1);
    }
  }

  lemma NoCost(x: Vec)
    requires |x| == 3
    ensures DotTo([0.0, 0.0, 0.0], x, 3) == 0.0
  {
    DotZero(3, x);
    assert Zero(3) == [0.0, 0.0, 0.0];
  }

  /** The objective in terms of all coefficients */
  lemma ObjectiveIs(d: Step, m: nat, x: Vec)
    requires IsStep(d, m) && |x| == 2 * m + 3
    ensures |Linear(d)| == |Diagonal(d)| == 2 * m + 3
    ensures Objective(d, m, x) == Dot(Linear(d), x) + 0.5 * SquaresTo(Diagonal(d), x, 2 * m + 3)
  {
    hide DotTo, SquaresTo;
    assert x[..2 * m][..m] == x[..m] && x[..2 * m][m..] == x[m..2 * m];
    DotOfConcat(d.gU + d.dRho, [0.0, 0.0, 0.0], x, 3);
    DotOfConcat(d.gU, d.dRho, x[..2 * m], m);
    NoCost(x[2 * m..]);
    SquaresOfConcat(d.qU + d.omega, d.q, x, 3);
    SquaresOfConcat(d.qU, d.omega, x[..2 * m], m);
  }

  // ----- compressed columns

  /** Column c holds vals[k] in row rows[k] for begins[c] <= k < ends[c]. */
  datatype Columns = Columns(begins: seq<int>, ends: seq<int>, rows: seq<int>, vals: Vec)

  ghost predicate IsColumns(a: Columns, n: nat) {
    && |a.begins| == |a.ends| == n
    && |a.rows| == |a.vals|
    && forall c :: 0 <= c < n ==> 0 <= a.begins[c] <= a.ends[c] <= |a.vals|
  }

  /** The columns follow each other without gaps, and the rows within each are
      strictly increasing and below height. */
  ghost predicate WellFormed(a: Columns, n: nat, height: nat) {
    && IsColumns(a, n)
    && n > 0 && a.begins[0] == 0 && a.ends[n - 1] == |a.vals|
    && (forall c :: 0 < c < n ==> a.begins[c] == a.ends[c - 1])
    && (forall k :: 0 <= k < |a.rows| ==> 0 <= a.rows[k] < height)
    && (forall c, k :: 0 <= c < n && a.begins[c] <= k < a.ends[c] - 1 ==> a.rows[k] < a.rows[k + 1])
  }

  /** The coefficient in row r of the entries b .. e */
  function Coefficient(rows: seq<int>, vals: Vec, b: int, e: int, r: int): real
    requires 0 <= b <= e <= |rows| == |vals|
    decreases e - b
  {
    if b == e then 0.0
    else (if rows[b] == r then vals[b] else 0.0) + Coefficient(rows, vals, b + 1, e, r)
  }

  function At(a: Columns, n: nat, r: int, c: nat): real
    requires IsColumns(a, n) && c < n
  {
    Coefficient(a.rows, a.vals, a.begins[c], a.ends[c], r)
  }

  /** Row r of the matrix times x, over the first k columns */
  function RowTo(a: Columns, n: nat, r: int, x: Vec, k: nat): real
    requires IsColumns(a, n) && k <= n && k <= |x|
  {
    if k == 0 then 0.0 else RowTo(a, n, r, x, k - 1) + At(a, n, r, k - 1) * x[k-1]
  }

  // ----- what the solvers are given

  datatype Key = Range | Free | Fixed

  datatype MosekData = MosekData(
    a: Columns, bkx: seq<Key>, blx: Vec, bux: Vec, bkc: seq<Key>, blc: Vec, buc: Vec,
    qsubi: seq<int>, qsubj: seq<int>, qval: Vec, g: Vec)

  predicate Within(key: Key, lower: real, upper: real, v: real) {
    match key
    case Range => lower <= v <= upper
    case Free => true
    case Fixed => v == lower
  }

  ghost predicate IsMosek(p: MosekData, n: nat) {
    && IsColumns(p.a, n)
    && |p.bkx| == |p.blx| == |p.bux| == |p.g| == n
    && |p.bkc| == |p.blc| == |p.buc| == 3
    && |p.qsubi| == |p.qsubj| == |p.qval|
    && (forall k :: 0 <= k < |p.qsubi| ==> 0 <= p.qsubi[k] < n)
    && (forall k :: 0 <= k < |p.qsubj| ==> 0 <= p.qsubj[k] < n)
  }

  ghost predicate MosekFeasible(p: MosekData, n: nat, x: Vec)
    requires IsMosek(p, n)
  {
    && |x| == n
    && (forall j :: 0 <= j < n ==> Within(p.bkx[j], p.blx[j], p.bux[j], x[j]))
    && (forall r :: 0 <= r < 3 ==> Within(p.bkc[r], p.blc[r], p.buc[r], RowTo(p.a, n, r, x, n)))
  }

  /** One entry of a triangle of a symmetric matrix: its share of x'Qx / 2 */
  function Share(i: int, j: int, q: real, x: Vec): real
    requires 0 <= i < |x| && 0 <= j < |x|
  {
    if i == j then 0.5 * (q * (x[i] * x[i])) else q * (x[i] * x[j])
  }

  function TripletsTo(p: MosekData, n: nat, x: Vec, k: nat): real
    requires IsMosek(p, n) && |x| == n && k <= |p.qsubi|
  {
    if k == 0 then 0.0 else TripletsTo(p, n, x, k - 1) + Share(p.qsubi[k-1], p.qsubj[k-1], p.qval[k-1], x)
  }

  function MosekObjective(p: MosekData, n: nat, x: Vec): real
    requires IsMosek(p, n) && |x| == n
  {
    Dot(p.g, x) + TripletsTo(p, n, x, |p.qsubi|)
  }

  /** A bound that may be OSQP_INFTY or its negative */
  datatype Bound = Below | Finite(value: real) | Above

  predicate AtLeast(v: real, l: Bound) {
    match l
    case Below => true
    case Finite(value) => value <= v
    case Above => false
  }

  predicate AtMost(v: real, u: Bound) {
    match u
    case Below => false
    case Finite(value) => v <= value
    case Above => true
  }

  datatype OsqpData = OsqpData(p: Columns, q: Vec, a: Columns, l: seq<Bound>, u: seq<Bound>)

  ghost predicate IsOsqp(p: OsqpData, n: nat) {
    && IsColumns(p.p, n) && IsColumns(p.a, n)
    && (forall k :: 0 <= k < |p.p.rows| ==> 0 <= p.p.rows[k] < n)
    && |p.q| == n && |p.l| == |p.u|
  }

  ghost predicate OsqpFeasible(p: OsqpData, n: nat, x: Vec)
    requires IsOsqp(p, n)
  {
    && |x| == n
    && forall r :: 0 <= r < |p.l| ==>
         AtLeast(RowTo(p.a, n, r, x, n), p.l[r]) && AtMost(RowTo(p.a, n, r, x, n), p.u[r])
  }

  function ColumnShare(a: Columns, c: int, x: Vec, b: int, e: int): real
    requires 0 <= b <= e <= |a.rows| == |a.vals| && 0 <= c < |x|
    requires forall k :: 0 <= k < |a.rows| ==> 0 <= a.rows[k] < |x|
    decreases e - b
  {
    if b == e then 0.0 else Share(a.rows[b], c, a.vals[b], x) + ColumnShare(a, c, x, b + 1, e)
  }

  function SharesTo(p: OsqpData, n: nat, x: Vec, k: nat): real
    requires IsOsqp(p, n) && |x| == n && k <= n
  {
    if k == 0 then 0.0
    else SharesTo(p, n, x, k - 1) + ColumnShare(p.p, k - 1, x, p.p.begins[k-1], p.p.ends[k-1])
  }

  function OsqpObjective(p: OsqpData, n: nat, x: Vec): real
    requires IsOsqp(p, n) && |x| == n
  {
    Dot(p.q, x) + SharesTo(p, n, x, n)
  }

  // ----- the contents of the buffers after an update

  function MosekRow(m: nat, k: nat): int {
    if k < 6 * m then k % 3 else k - 6 * m
  }

  function MosekValue(d: Step, m: nat, k: nat): real
    requires IsStep(d, m)
  {
    if k < 3 * m then d.bAlpha[k % 3][k / 3]
    else if k < 6 * m then d.dBalphaU[k % 3][k / 3 - m]
    else 1.0
  }

  function MosekColumns(d: Step, m: nat): Columns
    requires IsStep(d, m)
  {
    Columns(
      seq(2 * m + 3, c requires 0 <= c => if c < 2 * m then 3 * c else 4 * m + c),
      seq(2 * m + 3, c requires 0 <= c => if c < 2 * m then 3 * c + 3 else 4 * m + c + 1),
      seq(6 * m + 3, k requires 0 <= k => MosekRow(m, k)),
      seq(6 * m + 3, k requires 0 <= k => MosekValue(d, m, k)))
  }

  function OsqpRow(m: nat, k: nat): int {
    if k < 8 * m then if k % 4 == 3 then k / 4 + 3 else k % 4
    else if (k - 8 * m) % 2 == 0 then (k - 8 * m) / 2 else 2 * m + 3 + (k - 8 * m) / 2
  }

  function OsqpValue(d: Step, m: nat, k: nat): real
    requires IsStep(d, m)
  {
    if k < 8 * m && k % 4 != 3 then
      if k < 4 * m then d.bAlpha[k % 4][k / 4] else d.dBalphaU[k % 4][k / 4 - m]
    else 1.0
  }

  function OsqpColumns(d: Step, m: nat): Columns
    requires IsStep(d, m)
  {
    Columns(
      seq(2 * m + 3, c requires 0 <= c => if c < 2 * m then 4 * c else 4 * m + 2 * c),
      seq(2 * m + 3, c requires 0 <= c => if c < 2 * m then 4 * c + 4 else 4 * m + 2 * c + 2),
      seq(8 * m + 6, k requires 0 <= k => OsqpRow(m, k)),
      seq(8 * m + 6, k requires 0 <= k => OsqpValue(d, m, k)))
  }

  function MosekOf(d: Step, m: nat, infinity: real): MosekData
    requires IsStep(d, m)
  {
    MosekData(
      MosekColumns(d, m),
      seq(2 * m + 3, i => if i < 2 * m then Range else Free),
      d.lowerU + d.lowerAlpha + [-infinity, -infinity, -infinity],
      d.upperU + d.upperAlpha + [infinity, infinity, infinity],
      [Fixed, Fixed, Fixed], d.b, d.b,
      seq(2 * m + 3, i => i), seq(2 * m + 3, i => i), Diagonal(d), Linear(d))
  }

  function Finites(v: Vec): (r: seq<Bound>)
    ensures |r| == |v| && forall i :: 0 <= i < |v| ==> r[i] == Finite(v[i])
  {
    seq(|v|, i requires 0 <= i < |v| => Finite(v[i]))
  }

  function OsqpOf(d: Step, m: nat): OsqpData
    requires IsStep(d, m)
  {
    OsqpData(
      Columns(seq(2 * m + 3, i => i), seq(2 * m + 3, i => i + 1), seq(2 * m + 3, i => i), Diagonal(d)),
      Linear(d),
      OsqpColumns(d, m),
      Finites(d.b + d.lowerU + d.lowerAlpha) + [Below, Below, Below],
      Finites(d.b + d.upperU + d.upperAlpha) + [Above, Above, Above])
  }

  // ----- well-formed buffers

  lemma MosekRowAt(m: nat, c: nat, j: nat)
    requires j < 3
    ensures c < 2 * m ==> MosekRow(m, 3 * c + j) == j
    ensures MosekRow(m, 6 * m + j) == j
  {}

  lemma MosekColumn(d: Step, m: nat, c: nat, j: nat)
    requires IsStep(d, m) && c < 2 * m && j < 3
    ensures MosekValue(d, m, 3 * c + j) == if c < m then d.bAlpha[j][c] else d.dBalphaU[j][c - m]
    ensures MosekValue(d, m, 6 * m + j) == 1.0
  {}

  lemma MosekSlack(d: Step, m: nat, k: nat)
    requires IsStep(d, m) && 6 * m <= k
    ensures MosekValue(d, m, k) == 1.0
  {}

  lemma MosekRowRange(m: nat, k: nat)
    requires k < 6 * m + 3
    ensures 0 <= MosekRow(m, k) < 3
  {}

  lemma MosekWellFormed(d: Step, m: nat)
    requires IsStep(d, m)
    ensures WellFormed(MosekColumns(d, m), 2 * m + 3, 3) && |MosekColumns(d, m).vals| == 6 * m + 3
  {
    hide MosekRow, MosekValue;
    var a := MosekColumns(d, m);
    forall k | 0 <= k < 6 * m + 3
      ensures 0 <= a.rows[k] < 3
    {
      MosekRowRange(m, k);
    }
    forall c, k | 0 <= c < 2 * m + 3 && a.begins[c] <= k < a.ends[c] - 1
      ensures a.rows[k] < a.rows[k + 1]
    {
      if c < 2 * m {
        MosekRowAt(m, c, k - 3 * c);
        MosekRowAt(m, c, k + 1 - 3 * c);
      }
    }
  }

  lemma OsqpRowAt(m: nat, c: nat, j: nat)
    requires j < 4
    ensures c < 2 * m ==> OsqpRow(m, 4 * c + j) == if j < 3 then j else c + 3
    ensures j < 3 ==> OsqpRow(m, 8 * m + 2 * j) == j
    ensures j < 3 ==> OsqpRow(m, 8 * m + 2 * j + 1) == 2 * m + 3 + j
  {}

  lemma OsqpColumn(d: Step, m: nat, c: nat, j: nat)
    requires IsStep(d, m) && c < 2 * m && j < 4
    ensures OsqpValue(d, m, 4 * c + j) == if j == 3 then 1.0 else if c < m then d.bAlpha[j][c] else d.dBalphaU[j][c - m]
  {}

  lemma OsqpSlack(d: Step, m: nat, k: nat)
    requires IsStep(d, m) && 8 * m <= k
    ensures OsqpValue(d, m, k) == 1.0
  {}

  lemma OsqpOne(d: Step, m: nat, k: nat)
    requires IsStep(d, m) && (8 * m <= k || k % 4 == 3)
    ensures OsqpValue(d, m, k) == 1.0
  {}

  lemma OsqpRowRange(m: nat, k: nat)
    requires k < 8 * m + 6
    ensures 0 <= OsqpRow(m, k) < 2 * m + 6
  {}

  /** The compressed columns given to OSQP are well formed, with 8 m + 6 entries. */
  lemma OsqpWellFormed(d: Step, m: nat)
    requires IsStep(d, m)
    ensures WellFormed(OsqpColumns(d, m), 2 * m + 3, 2 * m + 6) && |OsqpColumns(d, m).vals| == 8 * m + 6
  {
    hide OsqpRow, OsqpValue;
    var a := OsqpColumns(d, m);
    forall k | 0 <= k < 8 * m + 6
      ensures 0 <= a.rows[k] < 2 * m + 6
    {
      OsqpRowRange(m, k);
    }
    forall c, k | 0 <= c < 2 * m + 3 && a.begins[c] <= k < a.ends[c] - 1
      ensures a.rows[k] < a.rows[k + 1]
    {
      if c < 2 * m {
        OsqpRowAt(m, c, k - 4 * c);
        OsqpRowAt(m, c, k + 1 - 4 * c);
      } else {
        OsqpRowAt(m, 0, c - 2 * m);
      }
    }
  }

  // ----- the matrices

  /** Row r, column c of (B, dB, I) */
  function Entry(d: Step, m: nat, r: nat, c: nat): real
    requires IsStep(d, m) && r < 3 && c < 2 * m + 3
  {
    if c < m then d.bAlpha[r][c] else if c < 2 * m then d.dBalphaU[r][c - m] else if c == 2 * m + r then 1.0 else 0.0
  }

  lemma CoefficientStep(rows: seq<int>, vals: Vec, b: int, e: int, r: int)
    requires 0 <= b < e <= |rows| == |vals|
    ensures Coefficient(rows, vals, b, e, r)
         == (if rows[b] == r then vals[b] else 0.0) + Coefficient(rows, vals, b + 1, e, r)
    ensures Coefficient(rows, vals, e, e, r) == 0.0
  {}

  lemma MosekEntry(d: Step, m: nat, r: nat, c: nat)
    requires IsStep(d, m) && r < 3 && c < 2 * m + 3
    ensures IsColumns(MosekColumns(d, m), 2 * m + 3)
    ensures At(MosekColumns(d, m), 2 * m + 3, r, c) == Entry(d, m, r, c)
  {
    hide Coefficient;
    var a := MosekColumns(d, m);
    var b, e := a.begins[c], a.ends[c];
    CoefficientStep(a.rows, a.vals, b, e, r);
    if c < 2 * m {
      CoefficientStep(a.rows, a.vals, b + 1, e, r);
      CoefficientStep(a.rows, a.vals, b + 2, e, r);
    }
  }

  lemma OsqpEntry(d: Step, m: nat, r: nat, c: nat)
    requires IsStep(d, m) && r < 2 * m + 6 && c < 2 * m + 3
    ensures IsColumns(OsqpColumns(d, m), 2 * m + 3)
    ensures At(OsqpColumns(d, m), 2 * m + 3, r, c)
         == if r < 3 then Entry(d, m, r, c) else if c == r - 3 then 1.0 else 0.0
  {
    hide Coefficient, OsqpRow, OsqpValue;
    var a := OsqpColumns(d, m);
    var b, e := a.begins[c], a.ends[c];
    CoefficientStep(a.rows, a.vals, b, e, r);
    CoefficientStep(a.rows, a.vals, b + 1, e, r);
    if c >= 2 * m {
      OsqpRowAt(m, 0, c - 2 * m);
      OsqpSlack(d, m, b);
      OsqpSlack(d, m, b + 1);
    } else {
      OsqpRowAt(m, c, 0);
      OsqpRowAt(m, c, 1);
      OsqpRowAt(m, c, 2);
      OsqpRowAt(m, c, 3);
      OsqpColumn(d, m, c, 0);
      OsqpColumn(d, m, c, 1);
      OsqpColumn(d, m, c, 2);
      OsqpColumn(d, m, c, 3);
      CoefficientStep(a.rows, a.vals, b + 2, e, r);
      CoefficientStep(a.rows, a.vals, b + 3, e, r);
    }
  }

  /** The balance over the first k unknowns */
  function BalanceTo(d: Step, m: nat, r: nat, x: Vec, k: nat): real
    requires IsStep(d, m) && r < 3 && k <= 2 * m + 3 == |x|
  {
    if k <= m then DotTo(d.bAlpha[r], x, k)
    else if k <= 2 * m then DotTo(d.bAlpha[r], x, m) + DotTo(d.dBalphaU[r], x[m..], k - m)
    else DotTo(d.bAlpha[r], x, m) + DotTo(d.dBalphaU[r], x[m..], m) + if 2 * m + r < k then x[2 * m + r] else 0.0
  }

  lemma BalanceStep(d: Step, m: nat, r: nat, x: Vec, k: nat)
    requires IsStep(d, m) && r < 3 && k <= 2 * m + 3 == |x|
    ensures BalanceTo(d, m, r, x, k)
         == if k == 0 then 0.0 else BalanceTo(d, m, r, x, k - 1) + Entry(d, m, r, k - 1) * x[k-1]
  {
    var dots := DotTo(d.bAlpha[r], x, m);
    assert DotTo(d.dBalphaU[r], x[m..], 0) == 0.0;
    if m < k <= 2 * m {
      assert x[m..][k - 1 - m] == x[k - 1];
      DotToLast(d.dBalphaU[r], x[m..], k - m);
      assert k - m - 1 == 0 ==> k - 1 == m;
    } else if k > 2 * m {
      var before := DotTo(d.dBalphaU[r], x[m..], m);
      assert m == 0 ==> before == 0.0;
      assert k - 1 == 2 * m ==> BalanceTo(d, m, r, x, k - 1) == dots + before;
    }
  }

  /** Any matrix with these rows computes the balance. */
  lemma {:induction false} RowIsBalance(a: Columns, d: Step, m: nat, r: nat, x: Vec, k: nat)
    requires IsStep(d, m) && r < 3 && |x| == 2 * m + 3 && k <= 2 * m + 3
    requires IsColumns(a, 2 * m + 3)
    requires forall c :: 0 <= c < 2 * m + 3 ==> At(a, 2 * m + 3, r, c) == Entry(d, m, r, c)
    ensures RowTo(a, 2 * m + 3, r, x, k) == BalanceTo(d, m, r, x, k)
  {
    hide At, RowTo, BalanceTo, Entry;
    RowStep(a, 2 * m + 3, r, x, k);
    BalanceStep(d, m, r, x, k);
    if k == 0 {
    } else {
      RowIsBalance(a, d, m, r, x, k - 1);
      assert At(a, 2 * m + 3, r, k - 1) == Entry(d, m, r, k - 1);
    }
  }

  lemma RowStep(a: Columns, n: nat, r: int, x: Vec, k: nat)
    requires IsColumns(a, n) && k <= n && k <= |x|
    ensures RowTo(a, n, r, x, k) == if k == 0 then 0.0 else RowTo(a, n, r, x, k - 1) + At(a, n, r, k - 1) * x[k-1]
  {}

  lemma {:induction false} RowIsUnit(a: Columns, n: nat, r: nat, j: nat, x: Vec, k: nat)
    requires IsColumns(a, n) && k <= n == |x|
    requires forall c :: 0 <= c < n ==> At(a, n, r, c) == if c == j then 1.0 else 0.0
    ensures RowTo(a, n, r, x, k) == if j < k then x[j] else 0.0
  {
    hide At;
    if k == 0 {
    } else {
      RowIsUnit(a, n, r, j, x, k - 1);
    }
  }

  lemma MosekRows(d: Step, m: nat, x: Vec)
    requires IsStep(d, m) && |x| == 2 * m + 3
    ensures IsColumns(MosekColumns(d, m), 2 * m + 3)
    ensures forall r :: 0 <= r < 3 ==> RowTo(MosekColumns(d, m), 2 * m + 3, r, x, 2 * m + 3) == Balance(d, m, x, r)
  {
    hide RowTo, At;
    forall r | 0 <= r < 3
      ensures RowTo(MosekColumns(d, m), 2 * m + 3, r, x, 2 * m + 3) == Balance(d, m, x, r)
    {
      forall c | 0 <= c < 2 * m + 3
        ensures At(MosekColumns(d, m), 2 * m + 3, r, c) == Entry(d, m, r, c)
      {
        MosekEntry(d, m, r, c);
      }
      RowIsBalance(MosekColumns(d, m), d, m, r, x, 2 * m + 3);
    }
  }

  lemma OsqpRowValue(d: Step, m: nat, x: Vec, r: nat)
    requires IsStep(d, m) && |x| == 2 * m + 3 && r < 2 * m + 6
    ensures IsColumns(OsqpColumns(d, m), 2 * m + 3)
    ensures RowTo(OsqpColumns(d, m), 2 * m + 3, r, x, 2 * m + 3) == if r < 3 then Balance(d, m, x, r) else x[r - 3]
  {
    hide RowTo, At, OsqpColumns;
    var n := 2 * m + 3;
    var a := OsqpColumns(d, m);
    forall c: nat | c < n
      ensures IsColumns(a, n)
      ensures At(a, n, r, c) == if r < 3 then Entry(d, m, r, c) else if c == r - 3 then 1.0 else 0.0
    {
      OsqpEntry(d, m, r, c);
    }
    OsqpEntry(d, m, r, 0);
    if r < 3 {
      RowIsBalance(a, d, m, r, x, n);
    } else {
      RowIsUnit(a, n, r, r - 3, x, n);
    }
  }

  // ----- the two formats denote the same program

  lemma MosekBounds(d: Step, m: nat, infinity: real)
    requires IsStep(d, m)
    ensures var p := MosekOf(d, m, infinity);
            && p.a == MosekColumns(d, m) && IsMosek(p, 2 * m + 3)
            && p.blc == p.buc == d.b && p.bkc == [Fixed, Fixed, Fixed]
    ensures var p := MosekOf(d, m, infinity);
            forall i :: 0 <= i < m ==> p.bkx[i] == Range && p.blx[i] == d.lowerU[i] && p.bux[i] == d.upperU[i]
    ensures var p := MosekOf(d, m, infinity);
            forall i :: m <= i < 2 * m ==>
              p.bkx[i] == Range && p.blx[i] == d.lowerAlpha[i - m] && p.bux[i] == d.upperAlpha[i - m]
    ensures var p := MosekOf(d, m, infinity);
            forall i :: 2 * m <= i < 2 * m + 3 ==> p.bkx[i] == Free
  {
    hide MosekColumns;
    MosekWellFormed(d, m);
  }

  lemma MosekConstraints(d: Step, m: nat, infinity: real, x: Vec)
    requires IsStep(d, m)
    ensures IsMosek(MosekOf(d, m, infinity), 2 * m + 3)
    ensures MosekFeasible(MosekOf(d, m, infinity), 2 * m + 3, x) <==> Feasible(d, m, x)
  {
    hide MosekColumns, RowTo, Balance, MosekOf;
    var p, n := MosekOf(d, m, infinity), 2 * m + 3;
    MosekBounds(d, m, infinity);
    if |x| == n {
      MosekRows(d, m, x);
      if InBox(d, m, x) {
        forall j | 0 <= j < n
          ensures Within(p.bkx[j], p.blx[j], p.bux[j], x[j])
        {
          if m <= j < 2 * m { assert x[j] == x[m + (j - m)]; }
        }
      }
      if MosekFeasible(p, n, x) {
        forall i | 0 <= i < m
          ensures d.lowerU[i] <= x[i] <= d.upperU[i] && d.lowerAlpha[i] <= x[m + i] <= d.upperAlpha[i]
        {
          assert Within(p.bkx[i], p.blx[i], p.bux[i], x[i]);
          assert Within(p.bkx[m + i], p.blx[m + i], p.bux[m + i], x[m + i]);
        }
      }
    }
  }

  /** The box of x[r - 3], or the fixed right side for r < 3 */
  lemma OsqpBounds(d: Step, m: nat)
    requires IsStep(d, m)
    ensures var p := OsqpOf(d, m);
            p.a == OsqpColumns(d, m) && IsOsqp(p, 2 * m + 3) && |p.l| == 2 * m + 6
    ensures var p := OsqpOf(d, m);
            forall r :: 0 <= r < 3 ==> p.l[r] == p.u[r] == Finite(d.b[r])
    ensures var p := OsqpOf(d, m);
            forall r :: 3 <= r < 3 + m ==> p.l[r] == Finite(d.lowerU[r - 3]) && p.u[r] == Finite(d.upperU[r - 3])
    ensures var p := OsqpOf(d, m);
            forall r :: 3 + m <= r < 3 + 2 * m ==>
              p.l[r] == Finite(d.lowerAlpha[r - 3 - m]) && p.u[r] == Finite(d.upperAlpha[r - 3 - m])
    ensures var p := OsqpOf(d, m);
            forall r :: 3 + 2 * m <= r < 6 + 2 * m ==> p.l[r] == Below && p.u[r] == Above
  {
    hide OsqpColumns;
    OsqpWellFormed(d, m);
  }

  lemma OsqpConstraints(d: Step, m: nat, x: Vec)
    requires IsStep(d, m)
    ensures IsOsqp(OsqpOf(d, m), 2 * m + 3)
    ensures OsqpFeasible(OsqpOf(d, m), 2 * m + 3, x) <==> Feasible(d, m, x)
  {
    hide OsqpColumns, RowTo, Balance, OsqpOf;
    var p := OsqpOf(d, m);
    OsqpBounds(d, m);
    if |x| == 2 * m + 3 {
      if Feasible(d, m, x) {
        forall r | 0 <= r < 2 * m + 6
          ensures AtLeast(RowTo(p.a, 2 * m + 3, r, x, 2 * m + 3), p.l[r])
               && AtMost(RowTo(p.a, 2 * m + 3, r, x, 2 * m + 3), p.u[r])
        {
          OsqpRowValue(d, m, x, r);
          if 3 + m <= r < 3 + 2 * m {
            assert x[r - 3] == x[m + (r - 3 - m)];
          }
        }
      }
      if OsqpFeasible(p, 2 * m + 3, x) {
        forall r | 0 <= r < 3
          ensures Balance(d, m, x, r) == d.b[r]
        {
          OsqpRowValue(d, m, x, r);
        }
        forall i | 0 <= i < m
          ensures d.lowerU[i] <= x[i] <= d.upperU[i] && d.lowerAlpha[i] <= x[m + i] <= d.upperAlpha[i]
        {
          OsqpRowValue(d, m, x, 3 + i);
          OsqpRowValue(d, m, x, 3 + m + i);
        }
      }
    }
  }

  lemma {:induction false} TripletsAreSquares(d: Step, m: nat, infinity: real, x: Vec, k: nat)
    requires IsStep(d, m) && |x| == 2 * m + 3 && k <= 2 * m + 3
    requires IsMosek(MosekOf(d, m, infinity), 2 * m + 3)
    ensures TripletsTo(MosekOf(d, m, infinity), 2 * m + 3, x, k) == 0.5 * SquaresTo(Diagonal(d), x, k)
  {
    if k == 0 {
    } else {
      TripletsAreSquares(d, m, infinity, x, k - 1);
    }
  }

  lemma SharesStep(p: OsqpData, n: nat, x: Vec, k: nat)
    requires IsOsqp(p, n) && |x| == n && k <= n
    ensures SharesTo(p, n, x, k)
         == if k == 0 then 0.0
            else SharesTo(p, n, x, k - 1) + ColumnShare(p.p, k - 1, x, p.p.begins[k-1], p.p.ends[k-1])
  {}

  lemma {:induction false} SharesAreSquares(d: Step, m: nat, x: Vec, k: nat)
    requires IsStep(d, m) && |x| == 2 * m + 3 && k <= 2 * m + 3
    requires IsOsqp(OsqpOf(d, m), 2 * m + 3)
    ensures SharesTo(OsqpOf(d, m), 2 * m + 3, x, k) == 0.5 * SquaresTo(Diagonal(d), x, k)
  {
    hide OsqpColumns, SharesTo;
    var p := OsqpOf(d, m);
    SharesStep(p, 2 * m + 3, x, k);
    if k == 0 {
    } else {
      SharesAreSquares(d, m, x, k - 1);
      assert ColumnShare(p.p, k - 1, x, k, k) == 0.0;
    }
  }

  /** Both formats have the feasible points and the objective of the step. */
  lemma SameProgram(d: Step, m: nat, infinity: real, x: Vec)
    requires IsStep(d, m)
    ensures var p, o, n := MosekOf(d, m, infinity), OsqpOf(d, m), 2 * m + 3;
            && IsMosek(p, n) && IsOsqp(o, n)
            && (MosekFeasible(p, n, x) <==> Feasible(d, m, x))
            && (OsqpFeasible(o, n, x) <==> Feasible(d, m, x))
            && (|x| == n ==> MosekObjective(p, n, x) == Objective(d, m, x) == OsqpObjective(o, n, x))
  {
    hide MosekOf, OsqpOf, MosekFeasible, OsqpFeasible;
    MosekConstraints(d, m, infinity, x);
    OsqpConstraints(d, m, x);
    if |x| == 2 * m + 3 {
      Objectives(d, m, infinity, x);
    }
  }

  lemma Objectives(d: Step, m: nat, infinity: real, x: Vec)
    requires IsStep(d, m) && |x| == 2 * m + 3
    requires IsMosek(MosekOf(d, m, infinity), 2 * m + 3) && IsOsqp(OsqpOf(d, m), 2 * m + 3)
    ensures MosekObjective(MosekOf(d, m, infinity), 2 * m + 3, x) == Objective(d, m, x)
    ensures OsqpObjective(OsqpOf(d, m), 2 * m + 3, x) == Objective(d, m, x)
  {
    hide TripletsTo, SharesTo, Objective;
    ObjectiveIs(d, m, x);
    TripletsAreSquares(d, m, infinity, x, 2 * m + 3);
    SharesAreSquares(d, m, x, 2 * m + 3);
  }
}
