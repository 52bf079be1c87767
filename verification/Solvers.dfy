/** The buffers handed to the two solvers, as the controller fills and updates them. */
module Solvers {
  import opened Vectors
  import opened QuadraticProgram

  datatype ControlMode = Manual | HeadingOnly | Maneuvering | DynamicPosition

  /** The penalties on the force error */
  datatype Penalty = Penalty(fullyActuated: bool, surge: real, sway: real, yaw: real)

  /** setQ: the diagonal of Q in a mode, q being the present one */
  function PenaltyIn(p: Penalty, mode: ControlMode, q: Vec): (r: Vec)
    requires |q| == 3
    ensures |r| == 3
  {
    if p.fullyActuated then
      match mode
      case Manual => [p.surge, p.sway, p.yaw]
      case HeadingOnly => [0.2 * p.surge, 0.2 * p.sway, 2.0 * p.yaw]
      case Maneuvering => [p.surge, 0.0, p.yaw]
      case DynamicPosition => [p.surge, p.sway, p.yaw]
    else
      match mode
      case Manual => [p.surge, 0.0, p.yaw]
      case HeadingOnly => [0.2 * p.surge, 0.0, 2.0 * p.yaw]
      case Maneuvering => [p.surge, 0.0, p.yaw]
      case DynamicPosition => q
  }

  /** Sway is not penalised where it cannot be actuated, nor when maneuvering; heading only
      weighs surge and sway a fifth and yaw twice; dynamic positioning of an underactuated
      vessel changes nothing. */
  lemma Penalties(p: Penalty, mode: ControlMode, q: Vec)
    requires |q| == 3
    ensures var r := PenaltyIn(p, mode, q);
            if mode == DynamicPosition && !p.fullyActuated then r == q
            else
              && (if mode == HeadingOnly then 5.0 * r[0] == p.surge && r[2] == p.yaw + p.yaw
                  else r[0] == p.surge && r[2] == p.yaw)
              && (if mode == Maneuvering || !p.fullyActuated then r[1] == 0.0
                  else if mode == HeadingOnly then 5.0 * r[1] == p.sway
                  else r[1] == p.sway)
  {}

  class Mosek {
    const m: nat
    const infinity: real
    const penalty: Penalty
    const omega: Vec
    var q: Vec

    const aptrb: array<int>
    const aptre: array<int>
    const asub: array<int>
    const aval: array<real>
    const bkc: array<Key>
    const blc: array<real>
    const buc: array<real>
    const bkx: array<Key>
    const blx: array<real>
    const bux: array<real>
    const g: array<real>
    const qsubi: array<int>
    const qsubj: array<int>
    const qval: array<real>

    ghost predicate Sized() {
      && |omega| == m && bkc != bkx && bkc.Length == 3 && bkx.Length == 2 * m + 3
      && IntsApart(m, aptrb, aptre, asub, qsubi, qsubj)
      && RealsApart(m, aval, blc, buc, blx, bux, g, qval)
    }

    static ghost predicate IntsApart(m: nat, aptrb: array<int>, aptre: array<int>, asub: array<int>,
                                     qsubi: array<int>, qsubj: array<int>) {
      && aptrb.Length == aptre.Length == qsubi.Length == qsubj.Length == 2 * m + 3 && asub.Length == 6 * m + 3
      && aptrb != aptre && aptrb != asub && aptre != asub && qsubi != qsubj
      && aptrb != qsubi && aptrb != qsubj && aptre != qsubi && aptre != qsubj && asub != qsubi && asub != qsubj
    }

    static ghost predicate RealsApart(m: nat, aval: array<real>, blc: array<real>, buc: array<real>, blx: array<real>,
                                      bux: array<real>, g: array<real>, qval: array<real>) {
      && aval.Length == 6 * m + 3 && blc.Length == buc.Length == 3
      && blx.Length == bux.Length == g.Length == qval.Length == 2 * m + 3
      && aval != blc && aval != buc && aval != blx && aval != bux && aval != g && aval != qval
      && blc != buc && blc != blx && blc != bux && blc != g && blc != qval
      && buc != blx && buc != bux && buc != g && buc != qval
      && blx != bux && blx != g && blx != qval && bux != g && bux != qval && g != qval
    }

    static method CreateInts(m: nat)
      returns (aptrb: array<int>, aptre: array<int>, asub: array<int>, qsubi: array<int>, qsubj: array<int>)
      ensures fresh(aptrb) && fresh(aptre) && fresh(asub) && fresh(qsubi) && fresh(qsubj)
      ensures IntsApart(m, aptrb, aptre, asub, qsubi, qsubj)
    {
      aptrb, aptre, asub := new int[2 * m + 3], new int[2 * m + 3], new int[6 * m + 3];
      qsubi, qsubj := new int[2 * m + 3], new int[2 * m + 3];
    }

    static method CreateReals(m: nat)
      returns (aval: array<real>, blc: array<real>, buc: array<real>, blx: array<real>, bux: array<real>,
               g: array<real>, qval: array<real>)
      ensures fresh(aval) && fresh(blc) && fresh(buc) && fresh(blx) && fresh(bux) && fresh(g) && fresh(qval)
      ensures RealsApart(m, aval, blc, buc, blx, bux, g, qval)
    {
      aval, blc, buc := new real[6 * m + 3], new real[3], new real[3];
      blx, bux := new real[2 * m + 3], new real[2 * m + 3];
      g, qval := new real[2 * m + 3], new real[2 * m + 3];
    }

    ghost predicate BoundsReady()
      requires Sized()
      reads bkx, blx, bux
    {
      && (forall i :: 0 <= i < 2 * m + 3 ==> bkx[i] == if i < 2 * m then Range else Free)
      && (forall i :: 2 * m <= i < 2 * m + 3 ==> blx[i] == -infinity && bux[i] == infinity)
    }

    ghost predicate PointersReady()
      requires Sized()
      reads aptrb, aptre
    {
      && (forall c :: 0 <= c < 2 * m + 3 ==> aptrb[c] == if c < 2 * m then 3 * c else 4 * m + c)
      && (forall c :: 0 <= c < 2 * m + 3 ==> aptre[c] == if c < 2 * m then 3 * c + 3 else 4 * m + c + 1)
    }

    ghost predicate EntriesReady()
      requires Sized()
      reads asub, aval
    {
      && (forall k :: 0 <= k < 6 * m + 3 ==> asub[k] == MosekRow(m, k))
      && (forall k :: 6 * m <= k < 6 * m + 3 ==> aval[k] == 1.0)
    }

    ghost predicate KeysReady()
      requires Sized()
      reads bkc
    {
      forall r :: 0 <= r < 3 ==> bkc[r] == Fixed
    }

    ghost predicate LinearReady()
      requires Sized()
      reads qsubi, qsubj, g
    {
      && (forall i :: 0 <= i < 2 * m + 3 ==> qsubi[i] == i && qsubj[i] == i)
      && (forall i :: 2 * m <= i < 2 * m + 3 ==> g[i] == 0.0)
    }

    ghost predicate QuadraticReady()
      requires Sized()
      reads this`q, qval
    {
      && |q| == 3
      && (forall i :: m <= i < 2 * m ==> qval[i] == omega[i - m])
      && (forall i :: 2 * m <= i < 2 * m + 3 ==> qval[i] == q[i - 2 * m])
    }

    ghost predicate Valid()
      reads this`q, aptrb, aptre, asub, aval, bkc, bkx, blx, bux, g, qsubi, qsubj, qval
    {
      Sized() && BoundsReady() && PointersReady() && EntriesReady() && KeysReady() && LinearReady() && QuadraticReady()
    }

    /** What is handed to the solver */
    ghost function Program(): MosekData
      reads aptrb, aptre, asub, aval, bkc, blc, buc, bkx, blx, bux, g, qsubi, qsubj, qval
    {
      MosekData(Columns(aptrb[..], aptre[..], asub[..], aval[..]),
                bkx[..], blx[..], bux[..], bkc[..], blc[..], buc[..], qsubi[..], qsubj[..], qval[..], g[..])
    }

    constructor (m: nat, infinity: real, penalty: Penalty, omega: Vec)
      requires |omega| == m
      ensures Valid() && this.m == m && this.infinity == infinity && this.penalty == penalty && this.omega == omega
      ensures q == PenaltyIn(penalty, Manual, [0.0, 0.0, 0.0])
    {
      hide BoundsReady, PointersReady, EntriesReady, KeysReady, LinearReady, QuadraticReady, Valid, IntsApart,
           RealsApart;
      this.m, this.infinity, this.penalty, this.omega := m, infinity, penalty, omega;
      q := PenaltyIn(penalty, Manual, [0.0, 0.0, 0.0]);
      bkc, bkx := new Key[3], new Key[2 * m + 3];
      var ptrb, ptre, sub, subi, subj := CreateInts(m);
      var val, lc, uc, lx, ux, linear, quadratic := CreateReals(m);
      aptrb, aptre, asub, qsubi, qsubj := ptrb, ptre, sub, subi, subj;
      aval, blc, buc, blx, bux, g, qval := val, lc, uc, lx, ux, linear, quadratic;
      new;
      InitializeMosekVariables();
    }

    method InitializeMosekVariables()
      requires Sized() && |q| == 3
      modifies aptrb, aptre, asub, aval, bkc, blc, buc, bkx, blx, bux, g, qsubi, qsubj, qval
      ensures Valid()
    {
      hide BoundsReady, PointersReady, EntriesReady, KeysReady, LinearReady, QuadraticReady;
      InitializeBounds();
      InitializePointers();
      InitializeEntries();
      InitializeRightSide();
      InitializeLinear();
      InitializeQuadratic();
    }

    method InitializeBounds()
      requires Sized()
      modifies bkx, blx, bux
      ensures BoundsReady()
      ensures forall i :: 0 <= i < 2 * m ==> blx[i] == bux[i] == 0.0
    {
      for i := 0 to 2 * m
        invariant forall k :: 0 <= k < i ==> bkx[k] == Range && blx[k] == bux[k] == 0.0
      {
        bkx[i], blx[i], bux[i] := Range, 0.0, 0.0;
      }
      for j := 0 to 3
        invariant forall k :: 0 <= k < 2 * m ==> bkx[k] == Range && blx[k] == bux[k] == 0.0
        invariant forall k :: 2 * m <= k < 2 * m + j ==> bkx[k] == Free && blx[k] == -infinity && bux[k] == infinity
      {
        bkx[j + 2 * m], blx[j + 2 * m], bux[j + 2 * m] := Free, -infinity, infinity;
      }
    }

    method InitializePointers()
      requires Sized()
      modifies aptrb, aptre
      ensures PointersReady()
    {
      for i := 0 to 2 * m
        invariant forall c :: 0 <= c < i ==> aptrb[c] == 3 * c && aptre[c] == 3 * c + 3
      {
        aptrb[i], aptre[i] := 3 * i, 3 * i + 3;
      }
      for j := 0 to 3
        invariant forall c :: 0 <= c < 2 * m ==> aptrb[c] == 3 * c && aptre[c] == 3 * c + 3
        invariant forall c :: 2 * m <= c < 2 * m + j ==> aptrb[c] == 4 * m + c && aptre[c] == 4 * m + c + 1
      {
        aptrb[j + 2 * m], aptre[j + 2 * m] := 6 * m + j, 6 * m + j + 1;
      }
    }

    method InitializeEntries()
      requires Sized()
      modifies asub, aval
      ensures EntriesReady()
    {
      hide MosekRow;
      for i := 0 to 2 * m
        invariant forall k :: 0 <= k < 3 * i ==> asub[k] == MosekRow(m, k)
      {
        for j := 0 to 3
          invariant forall k :: 0 <= k < 3 * i + j ==> asub[k] == MosekRow(m, k)
        {
          MosekRowAt(m, i, j);
          asub[3 * i + j], aval[3 * i + j] := j, 0.0;
        }
      }
      for j := 0 to 3
        invariant forall k :: 0 <= k < 6 * m + j ==> asub[k] == MosekRow(m, k)
        invariant forall k :: 6 * m <= k < 6 * m + j ==> aval[k] == 1.0
      {
        MosekRowAt(m, 0, j);
        asub[j + 6 * m], aval[j + 6 * m] := j, 1.0;
      }
    }

    method InitializeRightSide()
      requires Sized()
      modifies bkc, blc, buc
      ensures KeysReady() && forall r :: 0 <= r < 3 ==> blc[r] == buc[r] == 0.0
    {
      for j := 0 to 3
        invariant forall r :: 0 <= r < j ==> bkc[r] == Fixed && blc[r] == buc[r] == 0.0
      {
        bkc[j], blc[j], buc[j] := Fixed, 0.0, 0.0;
      }
    }

    method InitializeLinear()
      requires Sized()
      modifies qsubi, qsubj, g
      ensures LinearReady() && forall i :: 0 <= i < 2 * m + 3 ==> g[i] == 0.0
    {
      for i := 0 to 2 * m + 3
        invariant forall k :: 0 <= k < i ==> qsubi[k] == k && qsubj[k] == k && g[k] == 0.0
      {
        qsubi[i], qsubj[i], g[i] := i, i, 0.0;
      }
    }

    method InitializeQuadratic()
      requires Sized() && |q| == 3
      modifies qval
      ensures QuadraticReady()
    {
      for i := 0 to m {
        qval[i] := 0.0;
      }
      for i := 0 to m
        invariant forall k :: m <= k < m + i ==> qval[k] == omega[k - m]
      {
        qval[i + m] := omega[i];
      }
      StorePenalty();
    }

    method StorePenalty()
      requires Sized() && |q| == 3
      modifies qval
      ensures forall i :: 0 <= i < 2 * m ==> qval[i] == old(qval[i])
      ensures forall i :: 2 * m <= i < 2 * m + 3 ==> qval[i] == q[i - 2 * m]
    {
      for j := 0 to 3
        invariant forall k :: 0 <= k < 2 * m ==> qval[k] == old(qval[k])
        invariant forall k :: 2 * m <= k < 2 * m + j ==> qval[k] == q[k - 2 * m]
      {
        qval[j + 2 * m] := q[j];
      }
    }

    method SetQ(mode: ControlMode)
      requires Valid()
      modifies this`q, qval
      ensures Valid() && q == PenaltyIn(penalty, mode, old(q))
      ensures forall i :: 0 <= i < 2 * m ==> qval[i] == old(qval[i])
    {
      q := PenaltyIn(penalty, mode, q);
      StorePenalty();
    }

    /** The columns of the two changes of one thruster */
    method UpdateThruster(d: Step, i: nat)
      requires Sized() && IsStep(d, m) && i < m
      modifies aval
      ensures forall k :: 3 * i <= k < 3 * i + 3 || 3 * (i + m) <= k < 3 * (i + m) + 3 ==>
          aval[k] == MosekValue(d, m, k)
      ensures forall k :: 0 <= k < 6 * m + 3 && !(3 * i <= k < 3 * i + 3) && !(3 * (i + m) <= k < 3 * (i + m) + 3) ==>
                aval[k] == old(aval[k])
    {
      hide MosekValue;
      for j := 0 to 3
        invariant forall k :: 3 * i <= k < 3 * i + j ==> aval[k] == MosekValue(d, m, k)
        invariant forall k :: 3 * (i + m) <= k < 3 * (i + m) + j ==> aval[k] == MosekValue(d, m, k)
        invariant forall k ::
          0 <= k < 6 * m + 3 && !(3 * i <= k < 3 * i + j) && !(3 * (i + m) <= k < 3 * (i + m) + j) ==>
            aval[k] == old(aval[k])
      {
        MosekColumn(d, m, i, j);
        MosekColumn(d, m, i + m, j);
        aval[3 * i + j] := d.bAlpha[j][i];
        aval[3 * (i + m) + j] := d.dBalphaU[j][i];
      }
    }

    method UpdateColumns(d: Step)
      requires Sized() && IsStep(d, m) && EntriesReady()
      modifies aval
      ensures EntriesReady()
      ensures forall k :: 0 <= k < 6 * m + 3 ==> aval[k] == MosekValue(d, m, k)
    {
      hide MosekValue, MosekRow;
      for i := 0 to m
        invariant forall k :: 0 <= k < 3 * i ==> aval[k] == MosekValue(d, m, k)
        invariant forall k :: 3 * m <= k < 3 * m + 3 * i ==> aval[k] == MosekValue(d, m, k)
        invariant forall k :: 6 * m <= k < 6 * m + 3 ==> aval[k] == 1.0
      {
        UpdateThruster(d, i);
      }
      forall k | 6 * m <= k < 6 * m + 3
        ensures MosekValue(d, m, k) == 1.0
      {
        MosekSlack(d, m, k);
      }
    }

    method UpdateRightSide(b: Vec)
      requires Sized() && |b| == 3
      modifies blc, buc
      ensures blc[..] == buc[..] == b
    {
      for i := 0 to 3
        invariant forall r :: 0 <= r < i ==> blc[r] == buc[r] == b[r]
      {
        blc[i], buc[i] := b[i], b[i];
      }
    }

    method SetBounds(offset: nat, lower: Vec, upper: Vec)
      requires Sized() && |lower| == |upper| == m && offset + m <= 2 * m
      modifies blx, bux
      ensures forall k :: offset <= k < offset + m ==> blx[k] == lower[k - offset] && bux[k] == upper[k - offset]
      ensures forall k :: 0 <= k < 2 * m + 3 && !(offset <= k < offset + m) ==>
          blx[k] == old(blx[k]) && bux[k] == old(bux[k])
    {
      for i := 0 to m
        invariant forall k :: offset <= k < offset + i ==> blx[k] == lower[k - offset] && bux[k] == upper[k - offset]
        invariant forall k :: 0 <= k < 2 * m + 3 && !(offset <= k < offset + i) ==>
                    blx[k] == old(blx[k]) && bux[k] == old(bux[k])
      {
        blx[offset + i], bux[offset + i] := lower[i], upper[i];
      }
    }

    method UpdateBounds(d: Step)
      requires Sized() && IsStep(d, m) && BoundsReady()
      modifies blx, bux
      ensures BoundsReady()
      ensures forall i :: 0 <= i < m ==> blx[i] == d.lowerU[i] && bux[i] == d.upperU[i]
      ensures forall i :: m <= i < 2 * m ==> blx[i] == d.lowerAlpha[i - m] && bux[i] == d.upperAlpha[i - m]
    {
      SetBounds(0, d.lowerU, d.upperU);
      SetBounds(m, d.lowerAlpha, d.upperAlpha);
    }

    method UpdateObjective(d: Step)
      requires Sized() && IsStep(d, m) && LinearReady() && QuadraticReady()
      modifies g, qval
      ensures LinearReady() && QuadraticReady()
      ensures forall i :: 0 <= i < m ==> g[i] == d.gU[i] && qval[i] == d.qU[i]
      ensures forall i :: m <= i < 2 * m ==> g[i] == d.dRho[i - m]
    {
      for i := 0 to m
        invariant forall k :: 0 <= k < i ==> g[k] == d.gU[k] && qval[k] == d.qU[k]
        invariant forall k :: m <= k < m + i ==> g[k] == d.dRho[k - m]
        invariant forall k :: 2 * m <= k < 2 * m + 3 ==> g[k] == 0.0
        invariant forall k :: m <= k < 2 * m + 3 ==> qval[k] == old(qval[k])
      {
        g[i], g[i + m], qval[i] := d.gU[i], d.dRho[i], d.qU[i];
      }
    }

    ghost predicate Holds(d: Step)
      requires Sized() && IsStep(d, m)
      reads aval, blc, buc, blx, bux, g, qval
    {
      && (forall k :: 0 <= k < 6 * m + 3 ==> aval[k] == MosekValue(d, m, k))
      && blc[..] == buc[..] == d.b
      && (forall i :: 0 <= i < m ==> blx[i] == d.lowerU[i] && bux[i] == d.upperU[i])
      && (forall i :: m <= i < 2 * m ==> blx[i] == d.lowerAlpha[i - m] && bux[i] == d.upperAlpha[i - m])
      && (forall i :: 0 <= i < m ==> g[i] == d.gU[i] && qval[i] == d.qU[i])
      && (forall i :: m <= i < 2 * m ==> g[i] == d.dRho[i - m])
    }

    lemma ProgramColumns(d: Step)
      requires Valid() && IsStep(d, m) && Holds(d)
      ensures Columns(aptrb[..], aptre[..], asub[..], aval[..]) == MosekColumns(d, m)
    {
      hide MosekRow, MosekValue;
      var a := MosekColumns(d, m);
      assert aptrb[..] == a.begins;
      assert aptre[..] == a.ends;
      assert asub[..] == a.rows;
      assert aval[..] == a.vals;
    }

    lemma ProgramRest(d: Step)
      requires Valid() && IsStep(d, m) && Holds(d) && d.omega == omega && d.q == q
      ensures MosekOf(d, m, infinity).a == MosekColumns(d, m)
      ensures Program() == MosekOf(d, m, infinity).(a := Program().a)
    {
      hide MosekColumns, MosekRow, MosekValue;
      var p := MosekOf(d, m, infinity);
      assert bkx[..] == p.bkx;
      assert blx[..] == p.blx;
      assert bux[..] == p.bux;
      assert bkc[..] == p.bkc;
      assert qsubi[..] == p.qsubi;
      assert qsubj[..] == p.qsubj;
      assert qval[..] == p.qval;
      assert g[..] == p.g;
    }

    /** After an update the buffers hold exactly the program of the step. */
    method UpdateMosekParameters(d: Step)
      requires Valid() && IsStep(d, m) && d.omega == omega && d.q == q
      modifies aval, blc, buc, blx, bux, g, qval
      ensures Valid() && Program() == MosekOf(d, m, infinity)
    {
      hide MosekOf, MosekColumns, MosekRow, MosekValue, LinearReady, QuadraticReady, BoundsReady, PointersReady,
           EntriesReady, KeysReady;
      UpdateColumns(d);
      UpdateRightSide(d.b);
      UpdateBounds(d);
      UpdateObjective(d);
      ProgramColumns(d);
      ProgramRest(d);
    }
  }

  class Osqp {
    const m: nat
    const penalty: Penalty
    const omega: Vec
    var q: Vec

    const px: array<real>
    const pi: array<int>
    const pp: array<int>
    const linear: array<real>
    const ax: array<real>
    const ai: array<int>
    const ap: array<int>
    const l: array<Bound>
    const u: array<Bound>

    ghost predicate Sized() {
      && px.Length == pi.Length == linear.Length == 2 * m + 3
      && pp.Length == ap.Length == 2 * m + 4
      && ax.Length == ai.Length == 8 * m + 6
      && l.Length == u.Length == 2 * m + 6
      && |omega| == m
      && px != linear && px != ax && linear != ax && l != u
      && pi != pp && pi != ai && pi != ap && pp != ai && pp != ap && ai != ap
    }

    ghost predicate QuadraticReady()
      requires Sized()
      reads this`q, px, pi, pp
    {
      && |q| == 3
      && (forall i :: 0 <= i < 2 * m + 3 ==> pi[i] == i)
      && (forall i :: 0 <= i < 2 * m + 4 ==> pp[i] == i)
      && (forall i :: m <= i < 2 * m ==> px[i] == omega[i - m])
      && (forall i :: 2 * m <= i < 2 * m + 3 ==> px[i] == q[i - 2 * m])
    }

    ghost predicate LinearReady()
      requires Sized()
      reads linear
    {
      forall i :: 2 * m <= i < 2 * m + 3 ==> linear[i] == 0.0
    }

    ghost predicate PointersReady()
      requires Sized()
      reads ap
    {
      forall c :: 0 <= c < 2 * m + 4 ==> ap[c] == if c < 2 * m then 4 * c else 4 * m + 2 * c
    }

    ghost predicate EntriesReady()
      requires Sized()
      reads ax, ai
    {
      && (forall k :: 0 <= k < 8 * m + 6 ==> ai[k] == OsqpRow(m, k))
      && (forall k :: 0 <= k < 8 * m && k % 4 == 3 ==> ax[k] == 1.0)
      && (forall k :: 8 * m <= k < 8 * m + 6 ==> ax[k] == 1.0)
    }

    ghost predicate BoundsReady()
      requires Sized()
      reads l, u
    {
      forall i :: 2 * m + 3 <= i < 2 * m + 6 ==> l[i] == Below && u[i] == Above
    }

    ghost predicate Valid()
      reads this`q, px, pi, pp, linear, ax, ai, ap, l, u
    {
      Sized() && QuadraticReady() && LinearReady() && PointersReady() && EntriesReady() && BoundsReady()
    }

    /** What is handed to the solver: column c of a matrix ends where column c + 1 begins. */
    ghost function Program(): OsqpData
      requires Sized()
      reads px, pi, pp, linear, ax, ai, ap, l, u
    {
      OsqpData(Columns(pp[..2 * m + 3], pp[1..], pi[..], px[..]), linear[..],
               Columns(ap[..2 * m + 3], ap[1..], ai[..], ax[..]), l[..], u[..])
    }

    constructor (m: nat, penalty: Penalty, omega: Vec)
      requires |omega| == m
      ensures Valid() && this.m == m && this.penalty == penalty && this.omega == omega
      ensures q == PenaltyIn(penalty, Manual, [0.0, 0.0, 0.0])
    {
      hide QuadraticReady, LinearReady, PointersReady, EntriesReady, BoundsReady, Valid;
      this.m, this.penalty, this.omega := m, penalty, omega;
      q := PenaltyIn(penalty, Manual, [0.0, 0.0, 0.0]);
      px := new real[2 * m + 3];
      pi := new int[2 * m + 3];
      pp := new int[2 * m + 4];
      linear := new real[2 * m + 3];
      ax := new real[8 * m + 6];
      ai := new int[8 * m + 6];
      ap := new int[2 * m + 4];
      l := new Bound[2 * m + 6];
      u := new Bound[2 * m + 6];
      new;
      InitializeOsqpVariables();
    }

    method InitializeOsqpVariables()
      requires Sized() && |q| == 3
      modifies px, pi, pp, linear, ax, ai, ap, l, u
      ensures Valid()
    {
      hide QuadraticReady, LinearReady, PointersReady, EntriesReady, BoundsReady;
      InitializeLinear();
      InitializeQuadratic();
      InitializePointers();
      InitializeEntries();
      InitializeBounds();
    }

    method InitializeLinear()
      requires Sized()
      modifies linear
      ensures LinearReady()
    {
      for i := 0 to 2 * m + 3
        invariant forall k :: 0 <= k < i ==> linear[k] == 0.0
      {
        linear[i] := 0.0;
      }
    }

    method InitializeQuadratic()
      requires Sized() && |q| == 3
      modifies px, pi, pp
      ensures QuadraticReady()
    {
      for i := 0 to 2 * m + 3
        invariant forall k :: 0 <= k < i ==> pi[k] == k && pp[k] == k
      {
        pi[i], pp[i] := i, i;
      }
      pp[2 * m + 3] := 2 * m + 3;
      InitializeWeights();
    }

    method InitializeWeights()
      requires Sized() && |q| == 3
      modifies px
      ensures forall i :: m <= i < 2 * m ==> px[i] == omega[i - m]
      ensures forall i :: 2 * m <= i < 2 * m + 3 ==> px[i] == q[i - 2 * m]
    {
      for i := 0 to m {
        px[i] := 0.0;
      }
      for i := 0 to m
        invariant forall k :: m <= k < m + i ==> px[k] == omega[k - m]
      {
        px[i + m] := omega[i];
      }
      StorePenalty();
    }

    method StorePenalty()
      requires Sized() && |q| == 3
      modifies px
      ensures forall i :: 0 <= i < 2 * m ==> px[i] == old(px[i])
      ensures forall i :: 2 * m <= i < 2 * m + 3 ==> px[i] == q[i - 2 * m]
    {
      for j := 0 to 3
        invariant forall k :: 0 <= k < 2 * m ==> px[k] == old(px[k])
        invariant forall k :: 2 * m <= k < 2 * m + j ==> px[k] == q[k - 2 * m]
      {
        px[j + 2 * m] := q[j];
      }
    }

    method InitializePointers()
      requires Sized()
      modifies ap
      ensures PointersReady()
    {
      ap[0] := 0;
      for i := 0 to 2 * m
        invariant forall c :: 0 <= c <= i ==> ap[c] == 4 * c
      {
        ap[i + 1] := 4 * i + 4;
      }
      for i := 0 to 3
        invariant forall c :: 0 <= c <= 2 * m + i ==> ap[c] == if c < 2 * m then 4 * c else 4 * m + 2 * c
      {
        ap[1 + 2 * m + i] := 8 * m + 2 + 2 * i;
      }
    }

    method InitializeEntries()
      requires Sized()
      modifies ax, ai
      ensures EntriesReady()
    {
      hide OsqpRow;
      for i := 0 to 2 * m
        invariant forall k :: 0 <= k < 4 * i ==> ai[k] == OsqpRow(m, k)
        invariant forall k :: 0 <= k < 4 * i && k % 4 == 3 ==> ax[k] == 1.0
      {
        for j := 0 to 3
          invariant forall k :: 0 <= k < 4 * i + j ==> ai[k] == OsqpRow(m, k)
          invariant forall k :: 0 <= k < 4 * i && k % 4 == 3 ==> ax[k] == 1.0
        {
          OsqpRowAt(m, i, j);
          ax[4 * i + j], ai[4 * i + j] := 0.0, j;
        }
        OsqpRowAt(m, i, 3);
        ax[4 * i + 3], ai[4 * i + 3] := 1.0, i + 3;
      }
      for i := 0 to 3
        invariant forall k :: 0 <= k < 8 * m + 2 * i ==> ai[k] == OsqpRow(m, k)
        invariant forall k :: 0 <= k < 8 * m && k % 4 == 3 ==> ax[k] == 1.0
        invariant forall k :: 8 * m <= k < 8 * m + 2 * i ==> ax[k] == 1.0
      {
        OsqpRowAt(m, 0, i);
        ax[2 * i + 8 * m], ax[2 * i + 1 + 8 * m] := 1.0, 1.0;
        ai[2 * i + 8 * m], ai[2 * i + 1 + 8 * m] := i, 2 * m + 3 + i;
      }
    }

    method InitializeBounds()
      requires Sized()
      modifies l, u
      ensures BoundsReady()
      ensures forall i :: 0 <= i < 2 * m + 3 ==> l[i] == u[i] == Finite(0.0)
    {
      for i := 0 to 2 * m + 3
        invariant forall k :: 0 <= k < i ==> l[k] == u[k] == Finite(0.0)
      {
        l[i], u[i] := Finite(0.0), Finite(0.0);
      }
      for i := 0 to 3
        invariant forall k :: 0 <= k < 2 * m + 3 ==> l[k] == u[k] == Finite(0.0)
        invariant forall k :: 2 * m + 3 <= k < 2 * m + 3 + i ==> l[k] == Below && u[k] == Above
      {
        l[i + 2 * m + 3], u[i + 2 * m + 3] := Below, Above;
      }
    }

    method SetQ(mode: ControlMode)
      requires Valid()
      modifies this`q, px
      ensures Valid() && q == PenaltyIn(penalty, mode, old(q))
      ensures forall i :: 0 <= i < 2 * m ==> px[i] == old(px[i])
    {
      q := PenaltyIn(penalty, mode, q);
      StorePenalty();
    }

    method UpdateObjective(d: Step)
      requires Sized() && IsStep(d, m) && LinearReady() && QuadraticReady()
      modifies linear, px
      ensures LinearReady() && QuadraticReady()
      ensures forall i :: 0 <= i < m ==> linear[i] == d.gU[i] && px[i] == d.qU[i]
      ensures forall i :: m <= i < 2 * m ==> linear[i] == d.dRho[i - m]
    {
      for i := 0 to m
        invariant forall k :: 0 <= k < i ==> linear[k] == d.gU[k] && px[k] == d.qU[k]
        invariant forall k :: m <= k < m + i ==> linear[k] == d.dRho[k - m]
        invariant forall k :: 2 * m <= k < 2 * m + 3 ==> linear[k] == 0.0
        invariant forall k :: m <= k < 2 * m + 3 ==> px[k] == old(px[k])
      {
        linear[i], linear[i + m], px[i] := d.gU[i], d.dRho[i], d.qU[i];
      }
    }

    /** The columns of the two changes of one thruster */
    method UpdateThruster(d: Step, i: nat)
      requires Sized() && IsStep(d, m) && i < m
      modifies ax
      ensures forall k :: 4 * i <= k < 4 * i + 3 || 4 * (i + m) <= k < 4 * (i + m) + 3 ==> ax[k] == OsqpValue(d, m, k)
      ensures forall k :: 0 <= k < 8 * m + 6 && !(4 * i <= k < 4 * i + 3) && !(4 * (i + m) <= k < 4 * (i + m) + 3) ==>
                ax[k] == old(ax[k])
    {
      hide OsqpValue;
      for j := 0 to 3
        invariant forall k :: 4 * i <= k < 4 * i + j ==> ax[k] == OsqpValue(d, m, k)
        invariant forall k :: 4 * (i + m) <= k < 4 * (i + m) + j ==> ax[k] == OsqpValue(d, m, k)
        invariant forall k ::
          0 <= k < 8 * m + 6 && !(4 * i <= k < 4 * i + j) && !(4 * (i + m) <= k < 4 * (i + m) + j) ==>
            ax[k] == old(ax[k])
      {
        OsqpColumn(d, m, i, j);
        OsqpColumn(d, m, i + m, j);
        ax[4 * i + j] := d.bAlpha[j][i];
        ax[4 * (i + m) + j] := d.dBalphaU[j][i];
      }
    }

    method UpdateColumns(d: Step)
      requires Sized() && IsStep(d, m) && EntriesReady()
      modifies ax
      ensures EntriesReady()
      ensures forall k :: 0 <= k < 8 * m + 6 ==> ax[k] == OsqpValue(d, m, k)
    {
      hide OsqpValue, OsqpRow;
      forall k | 0 <= k < 8 * m + 6 && (8 * m <= k || k % 4 == 3)
        ensures OsqpValue(d, m, k) == 1.0
      {
        OsqpOne(d, m, k);
      }
      for i := 0 to m
        invariant forall k :: 0 <= k < 4 * i ==> ax[k] == OsqpValue(d, m, k)
        invariant forall k :: 4 * m <= k < 4 * m + 4 * i ==> ax[k] == OsqpValue(d, m, k)
        invariant forall k :: 0 <= k < 8 * m + 6 && (8 * m <= k || k % 4 == 3) ==> ax[k] == 1.0
      {
        UpdateThruster(d, i);
      }
    }

    method UpdateRightSide(b: Vec)
      requires Sized() && |b| == 3
      modifies l, u
      ensures forall i :: 0 <= i < 3 ==> l[i] == u[i] == Finite(b[i])
      ensures forall i :: 3 <= i < 2 * m + 6 ==> l[i] == old(l[i]) && u[i] == old(u[i])
    {
      for i := 0 to 3
        invariant forall k :: 0 <= k < i ==> l[k] == u[k] == Finite(b[k])
        invariant forall k :: 3 <= k < 2 * m + 6 ==> l[k] == old(l[k]) && u[k] == old(u[k])
      {
        l[i], u[i] := Finite(b[i]), Finite(b[i]);
      }
    }

    method SetBounds(offset: nat, lower: Vec, upper: Vec)
      requires Sized() && |lower| == |upper| == m && offset + m <= 2 * m + 3
      modifies l, u
      ensures forall k :: offset <= k < offset + m ==>
          l[k] == Finite(lower[k - offset]) && u[k] == Finite(upper[k - offset])
      ensures forall k :: 0 <= k < 2 * m + 6 && !(offset <= k < offset + m) ==> l[k] == old(l[k]) && u[k] == old(u[k])
    {
      for i := 0 to m
        invariant forall k :: offset <= k < offset + i ==>
                    l[k] == Finite(lower[k - offset]) && u[k] == Finite(upper[k - offset])
        invariant forall k :: 0 <= k < 2 * m + 6 && !(offset <= k < offset + i) ==>
                    l[k] == old(l[k]) && u[k] == old(u[k])
      {
        l[offset + i], u[offset + i] := Finite(lower[i]), Finite(upper[i]);
      }
    }

    method UpdateBounds(d: Step)
      requires Sized() && IsStep(d, m) && BoundsReady()
      modifies l, u
      ensures BoundsReady()
      ensures forall i :: 0 <= i < 3 ==> l[i] == u[i] == Finite(d.b[i])
      ensures forall i :: 3 <= i < 3 + m ==> l[i] == Finite(d.lowerU[i - 3]) && u[i] == Finite(d.upperU[i - 3])
      ensures forall i :: 3 + m <= i < 3 + 2 * m ==>
                l[i] == Finite(d.lowerAlpha[i - 3 - m]) && u[i] == Finite(d.upperAlpha[i - 3 - m])
    {
      UpdateRightSide(d.b);
      SetBounds(3, d.lowerU, d.upperU);
      SetBounds(3 + m, d.lowerAlpha, d.upperAlpha);
    }

    ghost predicate Holds(d: Step)
      requires Sized() && IsStep(d, m)
      reads px, linear, ax, l, u
    {
      && (forall k :: 0 <= k < 8 * m + 6 ==> ax[k] == OsqpValue(d, m, k))
      && (forall i :: 0 <= i < m ==> linear[i] == d.gU[i] && px[i] == d.qU[i])
      && (forall i :: m <= i < 2 * m ==> linear[i] == d.dRho[i - m])
      && (forall i :: 0 <= i < 3 ==> l[i] == u[i] == Finite(d.b[i]))
      && (forall i :: 3 <= i < 3 + m ==> l[i] == Finite(d.lowerU[i - 3]) && u[i] == Finite(d.upperU[i - 3]))
      && (forall i :: 3 + m <= i < 3 + 2 * m ==>
            l[i] == Finite(d.lowerAlpha[i - 3 - m]) && u[i] == Finite(d.upperAlpha[i - 3 - m]))
    }

    lemma ProgramColumns(d: Step)
      requires Valid() && IsStep(d, m) && Holds(d)
      ensures Program().a == OsqpColumns(d, m)
    {
      hide OsqpRow, OsqpValue;
      var a := OsqpColumns(d, m);
      assert ap[..2 * m + 3] == a.begins;
      assert ap[1..] == a.ends;
      assert ai[..] == a.rows;
      assert ax[..] == a.vals;
    }

    lemma ProgramRest(d: Step)
      requires Valid() && IsStep(d, m) && Holds(d) && d.omega == omega && d.q == q
      ensures OsqpOf(d, m).a == OsqpColumns(d, m)
      ensures Program() == OsqpOf(d, m).(a := Program().a)
    {
      hide OsqpColumns, OsqpRow, OsqpValue;
      var p := OsqpOf(d, m);
      assert pp[..2 * m + 3] == p.p.begins;
      assert pp[1..] == p.p.ends;
      assert pi[..] == p.p.rows;
      assert px[..] == p.p.vals;
      assert linear[..] == p.q;
      assert l[..] == p.l;
      assert u[..] == p.u;
    }

    /** After an update the buffers hold exactly the program of the step. */
    method UpdateOsqpParameters(d: Step)
      requires Valid() && IsStep(d, m) && d.omega == omega && d.q == q
      modifies px, linear, ax, l, u
      ensures Valid() && Program() == OsqpOf(d, m)
    {
      hide OsqpOf, OsqpColumns, OsqpRow, OsqpValue, LinearReady, QuadraticReady, BoundsReady, PointersReady,
           EntriesReady;
      UpdateObjective(d);
      UpdateColumns(d);
      UpdateBounds(d);
      ProgramColumns(d);
      ProgramRest(d);
    }
  }
}
