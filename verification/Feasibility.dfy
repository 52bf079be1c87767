/** The boxes of a control step and its quadratic program: when some answer exists, and
    that any answer of the program is an answer the control step expects. */
module Feasibility {
  import opened Vectors
  import opened Thrusters
  import opened RudderAngles
  import opened Rudder
  import A = Allocation
  import opened QuadraticProgram
  import opened Optimum

  /** The bounds of the program are the boxes. */
  ghost predicate HasBoxes(d: Step, m: nat, bs: seq<Box>)
    requires IsStep(d, m)
  {
    && |bs| == m
    && forall i :: 0 <= i < m ==> bs[i] == Box(d.lowerAlpha[i], d.upperAlpha[i], d.lowerU[i], d.upperU[i])
  }

  /** What the control step takes from the answer x: results.head(m) and segment(m, m) */
  function Deltas(x: Vec, m: nat): (xs: seq<Delta>)
    requires |x| >= 2 * m
    ensures |xs| == m
  {
    seq(m, i requires 0 <= i < m => Delta(x[i], x[m + i]))
  }

  /** Every feasible point is an answer within the boxes. */
  lemma FeasibleAnswers(d: Step, m: nat, bs: seq<Box>, x: Vec)
    requires IsStep(d, m) && HasBoxes(d, m, bs) && Feasible(d, m, x)
    ensures A.Answers(bs, Deltas(x, m))
  {
    hide Balance;
  }

  /** The program is feasible if and only if no box is empty. */
  lemma FeasibleBoxes(d: Step, m: nat, bs: seq<Box>)
    requires IsStep(d, m) && HasBoxes(d, m, bs)
    ensures (exists x :: Feasible(d, m, x)) <==> forall i :: 0 <= i < m ==> Nonempty(bs[i])
  {
    hide Feasible;
    FeasibleIff(d, m);
    if forall i :: 0 <= i < m ==> Nonempty(bs[i]) {
      forall i | 0 <= i < m
        ensures d.lowerU[i] <= d.upperU[i] && d.lowerAlpha[i] <= d.upperAlpha[i]
      {
        assert Nonempty(bs[i]);
      }
    }
  }

  /** A good thruster has room for an answer unless it is an azimuth thruster that can
      reach no allowed angle, or a rudder thruster that turns too fast. */
  predicate HasRoom(a: A.Allocation, i: nat, s: State)
    requires i < a.M() && a.Cys()
  {
    if a.FirstAzimuth() <= i < a.FirstRudder() then
      var z := a.azimuths[i - a.FirstAzimuth()];
      s.alphaDeg as real - z.maxDeltaAlpha <= z.maxAlpha && z.minAlpha <= s.alphaDeg as real + z.maxDeltaAlpha
    else if a.FirstRudder() <= i < a.FirstTwin() then SteeredRoom(a.rudders[i - a.FirstRudder()], s)
    else true
  }

  lemma SlotHasRoom(a: A.Allocation, i: nat, s: State, fx: real, mz: real)
    requires a.Constants() && a.Cys() && i < a.M() && a.GoodSlot(i, s)
    ensures Nonempty(a.BoxSlot(i, s, fx, mz)) <==> HasRoom(a, i, s)
  {
    hide TunnelBoxAt, AzimuthBoxAt, SteeredBoxAt, TwinBoxAt, TunnelGood, AzimuthGood, SteeredGood, TwinGood;
    hide SteeredRoom, Nonempty, DesiredThrusts, IsAnalysis;
    if i < a.FirstAzimuth() {
      TunnelHasRoom(a.tunnels[i], s, mz);
    } else if i < a.FirstRudder() {
      AzimuthHasRoom(a.azimuths[i - a.FirstAzimuth()], s);
    } else if i < a.FirstTwin() {
      SteeredHasRoom(a.analysis, a.rudders[i - a.FirstRudder()], s);
    } else {
      TwinHasRoom(a.twins[i - a.FirstTwin()], s, a.Desired(i - a.FirstTwin(), fx, mz));
    }
  }

  /** The program of good states is feasible if and only if every thruster has room. */
  lemma GoodStatesFeasible(a: A.Allocation, ss: seq<State>, d: Step, fx: real, mz: real)
    requires a.Constants() && a.Cys() && a.GoodStates(ss)
    requires IsStep(d, a.M()) && HasBoxes(d, a.M(), a.SlotBoxes(ss, fx, mz))
    ensures (exists x :: Feasible(d, a.M(), x)) <==> forall i :: 0 <= i < a.M() ==> HasRoom(a, i, ss[i])
  {
    hide Feasible, HasRoom, Nonempty, HasBoxes;
    var bs := a.SlotBoxes(ss, fx, mz);
    FeasibleBoxes(d, a.M(), bs);
    forall i | 0 <= i < a.M()
      ensures Nonempty(bs[i]) <==> HasRoom(a, i, ss[i])
    {
      SlotHasRoom(a, i, ss[i], fx, mz);
    }
  }

  /** An azimuth thruster between whole degrees may have no room. */
  lemma AzimuthJams()
    ensures var z := Azimuth(1.0, 1, 100, 1, 0.2, 0.4, 0.4);
            AzimuthOk(z) && AzimuthGood(z, State(1, 0)) && !Nonempty(AzimuthBoxAt(z, State(1, 0)))
  {
    hide Thrust;
  }

  // ----- runs without room

  /** When some thruster has no room the solver fails, and no command changes. */
  lemma NoRoomNoTurn(a: A.Allocation, ss: seq<State>, rr: seq<State>, fx: real, mz: real, j: nat)
    requires a.Constants() && a.Cys() && a.GoodStates(ss) && a.Turn(ss, rr, fx, mz)
    requires j < a.M() && !HasRoom(a, j, ss[j])
    ensures rr == ss
  {
    var bs := a.SlotBoxes(ss, fx, mz);
    var xs :| a.TurnBy(ss, rr, fx, mz, xs);
    SlotHasRoom(a, j, ss[j], fx, mz);
    hide HasRoom, IsAnalysis;
    forall i | 0 <= i < a.M()
      ensures rr[i] == ss[i]
    {
      EmptyBoxFails(bs, xs, j, i);
      a.SlotHeld(i, ss[i]);
    }
  }

  lemma EmptyBoxFails(bs: seq<Box>, xs: seq<Delta>, j: nat, i: nat)
    requires A.Answers(bs, xs) && j < |bs| && !Nonempty(bs[j]) && i < |bs|
    ensures xs[i] == NO_DELTA
  {}

  /** A run of the closed loop: the states after each turn, for the forces wanted in it */
  ghost predicate Run(a: A.Allocation, states: seq<seq<State>>, forces: seq<(real, real)>)
    requires a.Constants()
  {
    && |states| == |forces| + 1
    && forall k :: 0 <= k < |forces| ==> a.Turn(states[k], states[k + 1], forces[k].0, forces[k].1)
  }

  /** Every state of a run that starts good is good. */
  lemma {:induction false} RunIsGood(a: A.Allocation, states: seq<seq<State>>, forces: seq<(real, real)>, k: nat)
    requires a.Constants() && Run(a, states, forces) && a.GoodStates(states[0]) && k <= |forces|
    ensures a.GoodStates(states[k])
  {
    hide A.Allocation.Constants, A.Allocation.GoodStates, A.Allocation.Turn;
    if k == 0 {
    } else {
      RunIsGood(a, states, forces, k - 1);
      hide *;
      RunTurns(a, states, forces, k);
      a.TurnKeeps(states[k-1], states[k], forces[k-1].0, forces[k-1].1);
    }
  }

  lemma RunTurns(a: A.Allocation, states: seq<seq<State>>, forces: seq<(real, real)>, k: nat)
    requires a.Constants() && Run(a, states, forces) && 0 < k <= |forces|
    ensures |states| == |forces| + 1 && a.Turn(states[k-1], states[k], forces[k-1].0, forces[k-1].1)
  {
    hide A.Allocation.Constants, A.Allocation.Turn;
    assert a.Turn(states[k-1], states[k-1+1], forces[k-1].0, forces[k-1].1);
  }

  /** Once some thruster has no room, every command stays what it is for the rest of the
      run, whatever forces are wanted and whatever the solver does. */
  lemma {:induction false} Frozen(a: A.Allocation, states: seq<seq<State>>, forces: seq<(real, real)>,
                                  j: nat, first: nat, k: nat)
    requires a.Constants() && a.Cys() && Run(a, states, forces) && a.GoodStates(states[0])
    requires first <= k <= |forces| && j < a.M() && |states[first]| == a.M() && !HasRoom(a, j, states[first][j])
    ensures states[k] == states[first]
    decreases k
  {
    hide HasRoom, A.Allocation.Constants, A.Allocation.GoodStates, A.Allocation.Turn;
    if k == first {
    } else {
      Frozen(a, states, forces, j, first, k - 1);
      RunIsGood(a, states, forces, k - 1);
      hide *;
      RunTurns(a, states, forces, k);
      NoRoomNoTurn(a, states[k-1], states[k], forces[k-1].0, forces[k-1].1, j);
    }
  }
}
