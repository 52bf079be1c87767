/** The control step of thrust allocation over all thrusters, closed with the vessel:
    the next feedback is the last command. Slots: tunnel, azimuth, rudder, twin. */
module Allocation {
  import opened Thrusters
  import opened RudderAngles
  import opened Rudder

  /** The solver has succeeded: its answer is inside all boxes. */
  ghost predicate Solved(bs: seq<Box>, xs: seq<Delta>) {
    |xs| == |bs| && forall i :: 0 <= i < |bs| ==> Inside(bs[i], xs[i])
  }

  /** What the solver may return: an answer inside all boxes, or all zeros. */
  ghost predicate Answers(bs: seq<Box>, xs: seq<Delta>) {
    |xs| == |bs| && (Solved(bs, xs) || forall i :: 0 <= i < |bs| ==> xs[i] == NO_DELTA)
  }

  lemma AnswersAdmissible(bs: seq<Box>, xs: seq<Delta>, i: nat)
    requires Answers(bs, xs) && i < |bs|
    ensures Admissible(bs[i], xs[i])
  {}

  class Allocation {
    const tunnels: seq<Tunnel>
    const azimuths: seq<Azimuth>
    const rudders: seq<Steered>
    const twins: seq<Twin>
    const analysis: Analysis

    // bounds on the changes
    var lowerDeltaAlpha: seq<real>
    var upperDeltaAlpha: seq<real>
    var lowerDeltaU: seq<real>
    var upperDeltaU: seq<real>

    // real-time data
    var feedbackU: seq<real>
    var feedbackRotation: seq<int>
    var feedbackAlpha: seq<real>
    var feedbackAlphaDeg: seq<int>
    var commandU: seq<real>
    var commandRotation: seq<int>
    var commandAlpha: seq<real>
    var commandAlphaDeg: seq<int>

    function FirstAzimuth(): nat { |tunnels| }
    function FirstRudder(): nat { |tunnels| + |azimuths| }
    function FirstTwin(): nat { |tunnels| + |azimuths| + |rudders| }
    function M(): nat { FirstTwin() + |twins| }

    ghost predicate Constants() {
      && (forall i :: 0 <= i < |tunnels| ==> TunnelOk(tunnels[i]))
      && (forall i :: 0 <= i < |azimuths| ==> AzimuthOk(azimuths[i]))
      && IsAnalysis(analysis) && (forall i :: 0 <= i < |rudders| ==> SteeredOk(analysis, rudders[i]))
      && (forall i :: 0 <= i < |twins| ==> TwinOk(twins[i]))
      && (|twins| == 0 || (|twins| == 2 && twins[0].ly != twins[1].ly))
    }

    ghost predicate Bounds()
      reads `lowerDeltaAlpha, `upperDeltaAlpha, `lowerDeltaU, `upperDeltaU
    {
      |lowerDeltaAlpha| == |upperDeltaAlpha| == |lowerDeltaU| == |upperDeltaU| == M()
    }

    ghost predicate Feedback()
      reads `feedbackU, `feedbackRotation, `feedbackAlpha, `feedbackAlphaDeg
    {
      |feedbackU| == |feedbackRotation| == |feedbackAlpha| == |feedbackAlphaDeg| == M()
    }

    ghost predicate Command()
      reads `commandU, `commandRotation, `commandAlpha, `commandAlphaDeg
    {
      |commandU| == |commandRotation| == |commandAlpha| == |commandAlphaDeg| == M()
    }

    ghost predicate Valid()
      reads this
    {
      Constants() && Bounds() && Feedback() && Command()
    }

    ghost function BoxAt(i: nat): Box
      requires Bounds() && i < M()
      reads `lowerDeltaAlpha, `upperDeltaAlpha, `lowerDeltaU, `upperDeltaU
    {
      Box(lowerDeltaAlpha[i], upperDeltaAlpha[i], lowerDeltaU[i], upperDeltaU[i])
    }

    function Boxes(): (bs: seq<Box>)
      requires Bounds()
      reads `lowerDeltaAlpha, `upperDeltaAlpha, `lowerDeltaU, `upperDeltaU
      ensures |bs| == M() && forall i :: 0 <= i < M() ==> bs[i] == BoxAt(i)
    {
      BoxesOf(lowerDeltaAlpha, upperDeltaAlpha, lowerDeltaU, upperDeltaU)
    }

    static function BoxesOf(la: seq<real>, ua: seq<real>, lu: seq<real>, uu: seq<real>): (bs: seq<Box>)
      requires |la| == |ua| == |lu| == |uu|
    {
      seq(|la|, i requires 0 <= i < |la| => Box(la[i], ua[i], lu[i], uu[i]))
    }

    method SetBox(i: nat, b: Box)
      requires Bounds() && i < M()
      modifies `lowerDeltaAlpha, `upperDeltaAlpha, `lowerDeltaU, `upperDeltaU
      ensures Bounds() && BoxAt(i) == b
      ensures forall j :: 0 <= j < M() && j != i ==> BoxAt(j) == old(BoxAt(j))
    {
      lowerDeltaAlpha := lowerDeltaAlpha[i := b.lowerAlpha];
      upperDeltaAlpha := upperDeltaAlpha[i := b.upperAlpha];
      lowerDeltaU := lowerDeltaU[i := b.lowerU];
      upperDeltaU := upperDeltaU[i := b.upperU];
    }

    // ----- constraints

    method CalculateConstraintsTunnel(desiredMz: real)
      requires Feedback() && Bounds()
      modifies `lowerDeltaAlpha, `upperDeltaAlpha, `lowerDeltaU, `upperDeltaU
      ensures Bounds()
      ensures forall i :: 0 <= i < |tunnels| ==>
        BoxAt(i) == TunnelBox(tunnels[i], feedbackRotation[i], feedbackU[i], desiredMz)
      ensures forall j :: |tunnels| <= j < M() ==> BoxAt(j) == old(BoxAt(j))
    {
      hide TunnelBox;
      for i := 0 to |tunnels|
        invariant Bounds()
        invariant forall j :: 0 <= j < i ==>
          BoxAt(j) == TunnelBox(tunnels[j], feedbackRotation[j], feedbackU[j], desiredMz)
        invariant forall j :: |tunnels| <= j < M() ==> BoxAt(j) == old(BoxAt(j))
      {
        SetBox(i, TunnelBox(tunnels[i], feedbackRotation[i], feedbackU[i], desiredMz));
      }
    }

    method CalculateConstraintsAzimuth()
      requires Feedback() && Bounds()
      modifies `lowerDeltaAlpha, `upperDeltaAlpha, `lowerDeltaU, `upperDeltaU
      ensures Bounds()
      ensures forall j :: 0 <= j < |azimuths| ==>
        var i := j + FirstAzimuth();
        BoxAt(i) == AzimuthBox(azimuths[j], feedbackRotation[i], feedbackU[i], feedbackAlpha[i])
      ensures forall k :: 0 <= k < M() && !(FirstAzimuth() <= k < FirstAzimuth() + |azimuths|) ==>
          BoxAt(k) == old(BoxAt(k))
    {
      hide AzimuthBox;
      for j := 0 to |azimuths|
        invariant Bounds()
        invariant forall k :: 0 <= k < j ==>
          var i := k + FirstAzimuth();
          BoxAt(i) == AzimuthBox(azimuths[k], feedbackRotation[i], feedbackU[i], feedbackAlpha[i])
        invariant forall k :: 0 <= k < M() && !(FirstAzimuth() <= k < FirstAzimuth() + |azimuths|) ==>
            BoxAt(k) == old(BoxAt(k))
      {
        var i := j + FirstAzimuth();
        SetBox(i, AzimuthBox(azimuths[j], feedbackRotation[i], feedbackU[i], feedbackAlpha[i]));
      }
    }

    method CalculateConstraintsRudder()
      requires Feedback() && Bounds() && Cys()
      modifies `lowerDeltaAlpha, `upperDeltaAlpha, `lowerDeltaU, `upperDeltaU
      ensures Bounds()
      ensures forall k :: 0 <= k < |rudders| ==>
        var i := k + FirstRudder();
        BoxAt(i) == SteeredBox(analysis, rudders[k], feedbackRotation[i], feedbackU[i], feedbackAlpha[i],
          feedbackAlphaDeg[i])
      ensures forall i :: 0 <= i < M() && !(FirstRudder() <= i < FirstTwin()) ==> BoxAt(i) == old(BoxAt(i))
    {
      hide SteeredBox;
      for k := 0 to |rudders|
        invariant Bounds()
        invariant forall l :: 0 <= l < k ==>
          var i := l + FirstRudder();
          BoxAt(i) == SteeredBox(analysis, rudders[l], feedbackRotation[i], feedbackU[i], feedbackAlpha[i],
            feedbackAlphaDeg[i])
        invariant forall i :: 0 <= i < M() && !(FirstRudder() <= i < FirstTwin()) ==> BoxAt(i) == old(BoxAt(i))
      {
        var i := k + FirstRudder();
        SetBox(i, SteeredBox(analysis, rudders[k], feedbackRotation[i], feedbackU[i], feedbackAlpha[i],
          feedbackAlphaDeg[i]));
      }
    }

    predicate Cys() {
      forall k :: 0 <= k < |rudders| ==> rudders[k].cy > 0.0
    }

    function Desired(l: nat, fx: real, mz: real): real
      requires |twins| == 2 && twins[0].ly != twins[1].ly
    {
      var (t0, t1) := DesiredThrusts(twins[0], twins[1], fx, mz);
      if l == 0 then t0 else t1
    }

    /** Each twin thruster is asked for its own share: together they give the force, and at
        their own places the moment. */
    lemma DesiredBalances(fx: real, mz: real)
      requires |twins| == 2 && twins[0].ly != twins[1].ly
      ensures Desired(0, fx, mz) + Desired(1, fx, mz) == fx
      ensures -(twins[0].ly * Desired(0, fx, mz)) - twins[1].ly * Desired(1, fx, mz) == mz
    {
      hide DesiredThrusts;
      DesiredThrustsBalance(twins[0], twins[1], fx, mz);
    }

    method CalculateConstraintsTwinfixed(fx: real, mz: real)
      requires Feedback() && Bounds() && |twins| == 2 && twins[0].ly != twins[1].ly
      modifies `lowerDeltaAlpha, `upperDeltaAlpha, `lowerDeltaU, `upperDeltaU
      ensures Bounds()
      ensures forall l :: 0 <= l < |twins| ==>
        var i := l + FirstTwin(); BoxAt(i) == TwinBox(twins[l], feedbackRotation[i], feedbackU[i], Desired(l, fx, mz))
      ensures forall k :: 0 <= k < FirstTwin() ==> BoxAt(k) == old(BoxAt(k))
    {
      hide TwinBox, DesiredThrusts;
      for l := 0 to |twins|
        invariant Bounds()
        invariant forall k :: 0 <= k < l ==>
          var i := k + FirstTwin(); BoxAt(i) == TwinBox(twins[k], feedbackRotation[i], feedbackU[i], Desired(k, fx, mz))
        invariant forall k :: 0 <= k < FirstTwin() ==> BoxAt(k) == old(BoxAt(k))
      {
        var i := l + FirstTwin();
        SetBox(i, TwinBox(twins[l], feedbackRotation[i], feedbackU[i], Desired(l, fx, mz)));
      }
    }

    // ----- feedback

    /** calculateu for slot i, from the pair of rotation and thrust */
    method SetFeedback(i: nat, p: (int, real))
      requires Feedback() && i < M()
      modifies `feedbackRotation, `feedbackU
      ensures Feedback() && feedbackRotation[i] == p.0 && feedbackU[i] == p.1
      ensures forall j :: 0 <= j < M() && j != i ==>
        feedbackRotation[j] == old(feedbackRotation[j]) && feedbackU[j] == old(feedbackU[j])
    {
      feedbackRotation := feedbackRotation[i := p.0];
      feedbackU := feedbackU[i := p.1];
    }

    /** What calculateu makes of the rotation n and the angle deg in slot i */
    function ReadSlot(i: nat, n: int, deg: int): (int, real)
      requires i < M()
    {
      if i < |tunnels| then TunnelRead(tunnels[i], n)
      else if i < FirstRudder() then AzimuthRead(azimuths[i - FirstAzimuth()], n)
      else if i < FirstTwin() then SteeredRead(analysis, rudders[i - FirstRudder()], n, deg)
      else TwinRead(twins[i - FirstTwin()], n)
    }

    method CalculateU()
      requires Feedback()
      modifies `feedbackRotation, `feedbackU
      ensures Feedback()
      ensures forall i :: 0 <= i < M() ==>
        (feedbackRotation[i], feedbackU[i]) == ReadSlot(i, old(feedbackRotation[i]), feedbackAlphaDeg[i])
    {
      hide TunnelRead, AzimuthRead, SteeredRead, TwinRead;
      for i := 0 to |tunnels|
        invariant Feedback() && ReadUpTo(i, old(feedbackRotation))
      {
        SetFeedback(i, TunnelRead(tunnels[i], feedbackRotation[i]));
      }
      for j := 0 to |azimuths|
        invariant Feedback() && ReadUpTo(FirstAzimuth() + j, old(feedbackRotation))
      {
        var i := j + FirstAzimuth();
        SetFeedback(i, AzimuthRead(azimuths[j], feedbackRotation[i]));
      }
      for k := 0 to |rudders|
        invariant Feedback() && ReadUpTo(FirstRudder() + k, old(feedbackRotation))
      {
        var i := k + FirstRudder();
        SetFeedback(i, SteeredRead(analysis, rudders[k], feedbackRotation[i], feedbackAlphaDeg[i]));
      }
      for l := 0 to |twins|
        invariant Feedback() && ReadUpTo(FirstTwin() + l, old(feedbackRotation))
      {
        var i := l + FirstTwin();
        SetFeedback(i, TwinRead(twins[l], feedbackRotation[i]));
      }
    }

    /** The slots below k have been read, the rotations of the others are as they were. */
    ghost predicate ReadUpTo(k: nat, ns: seq<int>)
      requires Feedback()
      reads `feedbackU, `feedbackRotation, `feedbackAlpha, `feedbackAlphaDeg
    {
      && |ns| == M()
      && forall i :: 0 <= i < M() ==>
        if i < k then (feedbackRotation[i], feedbackU[i]) == ReadSlot(i, ns[i], feedbackAlphaDeg[i])
        else feedbackRotation[i] == ns[i]
    }

    /** The thrust angle of slot i, in degrees, for the angle fed back */
    function AngleSlot(i: nat, deg: int): real {
      if FirstRudder() <= i < FirstTwin() then analysis.arctan(Tan(rudders[i - FirstRudder()].cy, deg as real))
      else deg as real
    }

    method ConvertAlphaInt2Radian()
      requires Feedback()
      modifies `feedbackAlpha
      ensures Feedback()
      ensures forall i :: 0 <= i < M() ==> feedbackAlpha[i] == AngleSlot(i, feedbackAlphaDeg[i])
    {
      hide Tan;
      for i := 0 to |tunnels| + |azimuths|
        invariant Feedback() && forall j :: 0 <= j < i ==> feedbackAlpha[j] == AngleSlot(j, feedbackAlphaDeg[j])
      {
        feedbackAlpha := feedbackAlpha[i := feedbackAlphaDeg[i] as real];
      }
      for k := 0 to |rudders|
        invariant Feedback()
        invariant forall j :: 0 <= j < FirstRudder() + k ==> feedbackAlpha[j] == AngleSlot(j, feedbackAlphaDeg[j])
      {
        var i := k + FirstRudder();
        feedbackAlpha := feedbackAlpha[i := analysis.arctan(Tan(rudders[k].cy, feedbackAlphaDeg[i] as real))];
      }
      for l := 0 to |twins|
        invariant Feedback()
        invariant forall j :: 0 <= j < FirstTwin() + l ==> feedbackAlpha[j] == AngleSlot(j, feedbackAlphaDeg[j])
      {
        var i := l + FirstTwin();
        feedbackAlpha := feedbackAlpha[i := feedbackAlphaDeg[i] as real];
      }
    }

    // ----- command

    method UpdateAlphaAndU(xs: seq<Delta>)
      requires Feedback() && |xs| == M()
      modifies `commandU, `commandAlpha
      ensures |commandU| == |commandAlpha| == M()
      ensures forall i :: 0 <= i < M() ==>
        commandU[i] == feedbackU[i] + xs[i].u && commandAlpha[i] == feedbackAlpha[i] + xs[i].alpha
    {
      var us, alphas := feedbackU, feedbackAlpha;
      commandU := seq(|us|, i requires 0 <= i < |us| => us[i] + xs[i].u);
      commandAlpha := seq(|us|, i requires 0 <= i < |us| => alphas[i] + xs[i].alpha);
    }

    /** The angle commanded in slot i for the thrust angle alpha */
    function DegreeSlot(i: nat, alpha: real): int
      requires Cys()
    {
      if FirstRudder() <= i < FirstTwin() then RudderAngle(analysis, rudders[i - FirstRudder()].cy, alpha)
      else Round(alpha)
    }

    method ConvertAlphaRadian2Int()
      requires Command() && Cys()
      modifies `commandAlphaDeg
      ensures Command()
      ensures forall i :: 0 <= i < M() ==> commandAlphaDeg[i] == DegreeSlot(i, commandAlpha[i])
    {
      hide Round, RudderAngle;
      for i := 0 to |tunnels| + |azimuths|
        invariant Command() && forall j :: 0 <= j < i ==> commandAlphaDeg[j] == DegreeSlot(j, commandAlpha[j])
      {
        commandAlphaDeg := commandAlphaDeg[i := Round(commandAlpha[i])];
      }
      for k := 0 to |rudders|
        invariant Command()
        invariant forall j :: 0 <= j < FirstRudder() + k ==> commandAlphaDeg[j] == DegreeSlot(j, commandAlpha[j])
      {
        var i := k + FirstRudder();
        commandAlphaDeg := commandAlphaDeg[i := RudderAngle(analysis, rudders[k].cy, commandAlpha[i])];
      }
      for l := 0 to |twins|
        invariant Command()
        invariant forall j :: 0 <= j < FirstTwin() + l ==> commandAlphaDeg[j] == DegreeSlot(j, commandAlpha[j])
      {
        var i := l + FirstTwin();
        commandAlphaDeg := commandAlphaDeg[i := Round(commandAlpha[i])];
      }
    }

    function WriteSlot(i: nat, u: real, alpha: real, deg: int): (int, real)
      requires Constants() && i < M()
    {
      if i < |tunnels| then TunnelWrite(tunnels[i], u, alpha)
      else if i < FirstRudder() then AzimuthWrite(azimuths[i - FirstAzimuth()], u)
      else if i < FirstTwin() then SteeredWrite(analysis, rudders[i - FirstRudder()], deg, u)
      else TwinWrite(twins[i - FirstTwin()], u, alpha)
    }

    /** The slots below k have been written, the thrusts of the others are as they were. */
    ghost predicate WrittenUpTo(k: nat, us: seq<real>)
      requires Constants() && Command()
      reads `commandU, `commandRotation, `commandAlpha, `commandAlphaDeg
    {
      && |us| == M()
      && forall i :: 0 <= i < M() ==>
        if i < k then (commandRotation[i], commandU[i]) == WriteSlot(i, us[i], commandAlpha[i], commandAlphaDeg[i])
        else commandU[i] == us[i]
    }

    method SetCommand(i: nat, p: (int, real))
      requires Command() && i < M()
      modifies `commandRotation, `commandU
      ensures Command() && commandRotation[i] == p.0 && commandU[i] == p.1
      ensures forall j :: 0 <= j < M() && j != i ==>
        commandRotation[j] == old(commandRotation[j]) && commandU[j] == old(commandU[j])
    {
      commandRotation := commandRotation[i := p.0];
      commandU := commandU[i := p.1];
    }

    method CalculateRotation()
      requires Constants() && Command()
      modifies `commandRotation, `commandU
      ensures Command()
      ensures forall i :: 0 <= i < M() ==>
        (commandRotation[i], commandU[i]) == WriteSlot(i, old(commandU[i]), commandAlpha[i], commandAlphaDeg[i])
    {
      hide TunnelWrite, AzimuthWrite, SteeredWrite, TwinWrite, IsAnalysis, Steady, Den;
      for i := 0 to |tunnels|
        invariant Command() && WrittenUpTo(i, old(commandU))
      {
        SetCommand(i, TunnelWrite(tunnels[i], commandU[i], commandAlpha[i]));
      }
      for j := 0 to |azimuths|
        invariant Command() && WrittenUpTo(FirstAzimuth() + j, old(commandU))
      {
        var i := j + FirstAzimuth();
        SetCommand(i, AzimuthWrite(azimuths[j], commandU[i]));
      }
      for k := 0 to |rudders|
        invariant Command() && WrittenUpTo(FirstRudder() + k, old(commandU))
      {
        var i := k + FirstRudder();
        SetCommand(i, SteeredWrite(analysis, rudders[k], commandAlphaDeg[i], commandU[i]));
      }
      for l := 0 to |twins|
        invariant Command() && WrittenUpTo(FirstTwin() + l, old(commandU))
      {
        var i := l + FirstTwin();
        SetCommand(i, TwinWrite(twins[l], commandU[i], commandAlpha[i]));
      }
    }

    // ----- one step

    /** The next state of slot i */
    ghost function NextSlot(i: nat, s: State, x: Delta): State
      requires Constants() && i < M()
    {
      if i < |tunnels| then TunnelNext(tunnels[i], s, x)
      else if i < FirstRudder() then AzimuthNext(azimuths[i - FirstAzimuth()], s, x)
      else if i < FirstTwin() then SteeredNext(analysis, rudders[i - FirstRudder()], s, x)
      else TwinNext(twins[i - FirstTwin()], s, x)
    }

    ghost function BoxSlot(i: nat, s: State, fx: real, mz: real): Box
      requires Constants() && i < M()
    {
      if i < |tunnels| then TunnelBoxAt(tunnels[i], s, mz)
      else if i < FirstRudder() then AzimuthBoxAt(azimuths[i - FirstAzimuth()], s)
      else if i < FirstTwin() then SteeredBoxAt(analysis, rudders[i - FirstRudder()], s)
      else TwinBoxAt(twins[i - FirstTwin()], s, Desired(i - FirstTwin(), fx, mz))
    }

    function States(ns: seq<int>, ds: seq<int>): (ss: seq<State>)
      requires |ns| == |ds|
      ensures |ss| == |ns| && forall i :: 0 <= i < |ns| ==> ss[i] == State(ns[i], ds[i])
    {
      seq(|ns|, i requires 0 <= i < |ns| => State(ns[i], ds[i]))
    }

    /** The boxes of all slots */
    ghost function SlotBoxes(ss: seq<State>, fx: real, mz: real): (bs: seq<Box>)
      requires Constants() && |ss| == M()
      ensures |bs| == M() && forall i :: 0 <= i < M() ==> bs[i] == BoxSlot(i, ss[i], fx, mz)
    {
      seq(M(), i requires 0 <= i < M() => BoxSlot(i, ss[i], fx, mz))
    }

    /** The states rr follow from ss by one answer of the solver, or by its failure. */
    ghost predicate Turn(ss: seq<State>, rr: seq<State>, fx: real, mz: real)
      requires Constants()
    {
      && |ss| == |rr| == M()
      && exists xs :: TurnBy(ss, rr, fx, mz, xs)
    }

    ghost predicate TurnBy(ss: seq<State>, rr: seq<State>, fx: real, mz: real, xs: seq<Delta>)
      requires Constants() && |ss| == |rr| == M()
    {
      Answers(SlotBoxes(ss, fx, mz), xs) && forall i :: 0 <= i < M() ==> rr[i] == NextSlot(i, ss[i], xs[i])
    }

    /** The box of slot i, from what has been read */
    ghost function BoxFrom(i: nat, n: int, u: real, alpha: real, deg: int, fx: real, mz: real): Box
      requires Constants() && i < M()
    {
      if i < |tunnels| then TunnelBox(tunnels[i], n, u, mz)
      else if i < FirstRudder() then AzimuthBox(azimuths[i - FirstAzimuth()], n, u, alpha)
      else if i < FirstTwin() then SteeredBox(analysis, rudders[i - FirstRudder()], n, u, alpha, deg)
      else TwinBox(twins[i - FirstTwin()], n, u, Desired(i - FirstTwin(), fx, mz))
    }

    /** Reading, bounding and writing a slot make up its step. */
    lemma SlotStep(i: nat, s: State, x: Delta, fx: real, mz: real)
      requires Constants() && Cys() && i < M()
      ensures var (n, v) := ReadSlot(i, s.rotation, s.alphaDeg);
              var alpha := AngleSlot(i, s.alphaDeg);
              var deg := DegreeSlot(i, alpha + x.alpha);
              && BoxSlot(i, s, fx, mz) == BoxFrom(i, n, v, alpha, s.alphaDeg, fx, mz)
              && NextSlot(i, s, x) == State(WriteSlot(i, v + x.u, alpha + x.alpha, deg).0, deg)
    {
      hide TunnelRead, AzimuthRead, SteeredRead, TwinRead, TunnelWrite, AzimuthWrite, SteeredWrite, TwinWrite;
      hide TunnelBox, AzimuthBox, SteeredBox, TwinBox, DesiredThrusts, Round, RudderAngle, Tan, IsAnalysis;
    }

    lemma CysPositive()
      requires Constants()
      ensures Cys()
    {
      hide IsAnalysis;
    }

    method UpdateFormerStepFeedback()
      requires Feedback()
      modifies `feedbackU, `feedbackRotation, `feedbackAlpha
      ensures Feedback()
      ensures forall i :: 0 <= i < M() ==>
        && (feedbackRotation[i], feedbackU[i]) == ReadSlot(i, old(feedbackRotation[i]), feedbackAlphaDeg[i])
        && feedbackAlpha[i] == AngleSlot(i, feedbackAlphaDeg[i])
    {
      hide ReadSlot, AngleSlot;
      ConvertAlphaInt2Radian();
      CalculateU();
    }

    method CalculateConstraints(fx: real, mz: real)
      requires Constants() && Bounds() && Feedback()
      modifies `lowerDeltaAlpha, `upperDeltaAlpha, `lowerDeltaU, `upperDeltaU
      ensures Bounds()
      ensures forall i :: 0 <= i < M() ==>
        BoxAt(i) == BoxFrom(i, feedbackRotation[i], feedbackU[i], feedbackAlpha[i], feedbackAlphaDeg[i], fx, mz)
    {
      hide TunnelBox, AzimuthBox, SteeredBox, TwinBox, DesiredThrusts, IsAnalysis, SteeredOk, TunnelOk, AzimuthOk,
           TwinOk;
      CysPositive();
      CalculateConstraintsTunnel(mz);
      CalculateConstraintsAzimuth();
      CalculateConstraintsRudder();
      if |twins| > 0 {
        CalculateConstraintsTwinfixed(fx, mz);
      }
      forall i | |tunnels| <= i < M()
        ensures BoxAt(i) == BoxFrom(i, feedbackRotation[i], feedbackU[i], feedbackAlpha[i], feedbackAlphaDeg[i], fx, mz)
      {
        assert i == (i - FirstTwin()) + FirstTwin();
        assert i == (i - FirstRudder()) + FirstRudder();
        assert i == (i - FirstAzimuth()) + FirstAzimuth();
      }
    }

    method UpdateNextStepCommand(xs: seq<Delta>)
      requires Constants() && Cys() && Feedback() && Command() && |xs| == M()
      modifies `commandU, `commandRotation, `commandAlpha, `commandAlphaDeg
      ensures Command()
      ensures forall i :: 0 <= i < M() ==>
        var u, alpha := feedbackU[i] + xs[i].u, feedbackAlpha[i] + xs[i].alpha;
        && commandAlphaDeg[i] == DegreeSlot(i, alpha)
        && (commandRotation[i], commandU[i]) == WriteSlot(i, u, alpha, commandAlphaDeg[i])
    {
      hide WriteSlot, DegreeSlot, Constants;
      UpdateAlphaAndU(xs);
      ConvertAlphaRadian2Int();
      CalculateRotation();
    }

    /** The thrust commanded in slot i with the state r, when u is asked for */
    ghost predicate CommandedSlot(i: nat, u: real, r: State, v: real)
      requires Constants() && i < M()
    {
      if i < |tunnels| then
        var k := if r.rotation < 0 then tunnels[i].kNegative else tunnels[i].kPositive;
        Commanded(k, 1, k, u, if r.rotation < 0 then -r.rotation else r.rotation, v)
      else if i < FirstRudder() then
        var a := azimuths[i - FirstAzimuth()];
        Commanded(a.k, a.minRotation, Thrust(a.k, a.minRotation), u, r.rotation, v)
      else if i < FirstTwin() then
        var d := rudders[i - FirstRudder()];
        Commanded(Coefficient(analysis, d, r.alphaDeg), d.minRotation, Thrust(d.k, d.minRotation), u, r.rotation, v)
      else
        var w := twins[i - FirstTwin()];
        var k := if r.rotation < 0 then w.kNegative else w.kPositive;
        Commanded(k, 1, k, u, if r.rotation < 0 then -r.rotation else r.rotation, v)
    }

    lemma SlotCommands(i: nat, u: real, alpha: real, deg: int)
      requires Constants() && Cys() && i < M()
      ensures var (n, v) := WriteSlot(i, u, alpha, deg); CommandedSlot(i, u, State(n, deg), v)
    {
      hide TunnelWrite, AzimuthWrite, SteeredWrite, TwinWrite, Commanded, Thrust, Coefficient, IsAnalysis;
      if i < |tunnels| {
        TunnelWriteCommands(tunnels[i], u, alpha);
      } else if i < FirstRudder() {
        AzimuthWriteCommands(azimuths[i - FirstAzimuth()], u);
      } else if i < FirstTwin() {
        SteeredWriteCommands(analysis, rudders[i - FirstRudder()], deg, u);
      } else {
        TwinWriteCommands(twins[i - FirstTwin()], u, alpha);
      }
    }

    method OneStepThrustAllocation(fx: real, mz: real, solver: seq<Box> -> seq<Delta>) returns (ghost xs: seq<Delta>)
      requires Valid() && forall bs :: Answers(bs, solver(bs))
      modifies this
      ensures Valid()
      ensures TurnBy(States(old(feedbackRotation), old(feedbackAlphaDeg)), States(commandRotation, commandAlphaDeg),
                     fx, mz, xs)
      ensures forall i :: 0 <= i < M() ==>
        CommandedSlot(i, ReadSlot(i, old(feedbackRotation[i]), old(feedbackAlphaDeg[i])).1 + xs[i].u,
                      State(commandRotation[i], commandAlphaDeg[i]), commandU[i])
    {
      hide CommandedSlot, ReadSlot, WriteSlot, BoxFrom, BoxSlot, NextSlot, AngleSlot, DegreeSlot, Answers, Constants,
           BoxAt, Boxes, Cys;
      ghost var ss := States(feedbackRotation, feedbackAlphaDeg);
      CysPositive();
      UpdateFormerStepFeedback();
      CalculateConstraints(fx, mz);
      ghost var bs := Boxes();
      var results := solver(Boxes());
      AnswersLength(bs, results);
      xs := results;
      UpdateNextStepCommand(results);
      forall i | 0 <= i < M()
        ensures bs[i] == BoxSlot(i, ss[i], fx, mz)
        ensures State(commandRotation[i], commandAlphaDeg[i]) == NextSlot(i, ss[i], xs[i])
        ensures CommandedSlot(i, feedbackU[i] + xs[i].u, State(commandRotation[i], commandAlphaDeg[i]), commandU[i])
      {
        SlotStep(i, ss[i], xs[i], fx, mz);
        SlotCommands(i, feedbackU[i] + xs[i].u, feedbackAlpha[i] + xs[i].alpha, commandAlphaDeg[i]);
      }
      assert bs == SlotBoxes(ss, fx, mz);
    }

    static lemma AnswersLength(bs: seq<Box>, xs: seq<Delta>)
      requires Answers(bs, xs)
      ensures |xs| == |bs|
    {}

    // ----- closed loop

    ghost predicate GoodSlot(i: nat, s: State)
      requires Constants() && i < M()
    {
      if i < |tunnels| then TunnelGood(tunnels[i], s)
      else if i < FirstRudder() then AzimuthGood(azimuths[i - FirstAzimuth()], s)
      else if i < FirstTwin() then SteeredGood(rudders[i - FirstRudder()], s)
      else TwinGood(twins[i - FirstTwin()], s)
    }

    /** How far one step may go, and which way a twin thruster may reverse. */
    ghost predicate StepSlot(i: nat, s: State, r: State, fx: real, mz: real)
      requires Constants() && i < M()
    {
      if i < |tunnels| then TunnelSmallStep(tunnels[i], s.rotation, r.rotation)
      else if i < FirstRudder() then AzimuthSmallStep(azimuths[i - FirstAzimuth()], s, r)
      else if i < FirstTwin() then
        var d := rudders[i - FirstRudder()].maxDeltaVarphi; -d <= r.alphaDeg - s.alphaDeg <= d
      else
        var w := twins[i - FirstTwin()];
        && -w.maxDeltaRotation <= r.rotation - s.rotation <= w.maxDeltaRotation
        && ReversesWell(w, s.rotation, r.rotation, Desired(i - FirstTwin(), fx, mz))
    }

    /** What a step can lead to when the solver has succeeded */
    ghost predicate ReachSlot(i: nat, s: State, r: State, fx: real, mz: real)
      requires Constants() && i < M()
    {
      if i < |tunnels| then TunnelReach(tunnels[i], s.rotation, mz, r.rotation) && TunnelAngle(r)
      else if i < FirstRudder() then AzimuthReach(azimuths[i - FirstAzimuth()], s, r)
      else if i < FirstTwin() then StepSlot(i, s, r, fx, mz)
      else TwinReach(twins[i - FirstTwin()], s.rotation, Desired(i - FirstTwin(), fx, mz), r.rotation) && TwinAngle(r)
    }

    lemma SlotReaches(i: nat, s: State, fx: real, mz: real, x: Delta)
      requires Constants() && i < M() && GoodSlot(i, s) && Inside(BoxSlot(i, s, fx, mz), x)
      ensures ReachSlot(i, s, NextSlot(i, s, x), fx, mz)
    {
      hide TunnelNext, AzimuthNext, SteeredNext, TwinNext, TunnelBoxAt, AzimuthBoxAt, SteeredBoxAt, TwinBoxAt;
      hide TunnelGood, AzimuthGood, SteeredGood, TwinGood, TunnelReach, AzimuthReach, TwinReach, DesiredThrusts;
      hide IsAnalysis, Inside;
      if i < |tunnels| {
        TunnelInReach(tunnels[i], s, mz, x);
      } else if i < FirstRudder() {
        AzimuthReachIff(azimuths[i - FirstAzimuth()], s, NextSlot(i, s, x));
      } else if i < FirstTwin() {
        SteeredKeeps(analysis, rudders[i - FirstRudder()], s, x);
      } else {
        TwinInReach(twins[i - FirstTwin()], s, Desired(i - FirstTwin(), fx, mz), x);
      }
    }

    /** Slot i can be brought to r: for a rudder, when its bounds are right, any rotation and
        rudder angle within limits and deltas. */
    ghost predicate Reachable(i: nat, s: State, r: State, fx: real, mz: real)
      requires Constants() && i < M()
    {
      if FirstRudder() <= i < FirstTwin() then
        var d := rudders[i - FirstRudder()]; d.cy > 0.0 && Gentle(d) && SteeredReach(d, s, r)
      else ReachSlot(i, s, r, fx, mz)
    }

    lemma SlotReached(i: nat, s: State, r: State, fx: real, mz: real) returns (x: Delta)
      requires Constants() && i < M() && GoodSlot(i, s) && Reachable(i, s, r, fx, mz)
      ensures Inside(BoxSlot(i, s, fx, mz), x) && NextSlot(i, s, x) == r
    {
      hide TunnelNext, AzimuthNext, SteeredNext, TwinNext, TunnelBoxAt, AzimuthBoxAt, SteeredBoxAt, TwinBoxAt;
      hide TunnelGood, AzimuthGood, SteeredGood, TwinGood, TunnelReach, AzimuthReach, TwinReach, DesiredThrusts;
      hide IsAnalysis, Inside, Gentle, SteeredReach;
      if i < |tunnels| {
        x := TunnelReached(tunnels[i], s, mz, r);
      } else if i < FirstRudder() {
        AzimuthReachIff(azimuths[i - FirstAzimuth()], s, r);
        x :| Inside(AzimuthBoxAt(azimuths[i - FirstAzimuth()], s), x)
             && AzimuthNext(azimuths[i - FirstAzimuth()], s, x) == r;
      } else if i < FirstTwin() {
        x := SteeredReached(analysis, rudders[i - FirstRudder()], s, r);
      } else {
        x := TwinReached(twins[i - FirstTwin()], s, Desired(i - FirstTwin(), fx, mz), r);
      }
    }

    lemma SlotKeeps(i: nat, s: State, fx: real, mz: real, x: Delta)
      requires Constants() && i < M() && GoodSlot(i, s) && Admissible(BoxSlot(i, s, fx, mz), x)
      ensures GoodSlot(i, NextSlot(i, s, x))
      ensures StepSlot(i, s, NextSlot(i, s, x), fx, mz)
    {
      hide TunnelNext, AzimuthNext, SteeredNext, TwinNext, TunnelBoxAt, AzimuthBoxAt, SteeredBoxAt, TwinBoxAt;
      hide TunnelGood, AzimuthGood, SteeredGood, TwinGood, AzimuthSmallStep, Admissible, ReversesWell, DesiredThrusts,
           IsAnalysis;
      if i < |tunnels| {
        TunnelKeeps(tunnels[i], s, mz, x);
      } else if i < FirstRudder() {
        AzimuthKeeps(azimuths[i - FirstAzimuth()], s, x);
      } else if i < FirstTwin() {
        SteeredKeeps(analysis, rudders[i - FirstRudder()], s, x);
      } else {
        TwinKeeps(twins[i - FirstTwin()], s, Desired(i - FirstTwin(), fx, mz), x);
      }
    }

    ghost function CommandState(i: nat): State
      requires Command() && i < M()
      reads `commandU, `commandRotation, `commandAlpha, `commandAlphaDeg
    {
      State(commandRotation[i], commandAlphaDeg[i])
    }

    /** Every thruster runs within its limits and turns the way its angle says. */
    ghost predicate Good()
      requires Constants() && Command()
      reads `commandU, `commandRotation, `commandAlpha, `commandAlphaDeg
    {
      forall i :: 0 <= i < M() ==> GoodSlot(i, CommandState(i))
    }

    ghost function CommandStates(): (ss: seq<State>)
      requires Command()
      reads `commandU, `commandRotation, `commandAlpha, `commandAlphaDeg
    {
      States(commandRotation, commandAlphaDeg)
    }

    ghost predicate GoodStates(ss: seq<State>)
      requires Constants()
    {
      |ss| == M() && forall i :: 0 <= i < M() ==> GoodSlot(i, ss[i])
    }

    /** Good states stay good, each within its limits on a step. */
    lemma TurnKeeps(ss: seq<State>, rr: seq<State>, fx: real, mz: real)
      requires Constants() && GoodStates(ss) && Turn(ss, rr, fx, mz)
      ensures GoodStates(rr) && forall i :: 0 <= i < M() ==> StepSlot(i, ss[i], rr[i], fx, mz)
      ensures rr == ss || forall i :: 0 <= i < M() ==> ReachSlot(i, ss[i], rr[i], fx, mz)
    {
      hide GoodSlot, StepSlot, ReachSlot, NextSlot, BoxSlot, Constants;
      var xs :| TurnBy(ss, rr, fx, mz, xs);
      var bs := SlotBoxes(ss, fx, mz);
      forall i | 0 <= i < M()
        ensures GoodSlot(i, rr[i]) && StepSlot(i, ss[i], rr[i], fx, mz)
        ensures Solved(bs, xs) ==> ReachSlot(i, ss[i], rr[i], fx, mz)
        ensures !Solved(bs, xs) ==> rr[i] == ss[i]
      {
        AnswersAdmissible(bs, xs, i);
        SlotKeeps(i, ss[i], fx, mz, xs[i]);
        if Solved(bs, xs) {
          SlotReaches(i, ss[i], fx, mz, xs[i]);
        } else {
          SlotHeld(i, ss[i]);
        }
      }
    }

    /** A good thruster repeats its command when the solver fails. */
    lemma SlotHeld(i: nat, s: State)
      requires Constants() && i < M() && GoodSlot(i, s)
      ensures NextSlot(i, s, NO_DELTA) == s
    {
      hide TunnelNext, AzimuthNext, SteeredNext, TwinNext, AzimuthBoxAt, AzimuthBox, IsAnalysis, Den, Steady;
      if i < FirstAzimuth() {
        TunnelHolds(tunnels[i], s);
      } else if i < FirstRudder() {
        AzimuthKeeps(azimuths[i - FirstAzimuth()], s, NO_DELTA);
      } else if i < FirstTwin() {
        FailedSolveHolds(analysis, rudders[i - FirstRudder()], s.rotation, s.alphaDeg);
      } else {
        TwinHolds(twins[i - FirstTwin()], s);
      }
    }

    /** And any states in reach, slot by slot, are what some answer of the solver leads to:
        no box is smaller than the limits make it. */
    lemma TurnReaches(ss: seq<State>, rr: seq<State>, fx: real, mz: real)
      requires Constants() && GoodStates(ss) && |rr| == M()
      requires forall i :: 0 <= i < M() ==> Reachable(i, ss[i], rr[i], fx, mz)
      ensures Turn(ss, rr, fx, mz)
    {
      hide GoodSlot, Reachable, NextSlot, BoxSlot, Constants, Inside;
      forall i | 0 <= i < M()
        ensures exists x :: Inside(BoxSlot(i, ss[i], fx, mz), x) && NextSlot(i, ss[i], x) == rr[i]
      {
        var x := SlotReached(i, ss[i], rr[i], fx, mz);
      }
      var xs := seq(M(), i requires 0 <= i < M() =>
                  var x :| Inside(BoxSlot(i, ss[i], fx, mz), x) && NextSlot(i, ss[i], x) == rr[i]; x);
      assert Solved(SlotBoxes(ss, fx, mz), xs);
      assert TurnBy(ss, rr, fx, mz, xs);
    }

    /** One turn of the loop: the vessel has done what was commanded. Whatever forces are
        wanted and whatever the solver answers, the next command is good again. */
    method ClosedLoopStep(fx: real, mz: real, solver: seq<Box> -> seq<Delta>)
      requires Valid() && Good() && forall bs :: Answers(bs, solver(bs))
      modifies this
      ensures Valid() && Good()
      ensures Turn(old(CommandStates()), CommandStates(), fx, mz)
      ensures forall i :: 0 <= i < M() ==> StepSlot(i, old(CommandState(i)), CommandState(i), fx, mz)
    {
      feedbackRotation := commandRotation;
      feedbackAlphaDeg := commandAlphaDeg;
      hide TurnBy, StepSlot, GoodSlot, Answers, Constants;
      ghost var ss := CommandStates();
      assert forall i :: 0 <= i < M() ==> ss[i] == CommandState(i);
      ghost var xs := OneStepThrustAllocation(fx, mz, solver);
      assert CommandStates() == States(commandRotation, commandAlphaDeg);
      TurnKeeps(ss, CommandStates(), fx, mz);
      assert forall i :: 0 <= i < M() ==> CommandStates()[i] == CommandState(i);
    }

    /** The command that initializapropeller gives in slot i: state, thrust and angle */
    function StartSlot(i: nat): (State, real, real)
      requires i < M()
    {
      if i < |tunnels| then (State(1, 90), Thrust(tunnels[i].kPositive, 1), 90.0)
      else if i < FirstRudder() then
        var a := azimuths[i - FirstAzimuth()];
        var middle := (a.minAlpha + a.maxAlpha) / 2.0;
        (State(a.minRotation, Round(middle)), Thrust(a.k, a.minRotation), middle)
      else if i < FirstTwin() then
        var r := rudders[i - FirstRudder()];
        (State(r.minRotation, 0), Thrust(r.k, r.minRotation), 0.0)
      else (State(1, 0), Thrust(twins[i - FirstTwin()].kPositive, 1), 0.0)
    }

    ghost predicate StartedUpTo(k: nat)
      requires Command() && k <= M()
      reads `commandU, `commandRotation, `commandAlpha, `commandAlphaDeg
    {
      forall i :: 0 <= i < k ==> (CommandState(i), commandU[i], commandAlpha[i]) == StartSlot(i)
    }

    method InitializePropeller()
      requires Valid()
      modifies `commandRotation, `commandU, `commandAlpha, `commandAlphaDeg
      ensures Valid() && StartedUpTo(M()) && Good()
    {
      hide Round, IsAnalysis, Constants, GoodSlot, CommandState;
      for i := 0 to |tunnels|
        invariant Valid() && StartedUpTo(i)
      {
        InitSlot(i, 1, Thrust(tunnels[i].kPositive, 1), 90.0, 90);
      }
      for j := 0 to |azimuths|
        invariant Valid() && StartedUpTo(FirstAzimuth() + j)
      {
        var i, a := j + FirstAzimuth(), azimuths[j];
        var middle := (a.minAlpha + a.maxAlpha) / 2.0;
        InitSlot(i, a.minRotation, Thrust(a.k, a.minRotation), middle, Round(middle));
      }
      for k := 0 to |rudders|
        invariant Valid() && StartedUpTo(FirstRudder() + k)
      {
        var i, r := k + FirstRudder(), rudders[k];
        InitSlot(i, r.minRotation, Thrust(r.k, r.minRotation), 0.0, 0);
      }
      for l := 0 to |twins|
        invariant Valid() && StartedUpTo(FirstTwin() + l)
      {
        InitSlot(l + FirstTwin(), 1, Thrust(twins[l].kPositive, 1), 0.0, 0);
      }
      forall i | 0 <= i < M()
        ensures GoodSlot(i, CommandState(i))
      {
        StartsGood(i);
      }
    }

    /** The first commands of every kind of thruster are good. */
    lemma StartsGood(i: nat)
      requires Constants() && i < M()
      ensures GoodSlot(i, StartSlot(i).0)
    {
      hide Round, IsAnalysis;
      if |tunnels| <= i < FirstRudder() {
        var a := azimuths[i - FirstAzimuth()];
        var middle := (a.minAlpha + a.maxAlpha) / 2.0;
        RoundMonotone(a.minAlpha, middle);
        RoundMonotone(middle, a.maxAlpha);
      }
    }

    method InitSlot(i: nat, n: int, u: real, alpha: real, deg: int)
      requires Valid() && i < M()
      modifies `commandRotation, `commandU, `commandAlpha, `commandAlphaDeg
      ensures Valid() && CommandState(i) == State(n, deg) && commandU[i] == u && commandAlpha[i] == alpha
      ensures forall k :: 0 <= k < M() && k != i ==>
        CommandState(k) == old(CommandState(k)) && commandU[k] == old(commandU[k])
          && commandAlpha[k] == old(commandAlpha[k])
    {
      hide Constants;
      commandRotation := commandRotation[i := n];
      commandU := commandU[i := u];
      commandAlpha := commandAlpha[i := alpha];
      commandAlphaDeg := commandAlphaDeg[i := deg];
    }
  }
}
