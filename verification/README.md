# Verified models of the ASV control and utility code

A Dafny 4.11 model of the mathematical core of an autonomous surface vessel's software,
with proofs of what that core is for. Every `double` is an exact `real`. The modules and
what they model:

| modules | program part |
|---|---|
| `Reals`, `Plane` | signs of products and points of the plane, used throughout |
| `Vectors`, `Balls`, `Circumsphere`, `Barycentric`, `Dimension`, `Minimality`, `Lists`, `Welzl`, `Miniball` | the smallest enclosing ball of points in any dimension |
| `Bits`, `LongDivision`, `Crc` | table-driven cyclic redundancy checks of any width above 8 bits |
| `Thrusters` | tunnel, azimuth and twin fixed thrusters |
| `RudderAngles`, `RudderForce`, `Rudder` | thrusters with a rudder |
| `Allocation` | one step of thrust allocation over all thrusters, and closed-loop runs |
| `QuadraticProgram`, `Optimum`, `Solvers`, `Feasibility` | the quadratic program of a step, its two solver formats, and when it has a solution |
| `Matrices`, `Kalman` | the linear Kalman filter |
| `Csv` | the tokenizer of comma-separated values |
| `Configuration`, `TypedConfiguration`, `Wildcard` | the logger's configuration registry, its typed maps, and file-name patterns |
| `Segments` | planar line segments |
| `Tracking` | following waypoints |

**Smallest enclosing ball.** `Miniball.Miniball` keeps the arrays `c`, `sqr_r`, `q0`, `z`, `f`,
`v`, `a`, the list `L` and the iterator `support_end` of the original, and updates them in
the same steps; a ghost chain of Gram-Schmidt levels says what the arrays mean. The machine
epsilon (squared, `eps`) and the tolerance (`tol`) are parameters. A run in which no push was
rejected (always the case for `eps == 0`, an exact number type) ends, and for `tol == 0` its
ball is the unique smallest one around the input; in any such run it is the smallest ball of
its at most d + 1 support points, none of which can be left out, and `is_valid` accepts it.
The fields `rejected` and `finished`, and the round limit `patience`, which is used only after
a push has been rejected, exist in the model only. List nodes are values with an identity,
an iterator is the node it points to, and the rows of the two-dimensional arrays are sequences.
The branch that moves `support_end` back when the support has d + 2 entries
(`Miniball.hpp:398`) is proved never to be taken, and a push never divides by zero.

**CRC.** Words are sequences of bits, most significant first. Feeding a message through the
table is long division over GF(2), whose remainder is unique. Two messages of one length
collide exactly when the polynomial divides their difference times x^W; when the lowest bit of
the polynomial is set, exactly when it divides their difference.

**Thrust allocation.** Angles are in degrees, square roots of whole numbers are defined by
their inequalities, and a solver is any function whose answer lies in the box or is zero. The
boxes, the reading and the writing of each kind of thruster are functions; `Allocation.Allocation`
runs the loops of the original over them. The limits that whole-run safety puts on the steps of
tunnel and twin thrusters are each shown to be needed: without one, some answer of the solver
breaks the claim. A twin needs `maxDelta + maxDeltaP2n <= maxRotation + 1`, and a tunnel
reversing from exactly its largest step may move one further because a rotation of 0 is replaced
by 1. What the boxes admit is stated exactly: which rotations and angles some answer leads to. The program of good states is feasible if and only if every thruster has room, a condition
on its state and parameters: an azimuth thruster reaches some allowed angle, and a rudder
thruster does not turn too fast for the rudder angles it can reach. A rudder thruster with
Cy = 0.0126 and limits of 30 degrees can lose its room in one admissible step, from 100 turns at
20 degrees to 106 turns at 30 degrees, above its maximum of 100. From then on every solve fails
and the commands of all thrusters stay what they are for ever.

**Rudders.** The library functions atan, tan and sqrt are parameters, of which only order,
symmetry, inverses and one numeric bracket are used. A rudder angle survives the trip to the
thrust angle and back if and only if 0.02 Cy phi^2 <= 1 and the thrust angle does not round to
0; a rudder angle of a degree or more never does so for Cy >= 0.01, but 1 does for Cy = 0.005.
The first condition holds up to 30 degrees for Cy = 0.0126; for Cy = 11 and limits of 30 degrees,
as in `common/fileIO/test/data/test.json:106-117`, it fails, and the limit itself is not held. Where
it holds at the limits, rudder angles stay in them and move by at most their delta. The code
compares with twice the vertex of the quadratic of the effective thrust; the bounds it computes
are exact for every box within limits -l and l if and only if Cy >= 0.04 or l^2 is at most the
vertex, so for Cy = 0.0126 and 30 degrees they are.

**Quadratic program.** The buffers of both solvers are modelled with the loops that fill them.
Both denote the same program; it has at most one optimum, and is feasible whenever no bound
crosses another. The bound keys of one solver and the infinite bounds of the other are read as
"no bound".

**Kalman filter.** The inverse of the innovation is computed by elimination, which is proved
to give the one inverse of any positive definite matrix. The posterior covariance is then
symmetric, positive semidefinite, never above the prior, and below that of every other gain;
the corrected state is the one best fit to prior and measurement; and runs preserve the order of
covariances.

**Text and lookup.** Reading back what was written recovers exactly the rows whose fields
escape every quote. The typed maps agree with the registry if and only if the entry that was
registered first for a type has the value of the Global one, which `setToDefault` ensures. A
line feed right after any line end is taken for its second half, so that an empty line after a
line feed is lost.

**Segments.** Every comparison has its tolerance. `GetIntersect` reports rightly if and only if
no end is taken to be on the other segment without a common point, and no crossing is missed
because a length or the product of two sides is within the tolerance of 0. At the tolerance of
the program it misses two segments of two millimetres that cross in their middles.

## Model

| member | source | states |
|---|---|---|
| Miniball.Miniball.constructor | common/math/Geometry/include/Miniball.hpp:174-208 | the construction ends unless a push was rejected, which cannot happen for eps = 0, and then no point has an excess beyond the tolerance; at most d + 1 support points |
| Miniball.Miniball.ResultIsSmallest | common/math/Geometry/include/Miniball.hpp:111-115 | without a rejected push and with tolerance 0, the result is the smallest ball that contains the input |
| Miniball.Miniball.SupportIsMinimal | common/math/Geometry/include/Miniball.hpp:124-129 | the ball is the smallest of its support points, all on its boundary, and without any one of them a smaller ball suffices |
| Miniball.Miniball.CheckResult | common/math/Geometry/include/Miniball.hpp:147-150 | is_valid accepts the result of every run without a rejected push |
| Miniball.Miniball.IsValid | common/math/Geometry/include/Miniball.hpp:299-304 | for a positive radius, is_valid holds exactly when no excess is beyond the tolerance and no weight is negative; for radius 0 exactly when no weight is negative |
| Miniball.Miniball.RelativeError | common/math/Geometry/include/Miniball.hpp:277-297 | the quotient of the greatest excess and the squared radius, and the suboptimality |
| Miniball.Miniball.Suboptimality | common/math/Geometry/include/Miniball.hpp:474-490 | the absolute value of the most negative weight of the support points, or 0 |
| Miniball.Miniball.Excess | common/math/Geometry/include/Miniball.hpp:401-411 | the squared distance of the point from the current centre, less the squared radius |
| Miniball.Miniball.Push | common/math/Geometry/include/Miniball.hpp:418-472 | accepts exactly when z is not too small, then puts the next level of the chain on top; otherwise the ball and the sizes are unchanged |
| Miniball.Miniball.PushNext | common/math/Geometry/include/Miniball.hpp:430-467 | the loops compute the level of Gram-Schmidt that extends the chain |
| Miniball.Miniball.Pop | common/math/Geometry/include/Miniball.hpp:413-416 | one forced point less, the stored levels stay what they are |
| Miniball.Miniball.MtfMb | common/math/Geometry/include/Miniball.hpp:311-340 | terminates, only permutes the nodes before n, keeps the forced points and the support at the front, never goes beyond n or d + 1 levels, and leaves the smallest ball of the nodes before n with the forced points on its boundary |
| Miniball.Miniball.MtfMoveToFront | common/math/Geometry/include/Miniball.hpp:342-346 | moves one node, and support_end with it, to the front |
| Miniball.Miniball.PivotMb | common/math/Geometry/include/Miniball.hpp:348-393 | without a rejected push two rounds without progress are reached, and no point then has an excess beyond the tolerance |
| Miniball.Miniball.PivotRound | common/math/Geometry/include/Miniball.hpp:360-392 | a round either enlarges the radius or finds all points within tolerance and changes nothing |
| Miniball.Miniball.PivotMoveToFront | common/math/Geometry/include/Miniball.hpp:395-399 | the new node joins the support, which never exceeds d + 1 nodes, so the iterator is never moved back |
| Miniball.Miniball.FindPivot | common/math/Geometry/include/Miniball.hpp:364-375 | a point of greatest positive excess |
| Miniball.Miniball.ClimbsTo | common/math/Geometry/include/Miniball.hpp:388-392 | the radius climbs through the smallest balls of subsets of the input, so progress must end |
| Circumsphere.ChainOrthogonal | common/math/Geometry/include/Miniball.hpp:436-451 | the directions of the pushed points are pairwise orthogonal |
| Circumsphere.OnSphere | common/math/Geometry/include/Miniball.hpp:458-466 | every pushed point is exactly on the sphere of the last level |
| Circumsphere.RadiusStep | common/math/Geometry/include/Miniball.hpp:460-466 | a push never shrinks the squared radius, and enlarges it exactly when the point was off the sphere |
| Circumsphere.NextLevel | common/math/Geometry/include/Miniball.hpp:430-467 | a point at a positive height above the chain extends it |
| Barycentric.WeightsAreAffine | common/math/Geometry/include/Miniball.hpp:474-490 | the coefficients sum to 1 and combine the pushed points to the centre |
| Barycentric.WeightsAreUnique | common/math/Geometry/include/Miniball.hpp:474-490 | they are the only coefficients that do |
| Barycentric.BackSubstitution | common/math/Geometry/include/Miniball.hpp:480-485 | each step of the substitution moves terms from directions to points and keeps their total |
| Dimension.AtMostDimension | common/math/Geometry/include/Miniball.hpp:124-129 | at most d nonzero vectors of dimension d are pairwise orthogonal |
| Dimension.ChainLength | common/math/Geometry/include/Miniball.hpp:260-263 | at most d + 1 points can be pushed |
| Dimension.FullChainIsUnique | common/math/Geometry/include/Miniball.hpp:324-324 | d + 1 pushed points leave only one ball through them, so the recursion may stop |
| Minimality.DroppingShrinks | common/math/Geometry/include/Miniball.hpp:124-129 | leaving out a point of positive weight admits a smaller ball |
| Welzl.OptimalityCertificate | common/math/Geometry/include/Miniball.hpp:137-145 | nonnegative weights and no point outside prove the ball smallest |
| Welzl.ForcePoint | common/math/Geometry/include/Miniball.hpp:332-334 | a point outside the smallest ball lies on the boundary of the smallest ball that includes it, and can be pushed |
| Welzl.ReleasePoint | common/math/Geometry/include/Miniball.hpp:334-336 | the ball found with the point forced is smallest with the point merely contained, and is larger than before |
| Welzl.SkipPoint | common/math/Geometry/include/Miniball.hpp:331-332 | a point inside the smallest ball changes nothing |
| Welzl.DependentPoint | common/math/Geometry/include/Miniball.hpp:453-456 | a point that depends on the forced points (height 0) has the same excess in every ball through them |
| Balls.SmallestIsUnique | common/math/Geometry/include/Miniball.hpp:111-115 | there is only one smallest ball |
| Balls.CertifiedIsBest | common/math/Geometry/include/Miniball.hpp:137-145 | a ball whose centre is a certified combination of boundary points beats every other ball through and around them |
| Balls.BoundaryBallExists | common/math/Geometry/include/Miniball.hpp:332-334 | between two balls, one containing a point and one not, some ball has it on its boundary |
| Crc.Crc.CrcInit | common/communication/include/crc.h:36-56 | entry b of the table is the register after dividing the byte b |
| Crc.Crc.Build | common/communication/include/crc.h:76-84 | the parameters are those given and the table matches them |
| Crc.Crc.CrcCompute | common/communication/include/crc.h:86-98 | the result is bit-at-a-time long division of the whole message, and the final xor |
| Crc.Crc.CrcComputeNext | common/communication/include/crc.h:100-115 | the kept register is divided on by the message, from the start value if asked to |
| Crc.Crc.CrcOfChunks | common/communication/include/crc.h:100-115 | chunks with reinit on the first only give the checksum of the whole message |
| Crc.TableStep | common/communication/include/crc.h:92-95 | one table step is eight steps of long division |
| Crc.ChecksumIsRemainder | common/communication/include/crc.h:86-98 | the checksum is the remainder of init times x^n plus msg times x^W, xored |
| Crc.ChecksumsCollide | common/communication/include/crc.h:86-98 | messages of one length collide if and only if the polynomial divides their difference times x^W |
| Crc.OddChecksumsCollide | common/communication/include/crc.h:86-98 | when its lowest bit is set, if and only if it divides their difference |
| Crc.BurstChangesChecksum | common/communication/include/crc.h:86-98 | with an odd polynomial, a change within a window of W bits always changes the checksum |
| Crc.AppendedChecksum | common/communication/include/crc.h:86-98 | appending the checksum, high byte first, leaves a register that depends on the final xor only, 0 if that is 0 |
| LongDivision.RegisterIsRemainder | common/communication/include/crc.h:41-55 | shifting and xoring computes a remainder |
| LongDivision.RemainderIsUnique | common/communication/include/crc.h:41-55 | there is only one remainder |
| LongDivision.FeedLinear | common/communication/include/crc.h:45-52 | division is linear |
| LongDivision.Undetected | common/communication/include/crc.h:45-52 | registers agree if and only if the polynomial divides the difference of the messages times x^W |
| LongDivision.OddUndetected | common/communication/include/crc.h:45-52 | when its lowest bit is set, x^W cancels: if and only if it divides the difference |
| LongDivision.BurstIsDetected | common/communication/include/crc.h:45-52 | bursts of at most W bits are detected |
| Thrusters.TunnelKeeps | modules/controller/include/thrustallocation.h:438-506 | any admissible answer leaves the tunnel thruster running, within its limit, turning as its angle says, after a step of at most delta, or delta + 1 when reversing from exactly delta |
| Thrusters.TunnelReachIff | modules/controller/include/thrustallocation.h:438-506 | the answers within the box lead to exactly these rotations: up to delta away and within the limit in the direction it has when it turns faster than delta, and otherwise, toward the moment that is wanted, all from 1 to the speed in reach |
| Thrusters.TunnelReadsZero | modules/controller/include/thrustallocation.h:891-965 | a rotation of 0 that is fed back has the box and the next state of a rotation of 1 |
| Thrusters.TunnelLimitNeeded | modules/controller/include/thrustallocation.h:438-506 | beyond the limit on delta an admissible answer breaks the rotation limit |
| Thrusters.AzimuthKeeps | modules/controller/include/thrustallocation.h:509-542 | the rotation stays in its range and moves by at most its delta; the angle stays in its range up to rounding and moves by at most its delta rounded |
| Thrusters.AzimuthReachIff | modules/controller/include/thrustallocation.h:509-542 | the answers within the box lead to exactly the rotations within limits and delta, and the angles to which one within limits and delta is rounded |
| Thrusters.AzimuthReadsLow | modules/controller/include/thrustallocation.h:891-965 | a rotation below the minimum that is fed back has those of the minimum |
| Thrusters.TwinKeeps | modules/controller/include/thrustallocation.h:635-710 | the same for twins, which reverse only inside the band, by exactly p2n, toward the desired thrust |
| Thrusters.TwinReachIff | modules/controller/include/thrustallocation.h:635-710 | the answers within the box lead to exactly these rotations: inside the band only the one a step of p2n nearer the desired thrust, outside it all in the same direction within the step and the limit |
| Thrusters.TwinReadsZero | modules/controller/include/thrustallocation.h:891-965 | a rotation of 0 that is fed back has those of a rotation of 1 |
| Thrusters.TwinLimitNeeded | modules/controller/include/thrustallocation.h:635-710 | beyond the limit on delta plus p2n an admissible answer breaks the rotation limit |
| Thrusters.TwinBandNeeded | modules/controller/include/thrustallocation.h:635-710 | with p2n greater than delta an admissible answer takes a step larger than delta |
| Thrusters.TunnelHasRoom | modules/controller/include/thrustallocation.h:438-506 | the box of a good tunnel thruster is not empty |
| Thrusters.AzimuthHasRoom | modules/controller/include/thrustallocation.h:509-542 | the box of a good azimuth thruster is not empty if and only if some allowed angle can be reached, in particular when its delta is half a degree or more |
| Thrusters.TwinHasRoom | modules/controller/include/thrustallocation.h:635-710 | the box of a good twin thruster is not empty |
| Thrusters.DesiredThrustsBalance | modules/controller/include/thrustallocation.h:635-643 | the two desired thrusts sum to the force and have exactly the moment |
| Thrusters.TwinRunGood | modules/controller/include/thrustallocation.h:635-710 | every state of a run of a twin is good |
| Thrusters.ReversesAtMostOnce | modules/controller/include/thrustallocation.h:635-710 | while the sign of its desired thrust is held a twin reverses at most once |
| Thrusters.DirectionHeld | modules/controller/include/thrustallocation.h:635-710 | once it turns as desired it stays so |
| Thrusters.RotationExact | modules/controller/include/thrustallocation.h:802-888 | the rotation of the thrust of a rotation is that rotation |
| Allocation.Allocation.OneStepThrustAllocation | modules/controller/include/thrustallocation.h:90-96 | one answer of the solver for the boxes of all slots, which come from the feedback: a step within every box, or zero for all slots; every command follows from its part of it, and its thrust is the one asked for, of which the rotation is the largest that does not exceed it, or that of the least rotation |
| Allocation.Allocation.ClosedLoopStep | modules/controller/include/thrustallocation.h:90-96 | with the last command as feedback, the step is a turn of the closed loop, and good commands of all thrusters lead to good commands, within the step limits |
| Allocation.Allocation.TurnKeeps | modules/controller/include/thrustallocation.h:90-96 | so does every turn, whatever forces are wanted and whatever the solver answers; either nothing changes or every slot goes to a state in its reach |
| Allocation.Allocation.TurnReaches | modules/controller/include/thrustallocation.h:90-96 | any combination of states in reach is what some answer of the solver leads to |
| Allocation.Allocation.InitializePropeller | modules/controller/include/thrustallocation.h:98-135 | the initial states, thrusts and angles of all slots, and that the states are good |
| Allocation.Allocation.CalculateConstraints | modules/controller/include/thrustallocation.h:1055-1059 | all boxes, from what has been read; what answers they admit is stated by the reach of each kind |
| Allocation.Allocation.DesiredBalances | modules/controller/include/thrustallocation.h:637-643 | the share that each twin thruster is asked for gives the force, and at its own place the moment |
| Allocation.Allocation.CalculateConstraintsRudder | modules/controller/include/thrustallocation.h:545-631 | the boxes of the rudder thrusters |
| Allocation.Allocation.CalculateU | modules/controller/include/thrustallocation.h:891-965 | the thrust of every rotation fed back |
| Allocation.Allocation.CalculateRotation | modules/controller/include/thrustallocation.h:802-888 | the rotation of every commanded thrust |
| Allocation.Allocation.ConvertAlphaRadian2Int | modules/controller/include/thrustallocation.h:746-776 | angles rounded to whole degrees, for rudders the rudder angle |
| Allocation.Allocation.ConvertAlphaInt2Radian | modules/controller/include/thrustallocation.h:779-800 | the thrust angle of every angle fed back |
| RudderAngles.RoundTrip | modules/controller/include/thrustallocation.h:746-794 | a rudder angle is recovered from its thrust angle if and only if it is 0, or 0.02 Cy phi^2 <= 1 and the thrust angle does not round to 0 degrees |
| RudderAngles.VarphiInverts | modules/controller/include/thrustallocation.h:759-768 | the formula gives, for every slope but 0, the one rudder angle that causes it |
| RudderAngles.SteadyIff | modules/controller/include/thrustallocation.h:746-794 | all rudder angles with 0.02 Cy phi^2 <= 1 are recovered if and only if a rudder angle of one degree turns the thrust by half a degree or more |
| RudderAngles.SmallCyIsNotSteady | modules/controller/include/thrustallocation.h:755-758 | with Cy = 0.005 the rudder angle 1 comes back as 0 |
| RudderAngles.AngleWithin | modules/controller/include/thrustallocation.h:552-568 | a thrust angle between those of two rudder angles commands a rudder angle between them |
| RudderAngles.LargeCyIsSteady | modules/controller/include/thrustallocation.h:746-794 | with Cy >= 0.01 every rudder angle of one degree or more turns the thrust by half a degree or more |
| Rudder.SteeredKeeps | modules/controller/include/thrustallocation.h:545-631 | any admissible answer keeps the rudder angle in its limits and moves it by at most its delta, the rotation stays at its minimum or above |
| Rudder.SteeredReached | modules/controller/include/thrustallocation.h:545-631 | with right bounds, every rotation and every whole rudder angle within limits and deltas is commanded by some answer within the box |
| Rudder.SteeredThrustIn | modules/controller/include/thrustallocation.h:570-629 | with right bounds, the thrust asked for lies between that of the slowest rotation in reach at one rudder angle in reach and that of the fastest at another |
| Rudder.FailedSolveIff | modules/controller/include/thrustallocation.h:841-861 | after a failed solve the same rudder angle and the same rotation, raised to its minimum, are commanded if and only if the angle survives the round trip and the minimal thrust does not read as a faster rotation |
| Rudder.FailedSolveHolds | modules/controller/include/thrustallocation.h:841-861 | so a steady thruster holds both from the minimal rotation up, and with Cy >= 0.04 from any rotation |
| Rudder.RotationNotHeld | modules/controller/include/thrustallocation.h:841-861 | with Cy = 0.0126, a rudder at 30 degrees and a minimal rotation of 13, no rotation below 13 comes back as 13 |
| Rudder.LimitsIff | modules/controller/include/thrustallocation.h:746-794 | every rudder angle between limits on both sides of 0 survives a failed solve if and only if 0.02 Cy phi^2 <= 1 at both limits and the thruster is steady or its rudder fixed |
| Rudder.LimitNotHeld | common/fileIO/test/data/test.json:106-117 | with Cy = 11 a rudder angle of 30 degrees does not come back |
| Rudder.SteeredHasRoom | modules/controller/include/thrustallocation.h:570-629 | the box of a good rudder thruster is not empty if and only if slow^2 least <= fast^2 greatest, where slow and fast are the squares of the slowest and fastest rotations in reach, and least and greatest the computed bounds of the quadratic over the rudder angles in reach |
| Rudder.LargeCyHasRoom | modules/controller/include/thrustallocation.h:570-629 | with Cy >= 0.04 there is room whenever the rotation is at most its delta above its maximum |
| Rudder.Jams | modules/controller/include/thrustallocation.h:545-631 | with Cy = 0.0126 an admissible answer leads from the good state of 100 turns at 20 degrees to the good state of 106 turns at 30 degrees, which has no room |
| Rudder.TermRangeIff | modules/controller/include/thrustallocation.h:586-629 | the square roots of the computed bounds, which the box uses, are the attained extremes of the factor of the thrust if and only if the bounds are those of the quadratic |
| RudderForce.TermIsLength | modules/controller/include/thrustallocation.h:1091-1093 | the quadratic at phi^2 is the square of a length, never negative |
| RudderForce.RangeIff | modules/controller/include/thrustallocation.h:586-624 | the computed bounds are exactly the range of the term if and only if the squares of the angles all lie up to the vertex, or all from twice the vertex on, or are all equal |
| RudderForce.RangeWithin | modules/controller/include/thrustallocation.h:586-624 | they are right for every box within rudder limits of -l and l if and only if Cy >= 0.04 or l^2 is at most the vertex |
| RudderForce.RangeAtThirty | modules/controller/test/testthrust.cc:548-562 | so for Cy = 0.0126 and limits of 30 degrees they are right |
| RudderForce.RangeForEveryBox | modules/controller/include/thrustallocation.h:600-624 | they are right whatever the rudder limits if and only if Cy >= 0.04; for less, the boxes that fail reach beyond the square root of the vertex |
| QuadraticProgram.SameProgram | modules/controller/include/thrustallocation_osqp.h:995-1112 | both formats have the same feasible points and the same objective as the step |
| QuadraticProgram.OsqpWellFormed | modules/controller/include/thrustallocation_osqp.h:1016-1035 | 8 m + 6 entries, columns one after another, rows strictly increasing and in range |
| QuadraticProgram.MosekWellFormed | modules/controller/include/thrustallocation.h:384-396 | the same for the other format, with 6 m + 3 entries |
| QuadraticProgram.OsqpConstraints | modules/controller/include/thrustallocation_osqp.h:1078-1104 | the rows denote the balance of forces and the box |
| QuadraticProgram.MosekConstraints | modules/controller/include/thrustallocation.h:1062-1088 | the columns and keys denote the balance of forces and the box |
| Optimum.UniqueOptimum | modules/controller/include/thrustallocation.h:1062-1088 | with positive weights on the changes there is at most one optimum, even when a force error has weight 0 |
| Optimum.SolversAgree | modules/controller/include/thrustallocation_osqp.h:1114-1125 | whatever the two solvers return as optimal is the same vector |
| Optimum.FeasibleIff | modules/controller/include/thrustallocation.h:366-381 | the program is feasible if and only if no lower bound exceeds its upper bound |
| Feasibility.FeasibleAnswers | modules/controller/include/thrustallocation.h:722-726 | every feasible point is an answer within the boxes |
| Feasibility.GoodStatesFeasible | modules/controller/include/thrustallocation.h:1045-1060 | the program of good states is feasible if and only if every azimuth thruster can reach an allowed angle and every rudder thruster has room for its rotation |
| Feasibility.AzimuthJams | modules/controller/include/thrustallocation.h:509-542 | a good azimuth thruster at 0 with both limits 0.4 and a delta of 0.2 has an empty box |
| Feasibility.NoRoomNoTurn | modules/controller/include/thrustallocation.h:1101-1160 | in good states of which one has no room, a turn changes no command of any thruster |
| Feasibility.RunIsGood | modules/controller/include/thrustallocation.h:90-96 | every state of a run that starts good is good |
| Feasibility.Frozen | modules/controller/include/thrustallocation.h:90-96 | once a thruster has no room all commands stay what they are for the rest of the run, whatever forces are wanted and whatever the solver does |
| Solvers.Mosek.UpdateMosekParameters | modules/controller/include/thrustallocation.h:1062-1088 | after any number of updates the buffers hold exactly the program of the step |
| Solvers.Mosek.InitializeMosekVariables | modules/controller/include/thrustallocation.h:366-418 | the fixed parts of the buffers are in place |
| Solvers.Mosek.SetQ | modules/controller/include/thrustallocation.h:138-199 | the penalties of the mode are in the buffer, the rest of it is unchanged |
| Solvers.Penalties | modules/controller/include/thrustallocation.h:138-199 | which errors a mode penalises, and how much compared with the configured penalties |
| Solvers.Osqp.UpdateOsqpParameters | modules/controller/include/thrustallocation_osqp.h:1078-1112 | after any number of updates the buffers hold exactly the program of the step |
| Solvers.Osqp.InitializeOsqpVariables | modules/controller/include/thrustallocation_osqp.h:995-1048 | the fixed parts of the buffers are in place |
| Solvers.Osqp.SetQ | modules/controller/include/thrustallocation_osqp.h:147-208 | the penalties of the mode are in the buffer, the rest of it is unchanged |
| Kalman.PredictKeeps | modules/estimator/include/kalmanfilter.h:129-132 | predict keeps the covariance symmetric and positive semidefinite |
| Kalman.InnovationDefinite | modules/estimator/include/kalmanfilter.h:137-137 | the innovation matrix is symmetric positive definite |
| Kalman.CorrectKeeps | modules/estimator/include/kalmanfilter.h:136-141 | correct keeps the covariance symmetric and positive semidefinite |
| Kalman.CorrectShrinks | modules/estimator/include/kalmanfilter.h:140-140 | correct never increases the covariance in any direction |
| Kalman.GainIsBest | modules/estimator/include/kalmanfilter.h:137-140 | no other gain leaves a smaller error in any direction |
| Kalman.PosteriorIsJoseph | modules/estimator/include/kalmanfilter.h:137-140 | the new covariance is that of the error of the corrected state |
| Kalman.SensorBounds | modules/estimator/include/kalmanfilter.h:137-140 | the remaining uncertainty seen by the sensors is at most their noise |
| Kalman.CorrectionIsBestFit | modules/estimator/include/kalmanfilter.h:137-139 | the gain times a residual is P c for the c of least misfit, by at least the weighted distance of any other |
| Kalman.StateIsBestFit | modules/estimator/include/kalmanfilter.h:139-139 | the corrected state is the one of least misfit to prior and measurement |
| Kalman.BestFitIsUnique | modules/estimator/include/kalmanfilter.h:139-139 | there is no other such state |
| Kalman.ResidualShrinks | modules/estimator/include/kalmanfilter.h:139-139 | what remains to the measurement is R S^-1 times what was there, and never more, weighted by R^-1 |
| Kalman.DriftedIsLinear | modules/estimator/include/kalmanfilter.h:130-130 | the prediction is linear in state and input |
| Kalman.DriftedColumns | modules/estimator/include/kalmanfilter.h:130-130 | its columns are those of A and of B |
| Kalman.RunsStayOrdered | modules/estimator/include/kalmanfilter.h:72-89 | ordered covariances stay ordered through every run |
| Kalman.KalmanFilter.Predict | modules/estimator/include/kalmanfilter.h:129-132 | the new state and covariance |
| Kalman.KalmanFilter.Correct | modules/estimator/include/kalmanfilter.h:136-141 | the gain, state and covariance: the state is the best fit to the old one and the measurement, the covariance again a covariance and not above the old one |
| Kalman.KalmanFilter.LinearKalman | modules/estimator/include/kalmanfilter.h:86-89 | one step from any valid filter leaves a valid filter, whose state is the best fit to the prediction and the measurement |
| Kalman.KalmanFilter.LinearKalmanWith | modules/estimator/include/kalmanfilter.h:72-77 | the same with a new system |
| Kalman.KalmanFilter.LinearKalmanFor | modules/estimator/include/kalmanfilter.h:79-84 | the same with a new system matrix only |
| Matrices.SolveSolves | modules/estimator/include/kalmanfilter.h:137-137 | elimination solves every positive definite system |
| Matrices.InverseIsRight | modules/estimator/include/kalmanfilter.h:137-137 | a positive definite matrix times its computed inverse is the identity |
| Matrices.InverseIsUnique | modules/estimator/include/kalmanfilter.h:137-137 | it has no other inverse |
| Matrices.InverseCovariance | modules/estimator/include/kalmanfilter.h:137-137 | the inverse of a symmetric positive definite matrix is again one |
| Csv.CsvStream.ReadCsvLine | common/fileIO/include/csvstream.h:91-189 | the fields of the next line, the rest of the stream, and false exactly at its end |
| Csv.LineEndIsFirst | common/fileIO/include/csvstream.h:105-189 | a line reaches through the first line feed or carriage return that follows an even number of unescaped quotes and is not escaped itself, or to the end of the stream |
| Csv.RoundTrip | common/fileIO/include/csvstream.h:91-189 | rows written in quotes are read back if and only if every field escapes its quotes and has no dangling backslash |
| Csv.LinesRoundTrip | common/fileIO/include/csvstream.h:91-189 | lines of fields of bare and quoted parts, with escapes, and any of the three line ends are read back if and only if none is lost: an empty line that ends in a line feed after a line that ended in one character, or that has no line end at all |
| Csv.EmptyLineLost | common/fileIO/include/csvstream.h:165-175 | an empty line between two others is skipped when lines end in line feeds |
| Configuration.Configurations.Get | common/logging/include/easylogging++.h:1633-1641 | the first entry of a level and a type |
| Configuration.Configurations.UnsafeSet | common/logging/src/easylogging++.cc:623-636 | updates or registers the entry, and every level for Global |
| Configuration.Configurations.Set | common/logging/src/easylogging++.cc:377-386 | the list after set |
| Configuration.Configurations.SetToDefault | common/logging/src/easylogging++.cc:395-425 | the list of defaults |
| Configuration.DefaultsAre | common/logging/src/easylogging++.cc:395-425 | the value of every level and type after setToDefault, whatever was registered before |
| Configuration.SetLookup | common/logging/src/easylogging++.cc:377-386 | setting Global changes every level of its type, any other level only itself |
| Configuration.RunIsReady | common/logging/src/easylogging++.cc:377-425 | in every run entries are distinct, Global is first for its type, and every valid level is registered |
| TypedConfiguration.TypedConfigurations.SetValue | common/logging/include/easylogging++.h:2187-2214 | the level is answered with the value stored, if and only if it has not kept another value of its own while the Global one is equal to what is stored |
| TypedConfiguration.PutFetch | common/logging/include/easylogging++.h:2143-2214 | and every other level keeps its answer, unless it has none of its own and the Global value is stored |
| TypedConfiguration.MapDescribes | common/logging/include/easylogging++.h:2187-2214 | the map of a type holds the Global value and, of the other levels, those that differ |
| TypedConfiguration.LastDecides | common/logging/src/easylogging++.cc:1895-1899 | performance tracking is decided by the entry registered last, whatever its level |
| TypedConfiguration.NumberIsRead | common/logging/src/easylogging++.cc:1930-1950 | the decimal digits of a number are read as that number whatever spaces are around them, and a text with any other character in it as 0 |
| TypedConfiguration.BoolIsRead | common/logging/src/easylogging++.cc:1860-1866 | "true", "TRUE" and "1" are true whatever spaces are around them, and nothing else is |
| TypedConfiguration.SpacesAre | common/logging/src/easylogging++.cc:978-992 | the six characters that count as spaces |
| TypedConfiguration.TypedConfigurations.Build | common/logging/src/easylogging++.cc:1858-1912 | the five maps are those of their types |
| TypedConfiguration.AgreesIff | common/logging/include/easylogging++.h:2143-2214 | the map answers every registered level rightly if and only if the first entry of the type has the Global value |
| TypedConfiguration.RunAgrees | common/logging/include/easylogging++.h:2143-2163 | after setToDefault and any calls of set, every valid level is answered with the parsed value of the registry |
| TypedConfiguration.OrderMatters | common/logging/include/easylogging++.h:2187-2214 | without setToDefault, three calls of set make the map disagree |
| TypedConfiguration.TypedConfigurations.EnabledFor | common/logging/src/easylogging++.cc:1804-1806 | the answer for a level is what the registry holds |
| Wildcard.WildCardMatch | common/logging/src/easylogging++.cc:958-976 | true exactly when the text splits into pieces that fit the pattern symbol by symbol |
| Segments.IntersectIff | common/math/Geometry/include/linesegment2d.h:145-180 | for every tolerance, the report is right if and only if there is neither an end taken for a point of the other segment without a common point, nor a missed crossing |
| Segments.TakenIff | common/math/Geometry/include/linesegment2d.h:119-130 | a point passes the test exactly when its side is within the tolerance and it is in the box around the segment, grown by the tolerance, or for a short segment in the open square around its start |
| Segments.TakenIsNear | common/math/Geometry/include/linesegment2d.h:119-130 | such a point is within eps / length of the line, or within eps in both coordinates of the start |
| Segments.MeetsIff | common/math/Geometry/include/linesegment2d.h:145-180 | the exact tests decide whether there is a common point |
| Segments.CrossingMissed | common/math/Geometry/include/linesegment2d.h:165-174 | two crossing segments of two millimetres are missed at the tolerance 1e-10 |
| Segments.EndAlarms | common/math/Geometry/include/linesegment2d.h:147-158 | an end within the tolerance of the other segment is reported as a common point |
| Segments.EndIntersect | common/math/Geometry/include/linesegment2d.h:147-158 | when some end passes the test, one that does is returned, and is that close to the other segment |
| Segments.IntersectIsOnlyCommonPoint | common/math/Geometry/include/linesegment2d.h:164-177 | past both sign tests the point is strictly inside both segments and their only common one |
| Segments.IntersectIsSymmetric | common/math/Geometry/include/linesegment2d.h:145-180 | it does not depend on the order of the segments |
| Segments.PointInIff | common/math/Geometry/include/linesegment2d.h:119-130 | for every tolerance, a longer segment is found to have all of its points, and is right about a point if and only if one that passes is exactly on it; a shorter one is right if and only if being on it agrees with being equal to its start |
| Segments.NearestIff | common/math/Geometry/include/linesegment2d.h:76-90 | the point found is the nearest of the segment if and only if the segment is not negligible or the given point does not lie ahead of its start |
| Segments.NearestMissed | common/math/Geometry/include/linesegment2d.h:76-79 | a segment shorter than 1e-10 answers its start though its end is nearer |
| Tracking.TrajectoryTracking.GridLos | modules/controller/include/trajectorytracking.h:112-157 | the next index and the mode; the speed is reduced only in the circle of the waypoint just left, by the fraction of a half turn that the course turns ahead: not at all exactly when it goes on straight, to 0 exactly when it turns back; everywhere else it is the desired one |
| Tracking.TrajectoryTracking.SetGridPoints | modules/controller/include/trajectorytracking.h:175-194 | a new grid starts at index 0 |
| Tracking.TrajectoryTracking.ComputeTurningAngles | modules/controller/include/trajectorytracking.h:226-242 | the turn at every inner waypoint |
| Tracking.SharperIsSlower | modules/controller/include/trajectorytracking.h:133-139 | the speed in a turn falls in proportion to the turn |
| Tracking.SpeedInTurn | modules/controller/include/trajectorytracking.h:133-139 | it is full exactly on a straight course and 0 exactly when the course turns back |
| Tracking.TurnSide | common/math/miscellaneous/include/math_utils.h:126-132 | turns to the left are positive |
| Tracking.CapturedIff | modules/controller/include/trajectorytracking.h:39-45 | a circle has the points that are within the radius of its waypoint in every direction |
| Tracking.WaypointsEntered | modules/controller/include/trajectorytracking.h:112-157 | index i means that i calls entered the circles of waypoints 1 to i in order |
| Tracking.FinishedIff | modules/controller/include/trajectorytracking.h:122-144 | the end is reported if and only if the calls entered all circles in order, the last with this call |

## Left out

- Floating-point rounding: all numbers are exact, so nothing is claimed about accumulated error.
- Miniball.Miniball.PivotMb: after a rejected push termination is not claimed; the model bounds the rounds by `patience` then.
- Miniball.Miniball.constructor: nor is it of the construction.
- Miniball.Miniball.Suboptimality: after a rejected push the stored directions may not belong to the support, and only the sign of the result is known.
- Miniball.Miniball.RelativeError: so only the error is then characterised, not the suboptimality.
- Miniball.Miniball.ResultIsSmallest: for a positive tolerance the ball is the smallest of its support points, and other points may lie outside by the tolerated amount.
- CRC8 is not modelled: the loop over the table does not end for an 8-bit counter.
- Rudder.SteeredKeeps: no upper limit on the rotation and no limit on its step is claimed; the bounds of thrust and rudder angle are independent there, and the code promises none (`Rudder.Jams` exceeds the maximum). Rudder limits with 0.02 Cy phi^2 > 1 are excluded, because they are not held: `Rudder.LimitsIff`.
- Allocation.Allocation.OneStepThrustAllocation: the matrices and the objective handed to the solver are not computed in the step; the solver sees the boxes, and any answer they allow is covered, the optimal one included.
- Allocation.Allocation.InitializePropeller: the force `BalphaU` of the initial command is not computed.
- RudderAngles.RoundTrip: rotations, rudder angles and their limits are whole numbers, although the limits are stored as floating-point numbers; at the tangent 0 of a half turn, which no answer reaches, the model has the angle 0 where the code divides by zero.
- The values of the matrices `B_alpha` and `d_Balpha_u`, `g_deltau`, `Q_deltau` and `d_rho`: sines, square roots and finite differences; they are arbitrary inputs of a step.
- Optimum.UniqueOptimum: the weights on the thrust changes are assumed positive; the code takes them from the inverse square root of a thrust, which exists for positive thrusts only.
- Mosek and OSQP themselves: any answer is allowed that the box, or the optimality of the program, allows.
- Solvers.Osqp.UpdateOsqpParameters: the calls that hand the buffers over to the solver are taken to copy them.
- Solvers.Mosek.UpdateMosekParameters: the writes of one loop are grouped by buffer; their order is not modelled.
- Kalman.KalmanFilter.LinearKalman: the unused predict without input, and the construction of A and B for a vessel, are not modelled.
- Tracking.TrajectoryTracking.GridLos: the line-of-sight heading and the track error, which need trigonometric functions, are not computed; of atan2 only its zeros, its half turns and its sign are used.
- The headings and rotations of segments, and perpendicular feet.
- Configuration.Configurations.Set: an entry is a position of the list, not a shared object; locks are not modelled.
- TypedConfiguration.TypedConfigurations.Build: the maps for format, file name, output to file and precision are not built, and numbers are not limited in size.
- Csv.CsvStream.ReadCsvLine: the stream is a string and a position; the extraction operators built on it are not modelled.
- Threads, sockets, serial ports, databases, JSON, plotting, log dispatch and file rolling.
- PID terms, filters, wind compensation, boxes, integrators and hit counters, which would add only direct algebra.
