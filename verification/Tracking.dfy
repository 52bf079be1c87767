/** Following a list of waypoints: switching from one to the next, and the commanded
    speed. Angles are in half turns. */
module Tracking {
  import opened Reals
  import opened Plane

  datatype Mode = Started | Underway | Finished

  /** IsEnterCaptureRadius */
  predicate Captured(p: Point, waypoint: Point, radius: real) {
    var dx, dy := p.x - waypoint.x, p.y - waypoint.y;
    dx * dx + dy * dy <= radius * radius
  }

  /** The circle is the points that no direction tells from it: in every direction v they
      are within the radius of the waypoint. */
  lemma CapturedIff(p: Point, waypoint: Point, radius: real)
    ensures Captured(p, waypoint, radius)
       <==> forall v: Point :: Along(Minus(p, waypoint), v) * Along(Minus(p, waypoint), v)
                               <= radius * radius * Along(v, v)
  {
    var d := Minus(p, waypoint);
    if Captured(p, waypoint, radius) {
      forall v: Point
        ensures Along(d, v) * Along(d, v) <= radius * radius * Along(v, v)
      {
        SquareNonneg(d.x * v.y - d.y * v.x);
        CauchySchwarz(d.x, d.y, v.x, v.y);
        AlongSelf(v);
        ProductNonneg(radius * radius - Along(d, d), Along(v, v));
      }
    } else {
      AlongSelf(d);
      ProductPositive(Along(d, d) - radius * radius, Along(d, d), (Along(d, d) - radius * radius) * Along(d, d));
      assert Along(d, d) * Along(d, d) > radius * radius * Along(d, d);
    }
  }

  function Along(a: Point, v: Point): real {
    a.x * v.x + a.y * v.y
  }

  lemma AlongSelf(v: Point)
    ensures Along(v, v) >= 0.0
  {
    SquareNonneg(v.x);
    SquareNonneg(v.y);
  }

  lemma CauchySchwarz(a: real, b: real, c: real, e: real)
    ensures (a * c + b * e) * (a * c + b * e)
         == (a * a + b * b) * (c * c + e * e) - (a * e - b * c) * (a * e - b * c)
  {
    var ac, be, ae, bc := a * c, b * e, a * e, b * c;
    assert (a * a + b * b) * (c * c + e * e) == ac * ac + ae * ae + bc * bc + be * be;
    assert ac * be == ae * bc;
  }

  /** What is used of atan2, in half turns */
  ghost predicate IsAtan2(f: (real, real) -> real) {
    forall y, x :: Abs(f(y, x)) <= 1.0
                   && (f(y, x) == 0.0 <==> y == 0.0 && x >= 0.0)
                   && (Abs(f(y, x)) == 1.0 <==> y == 0.0 && x < 0.0)
                   && (y > 0.0 ==> f(y, x) > 0.0) && (y < 0.0 ==> f(y, x) < 0.0)
  }

  /** VectorAngle_2d: from one leg of the course to the next */
  function VectorAngle(atan2: (real, real) -> real, a: Point, b: Point): real {
    atan2(a.x * b.y - a.y * b.x, a.x * b.x + a.y * b.y)
  }

  /** The angle by which the course turns at waypoint i + 1 */
  function Turn(atan2: (real, real) -> real, grid: seq<Point>, i: nat): real
    requires i + 2 < |grid|
  {
    VectorAngle(atan2, Minus(grid[i + 1], grid[i]), Minus(grid[i + 2], grid[i + 1]))
  }

  /** The second leg goes on in the direction of the first, or exactly against it. */
  predicate Straight(grid: seq<Point>, i: nat)
    requires i + 2 < |grid|
  {
    var a, b := Minus(grid[i + 1], grid[i]), Minus(grid[i + 2], grid[i + 1]);
    a.x * b.y == a.y * b.x && Along(a, b) >= 0.0
  }

  predicate TurnsBack(grid: seq<Point>, i: nat)
    requires i + 2 < |grid|
  {
    var a, b := Minus(grid[i + 1], grid[i]), Minus(grid[i + 2], grid[i + 1]);
    a.x * b.y == a.y * b.x && Along(a, b) < 0.0
  }

  /** The waypoint after next is to the left of the line through the first two. */
  predicate TurnsLeft(grid: seq<Point>, i: nat)
    requires i + 2 < |grid|
  {
    var a, c := Minus(grid[i + 1], grid[i]), Minus(grid[i + 2], grid[i]);
    a.x * c.y > a.y * c.x
  }

  /** Turns to the left are positive, those to the right negative. */
  lemma TurnSide(atan2: (real, real) -> real, grid: seq<Point>, i: nat)
    requires IsAtan2(atan2) && i + 2 < |grid|
    ensures !Straight(grid, i) && !TurnsBack(grid, i) ==> (Turn(atan2, grid, i) > 0.0 <==> TurnsLeft(grid, i))
  {
    var a, b, c := Minus(grid[i + 1], grid[i]), Minus(grid[i + 2], grid[i + 1]), Minus(grid[i + 2], grid[i]);
    assert a.x * c.y - a.y * c.x == a.x * b.y - a.y * b.x by {
      assert c.x == a.x + b.x && c.y == a.y + b.y;
    }
  }

  /** The speed in a turn */
  function ReducedSpeed(speed: real, turn: real): real {
    (1.0 - Abs(turn)) * speed
  }

  /** The speed is reduced in proportion to the turn: not at all on a straight course, to 0
      when it turns back, and the more the sharper it turns. */
  lemma SharperIsSlower(speed: real, turn: real, other: real)
    requires speed > 0.0 && Abs(turn) <= 1.0
    ensures speed - ReducedSpeed(speed, turn) == Abs(turn) * speed
    ensures 0.0 <= ReducedSpeed(speed, turn) <= speed
    ensures ReducedSpeed(speed, turn) == speed <==> turn == 0.0
    ensures ReducedSpeed(speed, turn) == 0.0 <==> Abs(turn) == 1.0
    ensures Abs(turn) < Abs(other) <==> ReducedSpeed(speed, other) < ReducedSpeed(speed, turn)
  {
    var t, o := Abs(turn), Abs(other);
    ProductNonneg(t, speed);
    ProductNonneg(1.0 - t, speed);
    if t > 0.0 {
      ProductPositive(t, speed, t * speed);
    }
    if t < 1.0 {
      ProductPositive(1.0 - t, speed, (1.0 - t) * speed);
    }
    if t < o {
      ProductPositive(o - t, speed, ReducedSpeed(speed, turn) - ReducedSpeed(speed, other));
    } else {
      ProductNonneg(t - o, speed);
    }
  }

  lemma SpeedInTurn(atan2: (real, real) -> real, grid: seq<Point>, i: nat, speed: real)
    requires IsAtan2(atan2) && i + 2 < |grid| && speed > 0.0
    ensures var reduced, turn := ReducedSpeed(speed, Turn(atan2, grid, i)), Turn(atan2, grid, i);
            && speed - reduced == Abs(turn) * speed
            && 0.0 <= reduced <= speed
            && (reduced == speed <==> Straight(grid, i))
            && (reduced == 0.0 <==> TurnsBack(grid, i))
  {
    hide ReducedSpeed;
    SharperIsSlower(speed, Turn(atan2, grid, i), 0.0);
  }

  /** One call: the next index, and whether the last waypoint is reached */
  function Switch(grid: seq<Point>, radius: real, index: nat, p: Point): (nat, bool)
    requires index + 1 < |grid|
  {
    if Captured(p, grid[index + 1], radius) then
      if index == |grid| - 2 then (index, true) else (index + 1, false)
    else (index, false)
  }

  class TrajectoryTracking {
    const atan2: (real, real) -> real
    var grid: seq<Point>
    var turningAngles: seq<real>
    var captureRadius: real
    var desiredSpeed: real
    var index: nat
    var mode: Mode
    var speed: real

    ghost predicate Valid()
      reads this
    {
      && |grid| >= 2 && index <= |grid| - 2 && desiredSpeed > 0.0
      && IsAtan2(atan2)
      && (|grid| > 2 ==> AreTurns(grid, turningAngles))
    }

    ghost predicate AreTurns(points: seq<Point>, angles: seq<real>)
      requires |points| > 2
    {
      |angles| == |points| - 2 && forall i :: 0 <= i < |angles| ==> angles[i] == Turn(atan2, points, i)
    }

    constructor (atan2: (real, real) -> real, captureRadius: real)
      requires IsAtan2(atan2)
      ensures Valid() && this.atan2 == atan2 && this.captureRadius == captureRadius && index == 0
    {
      this.atan2, this.captureRadius := atan2, captureRadius;
      grid, turningAngles := [Point(0.0, 1.0), Point(1.0, 0.0)], [];
      desiredSpeed, index, mode, speed := 1.0, 0, Started, 0.0;
    }

    method ComputeTurningAngles(points: seq<Point>) returns (angles: seq<real>)
      requires |points| > 2
      ensures AreTurns(points, angles)
    {
      angles := [];
      for i := 0 to |points| - 2
        invariant |angles| == i && forall k :: 0 <= k < i ==> angles[k] == Turn(atan2, points, k)
      {
        angles := angles + [VectorAngle(atan2, Minus(points[i + 1], points[i]), Minus(points[i + 2], points[i + 1]))];
      }
    }

    /** With two waypoints only, the capture radius stays what it was. */
    method SetGridPoints(points: seq<Point>, desiredSpeed: real, captureRadius: real)
      requires Valid() && |points| >= 2 && desiredSpeed > 0.0
      modifies this
      ensures Valid() && grid == points && index == 0 && mode == Started && this.desiredSpeed == desiredSpeed
      ensures this.captureRadius == if |points| > 2 then captureRadius else old(this.captureRadius)
    {
      if |points| > 2 {
        turningAngles := ComputeTurningAngles(points);
        this.captureRadius := captureRadius;
      }
      this.desiredSpeed := desiredSpeed;
      grid := points;
      index := 0;
      mode := Started;
    }

    /** After a call at p that began with this index, the vessel is in the circle of the
        waypoint it came from, which is not the first one any more. */
    predicate Slowed(p: Point, from: nat)
      requires from < |grid|
      reads `grid, `captureRadius, `index
    {
      index > 0 && Captured(p, grid[from], captureRadius)
    }

    method GridLos(p: Point)
      requires Valid()
      modifies this`index, this`mode, this`speed
      ensures Valid()
      ensures (index, mode == Finished) == Switch(grid, captureRadius, old(index), p) && mode != Started
      ensures mode == Finished ==> speed == old(speed)
      ensures mode != Finished && !Slowed(p, old(index)) ==> speed == desiredSpeed
      ensures mode != Finished && Slowed(p, old(index)) ==>
        && desiredSpeed - speed == Abs(Turn(atan2, grid, index - 1)) * desiredSpeed
        && 0.0 <= speed <= desiredSpeed
        && (speed == desiredSpeed <==> Straight(grid, index - 1))
        && (speed == 0.0 <==> TurnsBack(grid, index - 1))
    {
      hide IsAtan2, Captured, Straight, TurnsBack, Turn, Abs, ReducedSpeed;
      var from, to := grid[index], grid[index + 1];
      if |grid| > 2 {
        if Captured(p, to, captureRadius) {
          if index == |grid| - 2 {
            mode := Finished;
            return;
          }
          index := index + 1;
        }
        if Captured(p, from, captureRadius) && index > 0 {
          SpeedInTurn(atan2, grid, index - 1, desiredSpeed);
          speed := ReducedSpeed(desiredSpeed, turningAngles[index - 1]);
        } else {
          speed := desiredSpeed;
        }
      } else {
        if Captured(p, to, captureRadius) {
          mode := Finished;
          return;
        }
        speed := desiredSpeed;
      }
      mode := Underway;
    }
  }

  // ----- runs

  /** The index after the first k calls that follow set_grid_points */
  function IndexAfter(grid: seq<Point>, radius: real, positions: seq<Point>, k: nat): (index: nat)
    requires |grid| >= 2 && k <= |positions|
    ensures index + 1 < |grid|
  {
    if k == 0 then 0 else Switch(grid, radius, IndexAfter(grid, radius, positions, k - 1), positions[k-1]).0
  }

  /** Call i entered the circle of waypoint w. */
  predicate Enters(grid: seq<Point>, radius: real, positions: seq<Point>, i: nat, w: nat)
    requires i < |positions| && w < |grid|
  {
    Captured(positions[i], grid[w], radius)
  }

  /** The calls, in order and each later than the one before, that entered the circles of
      waypoints 1, 2, ... */
  ghost predicate InOrder(grid: seq<Point>, radius: real, positions: seq<Point>, calls: seq<nat>) {
    && |calls| < |grid|
    && (forall j :: 0 <= j < |calls| ==>
          calls[j] < |positions| && Enters(grid, radius, positions, calls[j], j + 1))
    && (forall i, j :: 0 <= i < j < |calls| ==> calls[i] < calls[j])
  }

  lemma {:induction false} WaypointsEntered(grid: seq<Point>, radius: real, positions: seq<Point>, k: nat)
      returns (calls: seq<nat>)
    requires |grid| >= 2 && k <= |positions|
    ensures |calls| == IndexAfter(grid, radius, positions, k) && InOrder(grid, radius, positions, calls)
    ensures forall j :: 0 <= j < |calls| ==> calls[j] < k
  {
    if k == 0 {
      calls := [];
    } else {
      calls := WaypointsEntered(grid, radius, positions, k - 1);
      if IndexAfter(grid, radius, positions, k) > IndexAfter(grid, radius, positions, k - 1) {
        calls := calls + [k - 1];
      }
    }
  }

  /** The last waypoint is reported reached exactly when the calls so far have entered the
      circles of all waypoints in order, the last of them with this call. */
  lemma FinishedMeans(grid: seq<Point>, radius: real, positions: seq<Point>, k: nat)
    requires |grid| >= 2 && k < |positions|
    requires Switch(grid, radius, IndexAfter(grid, radius, positions, k), positions[k]).1
    ensures exists calls :: |calls| == |grid| - 1 && InOrder(grid, radius, positions, calls) && calls[|grid| - 2] == k
  {
    var calls := WaypointsEntered(grid, radius, positions, k);
    assert InOrder(grid, radius, positions, calls + [k]);
  }

  /** A waypoint is passed as early as possible: any calls that enter the circles in order
      are matched by the index. */
  lemma {:induction false} IndexIsLargest(grid: seq<Point>, radius: real, positions: seq<Point>, calls: seq<nat>,
      k: nat)
    requires |grid| >= 2 && k <= |positions| && InOrder(grid, radius, positions, calls) && |calls| <= |grid| - 2
    requires forall j :: 0 <= j < |calls| ==> calls[j] < k
    ensures |calls| <= IndexAfter(grid, radius, positions, k)
  {
    if |calls| == 0 {
    } else {
      var n := |calls| - 1;
      assert calls[n] < k;
      if calls[n] == k - 1 {
        assert forall j :: 0 <= j < n ==> calls[..n][j] == calls[j];
        IndexIsLargest(grid, radius, positions, calls[..n], k - 1);
        assert Enters(grid, radius, positions, k - 1, n + 1);
      } else {
        IndexIsLargest(grid, radius, positions, calls, k - 1);
      }
    }
  }

  /** Reached if and only if the circles were entered in order, ending with this call. */
  lemma FinishedIff(grid: seq<Point>, radius: real, positions: seq<Point>, k: nat)
    requires |grid| >= 2 && k < |positions|
    ensures Switch(grid, radius, IndexAfter(grid, radius, positions, k), positions[k]).1
       <==> exists calls :: |calls| == |grid| - 1 && InOrder(grid, radius, positions, calls) && calls[|grid| - 2] == k
  {
    if Switch(grid, radius, IndexAfter(grid, radius, positions, k), positions[k]).1 {
      FinishedMeans(grid, radius, positions, k);
    }
    if calls :| |calls| == |grid| - 1 && InOrder(grid, radius, positions, calls) && calls[|grid| - 2] == k {
      var n := |grid| - 2;
      assert forall j :: 0 <= j < n ==> calls[..n][j] == calls[j];
      IndexIsLargest(grid, radius, positions, calls[..n], k);
      assert Enters(grid, radius, positions, k, n + 1);
    }
  }
}
