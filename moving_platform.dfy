// The waypoint cycler of Assets/MovingPlatform.cs: a platform that moves at a
// fixed speed along the segments between its waypoints, pauses on arriving
// at each one and then heads for the next, wrapping around after the last.
// `Tick` states on values what one FixedUpdate does; the class holds the
// platform's fields and its methods are proved to update them as `Tick` says.
// The two engine square roots (the distance to the next waypoint and the
// length of the new segment) are parameters checked by `IsMagnitude`.
module Platform {
  import opened Vectors

  /** The index after `i` among `n` waypoints, as the platform computes it. */
  function Successor(i: int, n: int): int
    requires n > 0
  {
    (i + 1) % n
  }

  /** The index reached from `i` after `k` arrivals. */
  function Advance(i: int, n: int, k: nat): int
    requires n > 0
  {
    if k == 0 then i else Successor(Advance(i, n, k - 1), n)
  }

  /** Valid indices: the current waypoint exists and the next one follows it. */
  predicate Cycling(currentWaypoint: int, nextWaypoint: int, n: int) {
    n > 0 && 0 <= currentWaypoint < n && nextWaypoint == Successor(currentWaypoint, n)
  }

  lemma SmallMod(a: int, n: int)
    requires 0 <= a < n
    ensures a % n == a
  {
  }

  lemma SelfMod(n: int)
    requires n > 0
    ensures n % n == 0
  {
  }

  /** The successor of a valid index is the next index, or 0 after the last. */
  lemma SuccessorWraps(i: int, n: int)
    requires 0 <= i < n
    ensures Successor(i, n) == if i + 1 < n then i + 1 else 0
  {
    if i + 1 < n {
      SmallMod(i + 1, n);
    } else {
      SelfMod(n);
    }
  }

  /** Up to a full round, `k` arrivals move an index `k` places forward, modulo `n`. */
  lemma {:induction false} AdvanceOffset(i: int, n: int, k: nat)
    requires 0 <= i < n && k <= n
    ensures Advance(i, n, k) == if i + k < n then i + k else i + k - n
  {
    if k > 0 {
      AdvanceOffset(i, n, k - 1);
      SuccessorWraps(Advance(i, n, k - 1), n);
    }
  }

  /** After exactly `n` arrivals the platform is back at the waypoint it
      started from, and not before. */
  lemma {:induction false} FullCycle(i: int, n: int)
    requires 0 <= i < n
    ensures Advance(i, n, n) == i
    ensures forall k: nat :: 0 < k < n ==> Advance(i, n, k) != i
  {
    AdvanceOffset(i, n, n);
    forall k: nat | 0 < k < n
      ensures Advance(i, n, k) != i
    {
      AdvanceOffset(i, n, k);
    }
  }

  /** The fields one tick may change. */
  datatype PlatformState = PlatformState(position: Vector2, moveAlong: Vector2,
                                         currentWaypoint: int, nextWaypoint: int, waitTimer: real)

  /** One FixedUpdate over `wayPoints` with the fixed step `dt`, given the
      measured distance to the next waypoint and the length of the segment
      that starts there. */
  function Tick(p: PlatformState, wayPoints: seq<Vector2>, moveSpeed: real, pauseTime: real, dt: real,
                distanceToNext: real, segmentLength: real): (r: PlatformState)
    requires Cycling(p.currentWaypoint, p.nextWaypoint, |wayPoints|)
    ensures Cycling(r.currentWaypoint, r.nextWaypoint, |wayPoints|)
    // While pausing, only the timer runs down.
    ensures p.waitTimer > 0.0 ==> r == p.(waitTimer := p.waitTimer - dt)
    // Arrival: snap onto the waypoint, start the pause and head for the one after it.
    ensures p.waitTimer <= 0.0 && distanceToNext <= moveSpeed * dt ==>
              && r.position == wayPoints[p.nextWaypoint]
              && r.waitTimer == pauseTime
              && r.currentWaypoint == p.nextWaypoint
              && r.currentWaypoint == Successor(p.currentWaypoint, |wayPoints|)
              && r.nextWaypoint == Successor(p.nextWaypoint, |wayPoints|)
              && r.moveAlong == Normalized(Sub(wayPoints[r.nextWaypoint], wayPoints[r.currentWaypoint]), segmentLength)
    // Otherwise, a step of `moveSpeed * dt` along the heading and nothing else.
    ensures p.waitTimer <= 0.0 && distanceToNext > moveSpeed * dt ==>
              r == p.(position := Add(p.position, Scale(moveSpeed * dt, p.moveAlong)))
  {
    var n := |wayPoints|;
    if p.waitTimer > 0.0 then
      p.(waitTimer := p.waitTimer - dt)
    else
      var distance := moveSpeed * dt;
      if distanceToNext <= distance then
        var current := Successor(p.currentWaypoint, n);
        var next := Successor(current, n);
        SuccessorWraps(current, n);
        var heading := Normalized(Sub(wayPoints[next], wayPoints[current]), segmentLength);
        PlatformState(wayPoints[p.nextWaypoint], heading, current, next, pauseTime)
      else
        p.(position := Add(p.position, Scale(distance, p.moveAlong)))
  }

  /** After an arrival at a waypoint distinct from the next one, the heading is
      the unit vector towards that next waypoint: the following steps of
      `moveSpeed * dt` cover exactly that distance each. */
  lemma ArrivalHeading(p: PlatformState, wayPoints: seq<Vector2>, moveSpeed: real, pauseTime: real, dt: real,
                       distanceToNext: real, segmentLength: real)
    requires Cycling(p.currentWaypoint, p.nextWaypoint, |wayPoints|)
    requires p.waitTimer <= 0.0 && distanceToNext <= moveSpeed * dt
    requires IsMagnitude(Sub(wayPoints[Successor(p.nextWaypoint, |wayPoints|)], wayPoints[p.nextWaypoint]), segmentLength)
    requires segmentLength > 0.0
    ensures var r := Tick(p, wayPoints, moveSpeed, pauseTime, dt, distanceToNext, segmentLength);
            var segment := Sub(wayPoints[r.nextWaypoint], wayPoints[r.currentWaypoint]);
            && Dot(r.moveAlong, r.moveAlong) == 1.0
            && Scale(segmentLength, r.moveAlong) == segment
            && Dot(Scale(moveSpeed * dt, r.moveAlong), r.moveAlong) == moveSpeed * dt
  {
    var next := Successor(p.nextWaypoint, |wayPoints|);
    var segment := Sub(wayPoints[next], wayPoints[p.nextWaypoint]);
    StepAlongDirection(segment, segmentLength, moveSpeed * dt);
    RescaleNormalized(segment, segmentLength);
  }

  /** The platform arrives during a tick: it is not pausing and the next
      waypoint is within this tick's step. */
  predicate Arrives(p: PlatformState, moveSpeed: real, dt: real, distanceToNext: real) {
    p.waitTimer <= 0.0 && distanceToNext <= moveSpeed * dt
  }

  /** How many of the first `k` ticks of a run are arrivals. */
  function ArrivalCount(run: seq<PlatformState>, distances: seq<real>, moveSpeed: real, dt: real, k: nat): nat
    requires k <= |run| && k <= |distances|
  {
    if k == 0 then 0
    else ArrivalCount(run, distances, moveSpeed, dt, k - 1)
         + (if Arrives(run[k - 1], moveSpeed, dt, distances[k - 1]) then 1 else 0)
  }

  /** `run` is a sequence of states each obtained from the one before by `Tick`,
      with the measured distances and segment lengths of those ticks. */
  predicate IsRun(run: seq<PlatformState>, wayPoints: seq<Vector2>, moveSpeed: real, pauseTime: real, dt: real,
                  distances: seq<real>, segmentLengths: seq<real>)
  {
    && |run| >= 1 && |distances| == |run| - 1 && |segmentLengths| == |run| - 1
    && Cycling(run[0].currentWaypoint, run[0].nextWaypoint, |wayPoints|)
    && forall j :: 0 <= j < |run| - 1 ==>
         Cycling(run[j].currentWaypoint, run[j].nextWaypoint, |wayPoints|)
         && run[j + 1] == Tick(run[j], wayPoints, moveSpeed, pauseTime, dt, distances[j], segmentLengths[j])
  }

  /** Along any run of ticks the waypoint indices only move on arrivals, one
      place each: after `c` arrivals the current waypoint is `Advance` of the
      first by `c`, and the next one follows it. */
  lemma {:induction false} RunAdvances(run: seq<PlatformState>, wayPoints: seq<Vector2>, moveSpeed: real, pauseTime: real,
                                       dt: real, distances: seq<real>, segmentLengths: seq<real>, k: nat)
    requires IsRun(run, wayPoints, moveSpeed, pauseTime, dt, distances, segmentLengths)
    requires k < |run|
    ensures Cycling(run[k].currentWaypoint, run[k].nextWaypoint, |wayPoints|)
    ensures run[k].currentWaypoint
            == Advance(run[0].currentWaypoint, |wayPoints|, ArrivalCount(run, distances, moveSpeed, dt, k))
  {
    if k > 0 {
      RunAdvances(run, wayPoints, moveSpeed, pauseTime, dt, distances, segmentLengths, k - 1);
    }
  }

  /** After exactly `n` arrivals, whatever pauses and steps lie between them,
      both waypoint indices are back at their starting values. */
  lemma RunCycles(run: seq<PlatformState>, wayPoints: seq<Vector2>, moveSpeed: real, pauseTime: real,
                  dt: real, distances: seq<real>, segmentLengths: seq<real>)
    requires IsRun(run, wayPoints, moveSpeed, pauseTime, dt, distances, segmentLengths)
    requires ArrivalCount(run, distances, moveSpeed, dt, |run| - 1) == |wayPoints|
    ensures run[|run| - 1].currentWaypoint == run[0].currentWaypoint
    ensures run[|run| - 1].nextWaypoint == run[0].nextWaypoint
  {
    RunAdvances(run, wayPoints, moveSpeed, pauseTime, dt, distances, segmentLengths, |run| - 1);
    FullCycle(run[0].currentWaypoint, |wayPoints|);
  }

  class MovingPlatform {
    /** The waypoints' positions, in visiting order. */
    const wayPoints: seq<Vector2>

    var moveSpeed: real
    /** Seconds to pause at each waypoint. */
    var pauseTime: real

    var currentWaypoint: int
    var nextWaypoint: int
    /** Unit heading from the current waypoint towards the next one. */
    var moveAlong: Vector2
    var nWaypoints: int
    var waitTimer: real
    /** The rigid body's position. */
    var position: Vector2

    /** A platform with the default tunables, before its first frame. */
    constructor (wayPoints: seq<Vector2>, position: Vector2)
      ensures this.wayPoints == wayPoints && this.position == position
      ensures moveSpeed == 1.5 && pauseTime == 0.1
      ensures currentWaypoint == 0 && nextWaypoint == 1
      ensures moveAlong == Zero && nWaypoints == 0 && waitTimer == 0.0
    {
      this.wayPoints := wayPoints;
      this.position := position;
      moveSpeed, pauseTime := 1.5, 0.1;
      currentWaypoint, nextWaypoint := 0, 1;
      moveAlong, nWaypoints, waitTimer := Zero, 0, 0.0;
    }

    /** The platform is set up and its indices cycle through the waypoints. */
    ghost predicate Valid()
      reads this
    {
      nWaypoints == |wayPoints| && nWaypoints >= 2 && Cycling(currentWaypoint, nextWaypoint, nWaypoints)
    }

    function Snapshot(): PlatformState
      reads this
    {
      PlatformState(position, moveAlong, currentWaypoint, nextWaypoint, waitTimer)
    }

    /** Counts the waypoints and heads from the first towards the second;
        `segmentLength` is the distance between them. */
    method Start(segmentLength: real)
      requires |wayPoints| >= 2 && currentWaypoint == 0 && nextWaypoint == 1
      modifies this`nWaypoints, this`moveAlong
      ensures Valid()
      ensures nWaypoints == |wayPoints|
      ensures moveAlong == Normalized(Sub(wayPoints[1], wayPoints[0]), segmentLength)
    {
      nWaypoints := |wayPoints|;
      moveAlong := Sub(wayPoints[1], wayPoints[0]);
      moveAlong := Normalized(moveAlong, segmentLength);
      SmallMod(1, nWaypoints);
    }

    /** One fixed step of `dt` seconds. `distanceToNext` is the distance from
        the platform to its next waypoint and `segmentLength` the length of
        the segment leaving that waypoint. */
    method FixedUpdate(dt: real, distanceToNext: real, segmentLength: real)
      requires Valid()
      modifies this`position, this`waitTimer, this`currentWaypoint, this`nextWaypoint, this`moveAlong
      ensures Valid()
      ensures Snapshot() == Tick(old(Snapshot()), wayPoints, moveSpeed, pauseTime, dt, distanceToNext, segmentLength)
    {
      ghost var before := Snapshot();
      if waitTimer > 0.0 {
        waitTimer := waitTimer - dt;
      } else {
        var distance := moveSpeed * dt;
        if distanceToNext <= distance {
          position := wayPoints[nextWaypoint];
          waitTimer := pauseTime;
          currentWaypoint := Successor(currentWaypoint, nWaypoints);
          SuccessorWraps(currentWaypoint, nWaypoints);
          nextWaypoint := Successor(currentWaypoint, nWaypoints);
          moveAlong := Sub(wayPoints[nextWaypoint], wayPoints[currentWaypoint]);
          moveAlong := Normalized(moveAlong, segmentLength);
        } else {
          position := Add(position, Scale(distance, moveAlong));
        }
      }
      assert Snapshot() == Tick(before, wayPoints, moveSpeed, pauseTime, dt, distanceToNext, segmentLength);
    }
  }
}
