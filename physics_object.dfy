// The motion integrator and swept-move resolver of Assets/PhysicsObject.cs.
// `Resolve` and `Tick` state on values what one Movement call and one
// FixedUpdate tick do; the class PhysicsObject holds the object's fields and
// its methods are proved to update them as those functions say. The engine's
// shape cast becomes the contact sequence handed to each pass, and the
// lengths the engine computes with a square root become parameters checked
// by `IsMagnitude`.
module Physics {
  import opened Vectors
  import opened Collision

  /** The part of the object's state that one tick changes. */
  datatype Body = Body(position: Vector2, velocity: Vector2, groundNormal: Vector2, state: PositionState)

  /** The travel distance left after the contact loop of a cast that was issued. */
  function Travel(b: Body, magnitude: real, yMovement: bool, hits: seq<Contact>, t: Thresholds): (d: real)
    ensures d <= magnitude
    ensures forall i :: 0 <= i < |hits| ==> d <= hits[i].distance - ShellRadius
    ensures d == magnitude || exists i :: 0 <= i < |hits| && d == hits[i].distance - ShellRadius
  {
    ContactsDistance(Sweep(magnitude, b.velocity, b.groundNormal, b.state), hits, yMovement, t);
    Contacts(Sweep(magnitude, b.velocity, b.groundNormal, b.state), hits, yMovement, t).distance
  }

  /** One Movement call: `move` with length `magnitude`, the contacts the cast
      reports for it, and whether this is the vertical pass. */
  function Resolve(b: Body, move: Vector2, magnitude: real, yMovement: bool, hits: seq<Contact>, t: Thresholds): Body {
    var start := Sweep(magnitude, b.velocity, b.groundNormal, b.state);
    var s := if magnitude > MinMoveDistance then Contacts(start, hits, yMovement, t) else start;
    Body(Add(b.position, Scale(s.distance, Normalized(move, magnitude))), s.velocity, s.groundNormal, s.state)
  }

  /** A move no longer than the threshold issues no cast: only the position
      changes, and it still advances by the whole move (a zero move has no
      direction and changes nothing). */
  lemma ResolveShortMove(b: Body, move: Vector2, magnitude: real, yMovement: bool, hits: seq<Contact>, t: Thresholds)
    requires IsMagnitude(move, magnitude) && magnitude <= MinMoveDistance
    ensures magnitude > 0.0 ==> Resolve(b, move, magnitude, yMovement, hits, t) == b.(position := Add(b.position, move))
    ensures magnitude == 0.0 ==> Resolve(b, move, magnitude, yMovement, hits, t) == b
  {
    if magnitude > 0.0 {
      RescaleNormalized(move, magnitude);
    }
  }

  /** A cast that is issued moves the object by `Travel` along the unit
      direction of the move: never past a corrected contact distance, never
      farther than the move itself, and backwards when the nearest contact is
      closer than the shell radius. */
  lemma ResolveTravel(b: Body, move: Vector2, magnitude: real, yMovement: bool, hits: seq<Contact>, t: Thresholds)
    requires IsMagnitude(move, magnitude) && magnitude > MinMoveDistance
    ensures var step := Sub(Resolve(b, move, magnitude, yMovement, hits, t).position, b.position);
            var d := Travel(b, magnitude, yMovement, hits, t);
            step == Scale(d / magnitude, move)
            && Dot(step, Normalized(move, magnitude)) == d
            && Dot(step, step) == d * d
  {
    var d := Travel(b, magnitude, yMovement, hits, t);
    StepAlongDirection(move, magnitude, d);
    var r := Resolve(b, move, magnitude, yMovement, hits, t);
    assert Sub(r.position, b.position) == Scale(d, Normalized(move, magnitude));
  }

  /** A move along one axis leaves the other coordinate of the position alone. */
  lemma ResolveAlongAxis(b: Body, move: Vector2, magnitude: real, yMovement: bool, hits: seq<Contact>, t: Thresholds)
    ensures move.y == 0.0 ==> Resolve(b, move, magnitude, yMovement, hits, t).position.y == b.position.y
    ensures move.x == 0.0 ==> Resolve(b, move, magnitude, yMovement, hits, t).position.x == b.position.x
  {
  }

  /** Flags are only ever set, each by a contact of its own kind, and only when
      the cast is issued. */
  lemma ResolveFlags(b: Body, move: Vector2, magnitude: real, yMovement: bool, hits: seq<Contact>, t: Thresholds)
    ensures var r := Resolve(b, move, magnitude, yMovement, hits, t);
            (r.state.grounded <==> b.state.grounded || (magnitude > MinMoveDistance && Meets(hits, Ground, t)))
            && (r.state.pushLeft <==> b.state.pushLeft || (magnitude > MinMoveDistance && Meets(hits, LeftWall, t)))
            && (r.state.pushRight <==> b.state.pushRight || (magnitude > MinMoveDistance && Meets(hits, RightWall, t)))
            && r.state.pushTop == b.state.pushTop && r.state.pushBottom == b.state.pushBottom
  {
    ContactsFlags(Sweep(magnitude, b.velocity, b.groundNormal, b.state), hits, yMovement, t);
  }

  /** The ground normal changes only on a vertical pass whose cast meets
      ground, and then it is the original normal of the last ground contact. */
  lemma ResolveGroundNormal(b: Body, move: Vector2, magnitude: real, yMovement: bool, hits: seq<Contact>, t: Thresholds)
    ensures !(yMovement && magnitude > MinMoveDistance && Meets(hits, Ground, t)) ==>
              Resolve(b, move, magnitude, yMovement, hits, t).groundNormal == b.groundNormal
    ensures yMovement && magnitude > MinMoveDistance && Meets(hits, Ground, t) ==>
              exists k :: 0 <= k < |hits| && Classify(hits[k].normal, t) == Ground
                && Resolve(b, move, magnitude, yMovement, hits, t).groundNormal == hits[k].normal
                && forall j :: k < j < |hits| ==> Classify(hits[j].normal, t) != Ground
  {
    ContactsGroundNormal(Sweep(magnitude, b.velocity, b.groundNormal, b.state), hits, yMovement, t);
  }

  /** The velocity handed to the passes: gravity integrated over the step, and
      the horizontal component overwritten by the target, divided by the ground
      normal's y, which is always 1 here (see `TickStart`). */
  function EntryVelocity(velocity: Vector2, target: Vector2, acceleration: Vector2, dt: real, groundNormal: Vector2): (v: Vector2)
    requires groundNormal.y != 0.0
    ensures v.y == velocity.y + acceleration.y * dt
    ensures groundNormal.y == 1.0 ==> v.x == target.x
  {
    Add(velocity, Scale(dt, acceleration)).(x := target.x * (1.0 / groundNormal.y))
  }

  /** Displacement of the step under constant acceleration. */
  function DeltaPosition(velocity: Vector2, acceleration: Vector2, dt: real): Vector2 {
    Add(Scale(dt, velocity), Scale(0.5 * dt * dt, acceleration))
  }

  /** The body as the two passes of a tick receive it. The flags are reset
      before the airborne test, so the test always passes and the ground normal
      is (0,1) whatever the previous tick found. */
  function TickStart(b: Body, target: Vector2, gravity: Vector2, dt: real): (r: Body)
    ensures r.position == b.position
    ensures r.groundNormal == Up
    ensures r.velocity.x == target.x && r.velocity.y == b.velocity.y + gravity.y * dt
    ensures r.state == b.state.Reset()
  {
    var state := b.state.Reset();
    var groundNormal := if !state.grounded then Up else b.groundNormal;
    Body(b.position, EntryVelocity(b.velocity, target, gravity, dt, groundNormal), groundNormal, state)
  }

  /** The direction of the horizontal pass: the ground tangent, normalised.
      At this point the ground normal is (0,1), so the tangent is the unit x axis. */
  function MoveAlongGround(groundNormal: Vector2): (u: Vector2)
    requires groundNormal == Up
    ensures u == Vector2(1.0, 0.0)
  {
    Normalized(Vector2(groundNormal.y, -groundNormal.x), 1.0)
  }

  /** The displacement a tick asks for, before collisions. */
  function TickDelta(b: Body, target: Vector2, gravity: Vector2, dt: real): Vector2 {
    DeltaPosition(TickStart(b, target, gravity, dt).velocity, gravity, dt)
  }

  /** The body after the horizontal pass. */
  function HorizontalPass(b: Body, target: Vector2, gravity: Vector2, dt: real, hits: seq<Contact>, t: Thresholds): Body {
    var b0 := TickStart(b, target, gravity, dt);
    var d := TickDelta(b, target, gravity, dt);
    Resolve(b0, Scale(d.x, MoveAlongGround(b0.groundNormal)), Abs(d.x), false, hits, t)
  }

  /** One FixedUpdate tick: a horizontal pass with the contacts `hitsX`, then a
      vertical pass with the contacts `hitsY`. */
  function Tick(b: Body, target: Vector2, gravity: Vector2, dt: real, hitsX: seq<Contact>, hitsY: seq<Contact>, t: Thresholds): Body {
    var d := TickDelta(b, target, gravity, dt);
    Resolve(HorizontalPass(b, target, gravity, dt, hitsX, t), Scale(d.y, Up), Abs(d.y), true, hitsY, t)
  }

  /** The horizontal pass moves along x only and the vertical pass along y only. */
  lemma TickAxes(b: Body, target: Vector2, gravity: Vector2, dt: real, hitsX: seq<Contact>, hitsY: seq<Contact>, t: Thresholds)
    ensures HorizontalPass(b, target, gravity, dt, hitsX, t).position.y == b.position.y
    ensures Tick(b, target, gravity, dt, hitsX, hitsY, t).position.x == HorizontalPass(b, target, gravity, dt, hitsX, t).position.x
  {
    var b0 := TickStart(b, target, gravity, dt);
    var d := TickDelta(b, target, gravity, dt);
    ResolveAlongAxis(b0, Scale(d.x, MoveAlongGround(b0.groundNormal)), Abs(d.x), false, hitsX, t);
    ResolveAlongAxis(HorizontalPass(b, target, gravity, dt, hitsX, t), Scale(d.y, Up), Abs(d.y), true, hitsY, t);
  }

  /** After a tick, grounded holds exactly when one of the tick's casts was
      issued and reported a ground contact, and likewise for the wall flags;
      pushTop and pushBottom are always clear. */
  lemma TickFlags(b: Body, target: Vector2, gravity: Vector2, dt: real, hitsX: seq<Contact>, hitsY: seq<Contact>, t: Thresholds)
    ensures var r := Tick(b, target, gravity, dt, hitsX, hitsY, t);
            var d := TickDelta(b, target, gravity, dt);
            (r.state.grounded <==> (Abs(d.x) > MinMoveDistance && Meets(hitsX, Ground, t))
                                   || (Abs(d.y) > MinMoveDistance && Meets(hitsY, Ground, t)))
            && (r.state.pushLeft <==> (Abs(d.x) > MinMoveDistance && Meets(hitsX, LeftWall, t))
                                      || (Abs(d.y) > MinMoveDistance && Meets(hitsY, LeftWall, t)))
            && (r.state.pushRight <==> (Abs(d.x) > MinMoveDistance && Meets(hitsX, RightWall, t))
                                       || (Abs(d.y) > MinMoveDistance && Meets(hitsY, RightWall, t)))
            && !r.state.pushTop && !r.state.pushBottom
  {
    var b0 := TickStart(b, target, gravity, dt);
    var d := TickDelta(b, target, gravity, dt);
    ResolveFlags(b0, Scale(d.x, MoveAlongGround(b0.groundNormal)), Abs(d.x), false, hitsX, t);
    ResolveFlags(HorizontalPass(b, target, gravity, dt, hitsX, t), Scale(d.y, Up), Abs(d.y), true, hitsY, t);
  }

  /** After a tick the ground normal is (0,1), unless the vertical cast was
      issued and met ground; then it is the normal of its last ground contact. */
  lemma TickGroundNormal(b: Body, target: Vector2, gravity: Vector2, dt: real, hitsX: seq<Contact>, hitsY: seq<Contact>, t: Thresholds)
    ensures var r := Tick(b, target, gravity, dt, hitsX, hitsY, t);
            var d := TickDelta(b, target, gravity, dt);
            (!(Abs(d.y) > MinMoveDistance && Meets(hitsY, Ground, t)) ==> r.groundNormal == Up)
            && (Abs(d.y) > MinMoveDistance && Meets(hitsY, Ground, t) ==>
                  exists k :: 0 <= k < |hitsY| && Classify(hitsY[k].normal, t) == Ground
                    && r.groundNormal == hitsY[k].normal
                    && forall j :: k < j < |hitsY| ==> Classify(hitsY[j].normal, t) != Ground)
  {
    var b0 := TickStart(b, target, gravity, dt);
    var d := TickDelta(b, target, gravity, dt);
    ResolveGroundNormal(b0, Scale(d.x, MoveAlongGround(b0.groundNormal)), Abs(d.x), false, hitsX, t);
    ResolveGroundNormal(HorizontalPass(b, target, gravity, dt, hitsX, t), Scale(d.y, Up), Abs(d.y), true, hitsY, t);
  }

  /** Nothing the previous tick found about contacts, and no ground normal it
      left, influences the next tick. */
  lemma TickForgetsContacts(b: Body, groundNormal: Vector2, state: PositionState,
                            target: Vector2, gravity: Vector2, dt: real,
                            hitsX: seq<Contact>, hitsY: seq<Contact>, t: Thresholds)
    ensures Tick(b.(groundNormal := groundNormal, state := state), target, gravity, dt, hitsX, hitsY, t)
            == Tick(b, target, gravity, dt, hitsX, hitsY, t)
  {
    assert TickStart(b.(groundNormal := groundNormal, state := state), target, gravity, dt)
           == TickStart(b, target, gravity, dt);
  }

  /** The contact list a pass leaves in the scratch buffer: refilled only when
      the cast is issued. */
  function Scratch(before: seq<Contact>, magnitude: real, hits: seq<Contact>): seq<Contact> {
    if magnitude > MinMoveDistance then hits else before
  }

  class PhysicsObject {
    /** How flat a surface must be to count as ground. */
    const minGroundNormalY: real
    /** How vertical a surface must be to count as a wall. */
    const minWallNormalX: real

    var positionState: PositionState
    var prevState: PositionState
    var groundNormal: Vector2
    var targetVelocity: Vector2
    var velocity: Vector2
    var acceleration: Vector2
    var gravity: Vector2
    /** The rigid body's position. */
    var position: Vector2
    /** The contacts of the last cast, copied out of the engine's hit buffer. */
    var hitBufferList: seq<Contact>

    /** A freshly enabled object at `position`, with the gravity its
        enabling step computed. */
    constructor (position: Vector2, gravity: Vector2)
      ensures minGroundNormalY == 0.65 && minWallNormalX == 0.95
      ensures this.position == position && this.gravity == gravity
      ensures groundNormal == Up
      ensures velocity == Zero && targetVelocity == Zero && acceleration == Zero
      ensures positionState == PositionState(false, false, false, false, false)
      ensures prevState == positionState
      ensures hitBufferList == []
    {
      minGroundNormalY, minWallNormalX := 0.65, 0.95;
      this.position, this.gravity := position, gravity;
      groundNormal := Up;
      velocity, targetVelocity, acceleration := Zero, Zero, Zero;
      positionState := PositionState(false, false, false, false, false);
      prevState := positionState;
      hitBufferList := [];
    }

    function Limits(): Thresholds {
      Thresholds(minGroundNormalY, minWallNormalX)
    }

    function Snapshot(): Body
      reads this
    {
      Body(position, velocity, groundNormal, positionState)
    }

    /** Moves the object along `move`, whose length is `magnitude`; `hits` are
        the contacts the engine's cast reports for that move. */
    method Movement(move: Vector2, yMovement: bool, magnitude: real, hits: seq<Contact>)
      requires |hits| <= HitBufferCapacity
      modifies this
      ensures Snapshot() == Resolve(old(Snapshot()), move, magnitude, yMovement, hits, Limits())
      ensures hitBufferList == Scratch(old(hitBufferList), magnitude, hits)
      ensures prevState == old(prevState) && targetVelocity == old(targetVelocity)
      ensures acceleration == old(acceleration) && gravity == old(gravity)
    {
      var distance := magnitude;
      if distance > MinMoveDistance {
        hitBufferList := [];
        for i := 0 to |hits|
          invariant hitBufferList == hits[..i]
          modifies this`hitBufferList
        {
          hitBufferList := hitBufferList + [hits[i]];
        }
        assert hitBufferList == hits;
        ghost var start := Sweep(magnitude, velocity, groundNormal, positionState);
        for i := 0 to |hitBufferList|
          invariant Sweep(distance, velocity, groundNormal, positionState)
                    == Contacts(start, hits[..i], yMovement, Limits())
          modifies this`velocity, this`groundNormal, this`positionState
        {
          var currentNormal := hitBufferList[i].normal;
          if currentNormal.y > minGroundNormalY {
            positionState := positionState.(grounded := true);
            if yMovement {
              groundNormal := currentNormal;
              currentNormal := currentNormal.(x := 0.0);
            }
          } else if currentNormal.x > minWallNormalX {
            positionState := positionState.(pushLeft := true);
          } else if currentNormal.x < -minWallNormalX {
            positionState := positionState.(pushRight := true);
          }
          assert currentNormal == ClipNormal(hits[i], yMovement, Limits());
          assert positionState == Mark(Contacts(start, hits[..i], yMovement, Limits()).state, Classify(hits[i].normal, Limits()));
          var projection := Dot(velocity, currentNormal);
          if projection < 0.0 {
            velocity := Sub(velocity, Scale(projection, currentNormal));
          }
          var modifiedDistance := hitBufferList[i].distance - ShellRadius;
          distance := if modifiedDistance < distance then modifiedDistance else distance;
          assert hits[..i + 1][..i] == hits[..i];
        }
        assert hits[..|hits|] == hits;
      }
      position := Add(position, Scale(distance, Normalized(move, magnitude)));
    }

    /** One fixed physics step of length `dt`; `hitsX` and `hitsY` are the
        contacts the engine's casts report for the horizontal and the vertical pass. */
    method FixedUpdate(dt: real, hitsX: seq<Contact>, hitsY: seq<Contact>)
      requires |hitsX| <= HitBufferCapacity && |hitsY| <= HitBufferCapacity
      modifies this
      ensures prevState == old(positionState)
      ensures acceleration == old(gravity)
      ensures gravity == old(gravity) && targetVelocity == old(targetVelocity)
      ensures Snapshot() == Tick(old(Snapshot()), old(targetVelocity), old(gravity), dt, hitsX, hitsY, Limits())
      ensures var d := TickDelta(old(Snapshot()), old(targetVelocity), old(gravity), dt);
              hitBufferList == Scratch(Scratch(old(hitBufferList), Abs(d.x), hitsX), Abs(d.y), hitsY)
    {
      ghost var entry := Snapshot();
      prevState := positionState;
      positionState := positionState.Reset();
      acceleration := gravity;
      velocity := Add(velocity, Scale(dt, acceleration));
      if !positionState.grounded {
        groundNormal := Vector2(0.0, 1.0);
      }
      velocity := velocity.(x := targetVelocity.x * (1.0 / groundNormal.y));
      var moveAlongGround := Normalized(Vector2(groundNormal.y, -groundNormal.x), 1.0);
      var deltaPosition := Add(Scale(dt, velocity), Scale(0.5 * dt * dt, acceleration));
      assert Snapshot() == TickStart(entry, targetVelocity, gravity, dt);
      assert deltaPosition == TickDelta(entry, targetVelocity, gravity, dt);
      var move := Scale(deltaPosition.x, moveAlongGround);
      assert move == Vector2(deltaPosition.x, 0.0);
      Movement(move, false, Abs(deltaPosition.x), hitsX);
      ghost var afterX := HorizontalPass(entry, targetVelocity, gravity, dt, hitsX, Limits());
      assert Snapshot() == afterX;
      move := Scale(deltaPosition.y, Up);
      assert move == Vector2(0.0, deltaPosition.y);
      Movement(move, true, Abs(deltaPosition.y), hitsY);
      assert Snapshot() == Resolve(afterX, move, Abs(deltaPosition.y), true, hitsY, Limits());
    }
  }
}
