// The player's velocity policy (Assets/PlayerPlatformerController.cs): jump
// constants derived from tunables, and the per-frame gravity/jump state
// machine. The controller is composed with the PhysicsObject it drives and
// writes that object's gravity, vertical velocity and target velocity.
module Player {
  import opened Vectors
  import opened Physics

  /** The product `a * b`, kept behind a function so that the square of the
      jump height stays a single term in the proofs below. */
  function Product(a: real, b: real): real {
    a * b
  }

  lemma ProductNonZero(a: real, b: real)
    requires a != 0.0 && b != 0.0
    ensures Product(a, b) != 0.0
  {
  }

  lemma CancelCommon(x: real, a: real, b: real)
    requires a != 0.0 && b != 0.0
    ensures (x * a) / Product(a, b) == x / b
  {
    assert Product(a, b) * (x / b) == x * a;
  }

  /** Take-off speed for a jump of `jumpHeight` at horizontal speed `maxSpeed`,
      computed as the engine does; the height cancels out. */
  function TakeOffSpeed(jumpHeight: real, maxSpeed: real): (speed: real)
    requires jumpHeight != 0.0
    ensures speed == 2.0 * maxSpeed
  {
    (2.0 * jumpHeight * maxSpeed) / jumpHeight
  }

  /** Magnitude of the ascent gravity, computed as the engine does. */
  function AscentAcceleration(jumpHeight: real, maxSpeed: real): (k: real)
    requires jumpHeight != 0.0
    ensures k == (2.0 * maxSpeed * maxSpeed) / jumpHeight
  {
    ProductNonZero(jumpHeight, jumpHeight);
    CancelCommon(2.0 * maxSpeed * maxSpeed, jumpHeight, jumpHeight);
    assert 2.0 * jumpHeight * maxSpeed * maxSpeed == (2.0 * maxSpeed * maxSpeed) * jumpHeight;
    (2.0 * jumpHeight * maxSpeed * maxSpeed) / Product(jumpHeight, jumpHeight)
  }

  /** Under a constant deceleration of `AscentAcceleration`, a body leaving the
      ground at `TakeOffSpeed` stops rising exactly `jumpHeight` higher
      (v * v == 2 * k * h). */
  lemma {:induction false} JumpApex(jumpHeight: real, maxSpeed: real)
    requires jumpHeight != 0.0
    ensures TakeOffSpeed(jumpHeight, maxSpeed) * TakeOffSpeed(jumpHeight, maxSpeed)
            == 2.0 * AscentAcceleration(jumpHeight, maxSpeed) * jumpHeight
  {
    var k := AscentAcceleration(jumpHeight, maxSpeed);
    assert k * jumpHeight == 2.0 * maxSpeed * maxSpeed;
  }

  /** The vertical part of the body that the policy controls. */
  datatype Vertical = Vertical(gravity: Vector2, velocityY: real)

  /** One ComputeVelocity decision: a jump press while grounded takes off with
      the ascent gravity; otherwise a release while still rising switches to
      the fall gravity; and whenever the body ends up falling, the fall
      gravity is in force. */
  function JumpPolicy(v: Vertical, grounded: bool, jumpPressed: bool, jumpReleased: bool,
                      takeOffSpeed: real, defaultGravity: Vector2, fallGravity: Vector2): (r: Vertical)
    // Take-off sets the vertical speed, whatever else happens this frame.
    ensures jumpPressed && grounded ==> r.velocityY == takeOffSpeed
    ensures jumpPressed && grounded && takeOffSpeed >= 0.0 ==> r.gravity == defaultGravity
    // Nothing but take-off changes the vertical speed.
    ensures !(jumpPressed && grounded) ==> r.velocityY == v.velocityY
    // A release while rising selects the fall gravity.
    ensures !(jumpPressed && grounded) && jumpReleased && v.velocityY > 0.0 ==> r.gravity == fallGravity
    // Without take-off, release-while-rising or falling, gravity is kept.
    ensures !(jumpPressed && grounded) && !(jumpReleased && v.velocityY > 0.0) && v.velocityY >= 0.0
            ==> r.gravity == v.gravity
    // Falling always uses the fall gravity.
    ensures r.velocityY < 0.0 ==> r.gravity == fallGravity
    // The policy only ever switches between its two gravities.
    ensures v.gravity == defaultGravity || v.gravity == fallGravity ==>
              r.gravity == defaultGravity || r.gravity == fallGravity
  {
    var jumped :=
      if jumpPressed && grounded then Vertical(defaultGravity, takeOffSpeed)
      else if jumpReleased && v.velocityY > 0.0 then v.(gravity := fallGravity)
      else v;
    if jumped.velocityY < 0.0 && jumped.gravity != fallGravity then jumped.(gravity := fallGravity)
    else jumped
  }

  class PlayerController {
    /** The physics object this controller drives. */
    const body: PhysicsObject

    var jumpHeight: real
    var jumpDistance: real
    var fallDistance: real
    var maxSpeed: real

    var jumpTakeOffSpeed: real
    var defaultGravity: Vector2
    var fallGravity: Vector2

    /** A controller with the default tunables. */
    constructor (body: PhysicsObject)
      ensures this.body == body
      ensures jumpHeight == 2.0 && jumpDistance == 3.0 && fallDistance == 1.5 && maxSpeed == 7.0
      ensures jumpTakeOffSpeed == 0.0 && defaultGravity == Zero && fallGravity == Zero
    {
      this.body := body;
      jumpHeight, jumpDistance, fallDistance, maxSpeed := 2.0, 3.0, 1.5, 7.0;
      jumpTakeOffSpeed, defaultGravity, fallGravity := 0.0, Zero, Zero;
    }

    /** Derives the jump constants; `down` is the engine's gravity direction. */
    method Start(down: Vector2)
      requires jumpHeight != 0.0 && fallDistance != 0.0
      modifies this`jumpTakeOffSpeed, this`defaultGravity, this`fallGravity, body`gravity
      ensures jumpTakeOffSpeed == 2.0 * maxSpeed
      ensures body.gravity == Scale(AscentAcceleration(jumpHeight, maxSpeed), down)
      ensures defaultGravity == body.gravity
      ensures fallGravity == Scale(jumpDistance / fallDistance, body.gravity)
    {
      jumpTakeOffSpeed := TakeOffSpeed(jumpHeight, maxSpeed);
      body.gravity := Scale(AscentAcceleration(jumpHeight, maxSpeed), down);
      defaultGravity := body.gravity;
      fallGravity := Scale(jumpDistance / fallDistance, body.gravity);
    }

    /** One frame of the policy with the polled inputs: the horizontal axis
        and whether the jump button went down or up this frame. */
    method ComputeVelocity(axis: real, jumpPressed: bool, jumpReleased: bool)
      modifies body`gravity, body`velocity, body`targetVelocity
      ensures var r := JumpPolicy(Vertical(old(body.gravity), old(body.velocity.y)), body.positionState.grounded,
                                  jumpPressed, jumpReleased, jumpTakeOffSpeed, defaultGravity, fallGravity);
              body.gravity == r.gravity && body.velocity == Vector2(old(body.velocity.x), r.velocityY)
      ensures body.targetVelocity == Vector2(axis * maxSpeed, 0.0)
    {
      var move := Zero.(x := axis);
      if jumpPressed && body.positionState.grounded {
        body.gravity := defaultGravity;
        body.velocity := body.velocity.(y := jumpTakeOffSpeed);
      } else if jumpReleased {
        if body.velocity.y > 0.0 {
          body.gravity := fallGravity;
        }
      }
      if body.velocity.y < 0.0 && body.gravity != fallGravity {
        body.gravity := fallGravity;
      }
      body.targetVelocity := Scale(maxSpeed, move);
    }
  }
}
