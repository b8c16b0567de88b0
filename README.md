# Unity 2D platformer controller, modelled in Dafny

This project models the kinematic core of a small 2D platformer controller.
The core has three parts.

- The physics object (`Assets/PhysicsObject.cs`). Once per fixed step it
  resets its contact flags and integrates gravity into the velocity. It then
  moves in two passes: first along the ground, then vertically. Before each
  pass a shape cast reports the contacts along the move, up to 16 of them.
  Each contact is classified as ground, left wall, right wall or none of
  these; the first three set a flag. Every contact, classified or not, clips
  the velocity when it points against the motion and can shorten the travel. The travel
  distance shrinks to the nearest contact, less a skin of 0.01. Moves of
  0.001 or less issue no cast.
- The player controller (`Assets/PlayerPlatformerController.cs`). At start it
  derives a take-off speed and two gravities (rise and fall) from a jump
  height, a jump distance, a fall distance and a maximum speed. Each frame it
  runs a small state machine over the jump button and the horizontal axis.
- The moving platform (`Assets/MovingPlatform.cs`). It travels between
  waypoints at a fixed speed. On reaching a waypoint it snaps onto it, pauses,
  and heads for the next one, wrapping around after the last.

Each part is written in two layers:
- pure functions state on values what one step does (`Collision.Contacts`,
  `Physics.Resolve`, `Physics.Tick`, `Player.JumpPolicy`, `Platform.Tick`);
- classes hold the fields the source updates in place (`Physics.PhysicsObject`,
  `Player.PlayerController`, `Platform.MovingPlatform`).

Each method is proved to leave its object in the state the matching function
computes. The contact loop is a `for` loop with an invariant that ties it to
the fold `Collision.Contacts`. The properties the source's comments and
behaviour promise are then proved about those functions as lemmas.

Modules:
- `Vectors` (vectors.dfy): 2D vectors over the reals, and unit directions.
- `Collision` (collision.dfy): contact flags, contact classification,
  velocity clipping, and the contact fold.
- `Physics` (physics_object.dfy): one move, one tick, and the class
  `PhysicsObject`.
- `Player` (player_platformer_controller.dfy): the jump constants, the jump
  policy, and the class `PlayerController`.
- `Platform` (moving_platform.dfy): waypoint index cycling, one tick, and the
  class `MovingPlatform`.

Engine quantities are parameters:
- the fixed step `dt`;
- the direction of the engine's gravity `down`;
- the contacts each cast reports;
- the polled jump button and axis values.

The engine computes lengths of vectors with a square root. Here they are
`real` parameters: `Movement`'s `magnitude`, and the platform's
`distanceToNext` and `segmentLength`. The lemmas that depend on one of them
require it to be a true length, `IsMagnitude(v, m)`, which means `m >= 0` and
`m * m == Dot(v, v)`. The methods are proved for any value of these
parameters.

The code does not clamp a negative corrected distance
(`Assets/PhysicsObject.cs:182-186`). When a contact is closer than the skin,
the object moves backwards along the move direction. The model follows the
code (`Collision.ContactsDistance`, `Physics.ResolveTravel`).

## Model

| member | source | states |
|---|---|---|
| `Collision.PositionState.Reset` | Assets/PhysicsObject.cs:17-24 | all five contact flags are false afterwards |
| `Collision.Classify` | Assets/PhysicsObject.cs:141-172 | ground iff the normal's y exceeds the ground threshold; left wall iff not ground and x exceeds the wall threshold; right wall iff neither and x is below minus the wall threshold (ground wins over a wall) |
| `Collision.Mark` | Assets/PhysicsObject.cs:141-172 | a contact sets exactly the flag of its kind, clears none, and never touches pushTop or pushBottom |
| `Collision.Clip` | Assets/PhysicsObject.cs:173-180 | definition: subtracts the projection onto the normal when it is negative; its properties are the lemma `Collision.ClipFacts` |
| `Collision.ClipFacts` | Assets/PhysicsObject.cs:173-180 | a velocity not pointing into the surface is kept; against a unit normal the clipped velocity has no component into the surface, and an inward component is cancelled exactly; a normal with zero x keeps the x velocity |
| `Collision.ClipNormal` | Assets/PhysicsObject.cs:145-151 | on the vertical pass a ground contact clips with its normal's x set to zero; otherwise the contact's own normal is used |
| `Collision.ContactStep` | Assets/PhysicsObject.cs:139-186 | definition: one iteration of the contact loop; its properties are the lemma `Collision.ContactStepFacts` |
| `Collision.ContactStepFacts` | Assets/PhysicsObject.cs:136-187 | one contact makes the distance the smaller of the old distance and its corrected distance, marks its kind, replaces the ground normal only for ground on the vertical pass, and keeps a velocity it does not resist |
| `Collision.Contacts` | Assets/PhysicsObject.cs:136-187 | definition: the contact loop as a fold of `ContactStep` over the contacts in cast order; its properties are the lemmas `Collision.ContactsDistance`, `Collision.ContactsFlags`, `Collision.ContactsGroundNormal` and `Collision.ContactsVerticalGroundKeepsX`, and `Physics.PhysicsObject.Movement` is proved to run it |
| `Collision.ContactsDistance` | Assets/PhysicsObject.cs:182-186 | after the loop the distance is the minimum of the starting distance and every `hit.distance - 0.01`, and equals one of them; it is not clamped at zero |
| `Collision.MeetsPrefix` | Assets/PhysicsObject.cs:136 | a kind occurs in the contacts iff it occurs in all but the last or is the last one's kind |
| `Collision.ContactsFlags` | Assets/PhysicsObject.cs:136-172 | after the loop a flag is set iff it was set before or some contact has that flag's kind; pushTop and pushBottom are unchanged |
| `Collision.ContactsGroundNormal` | Assets/PhysicsObject.cs:141-152 | the ground normal changes only on a vertical pass that meets ground, and then it is the unmodified normal of the last ground contact |
| `Collision.ContactsVerticalGroundKeepsX` | Assets/PhysicsObject.cs:145-151 | a vertical pass whose contacts are all ground keeps the horizontal velocity |
| `Vectors.Abs` | Assets/PhysicsObject.cs:122 | the length of an axis-aligned move: non-negative, with the same square as the coordinate |
| `Vectors.Normalized` | Assets/PhysicsObject.cs:190 | definition: the move scaled by the inverse of its length, the zero vector for a zero move; its properties are the lemmas `Vectors.RescaleNormalized` and `Vectors.StepAlongDirection` |
| `Vectors.RescaleNormalized` | Assets/PhysicsObject.cs:190 | a non-zero vector is its unit direction scaled by its length |
| `Vectors.StepAlongDirection` | Assets/PhysicsObject.cs:190 | a step of signed length d along a unit direction projects to d on it and has squared length d*d |
| `Physics.Resolve` | Assets/PhysicsObject.cs:119-191 | definition: one Movement call on values; its properties are the lemmas `Physics.ResolveShortMove`, `Physics.ResolveTravel`, `Physics.ResolveAlongAxis`, `Physics.ResolveFlags` and `Physics.ResolveGroundNormal` |
| `Physics.Scratch` | Assets/PhysicsObject.cs:124-134 | definition: the contact list a pass leaves, refilled only when the cast is issued; `Physics.PhysicsObject.Movement` is proved to leave it |
| `Physics.Travel` | Assets/PhysicsObject.cs:122-186 | the travel distance of an issued cast is at most the move's length, at most every corrected contact distance, and equal to one of these |
| `Physics.ResolveShortMove` | Assets/PhysicsObject.cs:119-124 | a move of length at most 0.001 issues no cast and moves the object by the whole move, changing nothing else; a zero move changes nothing |
| `Physics.ResolveTravel` | Assets/PhysicsObject.cs:182-190 | with a cast, the position moves by `Travel` along the move's unit direction: that step projects to `Travel` and has squared length `Travel * Travel` |
| `Physics.ResolveAlongAxis` | Assets/PhysicsObject.cs:190 | a move with zero y (zero x) leaves the position's y (x) unchanged |
| `Physics.ResolveFlags` | Assets/PhysicsObject.cs:124-172 | one move sets a flag iff it was set or the cast was issued and met a contact of that kind; pushTop and pushBottom are unchanged |
| `Physics.ResolveGroundNormal` | Assets/PhysicsObject.cs:141-152 | one move changes the ground normal only on an issued vertical cast that meets ground, and then to the last ground contact's normal |
| `Physics.EntryVelocity` | Assets/PhysicsObject.cs:94-104 | gravity is integrated into the vertical velocity, and on flat ground the horizontal velocity is the target's |
| `Physics.TickStart` | Assets/PhysicsObject.cs:89-104 | before the passes the flags are all clear, the ground normal is (0,1) and the velocity is the target's x with gravity integrated into y; the position is unchanged |
| `Physics.MoveAlongGround` | Assets/PhysicsObject.cs:106 | with the ground normal (0,1), the ground direction is the unit x axis |
| `Physics.DeltaPosition` | Assets/PhysicsObject.cs:108 | definition: the displacement under constant acceleration, v*dt + a*dt*dt/2 |
| `Physics.TickDelta` | Assets/PhysicsObject.cs:96-108 | definition: the displacement a tick asks for, from the entry velocity; `Physics.PhysicsObject.FixedUpdate` is proved to compute it |
| `Physics.HorizontalPass` | Assets/PhysicsObject.cs:106-112 | definition: the Movement call along the ground; its properties are the lemma `Physics.TickAxes` |
| `Physics.Tick` | Assets/PhysicsObject.cs:87-117 | definition: the tick start, the horizontal pass, then the vertical pass; its properties are the lemmas `Physics.TickAxes`, `Physics.TickFlags`, `Physics.TickGroundNormal` and `Physics.TickForgetsContacts` |
| `Physics.TickAxes` | Assets/PhysicsObject.cs:106-116 | the first pass never changes y and the second never changes x |
| `Physics.TickFlags` | Assets/PhysicsObject.cs:87-117 | after a tick each of grounded, pushLeft and pushRight holds iff one of the tick's issued casts met that kind; pushTop and pushBottom are false |
| `Physics.TickGroundNormal` | Assets/PhysicsObject.cs:87-117 | after a tick the ground normal is (0,1) unless the vertical cast met ground, and then it is the last ground contact's normal |
| `Physics.TickForgetsContacts` | Assets/PhysicsObject.cs:92-102 | the flags and ground normal left by the previous tick have no influence on the next tick |
| `Physics.PhysicsObject.constructor` | Assets/PhysicsObject.cs:29-52 | the thresholds are 0.65 and 0.95, the ground normal is (0,1), velocities are zero and the flags are clear |
| `Physics.PhysicsObject.Movement` | Assets/PhysicsObject.cs:119-191 | the copy loop fills the contact list with the cast's contacts and the contact loop leaves the state `Resolve` computes; the other fields are unchanged |
| `Physics.PhysicsObject.FixedUpdate` | Assets/PhysicsObject.cs:87-117 | the previous flags are saved, the acceleration is the gravity, and the body's new state is `Tick` of the old one |
| `Player.TakeOffSpeed` | Assets/PlayerPlatformerController.cs:40 | the take-off speed is twice the maximum speed, for any non-zero jump height |
| `Player.AscentAcceleration` | Assets/PlayerPlatformerController.cs:41 | the rising gravity's magnitude is 2*maxSpeed*maxSpeed/jumpHeight |
| `Player.JumpApex` | Assets/PlayerPlatformerController.cs:39-41 | under the rising gravity, a jump at the take-off speed peaks exactly jumpHeight up: v*v == 2*g*jumpHeight |
| `Player.JumpPolicy` | Assets/PlayerPlatformerController.cs:54-81 | a grounded press sets the take-off speed (and the default gravity for a non-negative speed); otherwise the vertical speed is kept; a release while rising selects the fall gravity; a falling body always ends with the fall gravity; gravity stays one of the two |
| `Player.PlayerController.constructor` | Assets/PlayerPlatformerController.cs:17-21 | the tunables default to jumpHeight 2, jumpDistance 3, fallDistance 1.5 and maxSpeed 7 |
| `Player.PlayerController.Start` | Assets/PlayerPlatformerController.cs:37-46 | the take-off speed is 2*maxSpeed, gravity and the default gravity are the rising gravity along `down`, and the fall gravity is that scaled by jumpDistance/fallDistance |
| `Player.PlayerController.ComputeVelocity` | Assets/PlayerPlatformerController.cs:48-90 | gravity and vertical velocity follow `JumpPolicy`, the horizontal velocity is untouched, and the target velocity is (axis*maxSpeed, 0) |
| `Platform.Successor` | Assets/MovingPlatform.cs:51-52 | definition: `(i + 1) % n`; its properties are the lemmas `Platform.SuccessorWraps` and `Platform.FullCycle` |
| `Platform.Advance` | Assets/MovingPlatform.cs:51-52 | definition: the index after k arrivals; its properties are the lemmas `Platform.AdvanceOffset`, `Platform.FullCycle` and `Platform.RunAdvances` |
| `Platform.SuccessorWraps` | Assets/MovingPlatform.cs:51-52 | the successor of a valid index is the next index, or 0 after the last |
| `Platform.AdvanceOffset` | Assets/MovingPlatform.cs:51-52 | within one round, k arrivals move the index k places on, wrapping once |
| `Platform.FullCycle` | Assets/MovingPlatform.cs:51-52 | after exactly n arrivals the index is back where it started, and not after fewer |
| `Platform.Tick` | Assets/MovingPlatform.cs:30-63 | valid indices stay valid; while pausing only the timer decreases by dt; on arrival the position is the old next waypoint, the timer is pauseTime, the new current index is the old next index and the heading is the unit direction of the new segment; otherwise only the position moves, by moveSpeed*dt along the heading |
| `Platform.RunAdvances` | Assets/MovingPlatform.cs:30-63 | along any run of ticks the indices stay valid and the current waypoint is `Advance` of the first by the number of arrival ticks so far; pauses and steps leave the indices alone |
| `Platform.RunCycles` | Assets/MovingPlatform.cs:51-52 | after exactly n arrival ticks of a run, whatever lies between them, both indices are back at their starting values |
| `Platform.ArrivalHeading` | Assets/MovingPlatform.cs:53-55 | after an arrival the heading is a unit vector that scaled by the segment length gives the segment, so a step of moveSpeed*dt covers exactly that distance along it |
| `Platform.MovingPlatform.constructor` | Assets/MovingPlatform.cs:9-17 | moveSpeed 1.5, pauseTime 0.1, indices 0 and 1, and a zero timer |
| `Platform.MovingPlatform.Start` | Assets/MovingPlatform.cs:20-27 | with at least two waypoints the indices are valid and the heading is the unit direction from waypoint 0 to waypoint 1 |
| `Platform.MovingPlatform.FixedUpdate` | Assets/MovingPlatform.cs:30-63 | the indices stay valid and the new state is `Platform.Tick` of the old one |

## Left out

- The engine's shape cast and the contact filter (`Assets/PhysicsObject.cs:64-72, 126`) are not modelled. Each pass instead receives the contacts the cast reports, at most 16, in cast order.
- The fixed-size hit buffer array is not modelled. The contact list is a sequence field that `Movement` refills by a copy loop.
- Floating point is not modelled: rounding, NaN and infinities are absent. All quantities are reals, and the constants 0.001 and 0.01 are exact.
- Unity's `normalized` returns zero for very short vectors. Here only the zero vector has no direction.
- Square roots are abstracted. Vector lengths are parameters, and `IsMagnitude` states what they must be.
- A zero `jumpHeight` or `fallDistance` would give infinities or NaN in the engine. `Start` requires both to be non-zero.
- `OnEnable` is not modelled: it fetches the rigid body and multiplies the engine gravity by `gravityModifier`. The physics object's constructor takes that gravity as given.
- `collisionSlipFactor` is declared in the source but never read.
- `Update` is not modelled. It zeroes `targetVelocity` and then calls `ComputeVelocity`, which overwrites that field.
- The engine's scheduling is not modelled: Start, Update and FixedUpdate order, frame versus fixed-step interleaving, and the order of objects.
- Input polling (`Input.GetAxis`, `GetButtonDown`, `GetButtonUp`) is replaced by parameters.
- The sprite flip and the animator calls are left out, as presentation only.
- `Debug.Log` on new wall pushes is left out, as logging only.
- `Physics.PhysicsObject.Movement`: the source computes `move.magnitude` itself. Here it is the parameter `magnitude`, and the lemmas about `Resolve` require it to be the length of `move`.
- `Platform.MovingPlatform.FixedUpdate`: `Vector2.Distance` and the length inside `Normalize` are the parameters `distanceToNext` and `segmentLength`. `Platform.ArrivalHeading` requires the segment length to be the true length.
- `Platform.MovingPlatform.Start`: waypoints are fixed positions in a sequence, not scene objects. Start requires at least two of them, where the engine would fail on index 1. It also requires the indices as the constructor leaves them.
- The moving platform declares its own `FixedUpdate` and so replaces the physics object's step. It is modelled on its own, not as a subclass of the physics object.
- The source's player controller inherits from the physics object. Here it is composed with one, and its bare `grounded` test at `Assets/PlayerPlatformerController.cs:54` reads that object's `positionState.grounded`.
- `Player.PlayerController.ComputeVelocity`: Unity's `Vector2 !=` at `Assets/PlayerPlatformerController.cs:78` is approximate, true only for a difference of about 1e-5 or more; the model compares exactly.
- `Player.JumpPolicy`: ensures default gravity after a take-off only when the take-off speed is non-negative. With a negative take-off speed, the falling check immediately switches to the fall gravity, as the source does.
