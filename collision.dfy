// Contact state and the per-contact rules of the swept-move resolver
// (Assets/PhysicsObject.cs): the flags a tick records, how one contact
// returned by the shape cast is classified, how it clips the velocity and
// how it shortens the travel distance. `Contacts` folds these rules over the
// cast's contacts in order; it is the specification the Movement loop is
// proved against.
module Collision {
  import opened Vectors

  /** Capacity of the cast's hit buffer: at most this many contacts are reported. */
  const HitBufferCapacity: nat := 16
  /** Below this travel length no cast is issued. */
  const MinMoveDistance: real := 0.001
  /** Skin tolerance subtracted from every contact distance. */
  const ShellRadius: real := 0.01

  /** How the object is touching the world during one tick. */
  datatype PositionState = PositionState(
    pushRight: bool,
    pushLeft: bool,
    pushBottom: bool,
    pushTop: bool,
    grounded: bool)
  {
    /** Clears every flag. */
    function Reset(): (r: PositionState)
      ensures !r.pushRight && !r.pushLeft && !r.pushBottom && !r.pushTop && !r.grounded
    {
      PositionState(false, false, false, false, false)
    }
  }

  /** One result of the shape cast: the surface normal and the distance to it. */
  datatype Contact = Contact(normal: Vector2, distance: real)

  /** The angle thresholds of the classifier (public tunables of the object). */
  datatype Thresholds = Thresholds(minGroundNormalY: real, minWallNormalX: real)

  /** A surface with normal pointing right (x > 0) is a wall to the object's left. */
  datatype Kind = Ground | LeftWall | RightWall | Unclassified

  /** Ground is tested first; a contact meeting both thresholds is ground. */
  function Classify(n: Vector2, t: Thresholds): (k: Kind)
    ensures k == Ground <==> n.y > t.minGroundNormalY
    ensures k == LeftWall <==> !(n.y > t.minGroundNormalY) && n.x > t.minWallNormalX
    ensures k == RightWall <==> !(n.y > t.minGroundNormalY) && !(n.x > t.minWallNormalX)
                                && n.x < -t.minWallNormalX
  {
    if n.y > t.minGroundNormalY then Ground
    else if n.x > t.minWallNormalX then LeftWall
    else if n.x < -t.minWallNormalX then RightWall
    else Unclassified
  }

  /** Records a classified contact: sets only the flag of its kind, clears nothing. */
  function Mark(s: PositionState, k: Kind): (r: PositionState)
    ensures r.grounded == (s.grounded || k == Ground)
    ensures r.pushLeft == (s.pushLeft || k == LeftWall)
    ensures r.pushRight == (s.pushRight || k == RightWall)
    ensures r.pushTop == s.pushTop && r.pushBottom == s.pushBottom
  {
    match k
    case Ground => s.(grounded := true)
    case LeftWall => s.(pushLeft := true)
    case RightWall => s.(pushRight := true)
    case Unclassified => s
  }

  /** Inelastic clipping: removes the component of `v` that points into the surface. */
  function Clip(v: Vector2, n: Vector2): Vector2 {
    var projection := Dot(v, n);
    if projection < 0.0 then Sub(v, Scale(projection, n)) else v
  }

  /** Clipping leaves a velocity that already points away from the surface
      alone; against a unit normal it leaves no component into the surface,
      and when `v` pointed into the surface it cancels that component; on a
      normal without x component it keeps the x velocity. */
  lemma ClipFacts(v: Vector2, n: Vector2)
    ensures Dot(v, n) >= 0.0 ==> Clip(v, n) == v
    ensures Dot(n, n) == 1.0 ==> Dot(Clip(v, n), n) >= 0.0
    ensures Dot(n, n) == 1.0 && Dot(v, n) < 0.0 ==> Dot(Clip(v, n), n) == 0.0
    ensures n.x == 0.0 ==> Clip(v, n).x == v.x
  {
    var projection := Dot(v, n);
    if projection < 0.0 {
      var r := Sub(v, Scale(projection, n));
      assert Dot(r, n) == projection - projection * Dot(n, n);
    }
  }

  /** The variables the contact loop updates: the remaining travel distance,
      the velocity, the ground normal and the contact flags. */
  datatype Sweep = Sweep(distance: real, velocity: Vector2, groundNormal: Vector2, state: PositionState)

  /** The normal used for velocity clipping: on the vertical pass a ground
      contact loses its x component, so the object scrapes along slopes. */
  function ClipNormal(c: Contact, yMovement: bool, t: Thresholds): (n: Vector2)
    ensures n.y == c.normal.y
    ensures n.x == if yMovement && Classify(c.normal, t) == Ground then 0.0 else c.normal.x
  {
    if yMovement && Classify(c.normal, t) == Ground then c.normal.(x := 0.0) else c.normal
  }

  /** One iteration of the contact loop. */
  function ContactStep(s: Sweep, c: Contact, yMovement: bool, t: Thresholds): Sweep {
    var k := Classify(c.normal, t);
    var groundNormal := if yMovement && k == Ground then c.normal else s.groundNormal;
    var modifiedDistance := c.distance - ShellRadius;
    Sweep(if modifiedDistance < s.distance then modifiedDistance else s.distance,
          Clip(s.velocity, ClipNormal(c, yMovement, t)),
          groundNormal,
          Mark(s.state, k))
  }

  /** One contact shortens the distance to its corrected distance if that is
      smaller, records its kind, replaces the ground normal only when it is
      ground met on the vertical pass, and clips the velocity. */
  lemma ContactStepFacts(s: Sweep, c: Contact, yMovement: bool, t: Thresholds)
    ensures var r := ContactStep(s, c, yMovement, t);
            r.distance <= s.distance && r.distance <= c.distance - ShellRadius
            && (r.distance == s.distance || r.distance == c.distance - ShellRadius)
            && r.state == Mark(s.state, Classify(c.normal, t))
            && r.groundNormal == (if yMovement && Classify(c.normal, t) == Ground then c.normal else s.groundNormal)
            && (Dot(s.velocity, c.normal) >= 0.0 && !(yMovement && Classify(c.normal, t) == Ground)
                ==> r.velocity == s.velocity)
            && (yMovement && Classify(c.normal, t) == Ground ==> r.velocity.x == s.velocity.x)
  {
    ClipFacts(s.velocity, ClipNormal(c, yMovement, t));
  }

  /** The contact loop: `ContactStep` applied to every contact, in cast order. */
  function Contacts(s: Sweep, hits: seq<Contact>, yMovement: bool, t: Thresholds): Sweep
    decreases |hits|
  {
    if hits == [] then s
    else ContactStep(Contacts(s, hits[..|hits| - 1], yMovement, t), hits[|hits| - 1], yMovement, t)
  }

  /** The loop leaves the minimum of the starting distance and every corrected
      contact distance `hit.distance - ShellRadius`; nothing clamps it at zero. */
  lemma {:induction false} ContactsDistance(s: Sweep, hits: seq<Contact>, yMovement: bool, t: Thresholds)
    ensures Contacts(s, hits, yMovement, t).distance <= s.distance
    ensures forall i :: 0 <= i < |hits| ==>
              Contacts(s, hits, yMovement, t).distance <= hits[i].distance - ShellRadius
    ensures Contacts(s, hits, yMovement, t).distance == s.distance ||
            exists i :: 0 <= i < |hits| && Contacts(s, hits, yMovement, t).distance == hits[i].distance - ShellRadius
    decreases |hits|
  {
    if hits != [] {
      var n := |hits| - 1;
      var front := hits[..n];
      ContactsDistance(s, front, yMovement, t);
      ContactStepFacts(Contacts(s, front, yMovement, t), hits[n], yMovement, t);
      assert forall i :: 0 <= i < n ==> front[i] == hits[i];
      var d := Contacts(s, front, yMovement, t).distance;
      if d != s.distance && Contacts(s, hits, yMovement, t).distance == d {
        var i :| 0 <= i < n && d == front[i].distance - ShellRadius;
        assert hits[i] == front[i];
      }
    }
  }

  /** Some contact of `hits` is of kind `k`. */
  predicate Meets(hits: seq<Contact>, k: Kind, t: Thresholds) {
    exists i :: 0 <= i < |hits| && Classify(hits[i].normal, t) == k
  }

  lemma MeetsPrefix(hits: seq<Contact>, k: Kind, t: Thresholds)
    requires hits != []
    ensures Meets(hits, k, t) <==> Meets(hits[..|hits| - 1], k, t) || Classify(hits[|hits| - 1].normal, t) == k
  {
    var front := hits[..|hits| - 1];
    if Meets(hits, k, t) {
      var i :| 0 <= i < |hits| && Classify(hits[i].normal, t) == k;
      if i < |hits| - 1 {
        assert front[i] == hits[i];
      }
    }
    if Meets(front, k, t) {
      var i :| 0 <= i < |front| && Classify(front[i].normal, t) == k;
      assert hits[i] == front[i];
    }
  }

  /** The loop sets a flag exactly when some contact is of that flag's kind,
      never clears one, and never touches pushTop or pushBottom. */
  lemma {:induction false} ContactsFlags(s: Sweep, hits: seq<Contact>, yMovement: bool, t: Thresholds)
    ensures Contacts(s, hits, yMovement, t).state.grounded <==> s.state.grounded || Meets(hits, Ground, t)
    ensures Contacts(s, hits, yMovement, t).state.pushLeft <==> s.state.pushLeft || Meets(hits, LeftWall, t)
    ensures Contacts(s, hits, yMovement, t).state.pushRight <==> s.state.pushRight || Meets(hits, RightWall, t)
    ensures Contacts(s, hits, yMovement, t).state.pushTop == s.state.pushTop
    ensures Contacts(s, hits, yMovement, t).state.pushBottom == s.state.pushBottom
    decreases |hits|
  {
    if hits != [] {
      ContactsFlags(s, hits[..|hits| - 1], yMovement, t);
      ContactStepFacts(Contacts(s, hits[..|hits| - 1], yMovement, t), hits[|hits| - 1], yMovement, t);
      MeetsPrefix(hits, Ground, t);
      MeetsPrefix(hits, LeftWall, t);
      MeetsPrefix(hits, RightWall, t);
    }
  }

  /** The ground normal changes only on the vertical pass, and then becomes the
      original normal of the last ground contact of the cast. */
  lemma {:induction false} ContactsGroundNormal(s: Sweep, hits: seq<Contact>, yMovement: bool, t: Thresholds)
    ensures !yMovement || !Meets(hits, Ground, t) ==> Contacts(s, hits, yMovement, t).groundNormal == s.groundNormal
    ensures yMovement && Meets(hits, Ground, t) ==>
              exists k :: 0 <= k < |hits| && Classify(hits[k].normal, t) == Ground
                && Contacts(s, hits, yMovement, t).groundNormal == hits[k].normal
                && forall j :: k < j < |hits| ==> Classify(hits[j].normal, t) != Ground
    decreases |hits|
  {
    if hits != [] {
      var n := |hits| - 1;
      var front := hits[..n];
      ContactsGroundNormal(s, front, yMovement, t);
      ContactStepFacts(Contacts(s, front, yMovement, t), hits[n], yMovement, t);
      MeetsPrefix(hits, Ground, t);
      if yMovement && Meets(hits, Ground, t) && Classify(hits[n].normal, t) != Ground {
        var k :| 0 <= k < |front| && Classify(front[k].normal, t) == Ground
                && Contacts(s, front, yMovement, t).groundNormal == front[k].normal
                && forall j :: k < j < |front| ==> Classify(front[j].normal, t) != Ground;
        assert hits[k] == front[k];
        assert forall j :: k < j < n ==> hits[j] == front[j];
      }
    }
  }

  /** A vertical pass in which every contact is ground keeps the horizontal velocity. */
  lemma {:induction false} ContactsVerticalGroundKeepsX(s: Sweep, hits: seq<Contact>, t: Thresholds)
    requires forall i :: 0 <= i < |hits| ==> Classify(hits[i].normal, t) == Ground
    ensures Contacts(s, hits, true, t).velocity.x == s.velocity.x
    decreases |hits|
  {
    if hits != [] {
      var n := |hits| - 1;
      assert forall i :: 0 <= i < n ==> hits[..n][i] == hits[i];
      ContactsVerticalGroundKeepsX(s, hits[..n], t);
      ContactStepFacts(Contacts(s, hits[..n], true, t), hits[n], true, t);
    }
  }
}
