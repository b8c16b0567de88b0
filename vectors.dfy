// Two-dimensional vectors over the reals: the value type the engine uses for
// positions, velocities and surface normals.
module Vectors {

  datatype Vector2 = Vector2(x: real, y: real)

  const Zero := Vector2(0.0, 0.0)
  const Up := Vector2(0.0, 1.0)

  function Add(a: Vector2, b: Vector2): Vector2 {
    Vector2(a.x + b.x, a.y + b.y)
  }

  function Sub(a: Vector2, b: Vector2): Vector2 {
    Vector2(a.x - b.x, a.y - b.y)
  }

  function Scale(k: real, v: Vector2): Vector2 {
    Vector2(k * v.x, k * v.y)
  }

  function Dot(a: Vector2, b: Vector2): real {
    a.x * b.x + a.y * b.y
  }

  function Abs(r: real): (a: real)
    ensures a >= 0.0 && a * a == r * r
  {
    if r < 0.0 then -r else r
  }

  /** `m` is the Euclidean length of `v`: the value the engine's square root returns. */
  predicate IsMagnitude(v: Vector2, m: real) {
    m >= 0.0 && m * m == Dot(v, v)
  }

  /** The unit vector along `v`, given its length `m`; the zero vector has no direction. */
  function Normalized(v: Vector2, m: real): Vector2 {
    if m == 0.0 then Zero else Scale(1.0 / m, v)
  }

  /** Rescaling the unit direction by a non-zero length gives the vector back. */
  lemma RescaleNormalized(v: Vector2, m: real)
    requires IsMagnitude(v, m) && m > 0.0
    ensures Scale(m, Normalized(v, m)) == v
  {
    assert m * (1.0 / m) == 1.0;
  }

  /** A step of signed length `d` along the direction of `v` projects to `d` on that
      direction and has squared length `d * d`. */
  lemma StepAlongDirection(v: Vector2, m: real, d: real)
    requires IsMagnitude(v, m) && m > 0.0
    ensures Scale(d, Normalized(v, m)) == Scale(d / m, v)
    ensures Dot(Normalized(v, m), Normalized(v, m)) == 1.0
    ensures Dot(Scale(d, Normalized(v, m)), Normalized(v, m)) == d
    ensures Dot(Scale(d, Normalized(v, m)), Scale(d, Normalized(v, m))) == d * d
  {
    var u := Normalized(v, m);
    var k := 1.0 / m;
    assert u == Vector2(k * v.x, k * v.y);
    calc {
      Dot(u, u);
      k * k * (v.x * v.x + v.y * v.y);
      k * k * (m * m);
      (k * m) * (k * m);
      1.0;
    }
    assert Scale(d, u) == Vector2(d * k * v.x, d * k * v.y);
    assert d * k == d / m;
    calc {
      Dot(Scale(d, u), u);
      d * Dot(u, u);
    }
    calc {
      Dot(Scale(d, u), Scale(d, u));
      d * d * Dot(u, u);
    }
  }
}
