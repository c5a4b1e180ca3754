/** Plane and space vectors over `real`, standing for Unity's `Vector2` and
    `Vector3`. Square roots and angles are not computed here: where the game takes
    a `magnitude` or an angle, the model receives it as a function parameter. */
module Geometry {

  datatype Vec2 = Vec2(x: real, y: real)

  datatype Vec3 = Vec3(x: real, y: real, z: real)

  function Sub(a: Vec2, b: Vec2): Vec2
  {
    Vec2(a.x - b.x, a.y - b.y)
  }

  function Add(a: Vec2, b: Vec2): Vec2
  {
    Vec2(a.x + b.x, a.y + b.y)
  }

  function Scale(a: Vec2, k: real): Vec2
  {
    Vec2(a.x * k, a.y * k)
  }

  /** The z component of the cross product of (b - a) and (c - a), lifted to space. */
  function CrossZ(a: Vec2, b: Vec2, c: Vec2): real
  {
    (b.x - a.x) * (c.y - a.y) - (b.y - a.y) * (c.x - a.x)
  }

  /** Exchanging the last two corners flips the sign of the cross product. */
  lemma CrossZSwap(a: Vec2, b: Vec2, c: Vec2)
    ensures CrossZ(a, c, b) == -CrossZ(a, b, c)
  {
  }

  /** A length function such as `Vector2.magnitude`: never negative. */
  ghost predicate IsNorm(norm: Vec2 -> real)
  {
    forall v :: norm(v) >= 0.0
  }
}
