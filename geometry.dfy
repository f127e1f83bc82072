/**
 * The small value types the modelled code passes around: 2D and 3D vectors,
 * 2D axis-aligned boxes and RGBA colours. Coordinates are `real`; the
 * rounding of the C++ `float` fields is not modelled.
 */
module Geometry {

  datatype Vector2 = Vector2(x: real, y: real)
  {
    function Plus(v: Vector2): Vector2
    {
      Vector2(x + v.x, y + v.y)
    }

    function Minus(v: Vector2): Vector2
    {
      Vector2(x - v.x, y - v.y)
    }

    function Scale(k: real): Vector2
    {
      Vector2(k * x, k * y)
    }
  }

  /** An axis-aligned box given by its two corners. */
  datatype AABB2 = AABB2(min: Vector2, max: Vector2)

  /** A box whose corners are in order on both axes. */
  predicate WellFormed(b: AABB2)
  {
    b.min.x <= b.max.x && b.min.y <= b.max.y
  }

  /** Two boxes whose interiors intersect; boxes that only touch do not overlap. */
  predicate Overlap(a: AABB2, b: AABB2)
  {
    a.min.x < b.max.x && b.min.x < a.max.x && a.min.y < b.max.y && b.min.y < a.max.y
  }

  /** `inner` lies within `outer`. */
  predicate Inside(inner: AABB2, outer: AABB2)
  {
    outer.min.x <= inner.min.x && inner.max.x <= outer.max.x &&
    outer.min.y <= inner.min.y && inner.max.y <= outer.max.y
  }

  datatype Vector3 = Vector3(x: real, y: real, z: real)

  datatype Color = Color(r: real, g: real, b: real, a: real)
}
