/**
 * Exact stand-ins for the egui value types the core computes with:
 * a 2D vector, a 2D position and an axis-aligned rectangle, over `real`.
 */
module Geometry {

  /** A displacement in the plane (egui `Vec2`). */
  datatype Vec2 = Vec2(x: real, y: real)

  /** A point in the plane (egui `Pos2`). */
  datatype Pos2 = Pos2(x: real, y: real)

  /** An axis-aligned rectangle given by two corners (egui `Rect`). */
  datatype Rect = Rect(min: Pos2, max: Pos2)

  const Zero: Vec2 := Vec2(0.0, 0.0)

  function Add(a: Vec2, b: Vec2): Vec2 { Vec2(a.x + b.x, a.y + b.y) }

  function Neg(a: Vec2): Vec2 { Vec2(-a.x, -a.y) }

  function Translate(p: Pos2, v: Vec2): Pos2 { Pos2(p.x + v.x, p.y + v.y) }

  /** `rect.center()`: the midpoint of the two corners. */
  function Center(r: Rect): Pos2 {
    Pos2((r.min.x + r.max.x) / 2.0, (r.min.y + r.max.y) / 2.0)
  }

  /** The rectangle's corners are ordered on both axes. */
  predicate Ordered(r: Rect) {
    r.min.x <= r.max.x && r.min.y <= r.max.y
  }

  /** `rect.width()`. */
  function Width(r: Rect): real { r.max.x - r.min.x }

  /** `rect.height()`. */
  function Height(r: Rect): real { r.max.y - r.min.y }

  function Max(a: real, b: real): real { if a >= b then a else b }

  function Min(a: real, b: real): real { if a <= b then a else b }

  /** `f32::floor`, as an integer. */
  function Floor(a: real): int { a.Floor }

  /** `f32::ceil`, as an integer. */
  function Ceil(a: real): (c: int)
    ensures c as real >= a && (c - 1) as real < a
  {
    -((-a).Floor)
  }
}
