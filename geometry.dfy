/** Points of the tile map's node space and cells of the tile table.
    Coordinates are exact reals; the source's floats are not modelled. */
module Geometry {

  datatype Vec2 = Vec2(x: real, y: real)

  /** A tile subscript: column and row of the tile table. */
  datatype Cell = Cell(col: int, row: int)

  function Add(a: Vec2, b: Vec2): Vec2 { Vec2(a.x + b.x, a.y + b.y) }

  function Sub(a: Vec2, b: Vec2): Vec2 { Vec2(a.x - b.x, a.y - b.y) }

  /** Squared Euclidean distance; the model compares squares instead of
      taking the square root. */
  function SquaredDistance(a: Vec2, b: Vec2): (d: real)
    ensures d >= 0.0
  {
    var dx := a.x - b.x;
    var dy := a.y - b.y;
    dx * dx + dy * dy
  }

  /** d is the Euclidean distance between a and b. */
  ghost predicate IsDistance(d: real, a: Vec2, b: Vec2) {
    d >= 0.0 && d * d == SquaredDistance(a, b)
  }

  /** For a non-negative distance d and any radius, comparing d with the
      radius is the same as comparing the squares (the radius must not be
      negative, since no distance is). */
  lemma WithinRadiusBySquares(d: real, a: Vec2, b: Vec2, radius: real)
    requires IsDistance(d, a, b)
    ensures d <= radius <==> (radius >= 0.0 && SquaredDistance(a, b) <= radius * radius)
  {
    var dd := d * d;
    var dr := d * radius;
    var rr := radius * radius;
    if d <= radius {
      assert dd <= dr;
      assert dr <= rr;
    } else if radius >= 0.0 {
      assert rr <= dr;
      assert dr < dd;
    }
  }

  /** Adding the same offset is injective. */
  lemma AddCancel(a: Vec2, b: Vec2, delta: Vec2)
    requires Add(a, delta) == Add(b, delta)
    ensures a == b
  {
  }
}
