/**
 * Planar values shared by the tile store, the label buffer and the canvas:
 * axis-aligned boxes as the R-tree stores them, points, and Go's
 * truncating float-to-int conversion.
 */
module Geometry {

  /** A closed axis-aligned rectangle `[minX, maxX] × [minY, maxY]`. */
  datatype Box = Box(minX: real, minY: real, maxX: real, maxY: real)

  /** The R-tree's overlap test: closed rectangles touching at an edge or corner overlap. */
  predicate Intersects(a: Box, b: Box) {
    a.minX <= b.maxX && b.minX <= a.maxX && a.minY <= b.maxY && b.minY <= a.maxY
  }

  lemma IntersectsSymmetric(a: Box, b: Box)
    ensures Intersects(a, b) <==> Intersects(b, a)
  {
  }

  /** Go's `int(r)` on a float: rounds toward zero. */
  function Trunc(r: real): (i: int)
    ensures r >= 0.0 ==> i as real <= r < i as real + 1.0
    ensures r < 0.0 ==> i as real - 1.0 < r <= i as real
  {
    if r >= 0.0 then r.Floor else -((-r).Floor)
  }

  /** An integer pixel position. */
  datatype Pixel = Pixel(x: int, y: int)

  /** A point with real coordinates, as `orb.Point` holds them. */
  datatype Point = Point(x: real, y: real)

  function ToPixel(p: Point): Pixel {
    Pixel(Trunc(p.x), Trunc(p.y))
  }
}
