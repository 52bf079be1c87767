/** Points of the plane */
module Plane {

  datatype Point = Point(x: real, y: real)

  function Minus(a: Point, b: Point): Point {
    Point(a.x - b.x, a.y - b.y)
  }
}
