/** Points of the logical 1000 x 1000 plane the path is drawn in. */
module Geometry {

  /** A point in logical coordinates, exact reals in place of floats. */
  datatype Point = Point(x: real, y: real)
}
