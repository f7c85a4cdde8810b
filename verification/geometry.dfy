/**
 * The shared vocabulary of the density model: planar points, axis-aligned boxes,
 * grid samples carrying a density, and the abstract geometry operations the
 * scripts borrow from the geometry library.
 */
module Geometry {

  /** A coordinate pair, in whatever frame the caller works in. */
  datatype Point = Point(x: real, y: real)

  /** An axis-aligned bounding rectangle (minx, miny, maxx, maxy). */
  datatype Box = Box(minX: real, minY: real, maxX: real, maxY: real)
  {
    /** A box whose lower corner is not above its upper corner. */
    predicate Valid() {
      minX <= maxX && minY <= maxY
    }

    /** This box contains the whole of `inner`. */
    predicate Encloses(inner: Box) {
      minX <= inner.minX && minY <= inner.minY && inner.maxX <= maxX && inner.maxY <= maxY
    }
  }

  /** A grid point together with the road length (kilometres) found around it. */
  datatype Sample = Sample(at: Point, density: real)

  /** Lengths are never negative. */
  type NonNegReal = r: real | 0.0 <= r

  /**
   * The geometry library, seen from the scripts: a feature's length in the
   * projected unit, whether the feature meets the buffer of a given radius around
   * a point, and the feature's own bounding box. The buffer is a polygonal
   * approximation of a disk, so nothing is assumed about `intersects` beyond its
   * being a function of its arguments.
   */
  datatype Geo<!G> = Geo(length: G -> NonNegReal, intersects: (G, Point, real) -> bool, bounds: G -> Box)
}
