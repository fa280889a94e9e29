/**
 * The NAIP index: one row per RGB GeoTIFF in the public NAIP bucket, with
 * its WGS84 extent and its year, loaded from a parquet file that this model
 * takes as a given sequence of rows.  Coordinates are exact reals; floating
 * point rounding is not modelled.
 */
module NaipIndex {
  /** An axis-aligned box `(min_x, min_y, max_x, max_y)`, as shapely's `bounds` gives it. */
  datatype Bounds = Bounds(minX: real, minY: real, maxX: real, maxY: real)

  /** A row of the index, as `AWSGeotiff` holds it. */
  datatype Geotiff = Geotiff(s3Path: string, minX: real, minY: real, maxX: real, maxY: real, year: int)

  /** `get_extent`: the row's box. */
  function Extent(g: Geotiff): Bounds {
    Bounds(g.minX, g.minY, g.maxX, g.maxY)
  }

  /**
   * The broad-phase test: the row's box lies wholly to one side of `b`.  The comparisons
   * are strict, so boxes that only share an edge or a corner are not disjoint.
   */
  predicate Disjoint(g: Geotiff, b: Bounds) {
    g.maxX < b.minX || g.minX > b.maxX || g.maxY < b.minY || g.minY > b.maxY
  }
}
