/**
 * The DuckDB spatial and text functions the queries call. Their definitions
 * belong to the database engine, so the model receives them as a record of
 * functions and states every query in terms of whatever they return.
 */
module SpatialEngine {
  import opened Geometry

  datatype Engine = Engine(
    /** `ST_Distance_Sphere(a, b)`, metres. */
    sphere: (Point2D, Point2D) -> real,
    /** `ST_Distance_Spheroid(a, b)`, metres. */
    spheroid: (Point2D, Point2D) -> real,
    /** `ST_Distance_Sphere(point, geometry)` against a stored power line, metres. */
    sphereToLine: (Point2D, Line) -> real,
    /** `ST_Distance(line, point)`, planar, in degrees. */
    planar: (Line, Point2D) -> real,
    /** `ST_EndPoint(ST_ShortestLine(point, line))`: the line-side end of the shortest connector. */
    shortestLineEnd: (Point2D, Line) -> Point2D,
    /** Jaro-Winkler similarity of two strings, before any cutoff. */
    similarity: (string, string) -> real)

  /**
   * `jaro_winkler_similarity(a, b, cutoff)`: the similarity, or 0 when it falls
   * below the cutoff.
   */
  function JaroWinkler(e: Engine, a: string, b: string, cutoff: real): (r: real)
    ensures e.similarity(a, b) >= cutoff ==> r == e.similarity(a, b)
    ensures e.similarity(a, b) < cutoff ==> r == 0.0
  {
    if e.similarity(a, b) < cutoff then 0.0 else e.similarity(a, b)
  }

  /** A positive thresholded score is a similarity at or above the cutoff. */
  lemma {:induction false} PositiveScoreMeetsCutoff(e: Engine, a: string, b: string, cutoff: real)
    requires JaroWinkler(e, a, b, cutoff) > 0.0
    ensures e.similarity(a, b) >= cutoff
  {
  }

  /** `ST_DWithin(point, line, d)`: planar distance at most `d`. */
  predicate DWithin(e: Engine, p: Point2D, l: Line, d: real) {
    e.planar(l, p) <= d
  }
}
