/**
 * Coordinates, envelopes and GeoJSON shapes. DuckDB points are `POINT_2D`
 * values with an `x` and a `y`; which of them holds the longitude is decided at
 * each call site, and this module keeps that choice visible. GeoJSON
 * coordinates are two-element arrays `[a, b]`, modelled as pairs.
 */
module Geometry {

  datatype Point2D = Point2D(x: real, y: real)

  /** `ST_FlipCoordinates`: exchange x and y. */
  function Flip(p: Point2D): Point2D {
    Point2D(p.y, p.x)
  }

  /** The app's `Position` record: a longitude and a latitude. */
  datatype Position = Position(longitude: real, latitude: real)

  /** A two-number coordinate array `[first, second]`. */
  type Pair = (real, real)

  function Swap(c: Pair): Pair {
    (c.1, c.0)
  }

  /** Exchange the two components of every pair: `[lat, lng]` to `[lng, lat]` and back. */
  function SwapAll(cs: seq<Pair>): (r: seq<Pair>)
    ensures |r| == |cs|
    ensures forall i :: 0 <= i < |cs| ==> r[i].0 == cs[i].1 && r[i].1 == cs[i].0
  {
    seq(|cs|, i requires 0 <= i < |cs| => Swap(cs[i]))
  }

  /** Swapping twice gives back the original coordinates. */
  lemma {:induction false} SwapAllInvolution(cs: seq<Pair>)
    ensures SwapAll(SwapAll(cs)) == cs
  {
  }

  /** A stored line geometry; its vertices carry x = longitude, y = latitude. */
  type Line = seq<Point2D>

  /** The pair `[x, y]` that `ST_AsGeoJson` writes for a vertex. */
  function AsPair(p: Point2D): Pair {
    (p.x, p.y)
  }

  function AsPairs(l: Line): (r: seq<Pair>)
    ensures |r| == |l|
    ensures forall i :: 0 <= i < |l| ==> r[i] == (l[i].x, l[i].y)
  {
    seq(|l|, i requires 0 <= i < |l| => AsPair(l[i]))
  }

  /** `ST_MakeEnvelope(min_x, min_y, max_x, max_y)`. */
  datatype Envelope = Envelope(minX: real, minY: real, maxX: real, maxY: real)

  /** The envelope every bounds query builds: `(sw.lon, sw.lat, ne.lon, ne.lat)`. */
  function EnvelopeOf(sw: Position, ne: Position): (e: Envelope)
    ensures e.minX == sw.longitude && e.minY == sw.latitude
    ensures e.maxX == ne.longitude && e.maxY == ne.latitude
  {
    Envelope(sw.longitude, sw.latitude, ne.longitude, ne.latitude)
  }

  function Lo(a: real, b: real): real {
    if a <= b then a else b
  }

  function Hi(a: real, b: real): real {
    if a <= b then b else a
  }

  /** The envelope polygon spans between its two corners, whichever is larger. */
  predicate InClosedBox(p: Point2D, e: Envelope) {
    Lo(e.minX, e.maxX) <= p.x <= Hi(e.minX, e.maxX) && Lo(e.minY, e.maxY) <= p.y <= Hi(e.minY, e.maxY)
  }

  /** `ST_Within(point, envelope)`: the interior only, so the boundary is excluded. */
  predicate StrictlyWithin(p: Point2D, e: Envelope) {
    Lo(e.minX, e.maxX) < p.x < Hi(e.minX, e.maxX) && Lo(e.minY, e.maxY) < p.y < Hi(e.minY, e.maxY)
  }

  /** Twice the signed area of the triangle a, b, c: which side of line ab the point c lies on. */
  function Side(a: Point2D, b: Point2D, c: Point2D): real {
    (b.x - a.x) * (c.y - a.y) - (b.y - a.y) * (c.x - a.x)
  }

  /**
   * Segment ab meets the closed envelope: their extents overlap on both axes and
   * the four corners do not all lie strictly on one side of the segment's line
   * (the separating-axis test for two convex shapes).
   */
  predicate SegmentIntersects(a: Point2D, b: Point2D, e: Envelope) {
    var x0, x1 := Lo(e.minX, e.maxX), Hi(e.minX, e.maxX);
    var y0, y1 := Lo(e.minY, e.maxY), Hi(e.minY, e.maxY);
    var s00, s01 := Side(a, b, Point2D(x0, y0)), Side(a, b, Point2D(x0, y1));
    var s10, s11 := Side(a, b, Point2D(x1, y0)), Side(a, b, Point2D(x1, y1));
    && Lo(a.x, b.x) <= x1 && x0 <= Hi(a.x, b.x)
    && Lo(a.y, b.y) <= y1 && y0 <= Hi(a.y, b.y)
    && !(s00 > 0.0 && s01 > 0.0 && s10 > 0.0 && s11 > 0.0)
    && !(s00 < 0.0 && s01 < 0.0 && s10 < 0.0 && s11 < 0.0)
  }

  /** `ST_Intersects(line, envelope)`: some segment of the line meets the envelope. */
  predicate Intersects(l: Line, e: Envelope)
    decreases |l|
  {
    if |l| == 0 then false
    else if |l| == 1 then InClosedBox(l[0], e)
    else SegmentIntersects(l[0], l[1], e) || Intersects(l[1..], e)
  }

  lemma {:induction false} MulSigns(a: real, b: real)
    ensures a >= 0.0 && b >= 0.0 ==> a * b >= 0.0
    ensures a >= 0.0 && b <= 0.0 ==> a * b <= 0.0
    ensures a <= 0.0 && b >= 0.0 ==> a * b <= 0.0
    ensures a <= 0.0 && b <= 0.0 ==> a * b >= 0.0
  {
  }

  /** Moving the third point from p to c changes the side value linearly. */
  lemma {:induction false} SideShift(a: Point2D, b: Point2D, c: Point2D, p: Point2D)
    ensures Side(a, b, c) - Side(a, b, p) == (b.x - a.x) * (c.y - p.y) - (b.y - a.y) * (c.x - p.x)
  {
  }

  /** The corner chosen against the signs of the segment's direction is on the non-positive side. */
  lemma {:induction false} CornerNotAbove(a: Point2D, b: Point2D, p: Point2D, x0: real, x1: real, y0: real, y1: real)
    requires x0 <= p.x <= x1 && y0 <= p.y <= y1 && Side(a, b, p) == 0.0
    ensures Side(a, b, Point2D(x0, y0)) <= 0.0 || Side(a, b, Point2D(x0, y1)) <= 0.0
         || Side(a, b, Point2D(x1, y0)) <= 0.0 || Side(a, b, Point2D(x1, y1)) <= 0.0
  {
    var dx, dy := b.x - a.x, b.y - a.y;
    var cy := if dx >= 0.0 then y0 else y1;
    var cx := if dy >= 0.0 then x1 else x0;
    SideShift(a, b, Point2D(cx, cy), p);
    MulSigns(dx, cy - p.y);
    MulSigns(dy, cx - p.x);
  }

  /** Symmetrically, some corner is on the non-negative side. */
  lemma {:induction false} CornerNotBelow(a: Point2D, b: Point2D, p: Point2D, x0: real, x1: real, y0: real, y1: real)
    requires x0 <= p.x <= x1 && y0 <= p.y <= y1 && Side(a, b, p) == 0.0
    ensures Side(a, b, Point2D(x0, y0)) >= 0.0 || Side(a, b, Point2D(x0, y1)) >= 0.0
         || Side(a, b, Point2D(x1, y0)) >= 0.0 || Side(a, b, Point2D(x1, y1)) >= 0.0
  {
    var dx, dy := b.x - a.x, b.y - a.y;
    var cy := if dx >= 0.0 then y1 else y0;
    var cx := if dy >= 0.0 then x0 else x1;
    SideShift(a, b, Point2D(cx, cy), p);
    MulSigns(dx, cy - p.y);
    MulSigns(dy, cx - p.x);
  }

  /** A segment with an end point in the closed envelope meets it. */
  lemma {:induction false} EndInsideSegmentIntersects(a: Point2D, b: Point2D, e: Envelope)
    requires InClosedBox(a, e) || InClosedBox(b, e)
    ensures SegmentIntersects(a, b, e)
  {
    var x0, x1 := Lo(e.minX, e.maxX), Hi(e.minX, e.maxX);
    var y0, y1 := Lo(e.minY, e.maxY), Hi(e.minY, e.maxY);
    var p := if InClosedBox(a, e) then a else b;
    assert Side(a, b, p) == 0.0;
    CornerNotAbove(a, b, p, x0, x1, y0, y1);
    CornerNotBelow(a, b, p, x0, x1, y0, y1);
  }

  /** A line with one vertex in the envelope is returned, however much of it lies outside. */
  lemma {:induction false} VertexInsideIntersects(l: Line, e: Envelope, i: nat)
    requires i < |l| && InClosedBox(l[i], e)
    ensures Intersects(l, e)
    decreases |l|
  {
    if |l| > 1 {
      if i == 0 {
        EndInsideSegmentIntersects(l[0], l[1], e);
      } else if i == 1 {
        EndInsideSegmentIntersects(l[0], l[1], e);
      } else {
        VertexInsideIntersects(l[1..], e, i - 1);
      }
    }
  }

  /** A line lying wholly west of the envelope is never returned. */
  lemma {:induction false} WestOfEnvelopeDisjoint(l: Line, e: Envelope)
    requires forall i :: 0 <= i < |l| ==> l[i].x < Lo(e.minX, e.maxX)
    ensures !Intersects(l, e)
    decreases |l|
  {
    if |l| > 1 {
      WestOfEnvelopeDisjoint(l[1..], e);
    }
  }

  // GeoJSON (RFC 7946).

  /** A GeoJSON geometry; `type` is `"Point"` or `"LineString"`. */
  datatype GeoGeometry = GeoPoint(coordinates: Pair) | GeoLineString(path: seq<Pair>) {
    function TypeName(): string {
      if GeoPoint? then "Point" else "LineString"
    }
  }

  /** A GeoJSON `Feature` with `type` `"Feature"`. */
  datatype Feature<P> = Feature(geometry: GeoGeometry, properties: P)

  /** A GeoJSON `FeatureCollection`. */
  datatype FeatureCollection<P> = FeatureCollection(features: seq<Feature<P>>)
}
