/**
 * The app's statements over the line tables: power lines within a sphere
 * radius of the user (read back from WKT), service and outage lines within a
 * planar distance of a point, and the lines meeting the map's bounds. Every
 * line is stored with x = longitude, y = latitude.
 */
module LineQueries {
  import opened Wrappers
  import opened Query
  import opened Geometry
  import opened SpatialEngine
  import opened DuckDbQuery
  import Wkt

  // Power lines.

  /** A row of `power_lines`. */
  datatype PowerLineRow = PowerLineRow(id: int, geometry: Line)

  /** A selected power line with its `distance` column. */
  datatype PowerLineHit = PowerLineHit(row: PowerLineRow, distance: real)

  /** The `ServiceLine` the power-line statement returns: the id and `[lat, lng]` pairs. */
  datatype ServiceLine = ServiceLine(id: int, geometry: seq<Pair>)

  function HitDistance(h: PowerLineHit): real {
    h.distance
  }

  /** The reference point `ST_Point2D(?, ?)` gets from the first two bound values. */
  function PowerLineReference(pos: Position): Point2D {
    Point2D(pos.latitude, pos.longitude)
  }

  function PowerLineArgs(pos: Position, radius: real): map<string, SqlValue> {
    map["longitude" := SqlNumber(pos.longitude), "latitude" := SqlNumber(pos.latitude),
        "radiusMeters" := SqlNumber(radius)]
  }

  const PowerLineOrder: seq<string> := ["latitude", "longitude", "latitude", "longitude", "radiusMeters"]

  /**
   * The five placeholders receive latitude, longitude, latitude, longitude,
   * radius: both `ST_Point2D` calls are built from `(lat, lon)`, while the
   * stored lines are `(lon, lat)`.
   */
  lemma {:induction false} NearbyPowerLinesBinding(sql: string, pos: Position, radius: real)
    ensures var v := Execute(Build(sql, PowerLineOrder, true), PowerLineArgs(pos, radius)).values;
            |v| == 5 && v[0] == v[2] == SqlNumber(pos.latitude) && v[1] == v[3] == SqlNumber(pos.longitude)
            && v[4] == SqlNumber(radius)
            && Point2D(v[0].n, v[1].n) == PowerLineReference(pos) == Flip(Point2D(pos.longitude, pos.latitude))
  {
  }

  /** Every power line with its sphere distance from `p`. */
  function PowerLineHits(e: Engine, table: seq<PowerLineRow>, p: Point2D): (r: seq<PowerLineHit>)
    ensures |r| == |table|
    ensures forall h :: h in r <==> h.row in table && h.distance == e.sphereToLine(p, h.row.geometry)
  {
    var r := Map(table, (row: PowerLineRow) => PowerLineHit(row, e.sphereToLine(p, row.geometry)));
    forall h | h in r ensures h.row in table {
      var i :| 0 <= i < |r| && r[i] == h;
      assert table[i] in table;
    }
    forall h: PowerLineHit | h.row in table && h.distance == e.sphereToLine(p, h.row.geometry) ensures h in r {
      var i :| 0 <= i < |table| && table[i] == h.row;
      assert r[i] == h;
    }
    r
  }

  predicate WithinRadius(h: PowerLineHit, radius: real) {
    h.distance < radius
  }

  /**
   * The rows of `nearbyPowerLinesQueryFunction`: exactly the power lines
   * whose sphere distance from `(lat, lon)` is below the radius, nearest
   * first, with no limit.
   */
  function NearbyPowerLineRows(e: Engine, table: seq<PowerLineRow>, pos: Position, radius: real): (r: seq<PowerLineHit>)
    ensures |r| <= |table|
    ensures SortedBy(r, HitDistance)
    ensures forall h :: h in r <==>
              && h.row in table
              && h.distance == e.sphereToLine(PowerLineReference(pos), h.row.geometry)
              && h.distance < radius
  {
    var hits := PowerLineHits(e, table, PowerLineReference(pos));
    var near := Filter(hits, (h: PowerLineHit) => WithinRadius(h, radius));
    var r := SortAsc(near, HitDistance);
    assert forall h :: h in r <==> h in multiset(r);
    assert forall h :: h in near <==> h in multiset(near);
    r
  }

  /** The `[lat, lng]` pairs read back from one row's `ST_AsText`. */
  function ReadBack(h: PowerLineHit, asText: Line -> string, read: string -> real): Option<seq<Pair>> {
    Wkt.ParseLineString(asText(h.row.geometry), read)
  }

  /** `lines` are the rows of `hits` read back by `rb`, one for one. */
  predicate ReadsAs(hits: seq<PowerLineHit>, rb: PowerLineHit -> Option<seq<Pair>>, lines: seq<ServiceLine>) {
    && |lines| == |hits|
    && forall i :: 0 <= i < |hits| ==>
         && rb(hits[i]).Some?
         && lines[i].id == hits[i].row.id
         && lines[i].geometry == rb(hits[i]).value
  }

  /** Read every row with `rb`, keeping its id; `None` as soon as one row does not read. */
  function ReadRows(hits: seq<PowerLineHit>, rb: PowerLineHit -> Option<seq<Pair>>): (r: Option<seq<ServiceLine>>)
    ensures r.Some? <==> forall i :: 0 <= i < |hits| ==> rb(hits[i]).Some?
    ensures r.Some? ==> ReadsAs(hits, rb, r.value)
  {
    if |hits| == 0 then Some([])
    else
      var tail := ReadRows(hits[1..], rb);
      ReadTail(hits, rb);
      match rb(hits[0])
      case None => None
      case Some(g) =>
        match tail
        case None => None
        case Some(rest) =>
          ReadCons(hits, rb, g, rest);
          Some([ServiceLine(hits[0].row.id, g)] + rest)
  }

  /** Every row reads exactly when the first one and all the others do. */
  lemma {:induction false} ReadTail(hits: seq<PowerLineHit>, rb: PowerLineHit -> Option<seq<Pair>>)
    requires |hits| > 0
    ensures (forall i :: 0 <= i < |hits| ==> rb(hits[i]).Some?) <==>
            rb(hits[0]).Some? && forall i :: 0 <= i < |hits[1..]| ==> rb(hits[1..][i]).Some?
  {
    if rb(hits[0]).Some? && forall i :: 0 <= i < |hits[1..]| ==> rb(hits[1..][i]).Some? {
      forall i | 1 <= i < |hits| ensures rb(hits[i]).Some? {
        assert hits[i] == hits[1..][i - 1];
      }
    }
  }

  /** Reading the first row in front of the others' lines reads all the rows. */
  lemma {:induction false} ReadCons(hits: seq<PowerLineHit>, rb: PowerLineHit -> Option<seq<Pair>>,
                                    g: seq<Pair>, rest: seq<ServiceLine>)
    requires |hits| > 0 && rb(hits[0]) == Some(g)
    requires ReadsAs(hits[1..], rb, rest)
    ensures ReadsAs(hits, rb, [ServiceLine(hits[0].row.id, g)] + rest)
  {
    var lines := [ServiceLine(hits[0].row.id, g)] + rest;
    forall i | 1 <= i < |hits|
      ensures rb(hits[i]).Some? && lines[i].id == hits[i].row.id && lines[i].geometry == rb(hits[i]).value
    {
      assert hits[i] == hits[1..][i - 1];
      assert lines[i] == rest[i - 1];
    }
  }

  /** `transformItem`: read each selected row's `ST_AsText` back into `[lat, lng]` pairs; `None` when a vertex does not parse. */
  function ReadPowerLines(hits: seq<PowerLineHit>, asText: Line -> string, read: string -> real): (r: Option<seq<ServiceLine>>)
    ensures r.Some? <==> forall i :: 0 <= i < |hits| ==> ReadBack(hits[i], asText, read).Some?
    ensures r.Some? ==> |r.value| == |hits|
    ensures r.Some? ==> forall i :: 0 <= i < |hits| ==>
              && r.value[i].id == hits[i].row.id
              && r.value[i].geometry == ReadBack(hits[i], asText, read).value
  {
    ReadRows(hits, h => ReadBack(h, asText, read))
  }

  /** `nearbyPowerLinesQueryFunction`: the nearby rows, read back; `None` when any row's text does not parse. */
  function NearbyPowerLinesQF(e: Engine, asText: Line -> string, read: string -> real,
                              table: seq<PowerLineRow>, pos: Position, radius: real): (r: Option<seq<ServiceLine>>)
    ensures r.Some? ==> |r.value| == |NearbyPowerLineRows(e, table, pos, radius)|
    ensures r.Some? ==> forall i :: 0 <= i < |r.value| ==> HasRowId(table, r.value[i].id)
  {
    var rows := NearbyPowerLineRows(e, table, pos, radius);
    var r := ReadPowerLines(rows, asText, read);
    if r.Some? then
      IdsFromTable(table, rows, r.value);
      r
    else r
  }

  predicate HasRowId(table: seq<PowerLineRow>, id: int) {
    exists row :: row in table && row.id == id
  }

  /** Lines read back from rows of the table carry ids of the table. */
  lemma {:induction false} IdsFromTable(table: seq<PowerLineRow>, rows: seq<PowerLineHit>, lines: seq<ServiceLine>)
    requires forall h :: h in rows ==> h.row in table
    requires |lines| == |rows| && forall i :: 0 <= i < |rows| ==> lines[i].id == rows[i].row.id
    ensures forall i :: 0 <= i < |lines| ==> HasRowId(table, lines[i].id)
  {
    forall i | 0 <= i < |lines| ensures HasRowId(table, lines[i].id) {
      assert rows[i] in rows;
    }
  }

  /**
   * When `ST_AsText` renders a line as `LINESTRING(x y, ...)` with numbers
   * the reader reads back exactly, each returned geometry is the stored line
   * with every vertex swapped to `[lat, lng]`.
   */
  lemma {:induction false} NearbyPowerLinesAreLatLng(e: Engine, asText: Line -> string, show: real -> string, read: string -> real,
                                  table: seq<PowerLineRow>, pos: Position, radius: real)
    requires forall l :: asText(l) == Wkt.BuildLineString(AsPairs(l), show)
    requires forall x :: Wkt.Plain(show(x))
    requires forall x :: read(show(x)) == x
    requires forall row :: row in table ==> |row.geometry| >= 1
    ensures var r := NearbyPowerLinesQF(e, asText, read, table, pos, radius);
            var rows := NearbyPowerLineRows(e, table, pos, radius);
            && r.Some?
            && forall i :: 0 <= i < |rows| ==>
                 && r.value[i].id == rows[i].row.id
                 && r.value[i].geometry == SwapAll(AsPairs(rows[i].row.geometry))
  {
    var rows := NearbyPowerLineRows(e, table, pos, radius);
    forall i | 0 <= i < |rows|
      ensures Wkt.ParseLineString(asText(rows[i].row.geometry), read) == Some(SwapAll(AsPairs(rows[i].row.geometry)))
    {
      assert rows[i] in rows;
      Wkt.ParseBuildSwaps(AsPairs(rows[i].row.geometry), show, read);
    }
  }

  // Service and outage lines.

  /** A selected line with its planar `distance` column. */
  datatype LineHit = LineHit(geometry: Line, distance: real)

  function LineDistance(h: LineHit): real {
    h.distance
  }

  function LineHits(e: Engine, table: seq<Line>, p: Point2D): (r: seq<LineHit>)
    ensures |r| == |table|
    ensures forall h :: h in r <==> h.geometry in table && h.distance == e.planar(h.geometry, p)
  {
    var r := Map(table, (l: Line) => LineHit(l, e.planar(l, p)));
    forall h | h in r ensures h.geometry in table {
      var i :| 0 <= i < |r| && r[i] == h;
      assert table[i] in table;
    }
    forall h: LineHit | h.geometry in table && h.distance == e.planar(h.geometry, p) ensures h in r {
      var i :| 0 <= i < |table| && table[i] == h.geometry;
      assert r[i] == h;
    }
    r
  }

  predicate Below(h: LineHit, threshold: real) {
    h.distance < threshold
  }

  /**
   * `WHERE distance < threshold ORDER BY distance ASC` with
   * `distance = ST_Distance(geometry, p)`: exactly the lines closer than the
   * threshold, nearest first.
   */
  function NearLines(e: Engine, table: seq<Line>, p: Point2D, threshold: real): (r: seq<LineHit>)
    ensures |r| <= |table|
    ensures SortedBy(r, LineDistance)
    ensures forall h :: h in r <==> h.geometry in table && h.distance == e.planar(h.geometry, p) && h.distance < threshold
  {
    var hits := LineHits(e, table, p);
    var near := Filter(hits, (h: LineHit) => Below(h, threshold));
    var r := SortAsc(near, LineDistance);
    assert forall h :: h in r <==> h in multiset(r);
    assert forall h :: h in near <==> h in multiset(near);
    r
  }

  /** `ST_AsGeoJson(geometry)` of a stored line: coordinates in `[x, y]` = `[lng, lat]` order. */
  function LineGeoJson(l: Line): (g: GeoGeometry)
    ensures g.GeoLineString? && |g.path| == |l|
    ensures forall i :: 0 <= i < |l| ==> g.path[i].0 == l[i].x && g.path[i].1 == l[i].y
  {
    GeoLineString(AsPairs(l))
  }

  /** The stored line a GeoJSON line string describes: each `[x, y]` back as a point; a point has no line. */
  function GeoJsonLine(g: GeoGeometry): Line {
    match g
    case GeoPoint(_) => []
    case GeoLineString(path) => seq(|path|, i requires 0 <= i < |path| => Point2D(path[i].0, path[i].1))
  }

  /** Reading a line's GeoJSON back gives the line. */
  lemma {:induction false} GeoJsonLineRoundTrip(l: Line)
    ensures GeoJsonLine(LineGeoJson(l)) == l
  {
    var back := GeoJsonLine(LineGeoJson(l));
    assert |back| == |l|;
    forall i | 0 <= i < |l| ensures back[i] == l[i] {
      assert LineGeoJson(l).path[i] == (l[i].x, l[i].y);
    }
  }

  /** Lines sorted by their distance from `p` keep that order as GeoJSON. */
  lemma {:induction false} GeoJsonKeepsOrder(e: Engine, hits: seq<LineHit>, p: Point2D)
    requires SortedBy(hits, LineDistance)
    requires forall h :: h in hits ==> h.distance == e.planar(h.geometry, p)
    ensures forall i, j :: 0 <= i < j < |hits| ==>
              e.planar(GeoJsonLine(ToGeoJson(hits)[i]), p) <= e.planar(GeoJsonLine(ToGeoJson(hits)[j]), p)
  {
    var r := ToGeoJson(hits);
    forall i | 0 <= i < |r| ensures e.planar(GeoJsonLine(r[i]), p) == hits[i].distance {
      GeoJsonLineRoundTrip(hits[i].geometry);
      assert hits[i] in hits;
    }
  }

  /** The GeoJSON of each selected line, in the selected order. */
  function ToGeoJson(hits: seq<LineHit>): (r: seq<GeoGeometry>)
    ensures |r| == |hits|
    ensures forall i :: 0 <= i < |hits| ==> r[i] == LineGeoJson(hits[i].geometry)
  {
    Map(hits, (h: LineHit) => LineGeoJson(h.geometry))
  }

  const ServiceLineThreshold: real := 0.005
  const NearbyLineThreshold: real := 0.8

  /** `nearbyServiceLinesQueryFunction`: `ST_Point2D(lon, lat)` from the bound `[longitude, latitude]`, below 0.005. */
  function NearbyServiceLinesQF(e: Engine, table: seq<Line>, pos: Position): (r: seq<LineHit>)
    ensures SortedBy(r, LineDistance)
    ensures forall h :: h in r <==>
              && h.geometry in table
              && h.distance == e.planar(h.geometry, Point2D(pos.longitude, pos.latitude))
              && h.distance < ServiceLineThreshold
  {
    NearLines(e, table, Point2D(pos.longitude, pos.latitude), ServiceLineThreshold)
  }

  /** The statement binds `[longitude, latitude]`: the reference point is `(lon, lat)`, like the stored lines. */
  lemma {:induction false} NearbyServiceLinesBinding(sql: string, pos: Position)
    ensures var v := Execute(Build(sql, ["longitude", "latitude"], true), PowerLineArgs(pos, 0.0)).values;
            |v| == 2 && v[0].SqlNumber? && v[1].SqlNumber? && Point2D(v[0].n, v[1].n) == Point2D(pos.longitude, pos.latitude)
  {
  }

  /**
   * `getNearbyServiceLines` and `getNearbyOutageLines`: the point is
   * interpolated as `ST_Point2D(lon, lat)`; lines below 0.8, nearest first,
   * returned as GeoJSON.
   */
  function GetNearbyLines(e: Engine, table: seq<Line>, pos: Position): (r: seq<GeoGeometry>)
    ensures |r| <= |table|
    ensures forall g :: g in r ==> exists l :: l in table && g == LineGeoJson(l)
                                              && e.planar(l, Point2D(pos.longitude, pos.latitude)) < NearbyLineThreshold
    ensures forall l :: l in table && e.planar(l, Point2D(pos.longitude, pos.latitude)) < NearbyLineThreshold
              ==> LineGeoJson(l) in r
    ensures forall i, j :: 0 <= i < j < |r| ==>
              e.planar(GeoJsonLine(r[i]), Point2D(pos.longitude, pos.latitude))
              <= e.planar(GeoJsonLine(r[j]), Point2D(pos.longitude, pos.latitude))
  {
    var p := Point2D(pos.longitude, pos.latitude);
    var hits := NearLines(e, table, p, NearbyLineThreshold);
    var r := ToGeoJson(hits);
    GeoJsonKeepsOrder(e, hits, p);
    forall g | g in r ensures exists l :: l in table && g == LineGeoJson(l) && e.planar(l, p) < NearbyLineThreshold {
      var i :| 0 <= i < |r| && r[i] == g;
      assert hits[i] in hits;
    }
    forall l | l in table && e.planar(l, p) < NearbyLineThreshold ensures LineGeoJson(l) in r {
      var h := LineHit(l, e.planar(l, p));
      assert h in hits;
      var i :| 0 <= i < |hits| && hits[i] == h;
      assert r[i] == LineGeoJson(l);
    }
    r
  }

  /** Every line the 0.005 statement selects for a position is among the 0.8 statement's lines for it. */
  lemma {:induction false} ServiceLineIsNearby(e: Engine, table: seq<Line>, pos: Position, h: LineHit)
    requires h in NearbyServiceLinesQF(e, table, pos)
    ensures LineGeoJson(h.geometry) in GetNearbyLines(e, table, pos)
  {
  }

  // Lines in bounds.

  /**
   * `getAllServiceLinesInBounds` and `getAllOutageLinesInBounds`: the
   * GeoJSON of every line meeting the envelope `(sw.lon, sw.lat, ne.lon,
   * ne.lat)`, in table order.
   */
  function LinesInBounds(table: seq<Line>, sw: Position, ne: Position): (r: seq<GeoGeometry>)
    ensures |r| <= |table|
    ensures forall g :: g in r ==> exists l :: l in table && Intersects(l, EnvelopeOf(sw, ne)) && g == LineGeoJson(l)
    ensures forall l :: l in table && Intersects(l, EnvelopeOf(sw, ne)) ==> LineGeoJson(l) in r
  {
    var inside := Filter(table, (l: Line) => Intersects(l, EnvelopeOf(sw, ne)));
    var r := Map(inside, LineGeoJson);
    forall g | g in r ensures exists l :: l in table && Intersects(l, EnvelopeOf(sw, ne)) && g == LineGeoJson(l) {
      var i :| 0 <= i < |r| && r[i] == g;
      assert inside[i] in inside;
    }
    forall l | l in table && Intersects(l, EnvelopeOf(sw, ne)) ensures LineGeoJson(l) in r {
      var i :| 0 <= i < |inside| && inside[i] == l;
      assert r[i] == LineGeoJson(l);
    }
    r
  }

  /** A line with a vertex inside the closed bounds is returned. */
  lemma {:induction false} LineWithVertexInBoundsIsReturned(table: seq<Line>, sw: Position, ne: Position, l: Line, i: nat)
    requires l in table && i < |l| && InClosedBox(l[i], EnvelopeOf(sw, ne))
    ensures LineGeoJson(l) in LinesInBounds(table, sw, ne)
  {
    VertexInsideIntersects(l, EnvelopeOf(sw, ne), i);
  }

  /** A line lying wholly west of the bounds is not returned. */
  lemma {:induction false} LineWestOfBoundsIsNotReturned(table: seq<Line>, sw: Position, ne: Position, l: Line)
    requires forall i :: 0 <= i < |l| ==> l[i].x < Lo(sw.longitude, ne.longitude)
    ensures LineGeoJson(l) !in LinesInBounds(table, sw, ne)
  {
    var env := EnvelopeOf(sw, ne);
    WestOfEnvelopeDisjoint(l, env);
    forall m | m in table && LineGeoJson(m) == LineGeoJson(l) ensures !Intersects(m, env) {
      LineGeoJsonInjective(m, l);
    }
  }

  /** Distinct lines have distinct GeoJSON. */
  lemma {:induction false} LineGeoJsonInjective(m: Line, l: Line)
    requires LineGeoJson(m) == LineGeoJson(l)
    ensures m == l
  {
    assert |m| == |l|;
    forall k | 0 <= k < |m| ensures m[k] == l[k] {
      assert LineGeoJson(m).path[k] == LineGeoJson(l).path[k];
    }
  }
}
