/**
 * Encoded power lines turned into coordinates: the generator's GeoJSON
 * export of the line feed, the app's base-line loader, and the app's
 * conversion of a browser position into a GeoJSON point. The polyline
 * decoder is a parameter that returns the decoded `(lat, lng)` pairs or
 * `None` when it throws.
 */
module LineGeoJson {
  import opened Wrappers
  import opened Geometry

  /** One line of the feed: its encoded polyline (`g`). */
  datatype EncodedLine = EncodedLine(g: string)

  /** The empty `properties` object. */
  datatype NoProperties = NoProperties

  type Decoder = string -> Option<seq<Pair>>

  /** `LineModel.to_geojson`: decode, swap every pair to `[lng, lat]`, wrap as a LineString feature. */
  function LineToGeoJson(decode: Decoder, line: EncodedLine): (r: Option<Feature<NoProperties>>)
    ensures r.Some? <==> decode(line.g).Some?
    ensures r.Some? ==> r.value.geometry.GeoLineString? && r.value.geometry.TypeName() == "LineString"
    ensures r.Some? ==> |r.value.geometry.path| == |decode(line.g).value|
    ensures r.Some? ==> forall i :: 0 <= i < |r.value.geometry.path| ==>
              r.value.geometry.path[i] == (decode(line.g).value[i].1, decode(line.g).value[i].0)
  {
    match decode(line.g)
    case None => None
    case Some(coords) => Some(Feature(GeoLineString(SwapAll(coords)), NoProperties))
  }

  /** Swapping a feature's coordinates back gives exactly the decoder's output. */
  lemma {:induction false} LineToGeoJsonInverts(decode: Decoder, line: EncodedLine)
    requires decode(line.g).Some?
    ensures SwapAll(LineToGeoJson(decode, line).value.geometry.path) == decode(line.g).value
  {
    SwapAllInvolution(decode(line.g).value);
  }

  /** `LinesResponseModel.to_geojson`: one feature per line in order; any decode failure raises. */
  function LinesToGeoJson(decode: Decoder, lines: seq<EncodedLine>): (r: Option<FeatureCollection<NoProperties>>)
    ensures r.Some? <==> forall i :: 0 <= i < |lines| ==> decode(lines[i].g).Some?
    ensures r.Some? ==> |r.value.features| == |lines|
    ensures r.Some? ==> forall i :: 0 <= i < |lines| ==> Some(r.value.features[i]) == LineToGeoJson(decode, lines[i])
  {
    if |lines| == 0 then Some(FeatureCollection([]))
    else
      match LineToGeoJson(decode, lines[0])
      case None => None
      case Some(f) =>
        match LinesToGeoJson(decode, lines[1..])
        case None =>
          assert forall i :: 1 <= i < |lines| ==> lines[i] == lines[1..][i - 1];
          None
        case Some(rest) =>
          assert forall i :: 1 <= i < |lines| ==> lines[i] == lines[1..][i - 1];
          Some(FeatureCollection([f] + rest.features))
  }

  /** Every coordinate of every exported feature is in `[lng, lat]` order. */
  lemma {:induction false} CollectionIsLngLat(decode: Decoder, lines: seq<EncodedLine>, i: nat, j: nat)
    requires LinesToGeoJson(decode, lines).Some?
    requires i < |lines|
    requires j < |decode(lines[i].g).value|
    ensures var f := LinesToGeoJson(decode, lines).value.features[i];
            j < |f.geometry.path| && f.geometry.path[j].0 == decode(lines[i].g).value[j].1
            && f.geometry.path[j].1 == decode(lines[i].g).value[j].0
  {
  }

  /** The app's decoded base line: its position in the file and the decoder's pairs. */
  datatype DecodedPowerLine = DecodedPowerLine(id: nat, geometry: seq<Pair>)

  /** `fetchPowerLines`: each line keeps its index as id and the decoder's `[lat, lng]` pairs; a throw rejects all. */
  function FetchPowerLines(decode: Decoder, lines: seq<EncodedLine>): (r: Option<seq<DecodedPowerLine>>)
    ensures r.Some? <==> forall i :: 0 <= i < |lines| ==> decode(lines[i].g).Some?
    ensures r.Some? ==> |r.value| == |lines|
    ensures r.Some? ==> forall i :: 0 <= i < |lines| ==> r.value[i].id == i && r.value[i].geometry == decode(lines[i].g).value
  {
    if forall i :: 0 <= i < |lines| ==> decode(lines[i].g).Some? then
      Some(seq(|lines|, i requires 0 <= i < |lines| => DecodedPowerLine(i, decode(lines[i].g).value)))
    else None
  }

  /**
   * The app's base lines and the generator's export disagree on axis order:
   * the app keeps `[lat, lng]`, the export swaps to `[lng, lat]`, and each is
   * the other swapped.
   */
  lemma {:induction false} BaseLinesAreUnswapped(decode: Decoder, lines: seq<EncodedLine>, i: nat)
    requires FetchPowerLines(decode, lines).Some? && i < |lines|
    ensures LinesToGeoJson(decode, lines).Some?
    ensures FetchPowerLines(decode, lines).value[i].geometry
            == SwapAll(LinesToGeoJson(decode, lines).value.features[i].geometry.path)
  {
    LineToGeoJsonInverts(decode, lines[i]);
  }

  /** `positionToGeoJsonPoint`: a `Point` whose coordinates are `[longitude, latitude]`. */
  function PositionToGeoJsonPoint(p: Position): (g: GeoGeometry)
    ensures g.GeoPoint? && g.TypeName() == "Point"
    ensures g.coordinates.0 == p.longitude && g.coordinates.1 == p.latitude
  {
    GeoPoint((p.longitude, p.latitude))
  }

  /** Reading a GeoJSON point back as a position. */
  function PointPosition(g: GeoGeometry): Position
    requires g.GeoPoint?
  {
    Position(g.coordinates.0, g.coordinates.1)
  }

  /** The point and the position it came from determine each other. */
  lemma {:induction false} PositionPointRoundTrip(p: Position, g: GeoGeometry)
    requires g.GeoPoint?
    ensures PointPosition(PositionToGeoJsonPoint(p)) == p
    ensures PositionToGeoJsonPoint(PointPosition(g)) == g
  {
  }
}
