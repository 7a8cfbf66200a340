/**
 * The app's first DuckDB layer: lazy initialisation of the database, loading
 * GeoJSON address features into the `addresses` table in batches of SQL
 * literals, and the substring search over the stored properties. JSON
 * serialisation and parsing and the rendering of numbers belong to the
 * JavaScript runtime and are parameters.
 */
module AppDuckDb {
  import opened Wrappers
  import opened Text
  import opened Like
  import Query
  import opened Geometry
  import opened Numbers

  // Initialisation.

  /**
   * The module-level handles: neither set, `db` set while it is still being
   * instantiated and connected, or both set.
   */
  datatype Handles = NoDatabase | DatabaseOnly | Connected {
    predicate HasDb() { !NoDatabase? }
  }

  /** `initDuckDB`: returns at once when `db` is set, otherwise creates the database and connects. */
  function InitDuckDB(h: Handles): (r: Handles)
    ensures r.HasDb()
    ensures h.HasDb() ==> r == h
    ensures !h.HasDb() ==> r == Connected
  {
    if h.HasDb() then h else Connected
  }

  /** Initialising twice is initialising once. */
  lemma {:induction false} InitIdempotent(h: Handles)
    ensures InitDuckDB(InitDuckDB(h)) == InitDuckDB(h)
  {
  }

  /**
   * `getConnection`: the handles afterwards and whether a connection is
   * returned. A call made while another is still initialising finds `db`
   * set, returns early from `initDuckDB`, and gets no connection.
   */
  function GetConnection(h: Handles): (r: (Handles, bool))
    ensures r.0.HasDb()
    ensures r.1 <==> h != DatabaseOnly
    ensures r.1 ==> r.0 == Connected
  {
    if !h.Connected? then
      var n := InitDuckDB(h);
      (n, n.Connected?)
    else (h, true)
  }

  /** From a cold start a connection is always obtained, and later calls change nothing. */
  lemma {:induction false} ColdStartConnects()
    ensures GetConnection(NoDatabase).1
    ensures GetConnection(GetConnection(NoDatabase).0) == GetConnection(NoDatabase)
  {
  }

  // Loading features.

  /**
   * A GeoJSON feature as the loader sees it: the JSON text of its
   * `properties` when they are present, and its point coordinates when it
   * has a geometry.
   */
  datatype SourceFeature = SourceFeature(properties: Option<string>, coordinates: Option<Pair>)

  /** A row of the `addresses` table. */
  datatype AddressRecord = AddressRecord(id: nat, properties: string, longitude: real, latitude: real)

  const BatchSize: nat := 1000

  /** `JSON.stringify(feature.properties || {})`. */
  function PropertiesText(f: SourceFeature): string {
    if f.properties.Some? then f.properties.value else "{}"
  }

  /** `feature.geometry?.coordinates || [0, 0]`. */
  function Coordinates(f: SourceFeature): (c: Pair)
    ensures f.coordinates.None? ==> c == (0.0, 0.0)
    ensures f.coordinates.Some? ==> c == f.coordinates.value
  {
    if f.coordinates.Some? then f.coordinates.value else (0.0, 0.0)
  }

  /** The row a feature becomes at position `id`: longitude first, latitude second. */
  function RowOf(id: nat, f: SourceFeature): AddressRecord {
    AddressRecord(id, PropertiesText(f), Coordinates(f).0, Coordinates(f).1)
  }

  /** The rows of all features, numbered from 0 in feature order. */
  function AllRows(fs: seq<SourceFeature>): (r: seq<AddressRecord>)
    ensures |r| == |fs|
    ensures forall k :: 0 <= k < |fs| ==> r[k] == RowOf(k, fs[k])
  {
    seq(|fs|, k requires 0 <= k < |fs| => RowOf(k, fs[k]))
  }

  /** The batch starting at feature `i`: `features.slice(i, i + 1000)` numbered `i + idx`. */
  function BatchRows(fs: seq<SourceFeature>, i: nat): (r: seq<AddressRecord>)
    requires i < |fs|
    ensures 0 < |r| <= BatchSize && |r| == Query.Min(|fs| - i, BatchSize)
    ensures forall k :: 0 <= k < |r| ==> r[k] == RowOf(i + k, fs[i + k])
  {
    var m := Query.Min(|fs| - i, BatchSize);
    seq(m, k requires 0 <= k < m => RowOf(i + k, fs[i + k]))
  }

  /** The batches laid end to end. */
  function Flatten(bs: seq<seq<AddressRecord>>): seq<AddressRecord> {
    if |bs| == 0 then [] else Flatten(bs[..|bs| - 1]) + bs[|bs| - 1]
  }

  /** The rows up to `i` followed by the batch at `i` are the rows up to the end of that batch. */
  lemma {:induction false} AllRowsExtend(fs: seq<SourceFeature>, i: nat)
    requires i < |fs|
    ensures AllRows(fs[..i]) + BatchRows(fs, i) == AllRows(fs[..i + |BatchRows(fs, i)|])
  {
    var b := BatchRows(fs, i);
    var whole := AllRows(fs[..i + |b|]);
    var joined := AllRows(fs[..i]) + b;
    assert |joined| == |whole|;
    forall k | 0 <= k < |whole| ensures joined[k] == whole[k] {
      if k < i {
        assert fs[..i][k] == fs[k];
      } else {
        assert joined[k] == b[k - i];
      }
    }
  }

  /** SQL string-literal escaping: every `'` is doubled. */
  function Escape(s: string): (r: string)
    ensures |r| >= |s|
  {
    if |s| == 0 then "" else (if s[0] == '\'' then "''" else [s[0]]) + Escape(s[1..])
  }

  /**
   * The SQL lexer on the text after an opening quote: a doubled quote stands
   * for one quote, a single quote ends the literal. Gives the value and the
   * text after the closing quote, or nothing when the literal is unterminated.
   */
  function ReadQuoted(s: string): Option<(string, string)>
  {
    if |s| == 0 then None
    else if s[0] == '\'' then
      if |s| >= 2 && s[1] == '\'' then
        match ReadQuoted(s[2..])
        case None => None
        case Some(p) => Some(("'" + p.0, p.1))
      else Some(("", s[1..]))
    else
      match ReadQuoted(s[1..])
      case None => None
      case Some(p) => Some(([s[0]] + p.0, p.1))
  }

  /**
   * Escaping is undone by the lexer: the literal reads back as the original
   * text, and it ends exactly at the closing quote.
   */
  lemma {:induction false} ReadEscaped(p: string, rest: string)
    requires rest == [] || rest[0] != '\''
    ensures ReadQuoted(Escape(p) + "'" + rest) == Some((p, rest))
    decreases |p|
  {
    var s := Escape(p) + "'" + rest;
    if |p| == 0 {
      assert s == "'" + rest;
    } else {
      ReadEscaped(p[1..], rest);
      var tail := Escape(p[1..]) + "'" + rest;
      if p[0] == '\'' {
        assert s == "''" + tail;
        assert s[2..] == tail;
        assert "'" + p[1..] == p;
      } else {
        assert s == [p[0]] + tail;
        assert s[1..] == tail;
        assert [p[0]] + p[1..] == p;
      }
    }
  }

  /** The opening of a row literal up to and including the quote that starts the properties. */
  function LiteralLead(r: AddressRecord): string {
    "(" + NatToString(r.id) + ", '"
  }

  /** What follows the properties' closing quote. */
  function LiteralTail(r: AddressRecord, show: real -> string): string {
    ", " + show(r.longitude) + ", " + show(r.latitude) + ")"
  }

  /** `(${i + idx}, '${escaped}', ${lon}, ${lat})`. */
  function Literal(r: AddressRecord, show: real -> string): string {
    LiteralLead(r) + Escape(r.properties) + "'" + LiteralTail(r, show)
  }

  /** The properties field of a row literal reads back as the JSON text, whatever quotes it holds. */
  lemma {:induction false} LiteralKeepsProperties(r: AddressRecord, show: real -> string)
    ensures IsPrefix(LiteralLead(r), Literal(r, show))
    ensures ReadQuoted(Literal(r, show)[|LiteralLead(r)|..]) == Some((r.properties, LiteralTail(r, show)))
  {
    var lead := LiteralLead(r);
    var lit := Literal(r, show);
    assert lit == lead + (Escape(r.properties) + "'" + LiteralTail(r, show));
    assert lit[..|lead|] == lead;
    assert lit[|lead|..] == Escape(r.properties) + "'" + LiteralTail(r, show);
    ReadEscaped(r.properties, LiteralTail(r, show));
  }

  /** One batch's statement. */
  function InsertStatement(rows: seq<AddressRecord>, show: real -> string): string {
    "INSERT INTO addresses VALUES " + Join(Query.Map(rows, r => Literal(r, show)), ",")
  }

  /**
   * `createTableFromFeatures`: after recreating the table, one INSERT per
   * batch of at most 1000 features; the rows are numbered 0 to n - 1 in
   * feature order across the batches.
   */
  method CreateTableFromFeatures(features: seq<SourceFeature>, show: real -> string)
    returns (batches: seq<seq<AddressRecord>>, statements: seq<string>)
    ensures |batches| == |statements| == CeilDiv(|features|, BatchSize)
    ensures forall b :: 0 <= b < |batches| ==> 0 < |batches[b]| <= BatchSize
    ensures forall b :: 0 <= b < |batches| ==> statements[b] == InsertStatement(batches[b], show)
    ensures Flatten(batches) == AllRows(features)
  {
    batches := [];
    var i := 0;
    while i < |features|
      invariant i == BatchSize * |batches|
      invariant i <= |features| ==> Flatten(batches) == AllRows(features[..i])
      invariant i > |features| ==> Flatten(batches) == AllRows(features)
      invariant |batches| > 0 ==> BatchSize * (|batches| - 1) < |features|
      invariant forall b :: 0 <= b < |batches| ==> 0 < |batches[b]| <= BatchSize
    {
      var batch := BatchRows(features, i);
      AllRowsExtend(features, i);
      assert (batches + [batch])[..|batches|] == batches;
      batches := batches + [batch];
      if i + BatchSize > |features| {
        assert i + |batch| == |features|;
        assert features[..|features|] == features;
      }
      i := i + BatchSize;
    }
    if i == |features| {
      assert features[..i] == features;
    }
    CeilDivUnique(|features|, BatchSize, |batches|);
    statements := Query.Map(batches, (rows: seq<AddressRecord>) => InsertStatement(rows, show));
  }

  // Searching.

  /** The default `limit` of `searchAddresses`. */
  const DefaultLimit: nat := 100

  /** `LOWER(CAST(properties AS VARCHAR)) LIKE '%${query.toLowerCase()}%'`. */
  predicate PropertiesMatch(row: AddressRecord, query: string) {
    Like.Like(ToLower(row.properties), "%" + ToLower(query) + "%")
  }

  /** A row as a GeoJSON point feature: `[longitude, latitude]` and the parsed properties. */
  function PointFeature<P>(row: AddressRecord, parse: string -> P): (f: Feature<P>)
    ensures f.geometry == GeoPoint((row.longitude, row.latitude)) && f.geometry.TypeName() == "Point"
    ensures f.properties == parse(row.properties)
  {
    Feature(GeoPoint((row.longitude, row.latitude)), parse(row.properties))
  }

  /** `result.toArray().map(...)`: one point feature per row, in order. */
  function PointFeatures<P>(rows: seq<AddressRecord>, parse: string -> P): (r: seq<Feature<P>>)
    ensures |r| == |rows|
    ensures forall i :: 0 <= i < |rows| ==> r[i] == PointFeature(rows[i], parse)
  {
    if |rows| == 0 then [] else [PointFeature(rows[0], parse)] + PointFeatures(rows[1..], parse)
  }

  /** The statement's `WHERE` test on one row. */
  function MatchTest(query: string): AddressRecord -> bool {
    row => PropertiesMatch(row, query)
  }

  function MatchingRows(table: seq<AddressRecord>, query: string): (r: seq<AddressRecord>)
    ensures forall row :: row in r <==> row in table && PropertiesMatch(row, query)
    ensures |r| == Query.Count(table, MatchTest(query))
  {
    Query.FilterLength(table, MatchTest(query));
    Query.Filter(table, MatchTest(query))
  }

  /**
   * `searchAddresses`: a blank query gives no results without touching the
   * table; otherwise the first `limit` matching rows in table order, as point
   * features.
   */
  function SearchAddresses<P>(table: seq<AddressRecord>, query: string, limit: nat, parse: string -> P)
    : (r: seq<Feature<P>>)
    ensures Trim(query) == "" ==> r == []
    ensures Trim(query) != "" ==> |r| == Query.Min(Query.Count(table, MatchTest(query)), limit)
    ensures forall k :: 0 <= k < |r| ==>
              exists row :: row in table && PropertiesMatch(row, query) && r[k] == PointFeature(row, parse)
    ensures Trim(query) != "" && Query.Count(table, MatchTest(query)) <= limit ==>
              forall row :: row in table && PropertiesMatch(row, query) ==> PointFeature(row, parse) in r
  {
    if Trim(query) == "" then []
    else
      var matching := MatchingRows(table, query);
      var r := PointFeatures(Query.Limit(matching, limit), parse);
      LimitedFeatures(table, MatchTest(query), limit, parse, r);
      r
  }

  /** `f` is the point feature of a row of the table that the filter keeps. */
  ghost predicate FromKeptRow<P>(table: seq<AddressRecord>, keep: AddressRecord -> bool, parse: string -> P, f: Feature<P>) {
    exists row :: row in table && keep(row) && f == PointFeature(row, parse)
  }

  /**
   * The point features of the first `limit` rows of a filter: as many as
   * the limit allows, each from a kept row, and when nothing is cut off
   * every kept row has one.
   */
  lemma {:induction false} LimitedFeatures<P>(table: seq<AddressRecord>, keep: AddressRecord -> bool, limit: nat,
                                              parse: string -> P, r: seq<Feature<P>>)
    requires r == PointFeatures(Query.Limit(Query.Filter(table, keep), limit), parse)
    ensures |r| == Query.Min(Query.Count(table, keep), limit)
    ensures forall k :: 0 <= k < |r| ==> FromKeptRow(table, keep, parse, r[k])
    ensures Query.Count(table, keep) <= limit ==> forall row :: row in table && keep(row) ==> PointFeature(row, parse) in r
  {
    var matching := Query.Filter(table, keep);
    Query.FilterLength(table, keep);
    var kept := Query.Limit(matching, limit);
    forall k | 0 <= k < |r| ensures FromKeptRow(table, keep, parse, r[k]) {
      assert kept[k] == matching[k];
      assert matching[k] in matching;
    }
    if |matching| <= limit {
      forall row | row in table && keep(row) ensures PointFeature(row, parse) in r {
        var k :| 0 <= k < |matching| && matching[k] == row;
        assert r[k] == PointFeature(row, parse);
      }
    }
  }

  /** A query of whitespace only is blank. */
  lemma {:induction false} WhitespaceQueryIsEmpty<P>(table: seq<AddressRecord>, query: string, limit: nat, parse: string -> P)
    requires forall i :: 0 <= i < |query| ==> IsWhitespace(query[i])
    ensures SearchAddresses(table, query, limit, parse) == []
  {
    TrimEmpty(query);
  }

  /** A form feed and a no-break space are blank to `trim`, so such a query finds nothing. */
  lemma {:induction false} FormFeedNoBreakSpaceIsBlank<P>(table: seq<AddressRecord>, limit: nat, parse: string -> P)
    ensures SearchAddresses(table, "\U{000C}\U{00A0}", limit, parse) == []
  {
    WhitespaceQueryIsEmpty(table, "\U{000C}\U{00A0}", limit, parse);
  }

  /** For a term without `%` or `_`, matching is the case-insensitive substring test on the properties text. */
  lemma {:induction false} MatchIsCaseInsensitiveContains(row: AddressRecord, query: string)
    requires !HasWildcard(query)
    ensures PropertiesMatch(row, query) <==> Contains(ToLower(row.properties), ToLower(query))
  {
    LowerKeepsWildcards(query);
    SurroundedPatternIsContains(ToLower(row.properties), ToLower(query));
  }

  /**
   * A loaded feature is found by searching for its whole properties text
   * (when that text is not blank and has no wildcard) with a limit as large
   * as the table.
   */
  lemma {:induction false} LoadedFeatureIsFound<P>(features: seq<SourceFeature>, k: nat, parse: string -> P)
    requires k < |features|
    requires Trim(PropertiesText(features[k])) != "" && !HasWildcard(PropertiesText(features[k]))
    ensures var table := AllRows(features);
            PointFeature(table[k], parse) in SearchAddresses(table, PropertiesText(features[k]), |table|, parse)
  {
    var table := AllRows(features);
    var q := PropertiesText(features[k]);
    var row := table[k];
    MatchIsCaseInsensitiveContains(row, q);
    assert IsPrefix(ToLower(q), ToLower(row.properties));
    assert PropertiesMatch(row, q);
  }
}
