/**
 * The app's address statements over the `addresses` table: nearest-first
 * lists, the case-insensitive substring search, the two fuzzy searches, the
 * radius search and the bounds query. Distances and similarity come from the
 * engine record; `SEARCH_RESULT_LIMIT` (defined in a constants file that is
 * not part of this model) is the parameter `limit`.
 */
module AddressQueries {
  import opened Text
  import opened Like
  import opened Query
  import opened Geometry
  import opened SpatialEngine
  import opened DuckDbQuery
  import Store

  /** The columns of `addresses` the statements read; `location` has x = longitude, y = latitude. */
  datatype AddressRow = AddressRow(
    id: int, addressLine1: string, addressLine2: string, address: string, addressFull: string,
    city: string, county: string, zipcode: string, location: Point2D)

  /** A returned row with its computed score and distance columns. */
  datatype Hit = Hit(row: AddressRow, score: real, distance: real)

  function Score(h: Hit): real {
    h.score
  }

  function Distance(h: Hit): real {
    h.distance
  }

  /** The stored point of an address standing exactly at `pos`. */
  function StoredAt(pos: Position): Point2D {
    Point2D(pos.longitude, pos.latitude)
  }

  /** Every row with its score and distance computed. */
  function Hits(table: seq<AddressRow>, score: AddressRow -> real, dist: AddressRow -> real): (r: seq<Hit>)
    ensures |r| == |table|
    ensures forall i :: 0 <= i < |table| ==> r[i] == Hit(table[i], score(table[i]), dist(table[i]))
    ensures forall h :: h in r ==> h.row in table && h.score == score(h.row) && h.distance == dist(h.row)
  {
    var r := Map(table, (row: AddressRow) => Hit(row, score(row), dist(row)));
    forall h | h in r ensures h.row in table && h.score == score(h.row) && h.distance == dist(h.row) {
      var i :| 0 <= i < |r| && r[i] == h;
      assert table[i] in table;
    }
    r
  }

  /** No returned hit is for `o`. */
  predicate Omitted(r: seq<Hit>, o: AddressRow) {
    forall k :: 0 <= k < |r| ==> r[k].row != o
  }

  /** A row absent from the result lies in what the limit cut off. */
  lemma {:induction false} OmittedIsCutOff(hits: seq<Hit>, r: seq<Hit>, o: AddressRow, h: Hit)
    requires h in hits && h.row == o && Omitted(r, o)
    ensures h in multiset(hits) - multiset(r)
  {
    forall k | 0 <= k < |r| ensures r[k] != h {
      assert r[k].row != o;
    }
    assert h !in r;
    assert multiset(r)[h] == 0;
  }

  /**
   * `ORDER BY distance ASC LIMIT limit` over every row: the nearest rows,
   * nearest first, and no omitted row nearer than a returned one.
   */
  function Nearest(table: seq<AddressRow>, score: AddressRow -> real, dist: AddressRow -> real, limit: nat): (r: seq<Hit>)
    ensures |r| == Min(|table|, limit)
    ensures SortedBy(r, Distance)
    ensures forall h :: h in r ==> h.row in table && h.score == score(h.row) && h.distance == dist(h.row)
    ensures forall h, o :: h in r && o in table && Omitted(r, o) ==> h.distance <= dist(o)
  {
    var hits := Hits(table, score, dist);
    var r := TopAsc(hits, Distance, limit);
    forall h | h in r ensures h in hits {
      assert h in multiset(r);
    }
    forall h, o | h in r && o in table && Omitted(r, o) ensures h.distance <= dist(o) {
      var i :| 0 <= i < |table| && table[i] == o;
      OmittedIsCutOff(hits, r, o, hits[i]);
    }
    r
  }

  predicate Positive(h: Hit) {
    h.score > 0.0
  }

  /** `WHERE score > 0` on a table row. */
  function PositiveTest(score: AddressRow -> real): AddressRow -> bool {
    (row: AddressRow) => score(row) > 0.0
  }

  /** What `TopDesc` keeps comes from its input, and nothing it drops scores higher. */
  lemma {:induction false} TopDescKeepsBest(positive: seq<Hit>, limit: nat, r: seq<Hit>)
    requires r == TopDesc(positive, Score, limit)
    ensures forall h :: h in r ==> h in positive
    ensures forall h, p :: h in r && p in positive && p !in r ==> h.score >= p.score
  {
    forall h | h in r ensures h in positive {
      assert h in multiset(r);
    }
    forall h, p | h in r && p in positive && p !in r ensures h.score >= p.score {
      assert p in multiset(positive) - multiset(r);
    }
  }

  /**
   * `WHERE score > 0 ORDER BY score DESC LIMIT limit`: the best-scoring rows
   * with a positive score, best first, and no omitted positive row scoring
   * higher than a returned one.
   */
  function Best(table: seq<AddressRow>, score: AddressRow -> real, dist: AddressRow -> real, limit: nat): (r: seq<Hit>)
    ensures |r| == Min(Count(table, PositiveTest(score)), limit)
    ensures SortedDescBy(r, Score)
    ensures forall h :: h in r ==> h.row in table && h.score == score(h.row) && h.distance == dist(h.row) && h.score > 0.0
    ensures forall h, o :: h in r && o in table && score(o) > 0.0 && Omitted(r, o) ==> h.score >= score(o)
  {
    var hits := Hits(table, score, dist);
    var positive := Filter(hits, Positive);
    var r := TopDesc(positive, Score, limit);
    FilterLength(hits, Positive);
    CountPointwise(hits, Positive, table, PositiveTest(score));
    TopDescKeepsBest(positive, limit, r);
    BestCutOff(table, score, dist, hits, positive, r);
    r
  }

  /** A positive row left out scores no higher than any returned row. */
  lemma {:induction false} BestCutOff(table: seq<AddressRow>, score: AddressRow -> real, dist: AddressRow -> real,
                   hits: seq<Hit>, positive: seq<Hit>, r: seq<Hit>)
    requires |hits| == |table|
    requires forall i :: 0 <= i < |table| ==> hits[i] == Hit(table[i], score(table[i]), dist(table[i]))
    requires forall h :: h in positive <==> h in hits && Positive(h)
    requires forall h, p :: h in r && p in positive && p !in r ==> h.score >= p.score
    ensures forall h, o :: h in r && o in table && score(o) > 0.0 && Omitted(r, o) ==> h.score >= score(o)
  {
    forall h, o | h in r && o in table && score(o) > 0.0 && Omitted(r, o) ensures h.score >= score(o) {
      var i :| 0 <= i < |table| && table[i] == o;
      var p := hits[i];
      assert p in positive;
      forall k | 0 <= k < |r| ensures r[k] != p {
        assert r[k].row != o;
      }
    }
  }

  // Binding the user's position.

  function PositionArgs(pos: Position): map<string, SqlValue> {
    map["longitude" := SqlNumber(pos.longitude), "latitude" := SqlNumber(pos.latitude)]
  }

  const LonLatOrder: seq<string> := ["longitude", "latitude"]

  /** `closestAddressesQueryFunction` binds `[longitude, latitude]`: `ST_Point2D` gets x = longitude, y = latitude. */
  lemma {:induction false} ClosestAddressesQFBinding(sql: string, pos: Position)
    ensures Execute(Build(sql, LonLatOrder, true), PositionArgs(pos)).values
            == [SqlNumber(pos.longitude), SqlNumber(pos.latitude)]
  {
  }

  /** The positional values `closestAddresses` and `topClosestAddresses` pass: latitude first. */
  function LatLonValues(pos: Position): seq<SqlValue> {
    [SqlNumber(pos.latitude), SqlNumber(pos.longitude)]
  }

  /**
   * With latitude bound first, the reference point is the stored point of an
   * address at the user's position only when latitude equals longitude.
   */
  lemma {:induction false} LatFirstReferenceIsFlipped(pos: Position)
    ensures var v := LatLonValues(pos);
            Point2D(v[0].n, v[1].n) == Flip(StoredAt(pos))
    ensures Flip(StoredAt(pos)) == StoredAt(pos) <==> pos.latitude == pos.longitude
  {
  }

  // The statements.

  /** `closestAddressesQueryFunction`: every address, by sphere distance from `(lon, lat)`, at most `limit`. */
  function ClosestAddressesQF(e: Engine, table: seq<AddressRow>, pos: Position, limit: nat): (r: seq<Hit>)
    ensures |r| == Min(|table|, limit)
    ensures SortedBy(r, Distance)
    ensures forall h :: h in r ==> h.row in table && h.distance == e.sphere(StoredAt(pos), h.row.location)
    ensures forall h, o :: h in r && o in table && Omitted(r, o) ==> h.distance <= e.sphere(StoredAt(pos), o.location)
  {
    Nearest(table, (row: AddressRow) => 0.0, (row: AddressRow) => e.sphere(StoredAt(pos), row.location), limit)
  }

  /** `closestAddresses`: the same order and limit, with `ST_Point2D(lat, lon)`. */
  function ClosestAddresses(e: Engine, table: seq<AddressRow>, pos: Position, limit: nat): (r: seq<Hit>)
    ensures |r| == Min(|table|, limit)
    ensures SortedBy(r, Distance)
    ensures forall h :: h in r ==> h.row in table && h.distance == e.sphere(Flip(StoredAt(pos)), h.row.location)
    ensures forall h, o :: h in r && o in table && Omitted(r, o) ==> h.distance <= e.sphere(Flip(StoredAt(pos)), o.location)
  {
    Nearest(table, (row: AddressRow) => 0.0, (row: AddressRow) => e.sphere(Flip(StoredAt(pos)), row.location), limit)
  }

  /** `topClosestAddresses`: `ST_Point2D(lat, lon)`, nearest first, at most 10. */
  function TopClosestAddresses(e: Engine, table: seq<AddressRow>, pos: Position): (r: seq<Hit>)
    ensures |r| == Min(|table|, 10)
    ensures SortedBy(r, Distance)
    ensures forall h :: h in r ==> h.row in table && h.distance == e.sphere(Flip(StoredAt(pos)), h.row.location)
    ensures forall h, o :: h in r && o in table && Omitted(r, o) ==> h.distance <= e.sphere(Flip(StoredAt(pos)), o.location)
  {
    Nearest(table, (row: AddressRow) => 0.0, (row: AddressRow) => e.sphere(Flip(StoredAt(pos)), row.location), 10)
  }

  /** `addressFull ILIKE '%term%'`: the term goes in unescaped. */
  predicate FullMatches(row: AddressRow, term: string) {
    ILike(row.addressFull, "%" + term + "%")
  }

  function FullMatchTest(term: string): AddressRow -> bool {
    (row: AddressRow) => FullMatches(row, term)
  }

  function AddressSearchLimit(): nat {
    25
  }

  /**
   * `addressSearch`: the rows whose full address matches, score 100 each,
   * nearest to `(lon, lat)` first, at most 25. With a constant score,
   * `score DESC` leaves the order to `distance_meters ASC`.
   */
  function AddressSearch(e: Engine, table: seq<AddressRow>, term: string, pos: Position): (r: seq<Hit>)
    ensures |r| == Min(Count(table, FullMatchTest(term)), AddressSearchLimit())
    ensures SortedBy(r, Distance)
    ensures forall h :: h in r ==> h.row in table && FullMatches(h.row, term) && h.score == 100.0
                                   && h.distance == e.sphere(StoredAt(pos), h.row.location)
    ensures forall h, o :: h in r && o in table && FullMatches(o, term) && Omitted(r, o)
                           ==> h.distance <= e.sphere(StoredAt(pos), o.location)
  {
    var matching := Filter(table, FullMatchTest(term));
    FilterLength(table, FullMatchTest(term));
    Nearest(matching, (row: AddressRow) => 100.0, (row: AddressRow) => e.sphere(StoredAt(pos), row.location), AddressSearchLimit())
  }

  /** The positional values of `addressSearch`: longitude, latitude, then the pattern. */
  function AddressSearchValues(term: string, pos: Position): (v: seq<SqlValue>)
    ensures |v| == 3 && v[0].SqlNumber? && v[1].SqlNumber? && Point2D(v[0].n, v[1].n) == StoredAt(pos) && v[2] == SqlString("%" + term + "%")
  {
    [SqlNumber(pos.longitude), SqlNumber(pos.latitude), SqlString("%" + term + "%")]
  }

  /** A term without wildcards finds exactly the full addresses that contain it, ignoring case. */
  lemma {:induction false} AddressSearchIsContains(row: AddressRow, term: string)
    requires !HasWildcard(term)
    ensures FullMatches(row, term) <==> Contains(ToLower(row.addressFull), ToLower(term))
  {
    SurroundedILikeIsContains(row.addressFull, term);
  }

  /** An unescaped `_` is a wildcard: the term "_" matches every non-empty full address. */
  lemma {:induction false} UnderscoreTermMatchesAll(row: AddressRow)
    requires |row.addressFull| > 0
    ensures FullMatches(row, "_")
  {
    UnderscoreIsWildcard(ToLower(row.addressFull));
    LowerSurrounded("_");
    assert ToLower("_") == "_";
  }

  /** `concat_ws(' ', address_line_1, address_line_2)` over non-NULL lines. */
  function ConcatWs(a: string, b: string): string {
    a + " " + b
  }

  const SimilarityCutoff: real := 0.7

  /** The score of `searchAddressesQueryFunction`: both lines against the upper-cased term. */
  function LinesScore(e: Engine, term: string): AddressRow -> real {
    (row: AddressRow) => JaroWinkler(e, ConcatWs(row.addressLine1, row.addressLine2), ToUpper(term), SimilarityCutoff)
  }

  /** The score of `searchAddresses`: the `address` column against the upper-cased term. */
  function AddressScore(e: Engine, term: string): AddressRow -> real {
    (row: AddressRow) => JaroWinkler(e, row.address, ToUpper(term), SimilarityCutoff)
  }

  /** `searchAddressesQueryFunction`: Jaro-Winkler of both lines against the upper-cased term. */
  function SearchAddressesQF(e: Engine, table: seq<AddressRow>, term: string, limit: nat): (r: seq<Hit>)
    ensures |r| == Min(Count(table, PositiveTest(LinesScore(e, term))), limit)
    ensures SortedDescBy(r, Score)
    ensures forall h :: h in r ==>
              && h.row in table && h.score > 0.0
              && h.score == e.similarity(ConcatWs(h.row.addressLine1, h.row.addressLine2), ToUpper(term))
              && h.score >= SimilarityCutoff
    ensures forall h, o :: h in r && o in table && Omitted(r, o)
              && JaroWinkler(e, ConcatWs(o.addressLine1, o.addressLine2), ToUpper(term), SimilarityCutoff) > 0.0
              ==> h.score >= JaroWinkler(e, ConcatWs(o.addressLine1, o.addressLine2), ToUpper(term), SimilarityCutoff)
  {
    var r := Best(table, LinesScore(e, term), (row: AddressRow) => 0.0, limit);
    forall h | h in r ensures h.score >= SimilarityCutoff
      && h.score == e.similarity(ConcatWs(h.row.addressLine1, h.row.addressLine2), ToUpper(term))
    {
      PositiveScoreMeetsCutoff(e, ConcatWs(h.row.addressLine1, h.row.addressLine2), ToUpper(term), SimilarityCutoff);
    }
    r
  }

  /** `searchAddressesQueryFunction` binds only `searchTerm`. */
  lemma {:induction false} SearchAddressesQFBinding(sql: string, term: string, other: map<string, SqlValue>)
    ensures Execute(Build(sql, ["searchTerm"], true), other["searchTerm" := SqlString(term)]).values == [SqlString(term)]
  {
  }

  /**
   * `searchAddresses`: Jaro-Winkler of `address` against the upper-cased
   * term; the distance compares the flipped stored point with
   * `ST_Point2D(lat, lon)`.
   */
  function SearchAddresses(e: Engine, table: seq<AddressRow>, term: string, pos: Position, limit: nat): (r: seq<Hit>)
    ensures |r| == Min(Count(table, PositiveTest(AddressScore(e, term))), limit)
    ensures SortedDescBy(r, Score)
    ensures forall h :: h in r ==>
              && h.row in table && h.score > 0.0
              && h.score == e.similarity(h.row.address, ToUpper(term)) && h.score >= SimilarityCutoff
              && h.distance == e.spheroid(Flip(h.row.location), Flip(StoredAt(pos)))
    ensures forall h, o :: h in r && o in table && Omitted(r, o)
              && JaroWinkler(e, o.address, ToUpper(term), SimilarityCutoff) > 0.0
              ==> h.score >= JaroWinkler(e, o.address, ToUpper(term), SimilarityCutoff)
  {
    var r := Best(table, AddressScore(e, term), (row: AddressRow) => e.spheroid(Flip(row.location), Flip(StoredAt(pos))), limit);
    forall h | h in r ensures h.score >= SimilarityCutoff && h.score == e.similarity(h.row.address, ToUpper(term)) {
      PositiveScoreMeetsCutoff(e, h.row.address, ToUpper(term), SimilarityCutoff);
    }
    r
  }

  /** Both distance operands of the flipped-axis statements are `(lat, lon)`: an address at the user's position meets the user's point. */
  lemma {:induction false} FlippedOperandsAgree(pos: Position, row: AddressRow)
    requires row.location == StoredAt(pos)
    ensures Flip(row.location) == Point2D(pos.latitude, pos.longitude)
  {
  }

  const NearbyRadiusMeters: real := 1000.0

  /** `WHERE distance_meters < 1000` with the flipped spheroid distance. */
  function NearTest(e: Engine, pos: Position): AddressRow -> bool {
    (row: AddressRow) => e.spheroid(Flip(row.location), Flip(StoredAt(pos))) < NearbyRadiusMeters
  }

  /** `getNearbyAddresses`: rows within 1000 metres by the flipped spheroid distance, nearest first, at most `limit`. */
  function GetNearbyAddresses(e: Engine, table: seq<AddressRow>, pos: Position, limit: nat): (r: seq<Hit>)
    ensures |r| == Min(Count(table, NearTest(e, pos)), limit)
    ensures SortedBy(r, Distance)
    ensures forall h :: h in r ==>
              && h.row in table && h.distance < NearbyRadiusMeters
              && h.distance == e.spheroid(Flip(h.row.location), Flip(StoredAt(pos)))
    ensures forall h, o :: h in r && o in table && Omitted(r, o)
              && e.spheroid(Flip(o.location), Flip(StoredAt(pos))) < NearbyRadiusMeters
              ==> h.distance <= e.spheroid(Flip(o.location), Flip(StoredAt(pos)))
  {
    var dist := (row: AddressRow) => e.spheroid(Flip(row.location), Flip(StoredAt(pos)));
    var near := Filter(table, NearTest(e, pos));
    FilterLength(table, NearTest(e, pos));
    Nearest(near, (row: AddressRow) => 0.0, dist, limit)
  }

  /** The address a bounds query returns: latitude is `ST_Y`, longitude is `ST_X`. */
  function ToAppAddress(row: AddressRow): (a: Store.AppAddress)
    ensures a.latitude == row.location.y && a.longitude == row.location.x && a.id == row.id
  {
    Store.AppAddress(row.id, row.address, row.city, row.county, row.zipcode, row.location.y, row.location.x)
  }

  /** `getAllAddressesInBounds`: every address strictly inside the envelope `(sw.lon, sw.lat, ne.lon, ne.lat)`, in table order. */
  function GetAllAddressesInBounds(table: seq<AddressRow>, sw: Position, ne: Position): (r: seq<Store.AppAddress>)
    ensures |r| <= |table|
    ensures forall a :: a in r ==> exists row :: row in table && StrictlyWithin(row.location, EnvelopeOf(sw, ne)) && a == ToAppAddress(row)
    ensures forall row :: row in table && StrictlyWithin(row.location, EnvelopeOf(sw, ne)) ==> ToAppAddress(row) in r
  {
    var inside := Filter(table, (row: AddressRow) => StrictlyWithin(row.location, EnvelopeOf(sw, ne)));
    var r := Map(inside, ToAppAddress);
    forall a | a in r ensures exists row :: row in table && StrictlyWithin(row.location, EnvelopeOf(sw, ne)) && a == ToAppAddress(row) {
      var i :| 0 <= i < |r| && r[i] == a;
      assert inside[i] in inside;
    }
    forall row | row in table && StrictlyWithin(row.location, EnvelopeOf(sw, ne)) ensures ToAppAddress(row) in r {
      var i :| 0 <= i < |inside| && inside[i] == row;
      assert r[i] == ToAppAddress(row);
    }
    r
  }
}
