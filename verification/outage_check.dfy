/**
 * The web checker's database side: loading the decoded outage lines into the
 * `outage_lines` table, and the address check that joins every matching
 * address with the outage lines near it.
 */
module OutageCheck {
  import opened Wrappers
  import opened Text
  import opened Like
  import Query
  import opened Geometry
  import opened SpatialEngine
  import Wkt
  import opened OutagePolylines

  // Loading the table.

  /** A row of `outage_lines`: the primary key and the stored geometry (x = lng, y = lat). */
  datatype OutageRow = OutageRow(lineId: string, geometry: Line)

  /** The geometry `ST_GeomFromText` makes of the line's `[lng, lat]` pairs. */
  function ToLine(coords: seq<Pair>): (l: Line)
    ensures |l| == |coords|
    ensures forall i :: 0 <= i < |coords| ==> l[i] == Point2D(coords[i].0, coords[i].1)
  {
    seq(|coords|, i requires 0 <= i < |coords| => Point2D(coords[i].0, coords[i].1))
  }

  /** The two values the insert binds: the line id and the WKT text. */
  function InsertArgs(l: OutageLine, show: real -> string): (r: (string, string))
    ensures r.0 == l.lineId && IsPrefix(Wkt.Head, r.1)
  {
    (l.lineId, Wkt.BuildLineString(l.coordinates, show))
  }

  predicate HasKey(t: seq<OutageRow>, id: string) {
    exists i :: 0 <= i < |t| && t[i].lineId == id
  }

  predicate UniqueKeys(t: seq<OutageRow>) {
    forall i, j :: 0 <= i < j < |t| ==> t[i].lineId != t[j].lineId
  }

  /** The geometry stored under `id`, if any. */
  function Lookup(t: seq<OutageRow>, id: string): (r: Option<Line>)
    ensures r.Some? <==> HasKey(t, id)
    ensures r.Some? ==> exists i :: 0 <= i < |t| && t[i] == OutageRow(id, r.value)
  {
    if |t| == 0 then None
    else if t[0].lineId == id then Some(t[0].geometry)
    else
      assert forall i :: 1 <= i < |t| ==> t[i] == t[1..][i - 1];
      var r := Lookup(t[1..], id);
      if r.Some? then
        var i :| 0 <= i < |t[1..]| && t[1..][i] == OutageRow(id, r.value);
        assert t[i + 1] == OutageRow(id, r.value);
        r
      else r
  }

  /** The first position holding `id`. */
  function KeyIndex(t: seq<OutageRow>, id: string): (i: nat)
    requires HasKey(t, id)
    ensures i < |t| && t[i].lineId == id
    ensures forall j :: 0 <= j < i ==> t[j].lineId != id
  {
    if t[0].lineId == id then 0
    else
      assert HasKey(t[1..], id) by {
        var k :| 0 <= k < |t| && t[k].lineId == id;
        assert t[1..][k - 1] == t[k];
      }
      var i := KeyIndex(t[1..], id);
      assert t[i + 1] == t[1..][i];
      i + 1
  }

  /** `INSERT OR REPLACE` keyed on `line_id`: a row with the same key is replaced, otherwise one is added. */
  function Upsert(t: seq<OutageRow>, row: OutageRow): (r: seq<OutageRow>)
    ensures HasKey(r, row.lineId)
    ensures forall k :: k != row.lineId ==> (HasKey(r, k) <==> HasKey(t, k))
    ensures UniqueKeys(t) ==> UniqueKeys(r)
    ensures HasKey(t, row.lineId) ==> |r| == |t|
    ensures !HasKey(t, row.lineId) ==> |r| == |t| + 1
  {
    if HasKey(t, row.lineId) then
      var i := KeyIndex(t, row.lineId);
      var r := t[i := row];
      assert r[i] == row;
      forall k | k != row.lineId ensures HasKey(r, k) <==> HasKey(t, k) {
        if HasKey(t, k) {
          var j :| 0 <= j < |t| && t[j].lineId == k;
          assert r[j] == t[j];
        }
        if HasKey(r, k) {
          var j :| 0 <= j < |r| && r[j].lineId == k;
          assert j != i && t[j] == r[j];
        }
      }
      r
    else
      var r := t + [row];
      assert r[|t|] == row;
      forall k | k != row.lineId ensures HasKey(r, k) <==> HasKey(t, k) {
        if HasKey(t, k) {
          var j :| 0 <= j < |t| && t[j].lineId == k;
          assert r[j] == t[j];
        }
        if HasKey(r, k) {
          var j :| 0 <= j < |r| && r[j].lineId == k;
          assert j < |t| && t[j] == r[j];
        }
      }
      r
  }

  /** After an upsert of a key into a table with unique keys, that key holds the new geometry and every other key is unchanged. */
  lemma {:induction false} UpsertLookup(t: seq<OutageRow>, row: OutageRow, k: string)
    requires UniqueKeys(t)
    ensures Lookup(Upsert(t, row), row.lineId) == Some(row.geometry)
    ensures k != row.lineId ==> Lookup(Upsert(t, row), k) == Lookup(t, k)
  {
    var r := Upsert(t, row);
    UniqueLookup(r, row.lineId);
    var i :| 0 <= i < |r| && r[i] == OutageRow(row.lineId, Lookup(r, row.lineId).value);
    var j :| 0 <= j < |r| && r[j] == row;
    if k != row.lineId && HasKey(t, k) {
      UniqueLookup(t, k);
      UniqueLookup(r, k);
      var a :| 0 <= a < |t| && t[a] == OutageRow(k, Lookup(t, k).value);
      var b :| 0 <= b < |r| && r[b] == OutageRow(k, Lookup(r, k).value);
      if HasKey(t, row.lineId) {
        var p := KeyIndex(t, row.lineId);
        assert r == t[p := row];
        assert r[a] == t[a];
      } else {
        assert r == t + [row];
        assert r[a] == t[a];
      }
    }
  }

  lemma {:induction false} UniqueLookup(t: seq<OutageRow>, k: string)
    requires UniqueKeys(t)
    ensures forall i :: 0 <= i < |t| && t[i].lineId == k ==> Lookup(t, k) == Some(t[i].geometry)
  {
    forall i | 0 <= i < |t| && t[i].lineId == k ensures Lookup(t, k) == Some(t[i].geometry) {
      var v := Lookup(t, k);
      var j :| 0 <= j < |t| && t[j] == OutageRow(k, v.value);
      assert i == j;
    }
  }

  /** A line is inserted when it has at least two vertices and its insert does not fail. */
  predicate Loads(l: OutageLine, fails: OutageLine -> bool) {
    |l.coordinates| >= 2 && !fails(l)
  }

  /** One iteration of the load loop. */
  function LoadStep(t: seq<OutageRow>, l: OutageLine, fails: OutageLine -> bool): seq<OutageRow> {
    if Loads(l, fails) then Upsert(t, OutageRow(l.lineId, ToLine(l.coordinates))) else t
  }

  /** The table after `DELETE FROM outage_lines` and the load loop over `lines`. */
  function LoadAll(lines: seq<OutageLine>, fails: OutageLine -> bool): (t: seq<OutageRow>)
    ensures UniqueKeys(t)
    ensures |t| <= |lines|
  {
    if |lines| == 0 then []
    else LoadStep(LoadAll(lines[..|lines| - 1], fails), lines[|lines| - 1], fails)
  }

  /**
   * `loadOutageLines`: start from an emptied table; skip lines with fewer than
   * two vertices; a failed insert is logged and the loop goes on.
   */
  method LoadOutageLines(lines: seq<OutageLine>, fails: OutageLine -> bool) returns (t: seq<OutageRow>)
    ensures t == LoadAll(lines, fails)
    ensures UniqueKeys(t)
  {
    t := [];
    var i := 0;
    while i < |lines|
      invariant 0 <= i <= |lines|
      invariant t == LoadAll(lines[..i], fails)
    {
      assert lines[..i + 1][..i] == lines[..i];
      var l := lines[i];
      if |l.coordinates| < 2 {
        i := i + 1;
        continue;
      }
      if !fails(l) {
        t := Upsert(t, OutageRow(l.lineId, ToLine(l.coordinates)));
      }
      i := i + 1;
    }
    assert lines[..i] == lines;
  }

  /** Every key of the loaded table is the id of a line that loads; short and failed lines leave no key. */
  lemma {:induction false} LoadedKeysComeFromLoadedLines(lines: seq<OutageLine>, fails: OutageLine -> bool, k: string)
    ensures HasKey(LoadAll(lines, fails), k) <==> exists i :: 0 <= i < |lines| && lines[i].lineId == k && Loads(lines[i], fails)
    decreases |lines|
  {
    if |lines| > 0 {
      var init := lines[..|lines| - 1];
      LoadedKeysComeFromLoadedLines(init, fails, k);
      assert forall i :: 0 <= i < |init| ==> init[i] == lines[i];
      var last := lines[|lines| - 1];
      if (exists i :: 0 <= i < |lines| && lines[i].lineId == k && Loads(lines[i], fails)) {
        var i :| 0 <= i < |lines| && lines[i].lineId == k && Loads(lines[i], fails);
        if i < |init| {
          assert init[i] == lines[i];
        }
      }
    }
  }

  /** The last loading line with a given id decides what is stored under that id. */
  lemma {:induction false} LoadLastWins(lines: seq<OutageLine>, fails: OutageLine -> bool, j: nat)
    requires j < |lines| && Loads(lines[j], fails)
    requires forall k :: j < k < |lines| && Loads(lines[k], fails) ==> lines[k].lineId != lines[j].lineId
    ensures Lookup(LoadAll(lines, fails), lines[j].lineId) == Some(ToLine(lines[j].coordinates))
    decreases |lines|
  {
    var init := lines[..|lines| - 1];
    var last := lines[|lines| - 1];
    var t0 := LoadAll(init, fails);
    if j == |lines| - 1 {
      UpsertLookup(t0, OutageRow(last.lineId, ToLine(last.coordinates)), last.lineId);
    } else {
      assert init[j] == lines[j];
      forall k | j < k < |init| && Loads(init[k], fails) ensures init[k].lineId != init[j].lineId {
        assert init[k] == lines[k];
      }
      LoadLastWins(init, fails, j);
      if Loads(last, fails) {
        UpsertLookup(t0, OutageRow(last.lineId, ToLine(last.coordinates)), lines[j].lineId);
      }
    }
  }

  // Checking addresses.

  /** An address row of the parquet file; `location` has x = lng, y = lat. */
  datatype AddressRow = AddressRow(id: int, street: string, city: string, zip: string, location: Point2D)

  /** `DISTANCE_THRESHOLD`: 0.002 degrees, bound both for the join and for `has_outage`. */
  const Threshold: real := 0.002

  /** The factor turning degrees into the reported miles. */
  const MilesPerDegree: real := 69.0

  /** The LEFT JOIN: the outage rows within the threshold of the address. */
  function NearRows(e: Engine, a: AddressRow, table: seq<OutageRow>): (r: seq<OutageRow>)
    ensures forall row :: row in r <==> row in table && DWithin(e, a.location, row.geometry, Threshold)
  {
    Query.Filter(table, (row: OutageRow) => DWithin(e, a.location, row.geometry, Threshold))
  }

  /** `MIN(ST_Distance(a.location, l.geometry))` over the joined rows; NULL when none joined. */
  function MinDistance(e: Engine, a: AddressRow, table: seq<OutageRow>): (m: Option<real>)
    ensures m.None? <==> forall row :: row in table ==> !DWithin(e, a.location, row.geometry, Threshold)
    ensures m.Some? ==> exists row :: row in table && e.planar(row.geometry, a.location) == m.value
                                                  && DWithin(e, a.location, row.geometry, Threshold)
    ensures m.Some? ==> forall row :: row in table && DWithin(e, a.location, row.geometry, Threshold)
                                      ==> m.value <= e.planar(row.geometry, a.location)
  {
    var near := NearRows(e, a, table);
    if |near| == 0 then
      None
    else
      var ds := Query.Map(near, (row: OutageRow) => e.planar(row.geometry, a.location));
      var m := Query.MinOf(ds);
      var k :| 0 <= k < |ds| && ds[k] == m;
      assert near[k] in near;
      forall row | row in table && DWithin(e, a.location, row.geometry, Threshold)
        ensures m <= e.planar(row.geometry, a.location)
      {
        assert row in near;
        var i :| 0 <= i < |near| && near[i] == row;
        assert ds[i] in ds;
      }
      Some(m)
  }

  /** One row of the grouped query. */
  datatype CheckedRow = CheckedRow(street: string, city: string, zip: string, distanceMiles: Option<real>, hasOutage: bool)

  function RowFor(e: Engine, a: AddressRow, table: seq<OutageRow>): (r: CheckedRow)
    ensures r.street == a.street && r.city == a.city && r.zip == a.zip
    ensures r.distanceMiles.Some? <==> MinDistance(e, a, table).Some?
    ensures r.distanceMiles.Some? ==> r.distanceMiles.value == MinDistance(e, a, table).value * MilesPerDegree
  {
    var m := MinDistance(e, a, table);
    CheckedRow(a.street, a.city, a.zip,
               if m.Some? then Some(m.value * MilesPerDegree) else None,
               m.Some? && m.value <= Threshold)
  }

  /**
   * `has_outage` holds exactly when some outage line lies within the
   * threshold: the join admits only such lines, so a non-NULL minimum is
   * always within it.
   */
  lemma {:induction false} HasOutageIffNearLine(e: Engine, a: AddressRow, table: seq<OutageRow>)
    ensures RowFor(e, a, table).hasOutage <==> exists row :: row in table && e.planar(row.geometry, a.location) <= Threshold
    ensures RowFor(e, a, table).hasOutage <==> RowFor(e, a, table).distanceMiles.Some?
  {
    var m := MinDistance(e, a, table);
    if exists row :: row in table && e.planar(row.geometry, a.location) <= Threshold {
      var row :| row in table && e.planar(row.geometry, a.location) <= Threshold;
      assert DWithin(e, a.location, row.geometry, Threshold);
    }
  }

  /** The search pattern `%query%`. */
  function Pattern(query: string): string {
    "%" + query + "%"
  }

  predicate Matches(a: AddressRow, query: string) {
    ILike(a.street, Pattern(query))
  }

  function HasDistance(r: CheckedRow): bool {
    r.distanceMiles.Some?
  }

  function Miles(r: CheckedRow): real {
    if r.distanceMiles.Some? then r.distanceMiles.value else 0.0
  }

  /** `ORDER BY ... ASC NULLS LAST` order: distances ascend, and no row with a distance follows one without. */
  predicate NullsLast(rows: seq<CheckedRow>) {
    && (forall i, j :: 0 <= i < j < |rows| && HasDistance(rows[i]) && HasDistance(rows[j]) ==> Miles(rows[i]) <= Miles(rows[j]))
    && (forall i, j :: 0 <= i < j < |rows| && !HasDistance(rows[i]) ==> !HasDistance(rows[j]))
  }

  function LacksDistance(r: CheckedRow): bool {
    r.distanceMiles.None?
  }

  /** Rows sorted by distance followed by rows without one are in NULLS LAST order. */
  lemma {:induction false} NullsLastOrder(sorted: seq<CheckedRow>, absent: seq<CheckedRow>)
    requires forall k :: 0 <= k < |sorted| ==> HasDistance(sorted[k])
    requires forall k :: 0 <= k < |absent| ==> !HasDistance(absent[k])
    requires Query.SortedBy(sorted, Miles)
    ensures NullsLast(sorted + absent)
  {
    var r := sorted + absent;
    assert forall k :: 0 <= k < |sorted| ==> r[k] == sorted[k];
    assert forall k :: |sorted| <= k < |r| ==> r[k] == absent[k - |sorted|];
  }

  /** `ORDER BY distance_miles ASC NULLS LAST`. */
  function OrderNullsLast(rows: seq<CheckedRow>): (r: seq<CheckedRow>)
    ensures multiset(r) == multiset(rows)
    ensures |r| == |rows|
    ensures NullsLast(r)
  {
    var present := Query.Filter(rows, HasDistance);
    var absent := Query.Filter(rows, LacksDistance);
    var sorted := Query.SortAsc(present, Miles);
    forall k | 0 <= k < |sorted| ensures HasDistance(sorted[k]) {
      assert sorted[k] in multiset(present);
    }
    forall k | 0 <= k < |absent| ensures !HasDistance(absent[k]) {
      assert absent[k] in absent;
    }
    NullsLastOrder(sorted, absent);
    Query.FilterSplit(rows, HasDistance, LacksDistance);
    assert |multiset(sorted + absent)| == |multiset(rows)|;
    sorted + absent
  }

  /** What the caller receives for one address. */
  datatype AddressStatus = AddressStatus(street: string, city: string, zip: string, hasOutage: bool, outageDetails: Option<real>)

  datatype Report = Report(found: bool, addresses: seq<AddressStatus>)

  function ToStatus(r: CheckedRow): (s: AddressStatus)
    ensures s.outageDetails.Some? <==> r.hasOutage
    ensures s.street == r.street && s.city == r.city && s.zip == r.zip && s.hasOutage == r.hasOutage
  {
    AddressStatus(r.street, r.city, r.zip, r.hasOutage, if r.hasOutage then Some(Miles(r)) else None)
  }

  /** The `WHERE a.street ILIKE ?` test on one address. */
  function MatchTest(query: string): AddressRow -> bool {
    (a: AddressRow) => Matches(a, query)
  }

  /** The grouped rows, one per address whose street matches the pattern, before ordering. */
  function Grouped(e: Engine, addresses: seq<AddressRow>, table: seq<OutageRow>, query: string): (g: seq<CheckedRow>)
    ensures |g| == Query.Count(addresses, MatchTest(query))
    ensures forall r :: r in g ==> exists a :: a in addresses && Matches(a, query) && r == RowFor(e, a, table)
    ensures forall a :: a in addresses && Matches(a, query) ==> RowFor(e, a, table) in g
  {
    var matching := Query.Filter(addresses, MatchTest(query));
    Query.FilterLength(addresses, MatchTest(query));
    var g := Query.Map(matching, (a: AddressRow) => RowFor(e, a, table));
    forall r | r in g ensures exists a :: a in addresses && Matches(a, query) && r == RowFor(e, a, table) {
      var i :| 0 <= i < |g| && g[i] == r;
      assert matching[i] in matching;
    }
    forall a | a in addresses && Matches(a, query) ensures RowFor(e, a, table) in g {
      assert a in matching;
      var i :| 0 <= i < |matching| && matching[i] == a;
      assert g[i] == RowFor(e, a, table);
    }
    g
  }

  /** `x` comes no later than `y` in NULLS LAST order. */
  predicate NoLater(x: CheckedRow, y: CheckedRow) {
    HasDistance(y) ==> HasDistance(x) && Miles(x) <= Miles(y)
  }

  /**
   * The first `n` rows of a NULLS LAST ordering of `grouped`: rows of
   * `grouped`, each no later than any row cut off, and all of them when
   * there are at most `n`.
   */
  lemma {:induction false} LimitOfOrdered(grouped: seq<CheckedRow>, ordered: seq<CheckedRow>, n: nat)
    requires multiset(ordered) == multiset(grouped) && NullsLast(ordered)
    ensures forall x :: x in Query.Limit(ordered, n) ==> x in grouped
    ensures forall x, y :: x in Query.Limit(ordered, n) && y in grouped && y !in Query.Limit(ordered, n) ==> NoLater(x, y)
    ensures |grouped| <= n ==> forall y :: y in grouped ==> y in Query.Limit(ordered, n)
  {
    var rows := Query.Limit(ordered, n);
    assert forall x :: x in grouped <==> x in multiset(ordered);
    assert |ordered| == |grouped| by {
      assert |multiset(ordered)| == |multiset(grouped)|;
    }
    forall x, y | x in rows && y in grouped && y !in rows ensures NoLater(x, y) {
      var k :| 0 <= k < |ordered| && ordered[k] == y;
      assert k >= |rows| by {
        assert forall j :: 0 <= j < |rows| ==> rows[j] == ordered[j];
      }
      var i :| 0 <= i < |rows| && rows[i] == x;
      assert ordered[i] == x;
    }
  }

  /** A prefix of NULLS LAST ordered rows is NULLS LAST ordered and holds only rows of the whole. */
  lemma {:induction false} PrefixKeepsOrder(ordered: seq<CheckedRow>, rows: seq<CheckedRow>)
    requires NullsLast(ordered)
    requires |rows| <= |ordered| && rows == ordered[..|rows|]
    ensures NullsLast(rows)
    ensures forall r :: r in rows ==> r in ordered
  {
    assert forall k :: 0 <= k < |rows| ==> rows[k] == ordered[k];
  }

  /** The rows the statement returns: matching addresses, grouped, ordered nulls last, at most ten. */
  function CheckRows(e: Engine, addresses: seq<AddressRow>, table: seq<OutageRow>, query: string): (rows: seq<CheckedRow>)
    ensures |rows| == Query.Min(Query.Count(addresses, MatchTest(query)), 10)
    ensures NullsLast(rows)
    ensures forall r :: r in rows ==> exists a :: a in addresses && Matches(a, query) && r == RowFor(e, a, table)
  {
    var grouped := Grouped(e, addresses, table, query);
    var ordered := OrderNullsLast(grouped);
    var rows := Query.Limit(ordered, 10);
    PrefixKeepsOrder(ordered, rows);
    LimitOfOrdered(grouped, ordered, 10);
    forall r | r in rows ensures exists a :: a in addresses && Matches(a, query) && r == RowFor(e, a, table) {
      assert r in grouped;
    }
    rows
  }

  /**
   * `LIMIT 10` cuts off only the last rows: every matching address left out
   * comes no earlier than each returned row, and with ten or fewer matching
   * addresses every one of them has its row.
   */
  lemma {:induction false} CheckRowsTopTen(e: Engine, addresses: seq<AddressRow>, table: seq<OutageRow>, query: string, a: AddressRow)
    requires a in addresses && Matches(a, query)
    ensures RowFor(e, a, table) !in CheckRows(e, addresses, table, query) ==>
              forall x :: x in CheckRows(e, addresses, table, query) ==> NoLater(x, RowFor(e, a, table))
    ensures Query.Count(addresses, MatchTest(query)) <= 10 ==> RowFor(e, a, table) in CheckRows(e, addresses, table, query)
  {
    var grouped := Grouped(e, addresses, table, query);
    var ordered := OrderNullsLast(grouped);
    LimitOfOrdered(grouped, ordered, 10);
    assert RowFor(e, a, table) in grouped;
  }

  /** `checkOutage`: refuses before initialisation; otherwise reports whether any address matched and each one's status. */
  function CheckOutage(initialized: bool, e: Engine, addresses: seq<AddressRow>, table: seq<OutageRow>, query: string)
    : (r: Result<Report, string>)
    ensures !initialized <==> r == Err("Database not initialized")
    ensures r.Ok? ==> (r.value.found <==> |r.value.addresses| > 0)
    ensures r.Ok? ==> |r.value.addresses| == Query.Min(Query.Count(addresses, MatchTest(query)), 10)
    ensures r.Ok? ==> forall s :: s in r.value.addresses ==> (s.outageDetails.Some? <==> s.hasOutage)
    ensures r.Ok? ==> forall i :: 0 <= i < |r.value.addresses| ==> StatusOfMatch(e, addresses, table, query, r.value.addresses[i])
    ensures r.Ok? ==> var rows := CheckRows(e, addresses, table, query);
              |r.value.addresses| == |rows| && forall i :: 0 <= i < |rows| ==> r.value.addresses[i] == ToStatus(rows[i])
  {
    if !initialized then Err("Database not initialized")
    else
      var rows := CheckRows(e, addresses, table, query);
      var report := ReportOf(rows);
      StatusesFromRows(e, addresses, table, query, rows, report.addresses);
      Ok(report)
  }

  /** The result object built from the query's rows: not found when there are none, otherwise one status per row. */
  function ReportOf(rows: seq<CheckedRow>): (report: Report)
    ensures report.found <==> |rows| > 0
    ensures |report.addresses| == |rows|
    ensures forall i :: 0 <= i < |rows| ==> report.addresses[i] == ToStatus(rows[i])
  {
    if |rows| == 0 then Report(false, []) else Report(true, Query.Map(rows, ToStatus))
  }

  /** An address is reported found exactly when some address's street matches. */
  lemma {:induction false} FoundIffMatch(initialized: bool, e: Engine, addresses: seq<AddressRow>, table: seq<OutageRow>, query: string)
    ensures var r := CheckOutage(initialized, e, addresses, table, query);
            r.Ok? ==> (r.value.found <==> AnyMatch(addresses, query))
  {
    CountIffMatch(addresses, query);
  }

  /**
   * What the report says about one address: an outage exactly when some
   * outage line lies within the threshold, with the distance to the nearest
   * joined line in miles as its details.
   */
  lemma {:induction false} StatusMeaning(e: Engine, a: AddressRow, table: seq<OutageRow>)
    ensures var s := ToStatus(RowFor(e, a, table));
            && (s.hasOutage <==> exists row :: row in table && e.planar(row.geometry, a.location) <= Threshold)
            && (s.outageDetails.Some? ==> MinDistance(e, a, table).Some?
                                          && s.outageDetails.value == MinDistance(e, a, table).value * MilesPerDegree)
  {
    HasOutageIffNearLine(e, a, table);
  }

  /** `s` is what the check reports for some address whose street matches. */
  predicate StatusOfMatch(e: Engine, addresses: seq<AddressRow>, table: seq<OutageRow>, query: string, s: AddressStatus) {
    exists a :: a in addresses && Matches(a, query) && s == ToStatus(RowFor(e, a, table))
  }

  /** Statuses made one for one from rows of matching addresses are statuses of matching addresses. */
  lemma {:induction false} StatusesFromRows(e: Engine, addresses: seq<AddressRow>, table: seq<OutageRow>, query: string,
                                            rows: seq<CheckedRow>, st: seq<AddressStatus>)
    requires forall r :: r in rows ==> exists a :: a in addresses && Matches(a, query) && r == RowFor(e, a, table)
    requires |st| == |rows| && forall i :: 0 <= i < |rows| ==> st[i] == ToStatus(rows[i])
    ensures forall i :: 0 <= i < |st| ==> StatusOfMatch(e, addresses, table, query, st[i])
  {
    forall i | 0 <= i < |st| ensures StatusOfMatch(e, addresses, table, query, st[i]) {
      assert rows[i] in rows;
      var a :| a in addresses && Matches(a, query) && rows[i] == RowFor(e, a, table);
      assert st[i] == ToStatus(RowFor(e, a, table));
    }
  }

  /** In the checked rows, `has_outage` holds exactly for the rows with a distance. */
  lemma {:induction false} RowsOutageIffDistance(e: Engine, addresses: seq<AddressRow>, table: seq<OutageRow>, query: string)
    ensures var rows := CheckRows(e, addresses, table, query);
            forall k :: 0 <= k < |rows| ==> (rows[k].hasOutage <==> HasDistance(rows[k]))
  {
    var rows := CheckRows(e, addresses, table, query);
    forall k | 0 <= k < |rows| ensures rows[k].hasOutage <==> HasDistance(rows[k]) {
      assert rows[k] in rows;
      var a :| a in addresses && Matches(a, query) && rows[k] == RowFor(e, a, table);
      HasOutageIffNearLine(e, a, table);
    }
  }

  /**
   * The reported addresses come outages first, nearest outage first: an
   * address with an outage is preceded only by addresses with an outage at
   * no greater distance.
   */
  lemma {:induction false} CheckOutageOrder(initialized: bool, e: Engine, addresses: seq<AddressRow>, table: seq<OutageRow>, query: string)
    ensures var r := CheckOutage(initialized, e, addresses, table, query);
            r.Ok? ==> forall i, j :: 0 <= i < j < |r.value.addresses| && r.value.addresses[j].hasOutage ==>
                        && r.value.addresses[i].hasOutage
                        && r.value.addresses[i].outageDetails.value <= r.value.addresses[j].outageDetails.value
  {
    var r := CheckOutage(initialized, e, addresses, table, query);
    if r.Ok? {
      var rows := CheckRows(e, addresses, table, query);
      var st := r.value.addresses;
      RowsOutageIffDistance(e, addresses, table, query);
      forall i, j | 0 <= i < j < |st| && st[j].hasOutage
        ensures st[i].hasOutage && st[i].outageDetails.value <= st[j].outageDetails.value
      {
        assert st[i] == ToStatus(rows[i]) && st[j] == ToStatus(rows[j]);
        assert HasDistance(rows[j]);
        assert HasDistance(rows[i]);
      }
    }
  }

  /** Some address's street matches the pattern. */
  predicate AnyMatch(addresses: seq<AddressRow>, query: string) {
    exists a :: a in addresses && Matches(a, query)
  }

  /** Some address matches exactly when the count of matching addresses is positive. */
  lemma {:induction false} CountIffMatch(addresses: seq<AddressRow>, query: string)
    ensures Query.Count(addresses, MatchTest(query)) > 0 <==> AnyMatch(addresses, query)
  {
    var matching := Query.Filter(addresses, MatchTest(query));
    Query.FilterLength(addresses, MatchTest(query));
    if |matching| > 0 {
      assert matching[0] in matching;
    }
  }

  /** For a term without `%` or `_`, an address matches exactly when its lower-cased street contains the lower-cased term. */
  lemma {:induction false} MatchesIsCaseInsensitiveContains(a: AddressRow, query: string)
    requires !HasWildcard(query)
    ensures Matches(a, query) <==> Contains(ToLower(a.street), ToLower(query))
  {
    SurroundedILikeIsContains(a.street, query);
  }
}
