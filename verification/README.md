# Power outage tracker: a Dafny model of its data core

The power outage tracker helps the members of an electric cooperative find
out whether the power is out at addresses they watch. Its core is a data
layer with these parts:

- **Generator.** Python scripts download the state's address composite page by
  page (`download_addresses.py`). They validate each record
  (`AddressModel`), build the USPS address lines, and detect the address
  columns of a shapefile when converting it (`convert.py`). They also turn
  encoded outage polylines into GeoJSON (`LineModel`, `LinesResponseModel`).
- **In-browser DuckDB layer.** A prepared-statement wrapper binds named
  arguments positionally (`DuckDbQuery`). SQL query functions and queries
  find the closest addresses, run fuzzy Jaro-Winkler and `ILIKE` searches,
  and find addresses within 1000 metres. Others select power, service and
  outage lines near a point or inside the map bounds, cluster addresses into
  0.01° cells, and compute the distance from an address to the nearest
  outage.
- **App state.** The zustand store holds the geolocation, the DuckDB status,
  the address search and the watched addresses, plus two selectors.
- **Small app libraries.** These render one-line addresses and distance
  labels, decode the base power lines, and build GeoJSON points. A second
  DuckDB helper loads GeoJSON features in batches of 1000 rows and searches
  them.
- **Outage checker.** The web checker (`web/src/polylines.ts`,
  `web/src/duckdb.ts`) fetches outage lines with ETag caching. It loads them
  into an `outage_lines` table and reports, for a street search, the distance
  to the nearest outage line.
- **Command-line zip-code checker (`check-outage.js`).** It looks up a zip code
  in the cooperative's outage report. It formats the status block and lists
  affected zip codes by severity.

## How the model is built

- Every SQL statement is a pure function over a table held as a sequence of
  rows:
  - `WHERE` is a filter;
  - `ORDER BY` is a stable sort on the key;
  - `LIMIT` keeps a prefix;
  - `GROUP BY` with `min` is a minimum over the group.
- DuckDB's spatial and text functions are fields of an `Engine` record of
  uninterpreted functions (`SpatialEngine.Engine`): `ST_Distance_Sphere`,
  `ST_Distance_Spheroid`, `ST_Distance`, `ST_ShortestLine` and
  `jaro_winkler_similarity`. The polyline decoder and number rendering are
  function parameters in the same way.
- Axis conventions are kept exactly as written. Stored points are
  `(longitude, latitude)`, and some statements compare them with a
  `(latitude, longitude)` point. The contracts state which point each
  distance is taken from.
- Shared toolkits:
  - `Query`: filter, map, limit, stable sorts, top-n, minimum;
  - `Text`: prefix, index, split/join, case mapping, trim, digits;
  - `Like`: SQL `LIKE` and `ILIKE`;
  - `Geometry`: points, pairs, lines, envelopes, GeoJSON.

## Model

| member | source | states |
|---|---|---|
| DuckDbQuery.Build | app/src/duckdb/DuckDbQuery.ts:43-53 | A statement built without a parameter order has the empty order; one built with an order keeps it, and the SQL text is kept |
| DuckDbQuery.Execute | app/src/duckdb/DuckDbQuery.ts:55-63 | An empty order binds no values; otherwise value i is the argument named by the i-th key, one per key |
| DuckDbQuery.RepeatedKeyBindsSameValue | app/src/duckdb/DuckDbQuery.ts:62 | Two positions that name the same key receive the same value |
| DuckDbQuery.UnnamedKeysIgnored | app/src/duckdb/DuckDbQuery.ts:62 | Changing an argument the order does not name leaves the bound values unchanged |
| DuckDbQuery.UnorderedQueryIgnoresArgs | app/src/duckdb/DuckDbQuery.ts:52-60 | A statement built without an order runs with no values, whatever the arguments |
| Query.Filter | app/src/duckdb/queries/getAllAddressesInBounds.ts:26-35 | `WHERE`: an element is kept iff it was in the input and meets the predicate; the kept elements are a sub-multiset |
| Query.FilterLength | app/src/lib/duckdb.ts:87 | `WHERE` keeps as many rows as pass the test |
| Query.FilterMultiset | app/src/lib/duckdb.ts:87 | `WHERE` keeps every copy of a passing row and no copy of a failing one |
| Query.CountPointwise | app/src/duckdb/queryFunctions/searchAddressesQueryFunction.ts:22-23 | Two tables that pass and fail the same positions have the same count (scored rows against the table they were scored from) |
| Query.SortAsc | app/src/duckdb/queries/getNearbyAddresses.ts:27 | `ORDER BY ... ASC`: the result is sorted by the key and a permutation of the input |
| Query.SortDesc | app/src/duckdb/queries/getAddressClustersInBounds.ts:47 | `ORDER BY ... DESC`: sorted descending and a permutation of the input |
| Query.TopAsc | app/src/duckdb/queryFunctions/closestAddressesQueryFunction.ts:27-29 | `ORDER BY ... LIMIT n`: min(len, n) rows, sorted, drawn from the input, none with a larger key than any row left out |
| Query.TopDesc | app/src/duckdb/queryFunctions/searchAddressesQueryFunction.ts:24 | `ORDER BY ... DESC LIMIT n`: as TopAsc with the order reversed |
| Query.MinOf | app/src/duckdb/queryFunctions/closestOutageQueryFunction.ts:13-16 | `min(...)` of a non-empty group is one of its members and no member is smaller |
| Query.MinOfMonotone | app/src/duckdb/queryFunctions/closestOutageQueryFunction.ts:13-16 | A group that contains another group's values has a minimum no larger |
| Text.IndexOf | web/src/duckdb.ts:121 | The first occurrence of a substring, or `None` exactly when it occurs nowhere |
| Text.JoinHead | check-outage.js:83 | A joined text begins with its first piece |
| Text.SplitJoin | generator/lib/AddressModel.py:125 | Splitting a join of separator-free pieces gives the pieces back |
| Text.UpperIdempotent | generator/lib/AddressModel.py:144-147 | Upper-casing twice is upper-casing once, and no lower-case letter remains |
| Text.TrimEmpty | app/src/lib/duckdb.ts:78-80 | `trim()` is empty exactly when every character is ECMAScript white space or a line terminator (tab, vertical tab, form feed, space, no-break space, the other Zs spaces, the byte order mark, line feed, carriage return, U+2028, U+2029) |
| Text.NatToStringRoundTrip | check-outage.js:131 | The decimal rendering of a natural number reads back as the number and has no leading zero |
| Like.PercentMatchesAll | app/src/lib/duckdb.ts:87 | The pattern `%` matches every string |
| Like.PrefixPattern | app/src/lib/duckdb.ts:87 | A wildcard-free `t%` matches exactly the strings starting with `t` |
| Like.SurroundedPatternIsContains | app/src/lib/duckdb.ts:87 | A wildcard-free `%t%` matches exactly the strings containing `t` |
| Like.LowerKeepsWildcards | app/src/lib/duckdb.ts:82-87 | Lower-casing a term neither adds nor removes a `%` or `_` |
| Like.UnderscoreIsWildcard | app/src/queries/searchAddresses.ts:80 | `%_%` matches every non-empty string |
| Like.SurroundedILikeIsContains | web/src/duckdb.ts:100-121 | `ILIKE '%t%'` for a wildcard-free term is case-insensitive containment |
| Geometry.SwapAll | generator/lib/LineModel.py:11 | Each pair is swapped, one for one |
| Geometry.SwapAllInvolution | web/src/polylines.ts:77-79 | Swapping twice gives the original coordinates back |
| Geometry.EnvelopeOf | app/src/duckdb/queries/getAllServiceLinesInBounds.ts:23-28 | `ST_MakeEnvelope(sw.lon, sw.lat, ne.lon, ne.lat)`: the corners are taken in that order |
| Geometry.VertexInsideIntersects | app/src/duckdb/queries/getAllServiceLinesInBounds.ts:20-29 | A line with a vertex inside the box intersects it |
| Geometry.WestOfEnvelopeDisjoint | app/src/duckdb/queries/getAllOutageLinesInBounds.ts:17-26 | A line entirely west of the box does not intersect it |
| SpatialEngine.JaroWinkler | app/src/duckdb/queryFunctions/searchAddressesQueryFunction.ts:21 | `jaro_winkler_similarity(a, b, 0.7)` is the similarity when it reaches the cut-off and 0 below it |
| SpatialEngine.PositiveScoreMeetsCutoff | app/src/duckdb/queries/searchAddresses.ts:29 | A positive score is a similarity at or above the cut-off |
| AddressModel.ConvertNullStrings | generator/lib/AddressModel.py:86-91 | The string `<Null>` becomes None; every other value passes unchanged |
| AddressModel.ParseIntText | generator/lib/AddressModel.py:44 | The text of an `int` field is accepted exactly when it is an optional sign followed by one or more ASCII digits |
| AddressModel.ParseIntTextRoundTrip | generator/lib/AddressModel.py:44 | The decimal text of any integer is read back as that integer |
| AddressModel.PreSepFromText | generator/lib/AddressModel.py:44 | `St_PreSep` delivered as the text of an integer validates to that integer |
| AddressModel.Validate | generator/lib/AddressModel.py:9-91 | Only a record whose fields have acceptable types is accepted: the five required fields must be strings; the eleven optional text fields must not be numbers; `St_PreSep` must be absent, `<Null>`, an integer or the text of one. Required fields are taken as given, so `<Null>` in PlaceName survives. The twelve validated optional fields are scrubbed. Id, coordinates and county are copied. `St_PreSep` becomes the integer or its parsed text. A missing city or zip code is a validation error |
| AddressModel.ValidateAccepts | generator/lib/AddressModel.py:9-91 | A record is accepted exactly when every field has a type its declaration accepts |
| AddressModel.ValidatePreSepText | generator/lib/AddressModel.py:44 | A record whose `St_PreSep` is the text of an integer validates with that integer as its separator |
| AddressModel.FilledTokensSplit | generator/lib/AddressModel.py:95-125 | Joining the non-empty space-free slots with spaces splits back into exactly those slots |
| AddressModel.Line1Tokens | generator/lib/AddressModel.py:93-125 | Line 1 splits on spaces into exactly its truthy NENA components, in order |
| AddressModel.AddressLine1 | generator/lib/AddressModel.py:93-125 | Line 1 is empty exactly when every component is, and starts with the address number whenever there is one |
| AddressModel.JoinFilled | generator/lib/AddressModel.py:95-125 | The non-empty slots joined by spaces are empty exactly when all slots are, and start with the first slot when it is filled |
| AddressModel.AddressLine2 | generator/lib/AddressModel.py:127-139 | The whole line for each of the eight combinations of filled building, floor and unit: the present parts `BLDG b`, `FL f`, `UNIT u`, in that order, joined by single spaces, and empty when none is filled |
| AddressModel.ToRowData | generator/lib/AddressModel.py:141-147 | The id is copied; both lines, city and zip code are their upper-cased text, character by character |
| AddressModel.RowDataIsUpperCase | generator/lib/AddressModel.py:144-147 | The row's text fields are already upper case: upper-casing them again changes nothing |
| Formatting.OneLineFull | app/src/lib/addressOneLineFull.ts:3-10 | The result starts with line 1 and ends with `, city, CO, zip`; line 2 appears after one space exactly when it is non-empty |
| Formatting.RoundHalfUp | app/src/lib/formatDistance.ts:9 | `Math.round`: the integer within half of the input, halves upward |
| Formatting.Pad3 | app/src/lib/formatDistance.ts:10 | A non-leading group is three digits reading back as its value |
| Formatting.GroupThousands | app/src/lib/formatDistance.ts:1-10 | en-US grouping: digits and commas only, a comma exactly at every fourth place counted from the end, groups of three after a leading group of one to three, no leading zero for positive numbers, `0` for zero |
| Formatting.GroupStep | app/src/lib/formatDistance.ts:10 | Appending a comma and a three-digit group to a grouped rendering keeps it grouped |
| Formatting.NatToStringShort | app/src/lib/formatDistance.ts:10 | Numbers below 10, 100 and 1000 render with at most one, two and three digits |
| Formatting.GroupThousandsRoundTrip | app/src/lib/formatDistance.ts:1-10 | Removing the commas from the en-US grouping leaves digits that read back as the number |
| Formatting.UngroupAppend | app/src/lib/formatDistance.ts:10 | Removing commas distributes over concatenation |
| Formatting.DigitsValueAppend | app/src/lib/formatDistance.ts:10 | The value of concatenated digit strings shifts the first by the length of the second |
| Formatting.FormatIntegerRoundTrip | app/src/lib/formatDistance.ts:10 | The rendered integer (sign and grouped magnitude) reads back as the integer |
| Formatting.FormatInteger | app/src/lib/formatDistance.ts:10 | A leading minus exactly for negatives, followed by the en-US grouped magnitude with no leading zero; zero is exactly `0` |
| Formatting.FormatDistanceReadsBack | app/src/lib/formatDistance.ts:8-13 | The label is the rounded number, one space and the unit word. The number is en-US grouped with no leading zero, after a minus sign for negatives, and reads back as the rounded value. The label ends in `s` exactly when the rounded value is not 1 |
| Formatting.FormatDistance | app/src/lib/formatDistance.ts:8-13 | The label is `1 meter` exactly when the distance rounds to one; otherwise it ends in ` meters` |
| Formatting.UnitLabel | app/src/lib/formatDistance.ts:11-12 | A number and its unit word read `1 meter` only for one; every other number takes ` meters` |
| Formatting.FormatDistanceExamples | app/src/lib/formatDistance.ts:4-6 | 52300 m is `52,300 meters`, 0.6 m is `1 meter`, 0.2 m is `0 meters` |
| ColumnDetect.FirstMatch | generator/convert.py:22-30 | `next(...)` gives the first column meeting the test, or None exactly when no column does |
| ColumnDetect.Or | generator/convert.py:23-26 | `a or b` is `a` when it is a non-empty name and `b` otherwise |
| ColumnDetect.Detect | generator/convert.py:22-30 | Each field's column is the first match of its hint test, falling back to the listed names for the full address and the house number |
| ColumnDetect.DetectedColumnsQualify | generator/convert.py:22-30 | Every detected name is one of the columns and meets its field's test |
| ColumnDetect.AddressExpr | generator/convert.py:33-41 | The full-address column alone when detected; otherwise `CONCAT_WS` exactly when a number or street column was detected, with one argument per detected column, number first and street last; `''` exactly when none of the three was detected |
| ColumnDetect.AddressExprColumns | generator/convert.py:22-41 | The address expression reads only shapefile columns: the full-address column meeting its test, or number and street columns meeting theirs |
| ColumnDetect.ExprColumnsOf | generator/convert.py:36-41 | Every `CONCAT_WS` argument is the detected number or street column |
| ColumnDetect.FieldExpr | generator/convert.py:43-44 | The city and zip expressions are the quoted column exactly when one was detected, else `''` |
| ColumnDetect.ConcatArgumentsSplit | generator/convert.py:38-41 | The `CONCAT_WS` argument list splits back into the quoted column names, in order |
| Store.Initial | app/src/state/useStore.ts:55-102 | The store starts pending, initializing, with an empty search and no watched addresses |
| Store.SetPosition | app/src/state/useStore.ts:57-63 | Sets `granted` and the position; nothing else changes |
| Store.SetError | app/src/state/useStore.ts:64-70 | Sets `rejected` and the error; nothing else changes |
| Store.SelectGeolocationPosition | app/src/state/selectGeolocationPosition.ts:6-9 | The position exactly when granted; otherwise the error `Geolocation permission not granted` |
| Store.SelectAfterSetPosition | app/src/state/useStore.ts:57-70 | After `setPosition` the selector yields the position; after a later `setError` it fails |
| Store.GeolocationInvariant | app/src/state/useStore.ts:35-38 | Every setter and the initial state keep "granted implies a position"; the selector fails exactly when not granted |
| Store.SetDuckDbStatus | app/src/state/useStore.ts:74-77 | Only the DuckDB status changes |
| Store.SetSearchTerm | app/src/state/useStore.ts:84-87 | Only the search term changes |
| Store.SetSearchResults | app/src/state/useStore.ts:88-91 | Only the search results change |
| Store.SetActiveSearchResult | app/src/state/useStore.ts:92-95 | Only the active result changes |
| Store.SetRecommendedResults | app/src/state/useStore.ts:96-99 | Only the recommended results change |
| Store.SearchSettersCommute | app/src/state/useStore.ts:84-99 | Setters of different fields commute; a second set of the same field overrides the first |
| Store.SelectAddressSearchResults | app/src/state/selectAddressSearchResults.ts:3-9 | The search results when non-empty, otherwise the recommended results |
| Store.AddAddress | app/src/state/useStore.ts:103-114 | An address already watched (by id) leaves the list unchanged; otherwise it is appended with the time |
| Store.RemoveAddress | app/src/state/useStore.ts:115-121 | Exactly the entries with other ids remain, and no entry with the id |
| Store.RemoveAddressAppend | app/src/state/useStore.ts:117-120 | `filter` works entry by entry: removing from two lists joined is joining the two removals, so order and repeats are kept |
| Store.RemoveAddressSingle | app/src/state/useStore.ts:119 | A single entry stays exactly when its id differs |
| Store.AddKeepsIdsUnique | app/src/state/useStore.ts:105-113 | Adding keeps watched ids unique |
| Store.RemoveKeepsIdsUnique | app/src/state/useStore.ts:117-120 | Removing keeps watched ids unique |
| Store.RemoveAbsent | app/src/state/useStore.ts:117-120 | Removing an id that is not watched changes nothing |
| Store.AddThenRemove | app/src/state/useStore.ts:103-121 | Adding a new address and removing its id restores the list |
| Store.RemoveIdempotent | app/src/state/useStore.ts:115-121 | Removing twice is removing once |
| Store.RemoveCount | app/src/state/useStore.ts:115-121 | With unique ids, removing a watched id shortens the list by one, an absent one by none |
| LineGeoJson.LineToGeoJson | generator/lib/LineModel.py:8-19 | A `LineString` feature whose path is the decoded line with each `[lat, lng]` swapped, or failure exactly when decoding fails |
| LineGeoJson.LineToGeoJsonInverts | generator/lib/LineModel.py:9-11 | Swapping the feature's path back gives the decoded line |
| LineGeoJson.LinesToGeoJson | generator/lib/LinesResponseModel.py:9-13 | One feature per line, in order; fails exactly when some line fails to decode |
| LineGeoJson.CollectionIsLngLat | generator/lib/LinesResponseModel.py:9-13 | Each feature's vertex is the decoded vertex with its axes swapped |
| LineGeoJson.FetchPowerLines | app/src/lib/fetchPowerLines.ts:20-23 | One decoded line per entry, id equal to its index, geometry exactly as decoded |
| LineGeoJson.BaseLinesAreUnswapped | app/src/lib/fetchPowerLines.ts:20-23 | The app's base lines stay `[lat, lng]`: they are the swap of the generator's GeoJSON path |
| LineGeoJson.PositionToGeoJsonPoint | app/src/lib/positionToGeoJsonPoint.ts:4-7 | A `Point` with coordinates `[longitude, latitude]` |
| LineGeoJson.PositionPointRoundTrip | app/src/lib/positionToGeoJsonPoint.ts:4-7 | Reading the position back from the point gives the position; the converse holds for points |
| OutagePolylines.DecodeLine | web/src/polylines.ts:76-84 | A decoded line keeps the API id and holds the decoded vertices swapped to `[lng, lat]` |
| OutagePolylines.DecodeAll | web/src/polylines.ts:71-89 | Every returned line is the decoding of some API line, and every API line that decodes has its decoding in the result |
| OutagePolylines.DecodeAllTotal | web/src/polylines.ts:71-89 | When every line decodes, the result is one line per API line, in order |
| OutagePolylines.DecodeAllAppend | web/src/polylines.ts:71-89 | Decoding two feeds joined is joining their decodings, so lines keep feed order |
| OutagePolylines.DecodeAllSingle | web/src/polylines.ts:73-88 | One feed line gives its decoded line, or nothing when decoding throws |
| OutagePolylines.TotalStep | web/src/polylines.ts:81-84 | Pushing the decoding of one more line onto a line-for-line result keeps it line for line |
| OutagePolylines.DecodeSkipsFailure | web/src/polylines.ts:85-88 | A line that fails to decode, wherever it sits in the feed, is dropped: the result is the decoding of the lines before it followed by that of the lines after it |
| OutagePolylines.DecodeLines | web/src/polylines.ts:71-89 | The loop computes exactly DecodeAll |
| OutagePolylines.GetCachedLines | web/src/polylines.ts:119-136 | A stored cache is used exactly when it parses and has a non-empty etag and a lines array |
| OutagePolylines.CacheRoundTrip | web/src/polylines.ts:119-143 | Writing a cache and reading it back gives it back when its etag is non-empty, and nothing otherwise |
| OutagePolylines.RequestHeaders | web/src/polylines.ts:41-47 | Always `Accept: application/json`; `If-None-Match` exactly when the cache has an etag |
| OutagePolylines.FetchOutageLines | web/src/polylines.ts:35-114 | A 304 with a cache returns the cached lines; errors fall back to the cache or to none; a good response is decoded, returned and cached with the clock and with etag equal to the `ETag` header, or empty when the header is absent or empty |
| OutagePolylines.MissingETagDefeatsCache | web/src/polylines.ts:65-127 | A response without an ETag is cached with an empty etag, which the next read rejects |
| OutagePolylines.OutcomeSources | web/src/polylines.ts:35-114 | The lines returned are the cached lines, the freshly decoded lines, or none |
| Wkt.BuildLineString | web/src/duckdb.ts:64-76 | The text starts with `LINESTRING(` and ends with `)` |
| Wkt.ReplaceFirst | app/src/duckdb/queryFunctions/nearbyPowerLinesQueryFunction.ts:43 | `String.replace` with a string pattern replaces only the first occurrence, and nothing when there is none |
| Wkt.ParseVertex | app/src/duckdb/queryFunctions/nearbyPowerLinesQueryFunction.ts:44-46 | A vertex with at least two numbers reads as `[second, first]`; otherwise the parse fails |
| Wkt.ParseVertices | app/src/duckdb/queryFunctions/nearbyPowerLinesQueryFunction.ts:44-46 | Succeeds iff every vertex parses, one pair per vertex |
| Wkt.ParseLineString | app/src/duckdb/queryFunctions/nearbyPowerLinesQueryFunction.ts:43-46 | A successful parse has one pair per comma-separated vertex |
| Wkt.ParseBuildSwaps | app/src/duckdb/queryFunctions/nearbyPowerLinesQueryFunction.ts:40-53 | Parsing the WKT of a line whose numbers read back exactly gives the line with every pair swapped |
| OutageCheck.ToLine | web/src/duckdb.ts:65-67 | The stored line has one point per coordinate pair, in order |
| OutageCheck.InsertArgs | web/src/duckdb.ts:70-77 | The insert binds the line id and a `LINESTRING(` text |
| OutageCheck.Lookup | web/src/duckdb.ts:43-46 | A key is found exactly when a row holds it |
| OutageCheck.Upsert | web/src/duckdb.ts:72 | `INSERT OR REPLACE` on the primary key: the key is present afterwards, other keys are unchanged, keys stay unique, and the table grows only for a new key |
| OutageCheck.UpsertLookup | web/src/duckdb.ts:72 | After an upsert the key maps to the new geometry and every other key to its old one |
| OutageCheck.LoadAll | web/src/duckdb.ts:58-81 | The loaded table has unique keys and no more rows than lines |
| OutageCheck.LoadOutageLines | web/src/duckdb.ts:49-81 | The loop computes LoadAll from an emptied table |
| OutageCheck.LoadedKeysComeFromLoadedLines | web/src/duckdb.ts:58-81 | A key is loaded iff some line with that id has two or more vertices and inserts successfully |
| OutageCheck.LoadLastWins | web/src/duckdb.ts:58-81 | For a repeated id the last line that loads wins |
| OutageCheck.NearRows | web/src/duckdb.ts:120 | The `LEFT JOIN ... ST_DWithin` partners are exactly the lines within 0.002 |
| OutageCheck.MinDistance | web/src/duckdb.ts:114-120 | NULL exactly when no line is within the threshold; otherwise the smallest distance among those lines |
| OutageCheck.RowFor | web/src/duckdb.ts:109-122 | The grouped row copies the street, city and zip, and its miles are the minimum times 69, or NULL |
| OutageCheck.HasOutageIffNearLine | web/src/duckdb.ts:114-120 | `has_outage` holds iff some line is within 0.002, iff the distance is not NULL |
| OutageCheck.NullsLastOrder | web/src/duckdb.ts:123 | Sorted rows with distances followed by rows without form a NULLS LAST order |
| OutageCheck.OrderNullsLast | web/src/duckdb.ts:123 | `ORDER BY distance_miles ASC NULLS LAST` is a permutation in that order |
| Query.FilterSplit | web/src/duckdb.ts:123 | Filtering by a test and by its negation together keeps every row exactly once (the rows with and without a distance) |
| OutageCheck.ToStatus | web/src/duckdb.ts:146-156 | Outage details are present exactly when `has_outage`; the other fields are copied |
| OutageCheck.Grouped | web/src/duckdb.ts:119-122 | One row per matching address: as many rows as matching addresses, each the row of a matching address, and every matching address has its row |
| OutageCheck.PrefixKeepsOrder | web/src/duckdb.ts:123-124 | `LIMIT` keeps a NULLS LAST prefix of the ordered rows |
| OutageCheck.CheckRows | web/src/duckdb.ts:107-124 | min(number of matching addresses, 10) rows, NULLS LAST, each the row of a matching address |
| OutageCheck.LimitOfOrdered | web/src/duckdb.ts:123-124 | `LIMIT n` of a NULLS LAST ordering keeps rows of the input, none later than a row cut off, and every row when there are at most n |
| OutageCheck.CheckRowsTopTen | web/src/duckdb.ts:119-124 | A matching address left out comes no earlier than every reported row; with ten or fewer matching addresses every one is reported |
| OutageCheck.CheckOutage | web/src/duckdb.ts:86-158 | `Database not initialized` exactly without a database; otherwise the report holds one status per checked row, in the rows' NULLS LAST order (status i is `ToStatus` of row i), min(matching addresses, 10) of them, each the status of a matching address, with `found` iff some address is reported and details exactly on an outage |
| OutageCheck.ReportOf | web/src/duckdb.ts:131-158 | `found` iff there is a row; one status per row, status i built from row i |
| OutageCheck.StatusesFromRows | web/src/duckdb.ts:139-156 | Statuses built one for one from rows of matching addresses are each the status of a matching address |
| OutageCheck.StatusMeaning | web/src/duckdb.ts:114-118 | A reported address has an outage iff some outage line is within 0.002 of it, and its details are the nearest joined line's distance times 69 |
| OutageCheck.RowsOutageIffDistance | web/src/duckdb.ts:114-120 | In the checked rows `has_outage` holds exactly for the rows with a non-NULL distance |
| OutageCheck.CheckOutageOrder | web/src/duckdb.ts:123-156 | Reported addresses with an outage come first, by increasing distance: one with an outage is preceded only by ones with an outage no farther away |
| OutageCheck.FoundIffMatch | web/src/duckdb.ts:121-158 | An initialised check reports `found` exactly when some address's street matches |
| OutageCheck.CountIffMatch | web/src/duckdb.ts:121 | The number of matching addresses is positive exactly when some address matches |
| OutageCheck.MatchesIsCaseInsensitiveContains | web/src/duckdb.ts:100-121 | A wildcard-free query matches exactly the streets that contain it, ignoring case |
| AppDuckDb.InitDuckDB | app/src/lib/duckdb.ts:6-26 | Afterwards a database exists; an existing one is kept, otherwise the database and connection are created |
| AppDuckDb.InitIdempotent | app/src/lib/duckdb.ts:7 | Initialising twice is initialising once |
| AppDuckDb.GetConnection | app/src/lib/duckdb.ts:28-33 | A connection is returned unless a database exists without one, the early return of `initDuckDB` |
| AppDuckDb.ColdStartConnects | app/src/lib/duckdb.ts:28-33 | From nothing, `getConnection` connects and a second call is the same |
| AppDuckDb.Coordinates | app/src/lib/duckdb.ts:60-61 | A feature without geometry is placed at `[0, 0]` |
| AppDuckDb.AllRows | app/src/lib/duckdb.ts:55-63 | Row k is feature k with id k |
| AppDuckDb.BatchRows | app/src/lib/duckdb.ts:55-63 | A batch holds min(remaining, 1000) rows with ids counting on from its start |
| AppDuckDb.AllRowsExtend | app/src/lib/duckdb.ts:55-63 | The rows so far followed by the next batch are the rows of the longer prefix |
| AppDuckDb.Escape | app/src/lib/duckdb.ts:62 | Doubling quotes never shortens the text |
| AppDuckDb.ReadEscaped | app/src/lib/duckdb.ts:62 | A quote-doubled text followed by the closing quote reads back as the text |
| AppDuckDb.LiteralKeepsProperties | app/src/lib/duckdb.ts:62 | The row literal's quoted field reads back as the properties JSON |
| AppDuckDb.CreateTableFromFeatures | app/src/lib/duckdb.ts:35-70 | ceil(n/1000) statements, each batch non-empty and at most 1000 rows, all batches together equal to every feature's row in order |
| AppDuckDb.PointFeature | app/src/lib/duckdb.ts:91-98 | A `Point` at `[longitude, latitude]` with the parsed properties |
| AppDuckDb.PointFeatures | app/src/lib/duckdb.ts:91-98 | One feature per row, in order |
| AppDuckDb.MatchingRows | app/src/lib/duckdb.ts:85-89 | Exactly the rows whose lower-cased properties match the lower-cased pattern, as many as the table has |
| AppDuckDb.LimitedFeatures | app/src/lib/duckdb.ts:85-99 | The features of the first `limit` filtered rows: exactly min(kept rows, `limit`) of them, each from a kept row, and every kept row present when none is cut off |
| AppDuckDb.SearchAddresses | app/src/lib/duckdb.ts:72-99 | A blank query gives nothing; otherwise exactly min(matching rows, `limit`) features, each from a matching row, all of them when they fit |
| AppDuckDb.WhitespaceQueryIsEmpty | app/src/lib/duckdb.ts:78-80 | A whitespace-only query returns no rows |
| AppDuckDb.FormFeedNoBreakSpaceIsBlank | app/src/lib/duckdb.ts:78-80 | A query of a form feed and a no-break space is blank and returns nothing |
| AppDuckDb.MatchIsCaseInsensitiveContains | app/src/lib/duckdb.ts:82-87 | A wildcard-free query matches exactly the properties containing it, ignoring case |
| AppDuckDb.LoadedFeatureIsFound | app/src/lib/duckdb.ts:35-99 | Searching the loaded table for a feature's own properties text, with the limit at the table size, returns that feature's point |
| AddressQueries.OmittedIsCutOff | app/src/duckdb/queryFunctions/closestAddressesQueryFunction.ts:27-29 | A row left out by the limit is in the input and not in the result |
| AddressQueries.Nearest | app/src/duckdb/queryFunctions/closestAddressesQueryFunction.ts:19-29 | min(len, limit) rows, nearest first, each with its own distance, none farther than a row left out |
| AddressQueries.Best | app/src/duckdb/queryFunctions/searchAddressesQueryFunction.ts:23-24 | Exactly min(positive-score rows, `limit`) rows, best first, each with its own score and distance, none worse than a positive row left out |
| AddressQueries.ClosestAddressesQFBinding | app/src/duckdb/queryFunctions/closestAddressesQueryFunction.ts:30 | `["longitude", "latitude"]` binds the point `(lon, lat)`, the axes of the stored location |
| AddressQueries.LatFirstReferenceIsFlipped | app/src/queries/closestAddresses.ts:26-29 | Binding latitude then longitude gives the flipped point, the stored point only on the diagonal |
| AddressQueries.ClosestAddressesQF | app/src/duckdb/queryFunctions/closestAddressesQueryFunction.ts:19-29 | Sphere distance from `(lon, lat)` to each location, nearest first, at most `limit` |
| AddressQueries.ClosestAddresses | app/src/queries/closestAddresses.ts:7-29 | As above but from the flipped `(lat, lon)` point |
| AddressQueries.TopClosestAddresses | app/src/queries/topClosestAddresses.ts:6-24 | The ten nearest to the flipped point |
| AddressQueries.AddressSearch | app/src/queries/searchAddresses.ts:72-97 | Exactly min(matching rows, 25) rows whose full address matches `ILIKE '%term%'`, score 100, nearest first, none farther than a matching row left out |
| AddressQueries.AddressSearchValues | app/src/queries/searchAddresses.ts:93-97 | Binds longitude, latitude, then `%term%` |
| AddressQueries.AddressSearchIsContains | app/src/queries/searchAddresses.ts:80 | A wildcard-free term matches exactly the full addresses that contain it, ignoring case |
| AddressQueries.UnderscoreTermMatchesAll | app/src/queries/searchAddresses.ts:80 | The term `_` matches every non-empty address |
| AddressQueries.SearchAddressesQF | app/src/duckdb/queryFunctions/searchAddressesQueryFunction.ts:15-26 | Exactly min(positive rows, `limit`) rows scored by Jaro-Winkler of both lines against the upper-cased term, each at or above 0.7, best first, none worse than a positive row left out |
| AddressQueries.SearchAddressesQFBinding | app/src/duckdb/queryFunctions/searchAddressesQueryFunction.ts:26 | Only the search term is bound |
| AddressQueries.SearchAddresses | app/src/duckdb/queries/searchAddresses.ts:15-31 | As above on `address`: exactly min(positive rows, `limit`) rows, with the spheroid distance between the flipped location and the flipped user point |
| AddressQueries.FlippedOperandsAgree | app/src/duckdb/queries/searchAddresses.ts:24-27 | Both distance operands are `(lat, lon)`: an address at the user's position meets the user's point |
| AddressQueries.GetNearbyAddresses | app/src/duckdb/queries/getNearbyAddresses.ts:13-29 | Exactly min(rows under 1000 metres, `limit`) rows, all under 1000 metres, nearest first, none farther than a near row left out |
| AddressQueries.ToAppAddress | app/src/duckdb/queries/getAllAddressesInBounds.ts:23-24 | Latitude is `ST_Y`, longitude `ST_X` |
| AddressQueries.GetAllAddressesInBounds | app/src/duckdb/queries/getAllAddressesInBounds.ts:17-36 | Exactly the addresses strictly inside the envelope |
| LineQueries.NearbyPowerLinesBinding | app/src/duckdb/queryFunctions/nearbyPowerLinesQueryFunction.ts:33-39 | The five values are lat, lon, lat, lon and the radius |
| LineQueries.PowerLineHits | app/src/duckdb/queryFunctions/nearbyPowerLinesQueryFunction.ts:19 | Each row with its sphere distance from the reference point |
| LineQueries.NearbyPowerLineRows | app/src/duckdb/queryFunctions/nearbyPowerLinesQueryFunction.ts:15-23 | Exactly the lines closer than the radius to `(lat, lon)`, nearest first |
| LineQueries.ReadRows | app/src/duckdb/queryFunctions/nearbyPowerLinesQueryFunction.ts:40-53 | Reading every row succeeds iff each row reads; the lines keep the rows' ids and readings one for one |
| LineQueries.ReadPowerLines | app/src/duckdb/queryFunctions/nearbyPowerLinesQueryFunction.ts:40-53 | Succeeds iff every geometry text parses; ids and parsed geometries one for one |
| LineQueries.NearbyPowerLinesQF | app/src/duckdb/queryFunctions/nearbyPowerLinesQueryFunction.ts:7-56 | One result per selected row, ids from the table |
| LineQueries.NearbyPowerLinesAreLatLng | app/src/duckdb/queryFunctions/nearbyPowerLinesQueryFunction.ts:40-53 | If `ST_AsText` writes `LINESTRING(x y, ...)` with no space before the parenthesis, every returned geometry is the stored line swapped to `[lat, lng]` |
| LineQueries.LineHits | app/src/duckdb/queries/getNearbyServiceLines.ts:17-19 | Each line with its planar distance from the point |
| LineQueries.NearLines | app/src/duckdb/queries/getNearbyServiceLines.ts:12-23 | Exactly the lines below the threshold, nearest first |
| LineQueries.LineGeoJson | app/src/duckdb/queries/getNearbyServiceLines.ts:25-29 | A `LineString` whose path is the line's `(x, y)` vertices |
| LineQueries.ToGeoJson | app/src/duckdb/queries/getNearbyServiceLines.ts:25-29 | One geometry per row, in order |
| LineQueries.NearbyServiceLinesQF | app/src/duckdb/queryFunctions/nearbyServiceLinesQueryFunction.ts:14-25 | Exactly the lines below 0.005 from `(lon, lat)`, nearest first |
| LineQueries.NearbyServiceLinesBinding | app/src/duckdb/queryFunctions/nearbyServiceLinesQueryFunction.ts:32 | The bound point is `(lon, lat)` |
| LineQueries.GetNearbyLines | app/src/duckdb/queries/getNearbyOutageLines.ts:12-29 | Exactly the lines below 0.8 from `(lon, lat)`, as GeoJSON, nearest first |
| LineQueries.GeoJsonLineRoundTrip | app/src/duckdb/queries/getNearbyServiceLines.ts:25-29 | Reading a line's GeoJSON path back gives the line |
| LineQueries.GeoJsonKeepsOrder | app/src/duckdb/queries/getNearbyOutageLines.ts:20-29 | Converting distance-ordered rows to GeoJSON keeps them in distance order |
| LineQueries.ServiceLineIsNearby | app/src/duckdb/queries/getNearbyServiceLines.ts:20-21 | A line within the service-line threshold is also returned by the nearby-lines query |
| LineQueries.LinesInBounds | app/src/duckdb/queries/getAllServiceLinesInBounds.ts:16-36 | Exactly the lines intersecting the envelope, as GeoJSON |
| LineQueries.LineWithVertexInBoundsIsReturned | app/src/duckdb/queries/getAllOutageLinesInBounds.ts:13-33 | A line with a vertex in the box is returned |
| LineQueries.LineWestOfBoundsIsNotReturned | app/src/duckdb/queries/getAllOutageLinesInBounds.ts:13-33 | A line entirely west of the box is not returned |
| LineQueries.LineGeoJsonInjective | app/src/duckdb/queries/getAllOutageLinesInBounds.ts:20-25 | Different lines have different GeoJSON |
| OutageDistance.AddressDistances | app/src/duckdb/queryFunctions/closestOutageQueryFunction.ts:13-16 | One spheroid distance to the shortest-line end per outage |
| OutageDistance.GroupDistances | app/src/duckdb/queryFunctions/closestOutageQueryFunction.ts:17-20 | The group holds the distances of exactly the pairs of a matching address and an outage |
| OutageDistance.GroupEmpty | app/src/duckdb/queryFunctions/closestOutageQueryFunction.ts:17-20 | The group is empty iff no address has the id or there is no outage |
| OutageDistance.ClosestOutageQF | app/src/duckdb/queryFunctions/closestOutageQueryFunction.ts:9-24 | At most one row; a row iff the address exists and there are outages; its distance is attained and no pair is closer |
| OutageDistance.DistanceToNearestOutage | app/src/queries/distanceToNearestOutage.ts:24-42 | `undefined` iff no address or no outage; otherwise the smallest pair distance |
| OutageDistance.FewerOutagesNotCloser | app/src/queries/distanceToNearestOutage.ts:5-19 | Removing outages never brings the nearest closer |
| OutageDistance.NewOutageBoundsDistance | app/src/queries/distanceToNearestOutage.ts:5-19 | A new outage bounds the distance by its own |
| AddressClusters.CellBounds | app/src/duckdb/queries/getAddressClustersInBounds.ts:17-18 | A point lies in its `floor(x / 0.01), floor(y / 0.01)` cell |
| AddressClusters.InBounds | app/src/duckdb/queries/getAddressClustersInBounds.ts:21-29 | The non-NULL locations strictly within the envelope, each as often as rows hold it |
| AddressClusters.Partition | app/src/duckdb/queries/getAddressClustersInBounds.ts:44-46 | The points of one cell and the rest, with nothing lost |
| AddressClusters.Groups | app/src/duckdb/queries/getAddressClustersInBounds.ts:31-46 | `GROUP BY` cell: non-empty groups whose sizes add up to the number of input points |
| AddressClusters.GroupMember | app/src/duckdb/queries/getAddressClustersInBounds.ts:31-46 | Every member of a group is an input point lying in the group's cell |
| AddressClusters.GroupsDistinct | app/src/duckdb/queries/getAddressClustersInBounds.ts:31-46 | Different groups have different cells |
| AddressClusters.GroupHoldsCell | app/src/duckdb/queries/getAddressClustersInBounds.ts:31-46 | Every input point of a group's cell is in that group |
| AddressClusters.GroupsCover | app/src/duckdb/queries/getAddressClustersInBounds.ts:31-46 | Every input point is in some group |
| AddressClusters.MeanBetween | app/src/duckdb/queries/getAddressClustersInBounds.ts:31-39 | The mean of values within bounds is within the same bounds |
| AddressClusters.ClusterOf | app/src/duckdb/queries/getAddressClustersInBounds.ts:31-46 | A cluster counts its group's points |
| AddressClusters.CenterInCell | app/src/duckdb/queries/getAddressClustersInBounds.ts:31-39 | The cluster centre lies in the group's cell |
| AddressClusters.CenterWithin | app/src/duckdb/queries/getAddressClustersInBounds.ts:31-39 | A group strictly inside the envelope has its centre strictly inside |
| AddressClusters.TotalCountOfClusters | app/src/duckdb/queries/getAddressClustersInBounds.ts:44-46 | The cluster counts add up to the points grouped |
| AddressClusters.TotalCountPermutation | app/src/duckdb/queries/getAddressClustersInBounds.ts:47 | Reordering clusters keeps their total |
| AddressClusters.GetAddressClustersInBounds | app/src/duckdb/queries/getAddressClustersInBounds.ts:9-56 | Clusters sorted by count descending, counts positive, centres strictly inside, total count equal to the addresses in bounds, and a permutation of the cluster of each cell |
| ZipReport.Find | check-outage.js:41-46 | `Array.find`: the first index meeting the test, or none exactly when no element does |
| ZipReport.ZipReportOf | check-outage.js:41 | The first report with id `Zip` |
| ZipReport.CheckZipCode | check-outage.js:40-48 | Null without a Zip report; otherwise the first polygon named by the zip code, null exactly when none is |
| ZipReport.StatusLines | check-outage.js:74-81 | One or two lines: the crew line exactly when out with a truthy crew count, then the outage line when affected > 0 and the power-on line otherwise |
| ZipReport.InfoLines | check-outage.js:65-81 | The outage banner iff affected > 0; separator, zip, accounts and affected lines; a crew line exactly when out with crews; the status line last |
| ZipReport.FormatOutageInfo | check-outage.js:60-84 | `Zip code not found in service area` without an area; otherwise exactly the info lines joined by newlines, so the text opens with the outage banner iff affected > 0 |
| ZipReport.AffectedAreas | check-outage.js:111-116 | Nothing without a Zip report; otherwise the affected polygons with their multiplicities (a multiset equal to the filtered polygons), by percentage descending |
| ZipReport.SeverityOf | check-outage.js:127-129 | Red at exactly 100, orange above 50, yellow above 10, green otherwise |
| ZipReport.SeverityMonotone | check-outage.js:127-129 | For percentages within 0-100 the severity rank never falls as the percentage rises |
| ZipReport.AffectedSeverityDescends | check-outage.js:114-129 | The listing's severities never rise down the list |
| ZipReport.PadEnd | check-outage.js:131 | `padEnd`: the text, then spaces up to the width |
| ZipReport.PadStart | check-outage.js:131 | `padStart`: spaces up to the width, then the text |
| ZipReport.AreaLine | check-outage.js:130-133 | The line is the severity lead, the affected count padded to five columns, ` out (`, the percentage to one decimal, `% of `, the account count and `)` |
| ZipReport.AreaLineColumns | check-outage.js:131 | For names of at most eight characters and counts below 100000 the list is aligned: the lead fills columns 0-12, the count columns 13-17, and ` out (` starts at column 18 |
| ZipReport.FiveDigits | check-outage.js:131 | A count below 100000 renders in at most five digits, so it fits the five-column field of `padStart(5)` |
| ZipReport.AreaLines | check-outage.js:126-134 | One line per area, in order, each exactly that area's line |
| ZipReport.AffectedListing | check-outage.js:110-135 | No output without a report; `No outages reported` when none; otherwise the heading with the count, the separator, and exactly each area's line in list order |
| Pagination.RequestPages | generator/download_addresses.py:17-29 | ceil(count / page_size) requests; request k has offset `page_size * k` and limit `page_size` |
| Pagination.PagesDisjoint | generator/download_addresses.py:21-28 | No record index lies in two pages |
| Pagination.PagesCover | generator/download_addresses.py:17-28 | Every record index below the count lies in page `i / page_size` |
| Pagination.PagesStartBelowCount | generator/download_addresses.py:17-28 | Every page starts before the last record |
| Pagination.DownloadZip | generator/download_addresses.py:14-36 | A zip code is skipped iff its count is zero; otherwise its pages are fetched |
| Numbers.CeilDivUnique | generator/download_addresses.py:17 | `ceil(n / d)` is the least c with `d * c >= n` |
| Numbers.CeilDivZero | generator/download_addresses.py:17-32 | No pages exactly when there are no records |

## Left out

- Network, storage and logging: `fetch`, `https.get`, `localStorage`, `console` and the ArcGIS API are not modelled. The HTTP response and the stored cache item are inputs; the clock reading is a parameter.
- Library functions are parameters or uninterpreted engine fields, with no properties assumed beyond those the lemmas require: the polyline decoder, `ST_Distance*`, `ST_ShortestLine`, `jaro_winkler_similarity`, `toLocaleString`, `toFixed`, `JSON.stringify`/`JSON.parse`, and JavaScript's default number-to-text.
- `ST_Intersects` is modelled as a closed separating-axis test on each segment and the box.
- IEEE floating point: distances, percentages and coordinates are exact reals. Rounding, `NaN`, infinities and `-0` are not modelled.
- Formatting.FormatDistance: `Intl.NumberFormat` output for values outside the integers is not modelled; `Math.round` is exact half-up rounding on reals.
- Case mapping is ASCII only; Python's and JavaScript's Unicode upper/lower cases are not modelled.
- Stale code:
  - the `location` field that `to_row_data` reads but the model never declares is left out of the row;
  - the misspelled `logitude` column of `getAddressClustersInBounds` is modelled as the intended longitude;
  - the service-line schema's parse of the row array is not modelled.
- SQL with several rows at the same key: ties are kept in table order; DuckDB leaves their order unspecified. `GROUP BY` of the cluster query is by cell, with no order among groups before the final sort.
- AddressQueries.AddressSearch: the `score DESC` sort key is constant 100 and so has no effect; the model orders by distance alone.
- OutageCheck.Grouped: groups one row per address row, not per key. SQL groups by `(id, street, city, zip)`, so two address rows sharing that key become one row whose distance is the minimum over both. The model gives them one row each and relies on the address file's ids being unique.
- AddressModel.Validate: of pydantic's lax readings of an `int` field, only an integer and the text of an optional sign followed by digits are modelled. Surrounding white space, a fractional part of zeros, and float or boolean inputs are rejected here, although pydantic accepts them.
- `concat_ws` with NULL lines is not modelled: address lines are strings and never NULL.
- `SEARCH_RESULT_LIMIT` is a parameter; its value comes from a constants file that is not part of this model.
- AppDuckDb.GetConnection: the concurrent caller that sees a database but no connection yet is a distinct handle state. The interleaving of the `await`s is not modelled.
- LineQueries.NearbyPowerLinesAreLatLng: assumes that `ST_AsText` writes `LINESTRING(` with no space before the parenthesis, the form the parser's `replace("LINESTRING(", "")` strips. DuckDB spatial's writer is documented to emit `LINESTRING (x y, ...)`. With that output nothing is stripped, and the first piece `LINESTRING (x1 y1` does not read as a coordinate pair. The lemma does not cover that output; the row is then rejected by the service-line schema parse, which is not modelled either.
- AddressQueries.SearchAddresses: the search term is pasted into the SQL text inside `UPPER('...')` without escaping. A term containing a single quote, such as `O'BRIEN`, makes the statement fail to parse or changes its meaning. The model treats the term as a plain string and returns the scored rows; it does not model that failure.
- AppDuckDb.SearchAddresses: the query text is interpolated into the SQL unescaped. The model treats it as a `LIKE` pattern and does not model SQL injection or quotes in the query.
- `getTableCount`, `exportDatabase`, `importDatabase`, `clearOutageCache` and `setCachedLines` failures: storage and file-buffer I/O, not modelled.
- `check-outage.js`'s `fetchOutageData`, `getSummary`, `formatSummary` and `main`: network, `Date` and process I/O.
- ZipReport.SeverityMonotone: stated for percentages from 0 to 100. Above 100 the severity drops from red to orange, which the source does not anticipate.
- Pagination: `page_size` of zero raises in Python and is excluded by `pageSize > 0`. `math.ceil` on a float quotient is exact here, so very large counts that lose precision in a double are not modelled. The concatenation and parquet writing are not modelled.
- OutageCheck: the spatial extension install, connection handling and the `INSERT` failure reason are not modelled. Whether an insert fails is a predicate parameter.
- UI components, workers, the app bootstrap and the Go and other scripts outside the listed files are not part of this model.
