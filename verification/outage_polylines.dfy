/**
 * The outage-line fetcher of the web checker: decoding the feed's encoded
 * polylines into `[lng, lat]` lines, the ETag cache kept in local storage,
 * and the decision between fresh, cached and empty results. The network
 * response, the clock and the storage contents are parameters.
 */
module OutagePolylines {
  import opened Wrappers
  import opened Geometry

  /** One feed line: encoded polyline `g` and line id `f`. */
  datatype ApiLine = ApiLine(g: string, f: string)

  /** A decoded outage line; coordinates are `[lng, lat]`. */
  datatype OutageLine = OutageLine(lineId: string, coordinates: seq<Pair>)

  /** The cache record: the response ETag, when it was stored, and the lines. */
  datatype PolylineCache = PolylineCache(etag: string, timestamp: int, lines: seq<OutageLine>)

  /**
   * What local storage holds under the cache key: nothing, text that is not
   * JSON, or a parsed object whose `lines` may not be an array (`None`). A
   * missing `etag` reads as the empty string, which is equally falsy.
   */
  datatype StoredItem = Absent | Malformed | Stored(etag: string, timestamp: int, lines: Option<seq<OutageLine>>)

  type Decoder = string -> Option<seq<Pair>>

  /** One feed line decoded and swapped to `[lng, lat]`, or nothing when decoding throws. */
  function DecodeLine(decode: Decoder, l: ApiLine): (r: Option<OutageLine>)
    ensures r.Some? <==> decode(l.g).Some?
    ensures r.Some? ==> r.value.lineId == l.f && SwapAll(r.value.coordinates) == decode(l.g).value
  {
    match decode(l.g)
    case None => None
    case Some(coords) =>
      SwapAllInvolution(coords);
      Some(OutageLine(l.f, SwapAll(coords)))
  }

  /** The reference result of the decode loop: the lines that decode, in feed order. */
  function DecodeAll(decode: Decoder, ls: seq<ApiLine>): (r: seq<OutageLine>)
    ensures |r| <= |ls|
    ensures forall k :: 0 <= k < |r| ==> exists i :: 0 <= i < |ls| && DecodeLine(decode, ls[i]) == Some(r[k])
    ensures forall i :: 0 <= i < |ls| && DecodeLine(decode, ls[i]).Some? ==> DecodeLine(decode, ls[i]).value in r
  {
    if |ls| == 0 then []
    else
      var init := DecodeAll(decode, ls[..|ls| - 1]);
      assert forall i :: 0 <= i < |ls| - 1 ==> ls[..|ls| - 1][i] == ls[i];
      match DecodeLine(decode, ls[|ls| - 1])
      case None => init
      case Some(l) => init + [l]
  }

  /** When every line decodes, the result is exactly the feed, line for line. */
  lemma {:induction false} DecodeAllTotal(decode: Decoder, ls: seq<ApiLine>)
    requires forall i :: 0 <= i < |ls| ==> decode(ls[i].g).Some?
    ensures |DecodeAll(decode, ls)| == |ls|
    ensures forall i :: 0 <= i < |ls| ==> Some(DecodeAll(decode, ls)[i]) == DecodeLine(decode, ls[i])
    decreases |ls|
  {
    if |ls| > 0 {
      var init, last := ls[..|ls| - 1], ls[|ls| - 1];
      forall i | 0 <= i < |init| ensures decode(init[i].g).Some? {
        assert init[i] == ls[i];
      }
      DecodeAllTotal(decode, init);
      TotalStep(DecodeAll(decode, init), init, DecodeLine(decode, last).value, decode, ls);
    }
  }

  /** One more line that decodes extends a line-for-line result by its decoding. */
  lemma {:induction false} TotalStep(prefix: seq<OutageLine>, init: seq<ApiLine>, l: OutageLine,
                                     decode: Decoder, ls: seq<ApiLine>)
    requires |ls| > 0 && init == ls[..|ls| - 1] && DecodeLine(decode, ls[|ls| - 1]) == Some(l)
    requires |prefix| == |init| && forall i :: 0 <= i < |init| ==> Some(prefix[i]) == DecodeLine(decode, init[i])
    requires DecodeAll(decode, ls) == prefix + [l]
    ensures |DecodeAll(decode, ls)| == |ls|
    ensures forall i :: 0 <= i < |ls| ==> Some(DecodeAll(decode, ls)[i]) == DecodeLine(decode, ls[i])
  {
    var whole := prefix + [l];
    forall i | 0 <= i < |ls| ensures Some(whole[i]) == DecodeLine(decode, ls[i]) {
      if i < |init| {
        assert init[i] == ls[i];
        assert whole[i] == prefix[i];
      }
    }
  }

  /**
   * The loop works line by line: decoding two feeds joined is joining their
   * decodings, so the lines keep their feed order.
   */
  lemma {:induction false} DecodeAllAppend(decode: Decoder, a: seq<ApiLine>, b: seq<ApiLine>)
    ensures DecodeAll(decode, a + b) == DecodeAll(decode, a) + DecodeAll(decode, b)
    decreases |b|
  {
    if |b| == 0 {
      assert a + b == a;
    } else {
      var init := b[..|b| - 1];
      assert (a + b)[..|a + b| - 1] == a + init;
      assert (a + b)[|a + b| - 1] == b[|b| - 1];
      DecodeAllAppend(decode, a, init);
    }
  }

  /** One feed line gives its decoded line, or nothing when decoding throws. */
  lemma {:induction false} DecodeAllSingle(decode: Decoder, l: ApiLine)
    ensures DecodeAll(decode, [l]) == if DecodeLine(decode, l).Some? then [DecodeLine(decode, l).value] else []
  {
    assert [l][..0] == [];
  }

  /** A line that fails to decode anywhere in the feed is skipped, and the lines around it are kept in order. */
  lemma {:induction false} DecodeSkipsFailure(decode: Decoder, before: seq<ApiLine>, bad: ApiLine, after: seq<ApiLine>)
    requires decode(bad.g).None?
    ensures DecodeAll(decode, before + [bad] + after) == DecodeAll(decode, before) + DecodeAll(decode, after)
  {
    DecodeAllAppend(decode, before + [bad], after);
    DecodeAllAppend(decode, before, [bad]);
    DecodeAllSingle(decode, bad);
  }

  /** The decode loop of `fetchOutageLines`: push each line that decodes, skip each that throws. */
  method DecodeLines(decode: Decoder, data: seq<ApiLine>) returns (lines: seq<OutageLine>)
    ensures lines == DecodeAll(decode, data)
    ensures |lines| <= |data|
  {
    lines := [];
    var i := 0;
    while i < |data|
      invariant 0 <= i <= |data|
      invariant lines == DecodeAll(decode, data[..i])
    {
      assert data[..i + 1][..i] == data[..i];
      match DecodeLine(decode, data[i]) {
        case Some(l) => lines := lines + [l];
        case None =>
      }
      i := i + 1;
    }
    assert data[..i] == data;
  }

  /** `getCachedLines`: an entry is usable only with a non-empty ETag and an array of lines. */
  function GetCachedLines(item: StoredItem): (r: Option<PolylineCache>)
    ensures r.Some? <==> item.Stored? && item.etag != "" && item.lines.Some?
    ensures r.Some? ==> r.value == PolylineCache(item.etag, item.timestamp, item.lines.value)
  {
    match item
    case Stored(etag, ts, Some(lines)) => if etag != "" then Some(PolylineCache(etag, ts, lines)) else None
    case _ => None
  }

  /** What `setCachedLines` leaves in storage. */
  function Serialize(c: PolylineCache): StoredItem {
    Stored(c.etag, c.timestamp, Some(c.lines))
  }

  /**
   * A stored cache reads back as itself exactly when its ETag is non-empty,
   * so an entry written for a response without an ETag is later discarded.
   */
  lemma {:induction false} CacheRoundTrip(c: PolylineCache)
    ensures c.etag != "" ==> GetCachedLines(Serialize(c)) == Some(c)
    ensures c.etag == "" ==> GetCachedLines(Serialize(c)) == None
  {
  }

  /** The request headers: `Accept` always, `If-None-Match` exactly when a valid cache exists. */
  function RequestHeaders(cached: Option<PolylineCache>): (r: seq<(string, string)>)
    ensures 1 <= |r| <= 2 && r[0] == ("Accept", "application/json")
    ensures |r| == 2 <==> cached.Some? && cached.value.etag != ""
    ensures |r| == 2 ==> r[1] == ("If-None-Match", cached.value.etag)
  {
    [("Accept", "application/json")]
    + (if cached.Some? && cached.value.etag != "" then [("If-None-Match", cached.value.etag)] else [])
  }

  /**
   * The outcome of the request: the fetch rejected, or an HTTP response with
   * its status, its `ETag` header if any, and its body if it parses as JSON.
   */
  datatype Response = NetworkError | Http(status: int, etag: Option<string>, body: Option<seq<ApiLine>>)

  /** `response.ok`: a 2xx status. */
  predicate Ok(status: int) {
    200 <= status <= 299
  }

  /** The lines returned and the cache written, if any. */
  datatype Outcome = Outcome(lines: seq<OutageLine>, written: Option<PolylineCache>)

  /** The result when anything goes wrong: the cached lines if there are any, else nothing. */
  function Fallback(cached: Option<PolylineCache>): seq<OutageLine> {
    if cached.Some? then cached.value.lines else []
  }

  /** `fetchOutageLines` for one stored item, one response and the clock reading `now`. */
  function FetchOutageLines(item: StoredItem, resp: Response, decode: Decoder, now: int): (o: Outcome)
    ensures var cached := GetCachedLines(item);
            resp.Http? && resp.status == 304 && cached.Some? ==> o == Outcome(cached.value.lines, None)
    ensures var cached := GetCachedLines(item);
            resp.NetworkError? || (resp.Http? && !Ok(resp.status) && !(resp.status == 304 && cached.Some?))
            || (resp.Http? && resp.body.None? && !(resp.status == 304 && cached.Some?))
            ==> o == Outcome(Fallback(cached), None)
    ensures o.written.Some? <==> resp.Http? && Ok(resp.status) && resp.body.Some?
    ensures o.written.Some? ==> o.written.value.lines == o.lines && o.written.value.timestamp == now
                                && o.lines == DecodeAll(decode, resp.body.value)
    ensures o.written.Some? ==> (o.written.value.etag == "" <==> resp.etag.None? || resp.etag.value == "")
    ensures o.written.Some? && resp.etag.Some? ==> o.written.value.etag == resp.etag.value
  {
    var cached := GetCachedLines(item);
    match resp
    case NetworkError => Outcome(Fallback(cached), None)
    case Http(status, etagHeader, body) =>
      if status == 304 && cached.Some? then Outcome(cached.value.lines, None)
      else if !Ok(status) then Outcome(Fallback(cached), None)
      else
        var etag := if etagHeader.Some? then etagHeader.value else "";
        match body
        case None => Outcome(Fallback(cached), None)
        case Some(data) =>
          var lines := DecodeAll(decode, data);
          Outcome(lines, Some(PolylineCache(etag, now, lines)))
  }

  /**
   * A fresh response without an ETag is returned but its cache entry is
   * unusable: the next call reads no cache and sends no `If-None-Match`.
   */
  lemma {:induction false} MissingETagDefeatsCache(item: StoredItem, status: int, data: seq<ApiLine>, decode: Decoder, now: int)
    requires Ok(status)
    ensures var o := FetchOutageLines(item, Http(status, None, Some(data)), decode, now);
            o.written.Some? && GetCachedLines(Serialize(o.written.value)).None?
            && |RequestHeaders(GetCachedLines(Serialize(o.written.value)))| == 1
  {
  }

  /** Whatever happens, the lines returned are cached lines, freshly decoded lines, or none. */
  lemma {:induction false} OutcomeSources(item: StoredItem, resp: Response, decode: Decoder, now: int)
    ensures var o := FetchOutageLines(item, resp, decode, now);
            var cached := GetCachedLines(item);
            o.lines == [] || (cached.Some? && o.lines == cached.value.lines)
            || (resp.Http? && resp.body.Some? && o.lines == DecodeAll(decode, resp.body.value))
  {
  }
}
