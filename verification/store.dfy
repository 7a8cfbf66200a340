/**
 * The app's state store: geolocation permission, DuckDB status, the address
 * search slice and the watched-address list, with their setters and the two
 * selectors that read them. Each setter is a pure function from state to
 * state; the immer draft mutation becomes a record update.
 */
module Store {
  import opened Wrappers
  import Geometry

  /** The app's address record (the zod `AddressSchema`). */
  datatype AppAddress = AppAddress(
    id: int, address: string, city: string, county: string, zipcode: string,
    latitude: real, longitude: real)

  /** A watched address and the time it was added; the clock reading is a parameter. */
  datatype WatchedAddress = WatchedAddress(address: AppAddress, addedAt: int)

  datatype GeolocationStatus = Pending | Granted | Rejected

  /** A browser `GeolocationPositionError`. */
  datatype PositionError = PositionError(code: int, message: string)

  /**
   * The geolocation slice. The draft keeps whatever fields it had, so a
   * position survives `setError` and an error survives `setPosition`.
   */
  datatype Geolocation = Geolocation(
    status: GeolocationStatus, position: Option<Geometry.Position>, error: Option<PositionError>)

  datatype DuckDbStatus = Initializing | Ready | Failed

  datatype DuckDb = DuckDb(status: DuckDbStatus, error: Option<string>)

  /** The search slice; `R` is the search result type. */
  datatype AddressSearch<R> = AddressSearch(
    searchTerm: string, searchResults: seq<R>, activeSearchResult: Option<R>, recommendedResults: seq<R>)

  datatype AppState<R> = AppState(
    geolocation: Geolocation, duckdb: DuckDb, addressSearch: AddressSearch<R>, watched: seq<WatchedAddress>)

  /** The store as created. */
  function Initial<R>(): (s: AppState<R>)
    ensures s.geolocation.status == Pending && s.duckdb.status == Initializing
    ensures s.addressSearch.searchTerm == "" && s.addressSearch.searchResults == []
    ensures s.addressSearch.recommendedResults == [] && s.addressSearch.activeSearchResult.None?
    ensures s.watched == []
  {
    AppState(Geolocation(Pending, None, None), DuckDb(Initializing, None),
             AddressSearch("", [], None, []), [])
  }

  // Geolocation.

  function SetPosition<R>(s: AppState<R>, p: Geometry.Position): (r: AppState<R>)
    ensures r.geolocation.status == Granted && r.geolocation.position == Some(p)
    ensures r.geolocation.error == s.geolocation.error
    ensures r.duckdb == s.duckdb && r.addressSearch == s.addressSearch && r.watched == s.watched
  {
    s.(geolocation := s.geolocation.(status := Granted, position := Some(p)))
  }

  function SetError<R>(s: AppState<R>, e: PositionError): (r: AppState<R>)
    ensures r.geolocation.status == Rejected && r.geolocation.error == Some(e)
    ensures r.geolocation.position == s.geolocation.position
    ensures r.duckdb == s.duckdb && r.addressSearch == s.addressSearch && r.watched == s.watched
  {
    s.(geolocation := s.geolocation.(status := Rejected, error := Some(e)))
  }

  /** `selectGeolocationPosition`: the stored position once permission is granted, an error otherwise. */
  function SelectGeolocationPosition<R>(s: AppState<R>): (r: Result<Geometry.Position, string>)
    ensures r.Ok? <==> s.geolocation.status == Granted && s.geolocation.position.Some?
    ensures r.Ok? ==> Some(r.value) == s.geolocation.position
    ensures s.geolocation.status != Granted ==> r == Err("Geolocation permission not granted")
  {
    if s.geolocation.status == Granted && s.geolocation.position.Some? then Ok(s.geolocation.position.value)
    else Err("Geolocation permission not granted")
  }

  /** Whatever came before, the position just set is the one selected; the last call wins. */
  lemma {:induction false} SelectAfterSetPosition<R>(s: AppState<R>, p: Geometry.Position, e: PositionError)
    ensures SelectGeolocationPosition(SetPosition(s, p)) == Ok(p)
    ensures SelectGeolocationPosition(SetError(SetPosition(s, p), e)).Err?
    ensures SelectGeolocationPosition(SetPosition(SetError(s, e), p)) == Ok(p)
  {
  }

  /** Every state reachable from the initial one by setters has a position whenever it is granted. */
  predicate GrantedHasPosition<R>(s: AppState<R>) {
    s.geolocation.status == Granted ==> s.geolocation.position.Some?
  }

  /** The geolocation setters keep `GrantedHasPosition`, so the selector errs only outside `granted`. */
  lemma {:induction false} GeolocationInvariant<R>(s: AppState<R>, p: Geometry.Position, e: PositionError)
    requires GrantedHasPosition(s)
    ensures GrantedHasPosition(SetPosition(s, p)) && GrantedHasPosition(SetError(s, e))
    ensures GrantedHasPosition(Initial<R>())
    ensures SelectGeolocationPosition(s).Err? <==> s.geolocation.status != Granted
  {
  }

  // DuckDB status and the search slice: each setter overwrites one field.

  function SetDuckDbStatus<R>(s: AppState<R>, v: DuckDbStatus): (r: AppState<R>)
    ensures r.duckdb.status == v && r.duckdb.error == s.duckdb.error
    ensures r.geolocation == s.geolocation && r.addressSearch == s.addressSearch && r.watched == s.watched
  {
    s.(duckdb := s.duckdb.(status := v))
  }

  function SetSearchTerm<R>(s: AppState<R>, v: string): (r: AppState<R>)
    ensures r.addressSearch.searchTerm == v
    ensures r == s.(addressSearch := r.addressSearch)
    ensures r.addressSearch == s.addressSearch.(searchTerm := v)
  {
    s.(addressSearch := s.addressSearch.(searchTerm := v))
  }

  function SetSearchResults<R>(s: AppState<R>, v: seq<R>): (r: AppState<R>)
    ensures r.addressSearch.searchResults == v
    ensures r == s.(addressSearch := r.addressSearch)
    ensures r.addressSearch == s.addressSearch.(searchResults := v)
  {
    s.(addressSearch := s.addressSearch.(searchResults := v))
  }

  function SetActiveSearchResult<R>(s: AppState<R>, v: Option<R>): (r: AppState<R>)
    ensures r.addressSearch.activeSearchResult == v
    ensures r == s.(addressSearch := r.addressSearch)
    ensures r.addressSearch == s.addressSearch.(activeSearchResult := v)
  {
    s.(addressSearch := s.addressSearch.(activeSearchResult := v))
  }

  function SetRecommendedResults<R>(s: AppState<R>, v: seq<R>): (r: AppState<R>)
    ensures r.addressSearch.recommendedResults == v
    ensures r == s.(addressSearch := r.addressSearch)
    ensures r.addressSearch == s.addressSearch.(recommendedResults := v)
  {
    s.(addressSearch := s.addressSearch.(recommendedResults := v))
  }

  /** Setters of different search fields commute, and a second call to the same setter wins. */
  lemma {:induction false} SearchSettersCommute<R>(s: AppState<R>, t: string, a: seq<R>, b: seq<R>)
    ensures SetSearchTerm(SetSearchResults(s, a), t) == SetSearchResults(SetSearchTerm(s, t), a)
    ensures SetSearchResults(SetRecommendedResults(s, b), a) == SetRecommendedResults(SetSearchResults(s, a), b)
    ensures SetSearchResults(SetSearchResults(s, b), a) == SetSearchResults(s, a)
  {
  }

  /** `selectAddressSearchResults`: the search results when there are any, the recommendations otherwise. */
  function SelectAddressSearchResults<R>(s: AppState<R>): (r: seq<R>)
    ensures |s.addressSearch.searchResults| > 0 ==> r == s.addressSearch.searchResults
    ensures |s.addressSearch.searchResults| == 0 ==> r == s.addressSearch.recommendedResults
    ensures r == [] <==> s.addressSearch.searchResults == [] && s.addressSearch.recommendedResults == []
  {
    if |s.addressSearch.searchResults| > 0 then s.addressSearch.searchResults
    else s.addressSearch.recommendedResults
  }

  // Watched addresses.

  predicate Watching(ws: seq<WatchedAddress>, id: int) {
    exists i :: 0 <= i < |ws| && ws[i].address.id == id
  }

  /** No two watched entries share an address id. */
  predicate UniqueIds(ws: seq<WatchedAddress>) {
    forall i, j :: 0 <= i < j < |ws| ==> ws[i].address.id != ws[j].address.id
  }

  /** `addAddress`: append unless an entry with the same id is already watched. */
  function AddAddress(ws: seq<WatchedAddress>, a: AppAddress, now: int): (r: seq<WatchedAddress>)
    ensures Watching(r, a.id)
    ensures Watching(ws, a.id) ==> r == ws
    ensures !Watching(ws, a.id) ==> |r| == |ws| + 1 && r[..|ws|] == ws && r[|ws|] == WatchedAddress(a, now)
  {
    if Watching(ws, a.id) then ws
    else
      var r := ws + [WatchedAddress(a, now)];
      assert r[|ws|].address.id == a.id;
      r
  }

  /** `removeAddress`: keep, in order, every entry whose id differs. */
  function RemoveAddress(ws: seq<WatchedAddress>, id: int): (r: seq<WatchedAddress>)
    ensures !Watching(r, id)
    ensures |r| <= |ws|
    ensures forall w :: w in r <==> w in ws && w.address.id != id
  {
    if |ws| == 0 then []
    else
      var rest := RemoveAddress(ws[..|ws| - 1], id);
      var last := ws[|ws| - 1];
      assert ws == ws[..|ws| - 1] + [last];
      if last.address.id == id then rest else rest + [last]
  }

  /**
   * Removal works entry by entry and keeps the list's order and repeats:
   * removing from two lists joined is joining the two removals, and a single
   * entry stays exactly when its id differs.
   */
  lemma {:induction false} RemoveAddressAppend(a: seq<WatchedAddress>, b: seq<WatchedAddress>, id: int)
    ensures RemoveAddress(a + b, id) == RemoveAddress(a, id) + RemoveAddress(b, id)
    decreases |b|
  {
    if |b| == 0 {
      assert a + b == a;
    } else {
      var init := b[..|b| - 1];
      assert (a + b)[..|a + b| - 1] == a + init;
      assert (a + b)[|a + b| - 1] == b[|b| - 1];
      RemoveAddressAppend(a, init, id);
    }
  }

  lemma {:induction false} RemoveAddressSingle(w: WatchedAddress, id: int)
    ensures RemoveAddress([w], id) == if w.address.id == id then [] else [w]
  {
    assert [w][..0] == [];
  }

  /** Adding keeps ids unique, so the list never holds the same address twice. */
  lemma {:induction false} AddKeepsIdsUnique(ws: seq<WatchedAddress>, a: AppAddress, now: int)
    requires UniqueIds(ws)
    ensures UniqueIds(AddAddress(ws, a, now))
  {
  }

  lemma {:induction false} RemoveKeepsIdsUnique(ws: seq<WatchedAddress>, id: int)
    requires UniqueIds(ws)
    ensures UniqueIds(RemoveAddress(ws, id))
    decreases |ws|
  {
    if |ws| > 0 {
      var init := ws[..|ws| - 1];
      RemoveKeepsIdsUnique(init, id);
      var rest := RemoveAddress(init, id);
      var last := ws[|ws| - 1];
      forall w | w in rest ensures w.address.id != last.address.id {
        assert w in init;
        var i :| 0 <= i < |init| && init[i] == w;
        assert ws[i] == w;
      }
    }
  }

  /** Removing an id nobody watches changes nothing. */
  lemma {:induction false} RemoveAbsent(ws: seq<WatchedAddress>, id: int)
    requires !Watching(ws, id)
    ensures RemoveAddress(ws, id) == ws
    decreases |ws|
  {
    if |ws| > 0 {
      var init := ws[..|ws| - 1];
      assert !Watching(init, id) by {
        forall i | 0 <= i < |init| ensures init[i].address.id != id {
          assert init[i] == ws[i];
        }
      }
      RemoveAbsent(init, id);
      assert ws == init + [ws[|ws| - 1]];
    }
  }

  /** Watching a new address and then removing it restores the list exactly. */
  lemma {:induction false} AddThenRemove(ws: seq<WatchedAddress>, a: AppAddress, now: int)
    requires !Watching(ws, a.id)
    ensures RemoveAddress(AddAddress(ws, a, now), a.id) == ws
  {
    var added := AddAddress(ws, a, now);
    assert added[..|added| - 1] == ws;
    RemoveAbsent(ws, a.id);
  }

  /** Removing twice is removing once. */
  lemma {:induction false} RemoveIdempotent(ws: seq<WatchedAddress>, id: int)
    ensures RemoveAddress(RemoveAddress(ws, id), id) == RemoveAddress(ws, id)
  {
    RemoveAbsent(RemoveAddress(ws, id), id);
  }

  /** Removing an id leaves every other entry, and removes as many entries as carry that id. */
  lemma {:induction false} RemoveCount(ws: seq<WatchedAddress>, id: int)
    requires UniqueIds(ws)
    ensures Watching(ws, id) ==> |RemoveAddress(ws, id)| == |ws| - 1
    ensures !Watching(ws, id) ==> |RemoveAddress(ws, id)| == |ws|
    decreases |ws|
  {
    if |ws| > 0 {
      var init := ws[..|ws| - 1];
      var last := ws[|ws| - 1];
      assert UniqueIds(init) by {
        forall i, j | 0 <= i < j < |init| ensures init[i].address.id != init[j].address.id {
          assert init[i] == ws[i] && init[j] == ws[j];
        }
      }
      RemoveCount(init, id);
      assert Watching(ws, id) <==> Watching(init, id) || last.address.id == id by {
        if Watching(ws, id) {
          var i :| 0 <= i < |ws| && ws[i].address.id == id;
          if i < |ws| - 1 { assert init[i] == ws[i]; }
        }
        if Watching(init, id) {
          var i :| 0 <= i < |init| && init[i].address.id == id;
          assert ws[i] == init[i];
        }
      }
      if last.address.id == id {
        assert !Watching(init, id) by {
          forall i | 0 <= i < |init| ensures init[i].address.id != id {
            assert init[i] == ws[i];
          }
        }
      }
    }
  }
}
