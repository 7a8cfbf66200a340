/**
 * The distance from an address to the nearest outage: the smallest spheroid
 * distance from the address's point to the nearest point of any outage line,
 * grouped by the address id.
 */
module OutageDistance {
  import opened Wrappers
  import opened Query
  import opened Geometry
  import opened SpatialEngine

  /** The columns of `addresses` the statement reads. */
  datatype AddressRow = AddressRow(id: int, location: Point2D)

  /** One output row: the address id and its `min(...)` distance. */
  datatype DistanceRow = DistanceRow(id: int, distance: real)

  /**
   * The distance for one address/outage pair: from the address point to the
   * end of the shortest line from it to the outage line, on the spheroid.
   */
  function PairDistance(e: Engine, a: AddressRow, o: Line): real {
    e.spheroid(a.location, e.shortestLineEnd(a.location, o))
  }

  predicate HasAddress(addresses: seq<AddressRow>, id: int) {
    exists a :: a in addresses && a.id == id
  }

  /** The distances from one address to every outage. */
  function AddressDistances(e: Engine, a: AddressRow, outages: seq<Line>): (r: seq<real>)
    ensures |r| == |outages|
    ensures forall d :: d in r <==> exists o :: o in outages && d == PairDistance(e, a, o)
  {
    var r := Map(outages, (o: Line) => PairDistance(e, a, o));
    forall d | d in r ensures exists o :: o in outages && d == PairDistance(e, a, o) {
      var i :| 0 <= i < |r| && r[i] == d;
      assert outages[i] in outages;
    }
    forall o | o in outages ensures PairDistance(e, a, o) in r {
      var i :| 0 <= i < |outages| && outages[i] == o;
      assert r[i] == PairDistance(e, a, o);
    }
    r
  }

  /**
   * The group of `a.id = id` in the cross join `outages o, addresses a`:
   * one distance per pair of a matching address and an outage.
   */
  function GroupDistances(e: Engine, addresses: seq<AddressRow>, outages: seq<Line>, id: int): (r: seq<real>)
    ensures forall a, o :: a in addresses && a.id == id && o in outages ==> PairDistance(e, a, o) in r
    ensures forall d :: d in r ==> exists a, o :: a in addresses && a.id == id && o in outages && d == PairDistance(e, a, o)
  {
    if |addresses| == 0 then []
    else
      var a := addresses[0];
      var head := if a.id == id then AddressDistances(e, a, outages) else [];
      var tail := GroupDistances(e, addresses[1..], outages, id);
      assert forall b :: b in addresses ==> b == a || b in addresses[1..];
      assert forall b :: b in addresses[1..] ==> b in addresses;
      head + tail
  }

  /** The group is empty exactly when no address has the id or there is no outage. */
  lemma {:induction false} GroupEmpty(e: Engine, addresses: seq<AddressRow>, outages: seq<Line>, id: int)
    ensures |GroupDistances(e, addresses, outages, id)| == 0 <==> !HasAddress(addresses, id) || |outages| == 0
  {
    var g := GroupDistances(e, addresses, outages, id);
    if HasAddress(addresses, id) && |outages| > 0 {
      var a :| a in addresses && a.id == id;
      assert outages[0] in outages;
      assert PairDistance(e, a, outages[0]) in g;
    }
    if |g| > 0 {
      assert g[0] in g;
    }
  }

  /**
   * `closestOutageQueryFunction` for the bound `addressId`: one row holding
   * the group's minimum, or no row when the group is empty.
   */
  function ClosestOutageQF(e: Engine, addresses: seq<AddressRow>, outages: seq<Line>, id: int): (r: seq<DistanceRow>)
    ensures |r| <= 1
    ensures |r| == 1 <==> HasAddress(addresses, id) && |outages| > 0
    ensures |r| == 1 ==> r[0].id == id
    ensures |r| == 1 ==> forall a, o :: a in addresses && a.id == id && o in outages ==> r[0].distance <= PairDistance(e, a, o)
    ensures |r| == 1 ==> exists a, o :: a in addresses && a.id == id && o in outages && r[0].distance == PairDistance(e, a, o)
  {
    var g := GroupDistances(e, addresses, outages, id);
    GroupEmpty(e, addresses, outages, id);
    if |g| == 0 then []
    else [DistanceRow(id, MinOf(g))]
  }

  /** `distanceToNearestOutage`: the first row's distance; `None` (`undefined`) when there is none. */
  function DistanceToNearestOutage(e: Engine, addresses: seq<AddressRow>, outages: seq<Line>, id: int): (r: Option<real>)
    ensures r.None? <==> !HasAddress(addresses, id) || |outages| == 0
    ensures r.Some? ==> forall a, o :: a in addresses && a.id == id && o in outages ==> r.value <= PairDistance(e, a, o)
    ensures r.Some? ==> exists a, o :: a in addresses && a.id == id && o in outages && r.value == PairDistance(e, a, o)
  {
    var rows := ClosestOutageQF(e, addresses, outages, id);
    if |rows| == 0 then None else Some(rows[0].distance)
  }

  /** Clearing outages never brings the nearest one closer. */
  lemma {:induction false} FewerOutagesNotCloser(e: Engine, addresses: seq<AddressRow>, outages: seq<Line>, fewer: seq<Line>, id: int)
    requires forall o :: o in fewer ==> o in outages
    requires DistanceToNearestOutage(e, addresses, fewer, id).Some?
    ensures DistanceToNearestOutage(e, addresses, outages, id).Some?
    ensures DistanceToNearestOutage(e, addresses, outages, id).value <= DistanceToNearestOutage(e, addresses, fewer, id).value
  {
    var d := DistanceToNearestOutage(e, addresses, fewer, id).value;
    var a, o :| a in addresses && a.id == id && o in fewer && d == PairDistance(e, a, o);
    assert o in outages;
  }

  /** A new outage line bounds the distance by its own pair distance. */
  lemma {:induction false} NewOutageBoundsDistance(e: Engine, addresses: seq<AddressRow>, outages: seq<Line>, a: AddressRow, o: Line)
    requires a in addresses
    ensures DistanceToNearestOutage(e, addresses, outages + [o], a.id).Some?
    ensures DistanceToNearestOutage(e, addresses, outages + [o], a.id).value <= PairDistance(e, a, o)
  {
    assert o in outages + [o];
  }
}
