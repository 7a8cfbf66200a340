/**
 * The map's address clusters: the located addresses strictly inside the
 * bounds, grouped by the 0.01-degree grid cell they fall in, each group
 * reported as the mean of its points and its size, largest first.
 */
module AddressClusters {
  import opened Wrappers
  import opened Query
  import opened Geometry

  /** The column of `addresses` the statement reads; `None` is SQL NULL. */
  datatype AddressRow = AddressRow(location: Option<Point2D>)

  /** A grid cell `(FLOOR(x / 0.01), FLOOR(y / 0.01))`. */
  datatype Cell = Cell(x: int, y: int)

  /** One output row: the cell's centre and its address count. */
  datatype AddressCluster = AddressCluster(longitude: real, latitude: real, count: nat)

  const CellSize: real := 0.01

  function CellOf(p: Point2D): Cell {
    Cell((p.x / CellSize).Floor, (p.y / CellSize).Floor)
  }

  /** A point lies in the half-open square of its cell. */
  lemma {:induction false} CellBounds(p: Point2D)
    ensures CellSize * CellOf(p).x as real <= p.x < CellSize * (CellOf(p).x + 1) as real
    ensures CellSize * CellOf(p).y as real <= p.y < CellSize * (CellOf(p).y + 1) as real
  {
    var c := CellOf(p);
    assert c.x as real <= p.x / CellSize < (c.x + 1) as real;
    assert c.y as real <= p.y / CellSize < (c.y + 1) as real;
  }

  predicate Located(row: AddressRow, env: Envelope) {
    row.location.Some? && StrictlyWithin(row.location.value, env)
  }

  /** How many rows of the table are located inside the envelope at `p`. */
  function RowsAt(table: seq<AddressRow>, env: Envelope, p: Point2D): nat {
    if |table| == 0 then 0
    else (if Located(table[0], env) && table[0].location.value == p then 1 else 0) + RowsAt(table[1..], env, p)
  }

  /**
   * The `clusters` CTE's points: the non-NULL locations strictly inside the
   * envelope `(sw.lon, sw.lat, ne.lon, ne.lat)`, one per address, in table order.
   */
  function InBounds(table: seq<AddressRow>, env: Envelope): (r: seq<Point2D>)
    ensures |r| <= |table|
    ensures forall p :: p in r <==> exists row :: row in table && Located(row, env) && row.location.value == p
    ensures forall p :: p in r ==> StrictlyWithin(p, env)
    ensures forall p :: multiset(r)[p] == RowsAt(table, env, p)
  {
    if |table| == 0 then []
    else
      var rest := InBounds(table[1..], env);
      assert forall row :: row in table ==> row == table[0] || row in table[1..];
      assert forall row :: row in table[1..] ==> row in table;
      if Located(table[0], env) then [table[0].location.value] + rest else rest
  }

  /** Split the points into those in cell `c` and the others, keeping every occurrence. */
  function Partition(ps: seq<Point2D>, c: Cell): (r: (seq<Point2D>, seq<Point2D>))
    ensures |r.0| + |r.1| == |ps|
    ensures forall p :: p in r.0 <==> p in ps && CellOf(p) == c
    ensures forall p :: p in r.1 <==> p in ps && CellOf(p) != c
  {
    if |ps| == 0 then ([], [])
    else
      var rest := Partition(ps[1..], c);
      assert forall p :: p in ps <==> p == ps[0] || p in ps[1..];
      if CellOf(ps[0]) == c then ([ps[0]] + rest.0, rest.1) else (rest.0, [ps[0]] + rest.1)
  }

  /** The number of points over all groups. */
  function Total(gs: seq<seq<Point2D>>): nat {
    if |gs| == 0 then 0 else |gs[0]| + Total(gs[1..])
  }

  /**
   * `GROUP BY cluster_x, cluster_y`: one non-empty group per occupied cell,
   * in order of first occurrence; the sizes add up to the number of points.
   */
  function Groups(ps: seq<Point2D>): (r: seq<seq<Point2D>>)
    ensures Total(r) == |ps|
    ensures forall i :: 0 <= i < |r| ==> |r[i]| > 0
    decreases |ps|
  {
    if |ps| == 0 then []
    else
      var c := CellOf(ps[0]);
      var split := Partition(ps, c);
      var same, rest := split.0, split.1;
      assert ps[0] in same;
      var tail := Groups(rest);
      var r := [same] + tail;
      assert r[1..] == tail;
      r
  }

  /** Every member of a group is one of the points and lies in the group's cell. */
  lemma {:induction false} GroupMember(ps: seq<Point2D>, i: nat, p: Point2D)
    requires i < |Groups(ps)| && p in Groups(ps)[i]
    ensures p in ps && CellOf(p) == CellOf(Groups(ps)[i][0])
    decreases |ps|
  {
    var c := CellOf(ps[0]);
    var split := Partition(ps, c);
    GroupsAt(ps, split.1);
    if i > 0 {
      GroupMember(split.1, i - 1, p);
    }
  }

  /** The groups after the first are the groups of the points outside the first point's cell. */
  lemma {:induction false} GroupsUnfold(ps: seq<Point2D>)
    requires |ps| > 0
    ensures var split := Partition(ps, CellOf(ps[0]));
            && Groups(ps) == [split.0] + Groups(split.1)
            && ps[0] in split.0
  {
  }

  /** No group of points outside a cell is for that cell. */
  lemma {:induction false} GroupsAvoidCell(rest: seq<Point2D>, c: Cell, j: nat)
    requires forall p :: p in rest ==> CellOf(p) != c
    requires j < |Groups(rest)|
    ensures CellOf(Groups(rest)[j][0]) != c
  {
    var g := Groups(rest)[j];
    assert g[0] in g;
    GroupMember(rest, j, g[0]);
  }

  /** No two groups are for the same cell. */
  predicate DistinctCells(gs: seq<seq<Point2D>>)
    requires forall i :: 0 <= i < |gs| ==> |gs[i]| > 0
  {
    forall i, j :: 0 <= i < j < |gs| ==> CellOf(gs[i][0]) != CellOf(gs[j][0])
  }

  /** A group in front of groups for other cells keeps the cells distinct. */
  lemma {:induction false} ConsDistinct(g: seq<Point2D>, tail: seq<seq<Point2D>>)
    requires |g| > 0 && forall i :: 0 <= i < |tail| ==> |tail[i]| > 0
    requires DistinctCells(tail)
    requires forall j :: 0 <= j < |tail| ==> CellOf(tail[j][0]) != CellOf(g[0])
    ensures forall i :: 0 <= i < |[g] + tail| ==> |([g] + tail)[i]| > 0
    ensures DistinctCells([g] + tail)
  {
    var r := [g] + tail;
    forall i, j | 0 <= i < j < |r| ensures CellOf(r[i][0]) != CellOf(r[j][0]) {
      assert r[j] == tail[j - 1];
      if i > 0 {
        assert r[i] == tail[i - 1];
      }
    }
  }

  /** Different groups are for different cells. */
  lemma {:induction false} GroupsDistinct(ps: seq<Point2D>)
    ensures DistinctCells(Groups(ps))
    decreases |ps|
  {
    if |ps| > 0 {
      GroupsUnfold(ps);
      var c := CellOf(ps[0]);
      var split := Partition(ps, c);
      var tail := Groups(split.1);
      GroupsDistinct(split.1);
      forall j | 0 <= j < |tail| ensures CellOf(tail[j][0]) != c {
        GroupsAvoidCell(split.1, c, j);
      }
      ConsDistinct(split.0, tail);
    }
  }

  /** A group holds every point of its cell. */
  lemma {:induction false} GroupHoldsCell(ps: seq<Point2D>, i: nat, p: Point2D)
    requires i < |Groups(ps)| && p in ps && CellOf(p) == CellOf(Groups(ps)[i][0])
    ensures p in Groups(ps)[i]
    decreases |ps|
  {
    GroupsUnfold(ps);
    var c := CellOf(ps[0]);
    var split := Partition(ps, c);
    var tail := Groups(split.1);
    if i == 0 {
      assert Groups(ps)[0] == split.0;
    } else {
      assert Groups(ps)[i] == tail[i - 1];
      GroupsAvoidCell(split.1, c, i - 1);
      assert p in split.1;
      GroupHoldsCell(split.1, i - 1, p);
    }
  }

  /** Every point is in some group. */
  lemma {:induction false} GroupsCover(ps: seq<Point2D>, p: Point2D) returns (i: nat)
    requires p in ps
    ensures i < |Groups(ps)| && p in Groups(ps)[i]
    decreases |ps|
  {
    var c := CellOf(ps[0]);
    var split := Partition(ps, c);
    GroupsAt(ps, split.1);
    if CellOf(p) == c {
      assert p in split.0;
      i := 0;
    } else {
      assert p in split.1;
      var j := GroupsCover(split.1, p);
      i := j + 1;
      assert Groups(ps)[i] == Groups(split.1)[j];
    }
  }

  /** The groups of a non-empty sequence, position by position. */
  lemma {:induction false} GroupsAt(ps: seq<Point2D>, rest: seq<Point2D>)
    requires |ps| > 0 && rest == Partition(ps, CellOf(ps[0])).1
    ensures |Groups(ps)| == 1 + |Groups(rest)|
    ensures Groups(ps)[0] == Partition(ps, CellOf(ps[0])).0
    ensures forall j :: 0 <= j < |Groups(rest)| ==> Groups(ps)[j + 1] == Groups(rest)[j]
  {
    GroupsUnfold(ps);
  }

  function Sum(s: seq<real>): real {
    if |s| == 0 then 0.0 else s[0] + Sum(s[1..])
  }

  /** SQL `AVG` over a non-empty group. */
  function Mean(s: seq<real>): real
    requires |s| > 0
  {
    Sum(s) / |s| as real
  }

  function Xs(g: seq<Point2D>): (r: seq<real>)
    ensures |r| == |g| && forall i :: 0 <= i < |g| ==> r[i] == g[i].x
  {
    seq(|g|, i requires 0 <= i < |g| => g[i].x)
  }

  function Ys(g: seq<Point2D>): (r: seq<real>)
    ensures |r| == |g| && forall i :: 0 <= i < |g| ==> r[i] == g[i].y
  {
    seq(|g|, i requires 0 <= i < |g| => g[i].y)
  }

  lemma {:induction false} SumAtLeast(s: seq<real>, lo: real)
    requires forall i :: 0 <= i < |s| ==> lo <= s[i]
    ensures |s| as real * lo <= Sum(s)
  {
    if |s| > 0 {
      SumAtLeast(s[1..], lo);
    }
  }

  lemma {:induction false} SumAbove(s: seq<real>, lo: real)
    requires |s| > 0
    requires forall i :: 0 <= i < |s| ==> lo < s[i]
    ensures |s| as real * lo < Sum(s)
  {
    SumAtLeast(s[1..], lo);
  }

  lemma {:induction false} SumBelow(s: seq<real>, hi: real)
    requires |s| > 0
    requires forall i :: 0 <= i < |s| ==> s[i] < hi
    ensures Sum(s) < |s| as real * hi
  {
    if |s| > 1 {
      SumBelow(s[1..], hi);
    }
  }

  /** A mean lies between the bounds of its values. */
  lemma {:induction false} MeanBetween(s: seq<real>, lo: real, hi: real, strictLow: bool)
    requires |s| > 0
    requires forall i :: 0 <= i < |s| ==> (if strictLow then lo < s[i] else lo <= s[i]) && s[i] < hi
    ensures (if strictLow then lo < Mean(s) else lo <= Mean(s)) && Mean(s) < hi
  {
    var n := |s| as real;
    if strictLow {
      SumAbove(s, lo);
    } else {
      SumAtLeast(s, lo);
    }
    SumBelow(s, hi);
    assert Mean(s) * n == Sum(s);
  }

  /** The `cluster_centers` row of a group: the mean of its x and y, and its size. */
  function ClusterOf(g: seq<Point2D>): (c: AddressCluster)
    requires |g| > 0
    ensures c.count == |g| > 0
  {
    AddressCluster(Mean(Xs(g)), Mean(Ys(g)), |g|)
  }

  /** A cluster's centre lies in the grid cell of its points. */
  lemma {:induction false} CenterInCell(g: seq<Point2D>)
    requires |g| > 0
    requires forall p :: p in g ==> CellOf(p) == CellOf(g[0])
    ensures var c := CellOf(g[0]);
            var k := ClusterOf(g);
            && CellSize * c.x as real <= k.longitude < CellSize * (c.x + 1) as real
            && CellSize * c.y as real <= k.latitude < CellSize * (c.y + 1) as real
  {
    var c := CellOf(g[0]);
    forall i | 0 <= i < |g|
      ensures CellSize * c.x as real <= Xs(g)[i] < CellSize * (c.x + 1) as real
      ensures CellSize * c.y as real <= Ys(g)[i] < CellSize * (c.y + 1) as real
    {
      assert g[i] in g;
      CellBounds(g[i]);
    }
    MeanBetween(Xs(g), CellSize * c.x as real, CellSize * (c.x + 1) as real, false);
    MeanBetween(Ys(g), CellSize * c.y as real, CellSize * (c.y + 1) as real, false);
  }

  /** A cluster of points strictly inside the envelope has its centre strictly inside too. */
  lemma {:induction false} CenterWithin(g: seq<Point2D>, env: Envelope)
    requires |g| > 0
    requires forall p :: p in g ==> StrictlyWithin(p, env)
    ensures StrictlyWithin(Point2D(ClusterOf(g).longitude, ClusterOf(g).latitude), env)
  {
    forall i | 0 <= i < |g|
      ensures Lo(env.minX, env.maxX) < Xs(g)[i] < Hi(env.minX, env.maxX)
      ensures Lo(env.minY, env.maxY) < Ys(g)[i] < Hi(env.minY, env.maxY)
    {
      assert g[i] in g;
    }
    MeanBetween(Xs(g), Lo(env.minX, env.maxX), Hi(env.minX, env.maxX), true);
    MeanBetween(Ys(g), Lo(env.minY, env.maxY), Hi(env.minY, env.maxY), true);
  }

  function Clusters(gs: seq<seq<Point2D>>): (r: seq<AddressCluster>)
    requires forall i :: 0 <= i < |gs| ==> |gs[i]| > 0
    ensures |r| == |gs|
    ensures forall i :: 0 <= i < |gs| ==> r[i] == ClusterOf(gs[i])
  {
    seq(|gs|, i requires 0 <= i < |gs| => ClusterOf(gs[i]))
  }

  function Count(c: AddressCluster): real {
    c.count as real
  }

  function TotalCount(cs: seq<AddressCluster>): nat {
    if |cs| == 0 then 0 else cs[0].count + TotalCount(cs[1..])
  }

  lemma {:induction false} TotalCountOfClusters(gs: seq<seq<Point2D>>)
    requires forall i :: 0 <= i < |gs| ==> |gs[i]| > 0
    ensures TotalCount(Clusters(gs)) == Total(gs)
  {
    if |gs| > 0 {
      assert Clusters(gs)[1..] == Clusters(gs[1..]);
      TotalCountOfClusters(gs[1..]);
    }
  }

  lemma {:induction false} TotalCountAppend(a: seq<AddressCluster>, b: seq<AddressCluster>)
    ensures TotalCount(a + b) == TotalCount(a) + TotalCount(b)
  {
    if |a| == 0 {
      assert a + b == b;
    } else {
      assert (a + b)[1..] == a[1..] + b;
      TotalCountAppend(a[1..], b);
    }
  }

  /** Taking out the cluster at `k` removes its count from the total. */
  lemma {:induction false} TotalCountRemove(b: seq<AddressCluster>, k: nat)
    requires k < |b|
    ensures TotalCount(b) == b[k].count + TotalCount(b[..k] + b[k + 1..])
  {
    assert b == b[..k] + ([b[k]] + b[k + 1..]);
    TotalCountInsert(b[..k], b[k], b[k + 1..]);
  }

  /** One cluster in the middle adds its count. */
  lemma {:induction false} TotalCountInsert(pre: seq<AddressCluster>, x: AddressCluster, post: seq<AddressCluster>)
    ensures TotalCount(pre + ([x] + post)) == x.count + TotalCount(pre + post)
  {
    var mid := [x] + post;
    TotalCountAppend(pre, mid);
    assert mid[1..] == post;
    TotalCountAppend(pre, post);
  }

  /** Taking out the element at `k` removes one copy of it from the multiset. */
  lemma {:induction false} MultisetRemove<T>(b: seq<T>, k: nat)
    requires k < |b|
    ensures multiset(b[..k] + b[k + 1..]) == multiset(b) - multiset{b[k]}
  {
    assert b == b[..k] + [b[k]] + b[k + 1..];
  }

  /** Reordering the clusters keeps the total count. */
  lemma {:induction false} TotalCountPermutation(a: seq<AddressCluster>, b: seq<AddressCluster>)
    requires multiset(a) == multiset(b)
    ensures TotalCount(a) == TotalCount(b)
    decreases |a|
  {
    if |a| > 0 {
      assert a[0] in multiset(b);
      var k :| 0 <= k < |b| && b[k] == a[0];
      TotalCountRemove(b, k);
      MultisetRemove(b, k);
      assert a == [a[0]] + a[1..];
      assert multiset(a[1..]) == multiset(a) - multiset{a[0]};
      TotalCountPermutation(a[1..], b[..k] + b[k + 1..]);
    }
  }

  /**
   * `getAddressClustersInBounds`: one cluster per occupied cell, largest
   * first. Every count is positive (so `HAVING count > 0` keeps them all),
   * the counts add up to the addresses inside the bounds, and every centre
   * lies strictly inside the bounds.
   */
  function GetAddressClustersInBounds(table: seq<AddressRow>, sw: Position, ne: Position): (r: seq<AddressCluster>)
    ensures SortedDescBy(r, Count)
    ensures forall i :: 0 <= i < |r| ==> r[i].count > 0
    ensures TotalCount(r) == |InBounds(table, EnvelopeOf(sw, ne))|
    ensures forall i :: 0 <= i < |r| ==> StrictlyWithin(Point2D(r[i].longitude, r[i].latitude), EnvelopeOf(sw, ne))
    ensures multiset(r) == multiset(Clusters(Groups(InBounds(table, EnvelopeOf(sw, ne)))))
  {
    var env := EnvelopeOf(sw, ne);
    var ps := InBounds(table, env);
    var gs := Groups(ps);
    var cs := Clusters(gs);
    var r := SortDesc(cs, Count);
    TotalCountOfClusters(gs);
    TotalCountPermutation(r, cs);
    forall i | 0 <= i < |r| ensures r[i].count > 0 && StrictlyWithin(Point2D(r[i].longitude, r[i].latitude), env) {
      assert r[i] in multiset(cs);
      var j :| 0 <= j < |cs| && cs[j] == r[i];
      forall p | p in gs[j] ensures StrictlyWithin(p, env) {
        GroupMember(ps, j, p);
      }
      CenterWithin(gs[j], env);
    }
    r
  }
}
