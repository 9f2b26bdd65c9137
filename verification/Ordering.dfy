/** The spatial nested-dissection order: the median along the wider side is
    emitted behind both halves. Whatever the coordinates, it yields ranks that
    the builder accepts. */
module Ordering {
  import opened Walks
  import opened Cch
  import opened Pack
  import Build
  import Weights

  /** Position along the wider side; node ids break ties. */
  predicate AtMost(nodes: seq<GraphNode>, byLng: bool, left: nat, right: nat)
    requires left < |nodes| && right < |nodes|
  {
    var l, r := Along(nodes, byLng, left), Along(nodes, byLng, right);
    l < r || (l == r && left <= right)
  }

  predicate IdsIn(nodes: seq<GraphNode>, ids: seq<nat>) {
    AllBelow(ids, |nodes|)
  }

  function SortIds(nodes: seq<GraphNode>, byLng: bool, ids: seq<nat>): (r: seq<nat>)
    requires IdsIn(nodes, ids)
    ensures multiset(r) == multiset(ids) && |r| == |ids| && IdsIn(nodes, r)
  {
    if ids == [] then []
    else
      assert ids == [ids[0]] + ids[1..];
      InsertId(nodes, byLng, ids[0], SortIds(nodes, byLng, ids[1..]))
  }

  function InsertId(nodes: seq<GraphNode>, byLng: bool, id: nat, sorted: seq<nat>): (r: seq<nat>)
    requires IdsIn(nodes, sorted) && id < |nodes|
    ensures multiset(r) == multiset{id} + multiset(sorted) && |r| == |sorted| + 1 && IdsIn(nodes, r)
  {
    if sorted == [] || AtMost(nodes, byLng, id, sorted[0]) then [id] + sorted
    else
      assert sorted == [sorted[0]] + sorted[1..];
      [sorted[0]] + InsertId(nodes, byLng, id, sorted[1..])
  }

  function Along(nodes: seq<GraphNode>, byLng: bool, id: nat): real
    requires id < |nodes|
  {
    if byLng then nodes[id].lng else nodes[id].lat
  }

  function Highest(nodes: seq<GraphNode>, byLng: bool, ids: seq<nat>): real
    requires IdsIn(nodes, ids) && ids != []
  {
    var last := Along(nodes, byLng, ids[|ids| - 1]);
    if |ids| == 1 then last
    else
      var rest := Highest(nodes, byLng, ids[..|ids| - 1]);
      if rest < last then last else rest
  }

  function Lowest(nodes: seq<GraphNode>, byLng: bool, ids: seq<nat>): real
    requires IdsIn(nodes, ids) && ids != []
  {
    var last := Along(nodes, byLng, ids[|ids| - 1]);
    if |ids| == 1 then last
    else
      var rest := Lowest(nodes, byLng, ids[..|ids| - 1]);
      if last < rest then last else rest
  }

  /** The extent of the points along one side. */
  method Extent(nodes: seq<GraphNode>, byLng: bool, ids: seq<nat>) returns (extent: real)
    requires IdsIn(nodes, ids) && ids != []
    ensures extent == Highest(nodes, byLng, ids) - Lowest(nodes, byLng, ids)
  {
    var high, low := Along(nodes, byLng, ids[0]), Along(nodes, byLng, ids[0]);
    for k := 1 to |ids|
      invariant high == Highest(nodes, byLng, ids[..k]) && low == Lowest(nodes, byLng, ids[..k])
    {
      assert ids[..k + 1][..k] == ids[..k];
      var at := Along(nodes, byLng, ids[k]);
      high := if high < at then at else high;
      low := if at < low then at else low;
    }
    assert ids[..|ids|] == ids;
    extent := high - low;
  }

  predicate SortedIds(nodes: seq<GraphNode>, byLng: bool, ids: seq<nat>)
    requires IdsIn(nodes, ids)
  {
    forall i, j | 0 <= i < j < |ids| :: AtMost(nodes, byLng, ids[i], ids[j])
  }

  lemma {:induction false} InsertSorts(nodes: seq<GraphNode>, byLng: bool, id: nat, sorted: seq<nat>)
    requires IdsIn(nodes, sorted) && id < |nodes| && SortedIds(nodes, byLng, sorted)
    ensures SortedIds(nodes, byLng, InsertId(nodes, byLng, id, sorted))
    ensures forall x | x in InsertId(nodes, byLng, id, sorted) :: x == id || x in sorted
  {
    if sorted != [] && !AtMost(nodes, byLng, id, sorted[0]) {
      InsertSorts(nodes, byLng, id, sorted[1..]);
      var rest := InsertId(nodes, byLng, id, sorted[1..]);
      forall k | 0 <= k < |rest|
        ensures AtMost(nodes, byLng, sorted[0], rest[k])
      {
        if rest[k] != id {
          assert rest[k] in rest && rest[k] in sorted[1..];
          var i :| 0 <= i < |sorted[1..]| && sorted[1..][i] == rest[k];
          assert sorted[i + 1] == rest[k];
        }
      }
    }
  }

  lemma {:induction false} SortSorts(nodes: seq<GraphNode>, byLng: bool, ids: seq<nat>)
    requires IdsIn(nodes, ids)
    ensures SortedIds(nodes, byLng, SortIds(nodes, byLng, ids))
  {
    if ids != [] {
      SortSorts(nodes, byLng, ids[1..]);
      InsertSorts(nodes, byLng, ids[0], SortIds(nodes, byLng, ids[1..]));
    }
  }

  /** The distance along one side between the two points that lie farthest apart. */
  ghost predicate Spread(nodes: seq<GraphNode>, byLng: bool, ids: seq<nat>, extent: real)
    requires IdsIn(nodes, ids)
  {
    && (forall i, j | 0 <= i < |ids| && 0 <= j < |ids| ::
          Along(nodes, byLng, ids[i]) - Along(nodes, byLng, ids[j]) <= extent)
    && exists i, j :: 0 <= i < |ids| && 0 <= j < |ids|
                      && Along(nodes, byLng, ids[i]) - Along(nodes, byLng, ids[j]) == extent
  }

  /** The points are halved at their median along the wider side. */
  ghost predicate Halved(nodes: seq<GraphNode>, ids: seq<nat>, byLng: bool, left: seq<nat>, right: seq<nat>,
                         separator: nat)
    requires IdsIn(nodes, ids)
  {
    && multiset(ids) == multiset(left) + multiset{separator} + multiset(right)
    && |left| == |ids| / 2 && |left| + 1 + |right| == |ids|
    && IdsIn(nodes, left) && IdsIn(nodes, right) && separator < |nodes|
    && Wider(nodes, ids, byLng)
    && (forall k | 0 <= k < |left| :: AtMost(nodes, byLng, left[k], separator))
    && forall k | 0 <= k < |right| :: AtMost(nodes, byLng, separator, right[k])
  }

  /** How a set of points was taken apart, down to single points. */
  datatype Cut = Whole | Cut(byLng: bool, left: seq<nat>, right: seq<nat>, separator: nat, inLeft: Cut, inRight: Cut)

  /** Every part of two points or more is halved. */
  ghost predicate Cuts(nodes: seq<GraphNode>, ids: seq<nat>, cut: Cut)
    requires IdsIn(nodes, ids)
    decreases cut
  {
    match cut
    case Whole => |ids| <= 1
    case Cut(byLng, left, right, separator, inLeft, inRight) =>
      && |ids| >= 2 && Halved(nodes, ids, byLng, left, right, separator)
      && Cuts(nodes, left, inLeft) && Cuts(nodes, right, inRight)
  }

  /** The halves come first, each in its own order, and the separator last. */
  function Emitted(ids: seq<nat>, cut: Cut): seq<nat>
    decreases cut
  {
    match cut
    case Whole => ids
    case Cut(_, left, right, separator, inLeft, inRight) =>
      Emitted(left, inLeft) + Emitted(right, inRight) + [separator]
  }

  lemma {:induction false} EmittedOnce(nodes: seq<GraphNode>, ids: seq<nat>, cut: Cut)
    requires IdsIn(nodes, ids) && Cuts(nodes, ids, cut)
    ensures multiset(Emitted(ids, cut)) == multiset(ids)
    decreases cut
  {
    if cut.Cut? {
      EmittedOnce(nodes, cut.left, cut.inLeft);
      EmittedOnce(nodes, cut.right, cut.inRight);
    }
  }

  lemma {:induction false} HighestIs(nodes: seq<GraphNode>, byLng: bool, ids: seq<nat>) returns (i: nat)
    requires IdsIn(nodes, ids) && ids != []
    ensures i < |ids| && Along(nodes, byLng, ids[i]) == Highest(nodes, byLng, ids)
    ensures forall j | 0 <= j < |ids| :: Along(nodes, byLng, ids[j]) <= Highest(nodes, byLng, ids)
  {
    i := |ids| - 1;
    if |ids| > 1 {
      var k := HighestIs(nodes, byLng, ids[..|ids| - 1]);
      if Highest(nodes, byLng, ids[..|ids| - 1]) >= Along(nodes, byLng, ids[i]) {
        i := k;
      }
    }
  }

  lemma {:induction false} LowestIs(nodes: seq<GraphNode>, byLng: bool, ids: seq<nat>) returns (i: nat)
    requires IdsIn(nodes, ids) && ids != []
    ensures i < |ids| && Along(nodes, byLng, ids[i]) == Lowest(nodes, byLng, ids)
    ensures forall j | 0 <= j < |ids| :: Along(nodes, byLng, ids[j]) >= Lowest(nodes, byLng, ids)
  {
    i := |ids| - 1;
    if |ids| > 1 {
      var k := LowestIs(nodes, byLng, ids[..|ids| - 1]);
      if Lowest(nodes, byLng, ids[..|ids| - 1]) <= Along(nodes, byLng, ids[i]) {
        i := k;
      }
    }
  }

  lemma SpreadIs(nodes: seq<GraphNode>, byLng: bool, ids: seq<nat>, extent: real)
    requires IdsIn(nodes, ids) && ids != []
    ensures Spread(nodes, byLng, ids, extent) <==> extent == Highest(nodes, byLng, ids) - Lowest(nodes, byLng, ids)
  {
    var high := HighestIs(nodes, byLng, ids);
    var low := LowestIs(nodes, byLng, ids);
    assert Along(nodes, byLng, ids[high]) - Along(nodes, byLng, ids[low])
           == Highest(nodes, byLng, ids) - Lowest(nodes, byLng, ids);
  }

  /** Which side is the wider. */
  ghost predicate Wider(nodes: seq<GraphNode>, ids: seq<nat>, byLng: bool)
    requires IdsIn(nodes, ids)
  {
    forall lng, lat | Spread(nodes, true, ids, lng) && Spread(nodes, false, ids, lat) :: byLng <==> lng >= lat
  }

  lemma WiderIs(nodes: seq<GraphNode>, ids: seq<nat>, byLng: bool)
    requires IdsIn(nodes, ids) && ids != []
    requires byLng <==> Highest(nodes, true, ids) - Lowest(nodes, true, ids)
                        >= Highest(nodes, false, ids) - Lowest(nodes, false, ids)
    ensures Wider(nodes, ids, byLng)
  {
    forall lng, lat | Spread(nodes, true, ids, lng) && Spread(nodes, false, ids, lat)
      ensures byLng <==> lng >= lat
    {
      SpreadIs(nodes, true, ids, lng);
      SpreadIs(nodes, false, ids, lat);
    }
  }

  /** Two points, one east of the other and one north: the longitude decides
      unless they lie farther apart in latitude. */
  lemma TieGoesByLongitude(nodes: seq<GraphNode>, byLng: bool, left: seq<nat>, right: seq<nat>, separator: nat)
    requires |nodes| == 2 && nodes[0].lng > nodes[1].lng && nodes[0].lat < nodes[1].lat
    requires IdsIn(nodes, [0, 1]) && Halved(nodes, [0, 1], byLng, left, right, separator)
    ensures var east, north := nodes[0].lng - nodes[1].lng, nodes[1].lat - nodes[0].lat;
            && right == [] && (byLng <==> east >= north)
            && if east >= north then left == [1] && separator == 0 else left == [0] && separator == 1
  {
    TwoSpreads(nodes, [0, 1]);
    assert |left| == 1 && right == [];
    TwoHalves(left, separator);
    assert AtMost(nodes, byLng, left[0], separator);
  }

  lemma TwoSpreads(nodes: seq<GraphNode>, ids: seq<nat>)
    requires |nodes| == 2 && nodes[0].lng > nodes[1].lng && nodes[0].lat < nodes[1].lat
    requires IdsIn(nodes, ids) && ids == [0, 1]
    ensures Spread(nodes, true, ids, nodes[0].lng - nodes[1].lng)
    ensures Spread(nodes, false, ids, nodes[1].lat - nodes[0].lat)
  {
    assert Along(nodes, true, ids[0]) - Along(nodes, true, ids[1]) == nodes[0].lng - nodes[1].lng;
    assert Along(nodes, false, ids[1]) - Along(nodes, false, ids[0]) == nodes[1].lat - nodes[0].lat;
  }

  lemma TwoHalves(left: seq<nat>, separator: nat)
    requires |left| == 1 && multiset([0, 1]) == multiset(left) + multiset{separator} + multiset{}
    ensures (left == [0] && separator == 1) || (left == [1] && separator == 0)
  {
    var both: seq<nat> := [0, 1];
    assert left == [left[0]];
    var all := multiset(left) + multiset{separator};
    assert left[0] in all && separator in all && 0 in multiset(both) && 1 in multiset(both);
  }

  lemma Split(sorted: seq<nat>, middle: nat)
    requires middle < |sorted|
    ensures multiset(sorted) == multiset(sorted[..middle]) + multiset{sorted[middle]} + multiset(sorted[middle + 1..])
  {
    assert sorted == sorted[..middle] + [sorted[middle]] + sorted[middle + 1..];
  }

  /** Sorting along the wider side and splitting in the middle halves the points. */
  lemma SortedHalves(nodes: seq<GraphNode>, ids: seq<nat>, byLng: bool, sorted: seq<nat>)
    requires IdsIn(nodes, ids) && |ids| >= 2 && Wider(nodes, ids, byLng)
    requires |sorted| == |ids| && multiset(sorted) == multiset(ids) && IdsIn(nodes, sorted)
    requires SortedIds(nodes, byLng, sorted)
    ensures var middle := |sorted| / 2;
            Halved(nodes, ids, byLng, sorted[..middle], sorted[middle + 1..], sorted[middle])
  {
    Split(sorted, |sorted| / 2);
  }

  /** Appends the ids of one part, its separator last. */
  method Dissect(nodes: seq<GraphNode>, ids: seq<nat>, order: seq<nat>) returns (r: seq<nat>, ghost cut: Cut)
    requires IdsIn(nodes, ids)
    ensures Cuts(nodes, ids, cut) && r == order + Emitted(ids, cut)
    decreases |ids|
  {
    if ids == [] {
      return order, Whole;
    }
    if |ids| == 1 {
      return order + [ids[0]], Whole;
    }
    ghost var byLng;
    var left, separator, right;
    left, separator, right, byLng := Halve(nodes, ids);
    ghost var inLeft, inRight;
    r, inLeft := Dissect(nodes, left, order);
    r, inRight := Dissect(nodes, right, r);
    r := r + [separator];
    cut := Cut(byLng, left, right, separator, inLeft, inRight);
  }

  /** Sorts along the wider side and splits in the middle. */
  method Halve(nodes: seq<GraphNode>, ids: seq<nat>)
      returns (left: seq<nat>, separator: nat, right: seq<nat>, ghost byLng: bool)
    requires IdsIn(nodes, ids) && |ids| >= 2
    ensures Halved(nodes, ids, byLng, left, right, separator)
  {
    var lngExtent := Extent(nodes, true, ids);
    var latExtent := Extent(nodes, false, ids);
    byLng := lngExtent >= latExtent;
    WiderIs(nodes, ids, byLng);
    var sorted := SortIds(nodes, lngExtent >= latExtent, ids);
    SortSorts(nodes, byLng, ids);
    SortedHalves(nodes, ids, byLng, sorted);
    var middle := |sorted| / 2;
    return sorted[..middle], sorted[middle], sorted[middle + 1..], byLng;
  }

  function Iota(n: nat): (r: seq<nat>)
    ensures |r| == n && forall i | 0 <= i < n :: r[i] == i
  {
    seq(n, i requires 0 <= i < n => i)
  }

  /** The ranks of all nodes: their places in the nested order, always a
      permutation, so the builder never refuses them. */
  method SpatialOrdering(nodes: seq<GraphNode>) returns (rank: seq<nat>, ghost cut: Cut)
    ensures Permutation(|nodes|, rank)
    ensures Cuts(nodes, Iota(|nodes|), cut) && |Emitted(Iota(|nodes|), cut)| == |nodes|
    ensures forall i | 0 <= i < |nodes| ::
              Emitted(Iota(|nodes|), cut)[i] < |nodes| && rank[Emitted(Iota(|nodes|), cut)[i]] == i
  {
    var order;
    order, cut := Dissect(nodes, Iota(|nodes|), []);
    EmittedOnce(nodes, Iota(|nodes|), cut);
    Rearranged(order, Emitted(Iota(|nodes|), cut), |nodes|);
    rank := Build.InvertRank(|nodes|, order);
    InverseOf(order, rank);
  }

  lemma Rearranged(order: seq<nat>, part: seq<nat>, n: nat)
    requires order == [] + part && multiset(part) == multiset(Iota(n))
    ensures order == part && Permutation(n, order)
  {
    assert order == part;
    assert |order| == |multiset(order)| == |multiset(Iota(n))| == n;
    PermutedIds(order, n);
  }

  /** A rearrangement of 0, ..., n - 1 is a permutation. */
  lemma PermutedIds(order: seq<nat>, n: nat)
    requires |order| == n && multiset(order) == multiset(Iota(n))
    ensures Permutation(n, order)
  {
    var ids := Iota(n);
    forall i | 0 <= i < n
      ensures order[i] < n
    {
      assert order[i] in multiset(order);
      assert order[i] in ids;
    }
    forall i, j | 0 <= i < j < n
      ensures order[i] != order[j]
    {
      if order[i] == order[j] {
        TwiceCounted(order, i, j);
        OnceCounted(n, order[i]);
      }
    }
  }

  lemma TwiceCounted(s: seq<nat>, i: nat, j: nat)
    requires i < j < |s| && s[i] == s[j]
    ensures multiset(s)[s[i]] >= 2
  {
    assert s == s[..i] + [s[i]] + s[i + 1..j] + [s[j]] + s[j + 1..];
  }

  lemma {:induction false} OnceCounted(n: nat, x: nat)
    ensures multiset(Iota(n))[x] <= 1
    ensures x >= n ==> multiset(Iota(n))[x] == 0
  {
    if n > 0 {
      OnceCounted(n - 1, x);
      assert Iota(n) == Iota(n - 1) + [n - 1];
    }
  }

  /** The table that inverts a permutation is one. */
  lemma InverseOf(order: seq<nat>, rank: seq<nat>)
    requires Permutation(|order|, order) && |rank| == |order|
    requires forall i | 0 <= i < |order| :: rank[order[i]] == i
    ensures Permutation(|rank|, rank)
  {
    forall x | 0 <= x < |rank|
      ensures rank[x] < |rank| && order[rank[x]] == x
    {
      var i := Weights.PermutationHits(|order|, order, x);
    }
  }
}
