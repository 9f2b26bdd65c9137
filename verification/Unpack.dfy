/** Unpacking CCH arcs to original arcs through their witnesses. */
module Unpack {
  import opened Costs
  import opened Walks
  import opened LowWalks
  import opened Cch
  import opened Fill
  import opened Weights
  import opened Query

  /** The growing list of original arc ids. */
  class EdgeList {
    var items: seq<nat>

    constructor ()
      ensures items == []
    {
      items := [];
    }

    method Push(x: nat)
      modifies this
      ensures items == old(items) + [x]
    {
      items := items + [x];
    }
  }

  /** The original arcs behind a directed traversal of a CCH arc. */
  function Expand(c: CchStructure, n: nat, w: CchWeights, arcs: seq<PackArc>, up: bool, a: nat): seq<nat>
    requires c.Valid(n) && Witnessed(c, w, arcs) && a < c.ArcCount()
    decreases c.upTail[a]
  {
    assert WitnessOk(c, w, arcs, up, a);
    match w.WitnessAt(up, a)
    case NoWitness => []
    case Original(i) => [i]
    case Triangle(bottom, mid) =>
      ArcBucket(c, n, bottom);
      var (first, second) := w.WitnessAt(up, a).Legs(up);
      Expand(c, n, w, arcs, false, first) + Expand(c, n, w, arcs, true, second)
  }

  /** Unpacking is sound on every accepted pack: the original arcs form a walk
      between the arc's ends, through lower ranks only, of exactly its weight. */
  lemma {:induction false} ExpandWalk(c: CchStructure, n: nat, w: CchWeights, arcs: seq<PackArc>, g: seq<PackArc>,
                                      up: bool, a: nat)
      returns (v: seq<nat>)
    requires c.Valid(n) && Witnessed(c, w, arcs) && a < c.ArcCount()
    requires (forall e | e in arcs :: e.from < n && e.to < n) && g == Ranked(arcs, c.rank)
    requires w.At(up, a) < INFINITE_COST
    ensures LowWalk(g, v, Expand(c, n, w, arcs, up, a), Start(c, up, a), End(c, up, a), c.upTail[a])
    ensures WalkCost(g, Expand(c, n, w, arcs, up, a)) == w.At(up, a)
    decreases c.upTail[a]
  {
    ExpandCases(c, n, w, arcs, up, a);
    match w.WitnessAt(up, a) {
      case Original(i) =>
        v := OriginalWalk(c, n, w, arcs, g, up, a, i);
      case Triangle(bottom, mid) =>
        var (first, second) := w.WitnessAt(up, a).Legs(up);
        var v1 := ExpandWalk(c, n, w, arcs, g, false, first);
        var v2 := ExpandWalk(c, n, w, arcs, g, true, second);
        v := JoinLow(g, v1, Expand(c, n, w, arcs, false, first), v2, Expand(c, n, w, arcs, true, second),
                     Start(c, up, a), c.upTail[first], End(c, up, a), c.upTail[a]);
    }
  }

  /** The three cases of an expansion. */
  lemma ExpandCases(c: CchStructure, n: nat, w: CchWeights, arcs: seq<PackArc>, up: bool, a: nat)
    requires c.Valid(n) && Witnessed(c, w, arcs) && a < c.ArcCount()
    ensures c.upTail[a] < n
    ensures match w.WitnessAt(up, a)
            case NoWitness => w.At(up, a) == INFINITE_COST
            case Original(i) =>
              Expand(c, n, w, arcs, up, a) == [i] && w.At(up, a) < INFINITE_COST && WitnessOk(c, w, arcs, up, a)
            case Triangle(bottom, mid) =>
              var (first, second) := w.WitnessAt(up, a).Legs(up);
              && w.At(up, a) < INFINITE_COST
              && AreLegs(c, w, up, a, first, second)
              && Expand(c, n, w, arcs, up, a)
                 == Expand(c, n, w, arcs, false, first) + Expand(c, n, w, arcs, true, second)
  {
    ArcBucket(c, n, a);
    assert WitnessOk(c, w, arcs, up, a);
    if w.WitnessAt(up, a).Triangle? {
      TriangleLegs(c, n, w, up, a, w.WitnessAt(up, a).bottomArc, w.WitnessAt(up, a).midArc);
    }
  }

  /** Down to a bottom over the first arc, up from it over the second, at
      finite weights that make up the weight of arc a. */
  predicate AreLegs(c: CchStructure, w: CchWeights, up: bool, a: nat, first: nat, second: nat)
    requires w.Sized(c.ArcCount()) && |c.upTail| == c.ArcCount() && a < c.ArcCount()
  {
    && first < c.ArcCount() && second < c.ArcCount()
    && c.upTail[first] == c.upTail[second] < c.upTail[a]
    && Start(c, false, first) == Start(c, up, a) && End(c, true, second) == End(c, up, a)
    && w.At(false, first) + w.At(true, second) == w.At(up, a)
    && w.At(false, first) < INFINITE_COST && w.At(true, second) < INFINITE_COST
  }

  /** The two legs of a realized triangle: down to the bottom, up from it. */
  lemma TriangleLegs(c: CchStructure, n: nat, w: CchWeights, up: bool, a: nat, bottom: nat, mid: nat)
    requires c.Valid(n) && w.Sized(c.ArcCount()) && a < c.ArcCount()
    requires TriangleOk(c, w, a, up, w.At(up, a), bottom, mid)
    ensures var (first, second) := Triangle(bottom, mid).Legs(up);
            AreLegs(c, w, up, a, first, second)
  {
    ArcBucket(c, n, bottom);
    ArcBucket(c, n, mid);
  }

  lemma OriginalWalk(c: CchStructure, n: nat, w: CchWeights, arcs: seq<PackArc>, g: seq<PackArc>, up: bool, a: nat,
                     i: nat)
      returns (v: seq<nat>)
    requires c.Valid(n) && w.Sized(c.ArcCount()) && RanksInRange(c) && a < c.ArcCount()
    requires (forall e | e in arcs :: e.from < n && e.to < n) && g == Ranked(arcs, c.rank)
    requires w.WitnessAt(up, a) == Original(i) && WitnessOk(c, w, arcs, up, a)
    ensures LowWalk(g, v, [i], Start(c, up, a), End(c, up, a), c.upTail[a]) && WalkCost(g, [i]) == w.At(up, a)
  {
    v := [Start(c, up, a), End(c, up, a)];
    ArcBucket(c, n, a);
    RankOfOrder(c, n, Start(c, up, a));
    RankOfOrder(c, n, End(c, up, a));
    assert [i][..0] == [];
  }

  lemma JoinLow(g: seq<PackArc>, v: seq<nat>, p: seq<nat>, u: seq<nat>, q: seq<nat>, x: nat, b: nat, y: nat, k: nat)
      returns (r: seq<nat>)
    requires LowWalk(g, v, p, x, b, b) && LowWalk(g, u, q, b, y, b) && b < k
    ensures LowWalk(g, r, p + q, x, y, k) && WalkCost(g, p + q) == WalkCost(g, p) + WalkCost(g, q)
  {
    WalkJoin(g, v, p, u, q);
    r := v + u[1..];
  }

  /** Unpacks one arc onto the shared list. The depth guard never fires while
      the depth stays within the ranks above the arc's tail. */
  method UnpackArc(c: CchStructure, ghost n: nat, w: CchWeights, ghost arcs: seq<PackArc>, index: nat, forward: bool,
                   result: EdgeList, depth: nat)
      returns (r: Result<()>)
    requires c.Valid(n) && Witnessed(c, w, arcs) && index < c.ArcCount()
    modifies result
    ensures depth + c.upTail[index] <= n && w.At(forward, index) < INFINITE_COST ==>
              r.Ok? && result.items == old(result.items) + Expand(c, n, w, arcs, forward, index)
    ensures depth <= n && w.At(forward, index) == INFINITE_COST ==> r == Err(NoRoute)
    ensures depth > n ==> r.Err? && r.error.InvalidPack?
    decreases c.upTail[index]
  {
    if depth > |c.rank| {
      return Err(InvalidPack("cyclic CCH unpack witness"));
    }
    ExpandCases(c, n, w, arcs, forward, index);
    match w.WitnessAt(forward, index) {
      case Original(arc) =>
        result.Push(arc);
        return Ok(());
      case Triangle(bottom, mid) =>
        var (first, second) := if forward then (bottom, mid) else (mid, bottom);
        var _ :- UnpackArc(c, n, w, arcs, first, false, result, depth + 1);
        var _ :- UnpackArc(c, n, w, arcs, second, true, result, depth + 1);
        return Ok(());
      case NoWitness =>
        return Err(NoRoute);
    }
  }

  /** Consecutive arc traversals from x to y. */
  predicate Connected(c: CchStructure, path: seq<QueryArc>, x: nat, y: nat)
    requires |c.upTail| == |c.upHead|
  {
    if path == [] then x == y
    else
      && path[0].index < |c.upHead| && Start(c, path[0].forward, path[0].index) == x
      && Connected(c, path[1..], End(c, path[0].forward, path[0].index), y)
  }

  function PathCost(w: CchWeights, path: seq<QueryArc>): nat
    requires |w.forward| == |w.backward| && forall q | q in path :: q.index < |w.forward|
  {
    if path == [] then 0 else w.At(path[0].forward, path[0].index) + PathCost(w, path[1..])
  }

  predicate IndicesBelow(path: seq<QueryArc>, count: nat) {
    forall q | q in path :: q.index < count
  }

  function ExpandPath(c: CchStructure, n: nat, w: CchWeights, arcs: seq<PackArc>, path: seq<QueryArc>): seq<nat>
    requires c.Valid(n) && Witnessed(c, w, arcs) && IndicesBelow(path, c.ArcCount())
  {
    if path == [] then []
    else Expand(c, n, w, arcs, path[0].forward, path[0].index) + ExpandPath(c, n, w, arcs, path[1..])
  }

  /** A connected CCH path of finite cost unpacks to a walk of that cost. */
  lemma {:induction false} ExpandPathWalk(c: CchStructure, n: nat, w: CchWeights, arcs: seq<PackArc>, g: seq<PackArc>,
                                          path: seq<QueryArc>, x: nat, y: nat)
      returns (v: seq<nat>)
    requires c.Valid(n) && Witnessed(c, w, arcs) && IndicesBelow(path, c.ArcCount())
    requires (forall e | e in arcs :: e.from < n && e.to < n) && g == Ranked(arcs, c.rank)
    requires Connected(c, path, x, y) && PathCost(w, path) < INFINITE_COST && x < n
    ensures IsWalkBetween(g, v, ExpandPath(c, n, w, arcs, path), x, y) && AllBelow(v, n)
    ensures WalkCost(g, ExpandPath(c, n, w, arcs, path)) == PathCost(w, path)
    decreases |path|
  {
    if path == [] {
      v := [x];
    } else {
      var a, up := path[0].index, path[0].forward;
      ArcBucket(c, n, a);
      var v1 := ExpandWalk(c, n, w, arcs, g, up, a);
      var v2 := ExpandPathWalk(c, n, w, arcs, g, path[1..], End(c, up, a), y);
      v := JoinBelow(g, v1, Expand(c, n, w, arcs, up, a), v2, ExpandPath(c, n, w, arcs, path[1..]),
                     Start(c, up, a), End(c, up, a), y, c.upTail[a], n);
    }
  }

  lemma JoinBelow(g: seq<PackArc>, v: seq<nat>, p: seq<nat>, u: seq<nat>, q: seq<nat>, x: nat, b: nat, y: nat,
                  k: nat, n: nat)
      returns (r: seq<nat>)
    requires LowWalk(g, v, p, x, b, k) && x < n && b < n && k < n
    requires IsWalkBetween(g, u, q, b, y) && AllBelow(u, n)
    ensures IsWalkBetween(g, r, p + q, x, y) && AllBelow(r, n)
    ensures WalkCost(g, p + q) == WalkCost(g, p) + WalkCost(g, q)
  {
    WalkJoin(g, v, p, u, q);
    r := v + u[1..];
  }

  predicate FinitePath(w: CchWeights, path: seq<QueryArc>)
    requires |w.forward| == |w.backward| && IndicesBelow(path, |w.forward|)
  {
    forall i | 0 <= i < |path| :: w.At(path[i].forward, path[i].index) < INFINITE_COST
  }

  lemma {:induction false} FiniteCostFinitePath(w: CchWeights, path: seq<QueryArc>)
    requires |w.forward| == |w.backward| && IndicesBelow(path, |w.forward|)
    requires PathCost(w, path) < INFINITE_COST
    ensures FinitePath(w, path)
  {
    if path != [] {
      FiniteCostFinitePath(w, path[1..]);
      assert forall i | 0 < i < |path| :: path[i] == path[1..][i - 1];
    }
  }

  /** Unpacks a whole path: it fails exactly on an unreachable arc. */
  method UnpackPath(c: CchStructure, ghost n: nat, w: CchWeights, ghost arcs: seq<PackArc>, path: seq<QueryArc>)
      returns (r: Result<seq<nat>>)
    requires c.Valid(n) && Witnessed(c, w, arcs) && IndicesBelow(path, c.ArcCount())
    ensures r == if FinitePath(w, path) then Ok(ExpandPath(c, n, w, arcs, path)) else Err(NoRoute)
  {
    var result := new EdgeList();
    for i := 0 to |path|
      invariant Unpacking(c, n, w, arcs, path, i, result.items)
    {
      UnpackingNext(c, n, w, arcs, path, i, result.items);
      var _ :- UnpackArc(c, n, w, arcs, path[i].index, path[i].forward, result, 0);
    }
    assert path[|path|..] == [] && path[..|path|] == path;
    assert result.items + [] == result.items;
    return Ok(result.items);
  }

  /** The first i arcs of the path are finite and unpacked. */
  predicate Unpacking(c: CchStructure, n: nat, w: CchWeights, arcs: seq<PackArc>, path: seq<QueryArc>, i: nat,
                      items: seq<nat>)
    requires c.Valid(n) && Witnessed(c, w, arcs) && IndicesBelow(path, c.ArcCount()) && i <= |path|
  {
    && items + ExpandPath(c, n, w, arcs, path[i..]) == ExpandPath(c, n, w, arcs, path)
    && FinitePath(w, path[..i])
  }

  lemma UnpackingNext(c: CchStructure, n: nat, w: CchWeights, arcs: seq<PackArc>, path: seq<QueryArc>, i: nat,
                      items: seq<nat>)
    requires c.Valid(n) && Witnessed(c, w, arcs) && IndicesBelow(path, c.ArcCount()) && i < |path|
    requires Unpacking(c, n, w, arcs, path, i, items)
    ensures path[i].index < c.ArcCount() && c.upTail[path[i].index] <= n
    ensures w.At(path[i].forward, path[i].index) == INFINITE_COST ==> !FinitePath(w, path)
    ensures w.At(path[i].forward, path[i].index) < INFINITE_COST ==>
              Unpacking(c, n, w, arcs, path, i + 1, items + Expand(c, n, w, arcs, path[i].forward, path[i].index))
  {
    ArcBucket(c, n, path[i].index);
    assert path[i..][0] == path[i] && path[i..][1..] == path[i + 1..];
    var step, rest := Expand(c, n, w, arcs, path[i].forward, path[i].index), ExpandPath(c, n, w, arcs, path[i + 1..]);
    assert items + (step + rest) == (items + step) + rest;
  }

  /** Original arcs, one after the other from the source, as a node list. */
  method OriginalNodePath(arcs: seq<PackArc>, source: nat, edgeIds: seq<nat>) returns (r: Result<seq<nat>>)
    ensures r.Ok? ==> IsWalk(arcs, r.value, edgeIds) && r.value[0] == source
    ensures r.Err? ==> r.error.InvalidPack? && forall v | IsWalk(arcs, v, edgeIds) :: v[0] != source
  {
    var nodes, current := [source], source;
    for i := 0 to |edgeIds|
      invariant IsWalk(arcs, nodes, edgeIds[..i]) && nodes[0] == source && nodes[i] == current
    {
      var edgeId := edgeIds[i];
      ghost var sofar := nodes;
      if edgeId >= |arcs| {
        return Err(InvalidPack("unpack references missing input arc"));
      }
      if arcs[edgeId].from != current {
        WalksAgree(arcs, nodes, edgeIds, i);
        assert forall v | IsWalk(arcs, v, edgeIds) :: v[i] != nodes[i];
        return Err(InvalidPack("unpacked CCH arcs are not connected"));
      }
      current := arcs[edgeId].to;
      nodes := nodes + [current];
    }
    assert edgeIds[..|edgeIds|] == edgeIds;
    return Ok(nodes);
  }

  /** The arc list and the first node determine a walk's nodes. */
  lemma WalksAgree(arcs: seq<PackArc>, nodes: seq<nat>, p: seq<nat>, i: nat)
    requires i < |p| && IsWalk(arcs, nodes, p[..i])
    ensures forall v | IsWalk(arcs, v, p) :: v[0] == nodes[0] ==> v[i] == nodes[i]
  {
    if i > 0 {
      var last := p[..i][i - 1];
      assert arcs[last].to == nodes[i];
      assert forall v | IsWalk(arcs, v, p) :: arcs[p[i - 1]].to == v[i];
    }
  }
}
