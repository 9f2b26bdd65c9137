/** Packs: validation on load, and building from nodes, arcs and ranks. */
module Pack {
  import opened Common
  import opened Costs
  import opened Walks
  import opened Cch
  import opened Fill
  import opened Build
  import opened Weights
  import opened Customize
  import opened Bounds
  import opened QueryBounds
  import opened Overflow

  type i32 = x: int | -0x8000_0000 <= x < 0x8000_0000

  datatype GraphNode = GraphNode(lat: real, lng: real, elevationM: i32)

  datatype DiskPack = DiskPack(nodes: seq<GraphNode>, arcs: seq<PackArc>, cch: CchStructure, weights: CchWeights)

  predicate ValidCoordinate(lat: real, lng: real) {
    -90.0 <= lat <= 90.0 && -180.0 <= lng <= 180.0
  }

  predicate ValidNodes(nodes: seq<GraphNode>) {
    0 < |nodes| <= U32_MAX && forall p | p in nodes :: ValidCoordinate(p.lat, p.lng)
  }

  /** What the loader accepts. */
  predicate ValidPack(d: DiskPack) {
    && ValidNodes(d.nodes) && ValidArcs(|d.nodes|, d.arcs) && WeightsAtMost(d.arcs, MAX_PACK_ARC_WEIGHT)
    && d.cch.Valid(|d.nodes|) && ValidWeights(d.cch, d.weights, d.arcs)
  }

  /** The pack is what the builder makes of its own arcs and ranks. */
  ghost predicate BuiltPack(d: DiskPack) {
    && d.cch.Valid(|d.nodes|) && ValidArcs(|d.nodes|, d.arcs)
    && BuiltFor(d.cch, |d.nodes|, d.weights, Ranked(d.arcs, d.cch.rank))
  }

  /** The loader. */
  method ValidatePack(d: DiskPack) returns (r: Result<()>)
    ensures r.Ok? <==> ValidPack(d)
    ensures r.Ok? ==>
              && 0 < |d.nodes| < 0x1_0000_0000
              && (forall p | p in d.nodes :: -90.0 <= p.lat <= 90.0 && -180.0 <= p.lng <= 180.0)
              && forall a | a in d.arcs ::
                   a.from < |d.nodes| && a.to < |d.nodes| && a.from != a.to && 0 < a.weight < 0xFFFF_FFFF
    ensures r.Err? ==> r.error.InvalidPack? || r.error.CostOverflow?
    ensures ValidNodes(d.nodes) && ValidArcs(|d.nodes|, d.arcs) && !WeightsAtMost(d.arcs, MAX_PACK_ARC_WEIGHT) ==>
              r == Err(CostOverflow)
  {
    if !ValidNodes(d.nodes) {
      return Err(InvalidPack("nodes must be non-empty, few enough and valid"));
    }
    if !ValidArcs(|d.nodes|, d.arcs) {
      return Err(InvalidPack("invalid original graph arcs"));
    }
    if !WeightsAtMost(d.arcs, MAX_PACK_ARC_WEIGHT) {
      return Err(CostOverflow);
    }
    var _ :- Cch.Validate(d.cch, |d.nodes|);
    ValidRanksInRange(d.cch, |d.nodes|);
    r := ValidateWeights(d.cch, d.weights, d.arcs);
  }

  predicate ArcBefore(a: PackArc, b: PackArc) {
    a.from < b.from || (a.from == b.from && (a.to < b.to || (a.to == b.to && a.weight <= b.weight)))
  }

  predicate ArcsSorted(arcs: seq<PackArc>) {
    forall i, j | 0 <= i < j < |arcs| :: ArcBefore(arcs[i], arcs[j])
  }

  /** Arcs in ascending order of tail, head and weight. */
  function SortArcs(arcs: seq<PackArc>): (r: seq<PackArc>)
    ensures multiset(r) == multiset(arcs)
  {
    if arcs == [] then []
    else
      assert arcs == [arcs[0]] + arcs[1..];
      InsertArc(arcs[0], SortArcs(arcs[1..]))
  }

  function InsertArc(a: PackArc, sorted: seq<PackArc>): (r: seq<PackArc>)
    ensures multiset(r) == multiset{a} + multiset(sorted)
  {
    if sorted == [] || ArcBefore(a, sorted[0]) then [a] + sorted
    else
      assert sorted == [sorted[0]] + sorted[1..];
      [sorted[0]] + InsertArc(a, sorted[1..])
  }

  lemma {:induction false} SortArcsSorted(arcs: seq<PackArc>)
    ensures ArcsSorted(SortArcs(arcs))
  {
    if arcs != [] {
      SortArcsSorted(arcs[1..]);
      InsertArcSorted(arcs[0], SortArcs(arcs[1..]));
    }
  }

  lemma {:induction false} InsertArcSorted(a: PackArc, sorted: seq<PackArc>)
    requires ArcsSorted(sorted)
    ensures ArcsSorted(InsertArc(a, sorted))
  {
    if sorted != [] && !ArcBefore(a, sorted[0]) {
      InsertArcSorted(a, sorted[1..]);
      var rest := InsertArc(a, sorted[1..]);
      forall i | 0 <= i < |rest|
        ensures ArcBefore(sorted[0], rest[i])
      {
        assert rest[i] in multiset(rest);
        assert rest[i] == a || rest[i] in sorted[1..];
      }
    }
  }

  lemma SameMembers(a: seq<PackArc>, b: seq<PackArc>)
    requires multiset(a) == multiset(b)
    ensures forall x :: x in a <==> x in b
  {
    assert forall x :: x in a <==> x in multiset(a);
    assert forall x :: x in b <==> x in multiset(b);
  }

  /** A walk over one arrangement of the arcs is a walk over any other, through
      the same nodes and at the same cost. */
  lemma {:induction false} WalkRearranged(a: seq<PackArc>, b: seq<PackArc>, v: seq<nat>, p: seq<nat>)
      returns (q: seq<nat>)
    requires multiset(a) == multiset(b) && IsWalk(a, v, p)
    ensures IsWalk(b, v, q) && WalkCost(b, q) == WalkCost(a, p)
  {
    if p == [] {
      q := [];
    } else {
      var k := |p| - 1;
      q := WalkRearranged(a, b, v[..k + 1], p[..k]);
      SameMembers(a, b);
      assert a[p[k]] in b;
      var i: nat :| i < |b| && b[i] == a[p[k]];
      OneMoreArc(b, v, q, i);
      q := q + [i];
    }
  }

  lemma OneMoreArc(g: seq<PackArc>, v: seq<nat>, q: seq<nat>, i: nat)
    requires |v| == |q| + 2 && IsWalk(g, v[..|q| + 1], q)
    requires i < |g| && g[i].from == v[|q|] && g[i].to == v[|q| + 1]
    ensures IsWalk(g, v, q + [i]) && WalkCost(g, q + [i]) == WalkCost(g, q) + g[i].weight
  {
    assert (q + [i])[..|q|] == q;
  }

  lemma RankedProperties(n: nat, arcs: seq<PackArc>, rank: seq<nat>)
    requires Permutation(n, rank) && ValidArcs(n, arcs)
    ensures ValidArcs(n, Ranked(arcs, rank))
    ensures forall m | WeightsAtMost(arcs, m) :: WeightsAtMost(Ranked(arcs, rank), m)
  {
    var g := Ranked(arcs, rank);
    forall a | a in g
      ensures ValidArc(n, a)
    {
      var i :| 0 <= i < |g| && g[i] == a;
      assert arcs[i] in arcs;
    }
    forall m | WeightsAtMost(arcs, m)
      ensures WeightsAtMost(g, m)
    {
      forall a | a in g
        ensures a.weight <= m
      {
        var i :| 0 <= i < |g| && g[i] == a;
        assert arcs[i] in arcs;
      }
    }
  }

  predicate Buildable(nodes: seq<GraphNode>, arcs: seq<PackArc>, ranks: seq<nat>) {
    ValidNodes(nodes) && Permutation(|nodes|, ranks) && ValidArcs(|nodes|, arcs)
  }

  /** The builder's graph in rank space. */
  function BuildGraph(nodes: seq<GraphNode>, arcs: seq<PackArc>, ranks: seq<nat>): seq<PackArc>
    requires Buildable(nodes, arcs, ranks)
  {
    SameMembers(SortArcs(arcs), arcs);
    Ranked(SortArcs(arcs), ranks)
  }

  /** The arc ids of the graph and of its filled structure fit 32-bit words,
      as the pack stores them. */
  ghost predicate FitsWords(nodes: seq<GraphNode>, arcs: seq<PackArc>, ranks: seq<nat>)
    requires Buildable(nodes, arcs, ranks)
  {
    |arcs| <= U32_MAX + 1 && FillFits(|nodes|, BuildGraph(nodes, arcs, ranks))
  }

  ghost predicate FillFits(n: nat, g: seq<PackArc>) {
    exists c :: IsFillOf(c, n, g) && c.ArcCount() <= U32_MAX
  }

  ghost predicate IsFillOf(c: CchStructure, n: nat, g: seq<PackArc>) {
    c.Valid(n) && Contains(c, g) && Filled(c) && FillSound(c, g)
  }

  /** Building fails as invalid exactly on invalid nodes, arcs or ranks, and
      with an overflow exactly when an arc weight is outside the pack's domain
      or some detour is; with 32-bit arc ids no detour ever is. Otherwise the
      pack passes its own loader and its weights are exact. */
  method BuildPack(nodes: seq<GraphNode>, arcs: seq<PackArc>, ranks: seq<nat>) returns (r: Result<DiskPack>)
    ensures r.Err? && r.error.InvalidPack? <==> !Buildable(nodes, arcs, ranks)
    ensures Buildable(nodes, arcs, ranks) <==>
              && 0 < |nodes| < 0x1_0000_0000 && |ranks| == |nodes|
              && (forall p | p in nodes :: -90.0 <= p.lat <= 90.0 && -180.0 <= p.lng <= 180.0)
              && (forall a | a in arcs :: a.from < |nodes| && a.to < |nodes| && a.from != a.to && a.weight > 0)
              && (forall i | 0 <= i < |ranks| :: ranks[i] < |nodes|)
              && forall i, j | 0 <= i < j < |ranks| :: ranks[i] != ranks[j]
    ensures WeightsAtMost(arcs, MAX_PACK_ARC_WEIGHT) <==> forall a | a in arcs :: a.weight < 0xFFFF_FFFF
    ensures r.Err? && r.error.CostOverflow? <==>
            Buildable(nodes, arcs, ranks) &&
            (!WeightsAtMost(arcs, MAX_PACK_ARC_WEIGHT) || SomeTriangleOverflows(BuildGraph(nodes, arcs, ranks)))
    ensures Buildable(nodes, arcs, ranks) && FitsWords(nodes, arcs, ranks) ==>
              (r.Ok? <==> WeightsAtMost(arcs, MAX_PACK_ARC_WEIGHT))
    ensures r.Err? ==> r.error.InvalidPack? || r.error.CostOverflow?
    ensures r.Ok? ==> ValidPack(r.value) && BuiltPack(r.value)
    ensures r.Ok? ==> r.value.nodes == nodes && r.value.arcs == SortArcs(arcs) && r.value.cch.rank == ranks
    ensures r.Ok? ==>
              var sorted := r.value.arcs;
              && multiset(sorted) == multiset(arcs)
              && forall i, j | 0 <= i < j < |sorted| ::
                   && sorted[i].from <= sorted[j].from
                   && (sorted[i].from == sorted[j].from ==> sorted[i].to <= sorted[j].to)
                   && (sorted[i].from == sorted[j].from && sorted[i].to == sorted[j].to ==>
                         sorted[i].weight <= sorted[j].weight)
  {
    if Buildable(nodes, arcs, ranks) && WeightsAtMost(arcs, MAX_PACK_ARC_WEIGHT) {
      LegalGraphBuilds(nodes, arcs, ranks);
    }
    if !ValidNodes(nodes) {
      return Err(InvalidPack("nodes must be non-empty, few enough and valid"));
    }
    var sorted := SortArcs(arcs);
    SortArcsSorted(arcs);
    SameMembers(sorted, arcs);
    var n := |nodes|;
    var cch :- BuildCch(n, sorted, ranks);
    ghost var g := Ranked(sorted, ranks);
    RankedProperties(n, sorted, ranks);
    var weights :- CustomizeCch(cch, n, sorted, g);
    if WeightsAtMost(sorted, MAX_PACK_ARC_WEIGHT) {
      CustomizedPasses(cch, n, weights, sorted, g);
    }
    var pack := DiskPack(nodes, sorted, cch, weights);
    var _ :- ValidatePack(pack);
    return Ok(pack);
  }

  /** With 32-bit arc ids a legal graph always builds, for any number of nodes. */
  lemma LegalGraphBuilds(nodes: seq<GraphNode>, arcs: seq<PackArc>, ranks: seq<nat>)
    requires Buildable(nodes, arcs, ranks) && WeightsAtMost(arcs, MAX_PACK_ARC_WEIGHT)
    ensures FitsWords(nodes, arcs, ranks) ==> !SomeTriangleOverflows(BuildGraph(nodes, arcs, ranks))
  {
    var g := BuildGraph(nodes, arcs, ranks);
    SameMembers(SortArcs(arcs), arcs);
    RankedProperties(|nodes|, SortArcs(arcs), ranks);
    if FillFits(|nodes|, g) {
      var c :| IsFillOf(c, |nodes|, g) && c.ArcCount() <= U32_MAX;
      NoOverflowInWords(c, |nodes|, g);
    }
  }
}
