/** The bound on query sums is sharp: one node more, and the sum of two exact
    distances can leave the cost domain, on a structure whose arc ids still fit
    32-bit words. This is about the arithmetic of a query; the loader reads no
    pack of that size. */
module Threshold {
  import opened Common
  import opened Costs
  import opened Walks
  import opened Cch
  import opened Fill
  import opened Build
  import opened Weights
  import opened Customize
  import opened Search
  import opened Query
  import opened Optimality
  import opened QueryBounds
  import opened Overflow

  /** The top of the graph, over SAFE_QUERY_NODES ranks below it, and the rank
      at which the way back enters the line. */
  const TOP := SAFE_QUERY_NODES
  const ENTRY := 0x6000_0002

  predicate Shape(m: nat, h: nat) {
    4 <= h && h + 2 <= m
  }

  /** A line 0, 1, ..., m, and a way back to 1 through every rank: from m to h,
      along the line to m - 1, to h - 1, down to 2, to 0 and along the line.
      Every arc has the largest weight a pack may hold. */
  function Circuit(m: nat, h: nat): (g: seq<PackArc>)
    requires Shape(m, h)
    ensures |g| == m + h && forall i | 0 <= i < |g| :: g[i] == CircuitArc(m, h, i)
  {
    seq(m + h, i requires 0 <= i < m + h => CircuitArc(m, h, i))
  }

  function CircuitArc(m: nat, h: nat, i: nat): PackArc
    requires Shape(m, h) && i < m + h
  {
    if i < m then PackArc(i, i + 1, MAX_PACK_ARC_WEIGHT)
    else if i == m then PackArc(m, h, MAX_PACK_ARC_WEIGHT)
    else if i == m + 1 then PackArc(m - 1, h - 1, MAX_PACK_ARC_WEIGHT)
    else if i < m + h - 1 then PackArc(h - 1 - (i - m - 2), h - 2 - (i - m - 2), MAX_PACK_ARC_WEIGHT)
    else PackArc(2, 0, MAX_PACK_ARC_WEIGHT)
  }

  lemma CircuitValid(m: nat, h: nat, n: nat)
    requires Shape(m, h) && n > m
    ensures ValidArcs(n, Circuit(m, h)) && WeightsAtMost(Circuit(m, h), MAX_PACK_ARC_WEIGHT)
    ensures forall a | a in Circuit(m, h) :: a.weight == MAX_PACK_ARC_WEIGHT
  {
  }

  lemma {:induction false} UniformCost(g: seq<PackArc>, p: seq<nat>, m: nat)
    requires InRange(g, p) && forall a | a in g :: a.weight == m
    ensures WalkCost(g, p) == |p| * m
  {
    if p != [] {
      UniformCost(g, p[..|p| - 1], m);
      assert g[p[|p| - 1]] in g;
    }
  }

  lemma WalkOut(m: nat, h: nat) returns (v: seq<nat>, p: seq<nat>)
    requires Shape(m, h)
    ensures IsWalkBetween(Circuit(m, h), v, p, 0, m) && AllBelow(v, m + 1)
    ensures WalkCost(Circuit(m, h), p) == m * MAX_PACK_ARC_WEIGHT
  {
    v := seq(m + 1, i requires 0 <= i < m + 1 => i);
    p := seq(m, i requires 0 <= i < m => i);
    CircuitValid(m, h, m + 1);
    UniformCost(Circuit(m, h), p, MAX_PACK_ARC_WEIGHT);
  }

  /** The i-th rank on the way back, and the arc that leaves it. */
  function BackNode(m: nat, h: nat, i: nat): nat
    requires Shape(m, h) && i <= m
  {
    if i == 0 then m else if i <= m - h then h + i - 1 else if i <= m - 2 then m - i else if i == m - 1 then 0 else 1
  }

  function BackArc(m: nat, h: nat, i: nat): (a: nat)
    requires Shape(m, h) && i < m
    ensures a < m + h
    ensures CircuitArc(m, h, a).from == BackNode(m, h, i) && CircuitArc(m, h, a).to == BackNode(m, h, i + 1)
  {
    if i == 0 then m else if i < m - h then h + i - 1 else if i == m - h then m + 1
    else if i < m - 2 then h + 1 + i else if i == m - 2 then m + h - 1 else 0
  }

  lemma WalkBack(m: nat, h: nat) returns (v: seq<nat>, p: seq<nat>)
    requires Shape(m, h)
    ensures IsWalkBetween(Circuit(m, h), v, p, m, 1) && AllBelow(v, m + 1)
    ensures WalkCost(Circuit(m, h), p) == m * MAX_PACK_ARC_WEIGHT
  {
    v := seq(m + 1, i requires 0 <= i < m + 1 => BackNode(m, h, i));
    p := seq(m, i requires 0 <= i < m => BackArc(m, h, i));
    CircuitValid(m, h, m + 1);
    UniformCost(Circuit(m, h), p, MAX_PACK_ARC_WEIGHT);
  }

  /** What a rank lies behind 0, and on the way back behind m. */
  function Gain(m: nat, h: nat, back: bool, r: nat): int {
    MAX_PACK_ARC_WEIGHT *
    if !back then r else if r == m then 0 else if r >= h then r - h + 1
    else if r >= 2 then m - r else if r == 0 then m - 1 else m
  }

  lemma ArcGain(m: nat, h: nat, a: PackArc, back: bool)
    requires Shape(m, h) && a in Circuit(m, h)
    ensures Gain(m, h, back, a.to) <= Gain(m, h, back, a.from) + a.weight
  {
    var i :| 0 <= i < |Circuit(m, h)| && Circuit(m, h)[i] == a;
    assert a == CircuitArc(m, h, i);
  }

  /** If every arc of a walk costs at least what it gains in potential, the
      walk costs at least what it gains in all. */
  lemma {:induction false} PotentialBound(g: seq<PackArc>, v: seq<nat>, p: seq<nat>, phi: nat -> int)
    requires IsWalk(g, v, p)
    requires forall i, j | 0 <= i < |p| && j == i + 1 :: phi(v[j]) <= phi(v[i]) + g[p[i]].weight
    ensures phi(v[|v| - 1]) - phi(v[0]) <= WalkCost(g, p)
  {
    if p != [] {
      var k := |p| - 1;
      PotentialBound(g, v[..|v| - 1], p[..k], phi);
      var last := k + 1;
      assert phi(v[last]) <= phi(v[k]) + g[p[k]].weight;
    }
  }

  /** No walk over the circuit gains more than it costs. */
  lemma GainBound(m: nat, h: nat, v: seq<nat>, p: seq<nat>, back: bool)
    requires Shape(m, h) && IsWalk(Circuit(m, h), v, p)
    ensures Gain(m, h, back, v[|v| - 1]) - Gain(m, h, back, v[0]) <= WalkCost(Circuit(m, h), p)
  {
    var g := Circuit(m, h);
    var phi: nat -> int := (r: nat) => Gain(m, h, back, r);
    forall i, j | 0 <= i < |p| && j == i + 1
      ensures phi(v[j]) <= phi(v[i]) + g[p[i]].weight
    {
      ArcGain(m, h, g[p[i]], back);
      assert g[p[i]].from == v[i] && g[p[i]].to == v[j];
    }
    PotentialBound(g, v, p, phi);
  }

  /** The search from 0 reaches the top at m times the weight, no less. */
  lemma UpToTop(c: CchStructure, n: nat, w: CchWeights) returns (d: Cost)
    requires BuiltFor(c, n, w, Circuit(TOP, ENTRY)) && n > TOP
    ensures ShortestUp(c, w.forward, 0, TOP, d) && d == TOP * MAX_PACK_ARC_WEIGHT
  {
    ShortestExists(c, w.forward, 0, TOP, INFINITE_COST);
    d :| ShortestUp(c, w.forward, 0, TOP, d);
    var v, p := WalkOut(TOP, ENTRY);
    var climb := ClimbUp(c, n, w, Circuit(TOP, ENTRY), v, p, TOP);
    var path :| UpPathCosting(c, w.forward, 0, path, TOP, d);
    var u, r := ClimbWalk(c, n, w, Circuit(TOP, ENTRY), 0, path, TOP);
    GainBound(TOP, ENTRY, u, r, false);
  }

  lemma DownFromTop(c: CchStructure, n: nat, w: CchWeights) returns (e: Cost)
    requires BuiltFor(c, n, w, Circuit(TOP, ENTRY)) && n > TOP
    ensures ShortestUp(c, w.backward, 1, TOP, e) && e == TOP * MAX_PACK_ARC_WEIGHT
  {
    ShortestExists(c, w.backward, 1, TOP, INFINITE_COST);
    e :| ShortestUp(c, w.backward, 1, TOP, e);
    var v, p := WalkBack(TOP, ENTRY);
    var climb := ClimbDown(c, n, w, Circuit(TOP, ENTRY), v, p, TOP);
    var path :| UpPathCosting(c, w.backward, 1, path, TOP, e);
    var u, r := DescentWalk(c, n, w, Circuit(TOP, ENTRY), 1, path, TOP);
    GainBound(TOP, ENTRY, u, r, true);
  }

  /** From 0 to 1 there is an arc, yet the sum at the top leaves the domain. */
  lemma NeighbourRefused(c: CchStructure, n: nat, w: CchWeights)
    requires BuiltFor(c, n, w, Circuit(TOP, ENTRY)) && n > TOP
    ensures MeetingOverflows(c, n, w, 0, 1)
  {
    var d := UpToTop(c, n, w);
    var e := DownFromTop(c, n, w);
    assert Meets(c, w, 0, 1, TOP, d, e) && Plus(d, e) >= INFINITE_COST;
  }

  /** The ranks that rank x can have an arc to. */
  function Heads(m: nat, h: nat, x: nat): set<nat>
    requires Shape(m, h)
  {
    (if x < m then {x + 1} else {}) + (if x <= 1 then {2} else {})
    + (if h - 1 <= x < m - 1 then {m - 1} else {}) + (if h <= x < m then {m} else {})
  }

  function Degree(m: nat, h: nat, x: nat): nat {
    if x >= m then 0 else if x == 0 then 2 else if x + 1 < h then 1 else 3
  }

  lemma HeadsCounted(m: nat, h: nat, x: nat)
    requires Shape(m, h)
    ensures |Heads(m, h, x)| <= Degree(m, h, x)
  {
    if x >= m {
      assert Heads(m, h, x) == {};
    } else if x == 1 {
      assert Heads(m, h, x) == {2};
    } else if 1 < x && x + 1 < h {
      assert Heads(m, h, x) == {x + 1};
    } else if x + 1 >= h {
      SubsetCard(Heads(m, h, x), {x + 1, m - 1, m});
    }
  }

  /** A fill arc ends a low path, whose last step is an arc of the circuit. */
  lemma HeadOfArc(c: CchStructure, n: nat, m: nat, h: nat, x: nat, y: nat)
    requires Shape(m, h) && c.Valid(n) && FillSound(c, Circuit(m, h)) && c.HasArc(x, y)
    ensures y in Heads(m, h, x)
  {
    var a: nat :| c.ArcIs(a, x, y);
    ArcBucket(c, n, a);
    var g := Circuit(m, h);
    assert LowPath(g, x, y);
    var v :| LowPathAlong(g, v, x, y);
    var k, last := |v| - 2, |v| - 1;
    assert Linked(g, v[k], v[last]);
    var i :| 0 <= i < |g| && SortedPair(g[i].from, g[i].to) == SortedPair(v[k], v[last]);
    assert v[k] <= x;
    assert g[i] == CircuitArc(m, h, i);
  }

  lemma BucketSize(c: CchStructure, n: nat, m: nat, h: nat, x: nat)
    requires Shape(m, h) && c.Valid(n) && FillSound(c, Circuit(m, h)) && x < n
    ensures c.upFirstOut[x + 1] - c.upFirstOut[x] <= Degree(m, h, x)
  {
    var heads := c.upHead[c.upFirstOut[x]..c.upFirstOut[x + 1]];
    BucketHeads(c, n, m, h, x, heads);
    DistinctCard(heads);
    HeadsCounted(m, h, x);
    SubsetCard(set i | 0 <= i < |heads| :: heads[i], Heads(m, h, x));
  }

  lemma BucketHeads(c: CchStructure, n: nat, m: nat, h: nat, x: nat, heads: seq<nat>)
    requires Shape(m, h) && c.Valid(n) && FillSound(c, Circuit(m, h)) && x < n
    requires heads == c.upHead[c.upFirstOut[x]..c.upFirstOut[x + 1]]
    ensures Distinct(heads) && forall i | 0 <= i < |heads| :: heads[i] in Heads(m, h, x)
  {
    var start := c.upFirstOut[x];
    assert c.ValidBucket(n, x);
    forall i: nat | i < |heads|
      ensures heads[i] in Heads(m, h, x)
    {
      assert c.ArcIs(start + i, x, heads[i]);
      HeadOfArc(c, n, m, h, x, heads[i]);
    }
  }

  function Quota(m: nat, h: nat, t: nat): nat
    requires Shape(m, h)
  {
    if t == 0 then 0 else if t < h then t + 1 else if t <= m then h + 3 * (t + 1 - h) else h + 3 * (m + 1 - h)
  }

  lemma {:induction false} OffsetsBelowQuota(c: CchStructure, n: nat, m: nat, h: nat, t: nat)
    requires Shape(m, h) && c.Valid(n) && FillSound(c, Circuit(m, h)) && t <= n
    ensures c.upFirstOut[t] <= Quota(m, h, t)
    decreases t
  {
    if t > 0 {
      OffsetsBelowQuota(c, n, m, h, t - 1);
      BucketSize(c, n, m, h, t - 1);
    }
  }

  function Identity(n: nat): (rank: seq<nat>)
    ensures Permutation(n, rank) && forall i | 0 <= i < n :: rank[i] == i
  {
    seq(n, i requires 0 <= i < n => i)
  }

  lemma RankedAsIs(n: nat, arcs: seq<PackArc>)
    requires ValidArcs(n, arcs)
    ensures Ranked(arcs, Identity(n)) == arcs
  {
    var g := Ranked(arcs, Identity(n));
    forall i: nat | i < |arcs|
      ensures g[i] == arcs[i]
    {
      assert ValidArc(n, arcs[i]);
    }
  }

  /** For every node count beyond SAFE_QUERY_NODES: a graph and its structure,
      all of whose arc ids fit 32-bit words, exact weights, and a query from a
      node to its neighbour whose sum leaves the domain. */
  method RefuseNeighbour(n: nat)
      returns (arcs: seq<PackArc>, c: CchStructure, w: CchWeights, r: Result<Option<(Cost, seq<QueryArc>)>>)
    requires n > SAFE_QUERY_NODES
    ensures ValidArcs(n, arcs) && WeightsAtMost(arcs, MAX_PACK_ARC_WEIGHT) && PackArc(0, 1, MAX_PACK_ARC_WEIGHT) in arcs
    ensures |arcs| <= U32_MAX && c.ArcCount() <= U32_MAX
    ensures c.rank == Identity(n) && BuiltFor(c, n, w, arcs) && FillSound(c, arcs) && Witnessed(c, w, arcs)
    ensures r == Err(CostOverflow)
  {
    arcs := Circuit(TOP, ENTRY);
    CircuitValid(TOP, ENTRY, n);
    RankedAsIs(n, arcs);
    assert arcs[0] == CircuitArc(TOP, ENTRY, 0);
    var built := BuildCch(n, arcs, Identity(n));
    c := built.value;
    OffsetsBelowQuota(c, n, TOP, ENTRY, n);
    NoOverflowInWords(c, n, arcs);
    var customized := CustomizeCch(c, n, arcs, arcs);
    w := customized.value;
    NeighbourRefused(c, n, w);
    r := QueryNodes(c, n, w, 0, 1);
  }
}
