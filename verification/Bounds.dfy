/** The cost domain: how large customized weights can get. */
module Bounds {
  import opened Common
  import opened Costs
  import opened Walks
  import opened LowWalks
  import opened Cch
  import opened Fill
  import opened Weights
  import opened Customize

  /** A node count up to which no detour can leave the cost domain, whatever the arcs. */
  const SAFE_NODES := 0x8000_0003

  lemma WalkInRange(n: nat, g: seq<PackArc>, v: seq<nat>, p: seq<nat>)
    requires ValidArcs(n, g) && IsWalk(g, v, p) && |v| >= 2
    ensures AllBelow(v, n)
  {
    forall i | 0 <= i < |v|
      ensures v[i] < n
    {
      var a := if i < |p| then p[i] else p[i - 1];
      assert ValidArc(n, g[a]);
      assert v[i] == if i < |p| then g[a].from else g[a].to;
    }
  }

  lemma CheapestInRange(n: nat, g: seq<PackArc>, x: nat, y: nat, k: nat, d: nat, m: nat)
    requires ValidArcs(n, g) && WeightsAtMost(g, m) && x != y && Cheapest(g, x, y, k, d)
    ensures x < n && y < n && d <= (k + 1) * m
  {
    var v, p :| LowWalk(g, v, p, x, y, k) && WalkCost(g, p) == d;
    WalkInRange(n, g, v, p);
    CheapestBound(g, x, y, k, d, m);
  }

  /** Up to that many nodes no graph makes customization overflow. */
  lemma NoTriangleOverflow(n: nat, g: seq<PackArc>)
    requires ValidArcs(n, g) && WeightsAtMost(g, MAX_PACK_ARC_WEIGHT) && n <= SAFE_NODES
    ensures !SomeTriangleOverflows(g)
  {
    forall z: nat, x: nat, y: nat, d: nat, e: nat
      ensures !TriangleOverflows(g, z, x, y, d, e)
    {
      if Cheapest(g, x, z, z, d) && Cheapest(g, z, y, z, e) && z < x && z < y && x != y {
        CheapestInRange(n, g, x, z, z, d, MAX_PACK_ARC_WEIGHT);
        CheapestInRange(n, g, z, y, z, e, MAX_PACK_ARC_WEIGHT);
        assert z + 3 <= n;
      }
    }
  }

  /** On customized weights: a finite weight is below the loader's bound. */
  lemma WeightBound(c: CchStructure, n: nat, w: CchWeights, g: seq<PackArc>, m: nat, up: bool, a: nat)
    requires c.Valid(n) && w.Sized(c.ArcCount()) && Filled(c) && Phase(c, w, g, n) && a < c.ArcCount()
    requires WeightsAtMost(g, m) && w.At(up, a) < INFINITE_COST
    ensures w.At(up, a) <= (c.upTail[a] + 1) * m <= (n - 1) * m
  {
    WeightOfArc(c, n, w, up, a);
    ArcBucket(c, n, a);
    var x, y := Start(c, up, a), End(c, up, a);
    assert Limit(n, x, y) == c.upTail[a];
    assert Dominates(g, x, y, Limit(n, x, y), Weight(c, w, x, y));
    assert Attained(g, x, y, Limit(n, x, y), Weight(c, w, x, y));
    CheapestBound(g, x, y, c.upTail[a], w.At(up, a), m);
    MulLe(c.upTail[a] + 1, n - 1, m);
  }

  /** The customization lemma: every directional weight is the cost of the
      cheapest walk through lower ranks, the sentinel meaning that there is
      none. */
  lemma WeightExact(c: CchStructure, n: nat, w: CchWeights, g: seq<PackArc>, up: bool, a: nat)
    requires c.Valid(n) && w.Sized(c.ArcCount()) && Filled(c) && Phase(c, w, g, n) && a < c.ArcCount()
    requires n <= U32_MAX
    ensures CheapestOrNone(g, Start(c, up, a), End(c, up, a), c.upTail[a], w.At(up, a))
  {
    WeightOfArc(c, n, w, up, a);
    ArcBucket(c, n, a);
    var x, y, k := Start(c, up, a), End(c, up, a), c.upTail[a];
    assert Limit(n, x, y) == k;
    assert Dominates(g, x, y, Limit(n, x, y), Weight(c, w, x, y));
    if w.At(up, a) < INFINITE_COST {
      assert Attained(g, x, y, Limit(n, x, y), Weight(c, w, x, y));
    } else if exists v, p :: LowWalk(g, v, p, x, y, k) {
      CheapestBound(g, x, y, k, INFINITE_COST, U32_MAX);
    }
  }

  /** Customized weights pass the loader, for any node count it admits. */
  lemma CustomizedPasses(c: CchStructure, n: nat, w: CchWeights, arcs: seq<PackArc>, g: seq<PackArc>)
    requires c.Valid(n) && Filled(c) && Customized(c, n, w, arcs, g)
    requires WeightsAtMost(g, MAX_PACK_ARC_WEIGHT) && n <= U32_MAX
    ensures ValidWeights(c, w, arcs)
  {
    forall up, a | 0 <= a < c.ArcCount() && w.At(up, a) < INFINITE_COST
      ensures w.At(up, a) <= MAX_ROUTE_WEIGHT
    {
      WeightBound(c, n, w, g, MAX_PACK_ARC_WEIGHT, up, a);
      MulLe(n - 1, MAX_PACK_ARC_WEIGHT, MAX_PACK_ARC_WEIGHT);
    }
    assert forall i | 0 <= i < |w.forward| :: w.forward[i] == w.At(true, i);
    assert forall i | 0 <= i < |w.backward| :: w.backward[i] == w.At(false, i);
  }
}
