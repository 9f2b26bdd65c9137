/** On customized weights no query leaves the cost domain, up to a node count. */
module QueryBounds {
  import opened Costs
  import opened Walks
  import opened LowWalks
  import opened Cch
  import opened Fill
  import opened Weights
  import opened Customize
  import opened Search
  import opened Query
  import opened Optimality
  import opened Bounds

  const SAFE_QUERY_NODES := 0x8000_0002

  /** A customized structure: what the builder produces. */
  ghost predicate BuiltFor(c: CchStructure, n: nat, w: CchWeights, g: seq<PackArc>) {
    c.Valid(n) && w.Sized(c.ArcCount()) && Filled(c) && Contains(c, g) && Phase(c, w, g, n)
  }

  /** The low walk behind one finite directional weight. */
  lemma ArcWalk(c: CchStructure, n: nat, w: CchWeights, g: seq<PackArc>, up: bool, a: nat)
      returns (v: seq<nat>, p: seq<nat>)
    requires BuiltFor(c, n, w, g) && a < c.ArcCount() && w.At(up, a) < INFINITE_COST
    ensures LowWalk(g, v, p, Start(c, up, a), End(c, up, a), c.upTail[a]) && WalkCost(g, p) == w.At(up, a)
  {
    WeightOfArc(c, n, w, up, a);
    ArcBucket(c, n, a);
    var x, y := Start(c, up, a), End(c, up, a);
    assert Attained(g, x, y, Limit(n, x, y), Weight(c, w, x, y));
    v, p :| LowWalk(g, v, p, x, y, c.upTail[a]) && WalkCost(g, p) == w.At(up, a);
  }

  lemma {:induction false} UpPathAscends(c: CchStructure, n: nat, s: nat, q: seq<nat>, r: nat)
    requires c.Valid(n) && UpPath(c, s, q, r)
    ensures s <= r
  {
    if q != [] {
      ArcBucket(c, n, q[|q| - 1]);
      UpPathAscends(c, n, s, q[..|q| - 1], c.upTail[q[|q| - 1]]);
    }
  }

  /** Two joined walks whose ranks all lie below k. */
  lemma JoinAt(g: seq<PackArc>, v: seq<nat>, p: seq<nat>, u: seq<nat>, q: seq<nat>, x: nat, b: nat, y: nat, k: nat)
      returns (vu: seq<nat>, pq: seq<nat>)
    requires IsWalkBetween(g, v, p, x, b) && IsWalkBetween(g, u, q, b, y)
    requires InteriorBelow(v, k) && InteriorBelow(u, k) && x < k && b < k && y < k
    ensures IsWalkBetween(g, vu, pq, x, y) && AllBelow(vu, k)
    ensures WalkCost(g, pq) == WalkCost(g, p) + WalkCost(g, q)
  {
    WalkJoin(g, v, p, u, q);
    vu, pq := v + u[1..], p + q;
  }

  /** A finite climb is a walk up to its highest rank. */
  lemma {:induction false} ClimbWalk(c: CchStructure, n: nat, w: CchWeights, g: seq<PackArc>, s: nat, q: seq<nat>,
                                     r: nat)
      returns (v: seq<nat>, p: seq<nat>)
    requires BuiltFor(c, n, w, g) && UpPath(c, s, q, r) && UpCost(w.forward, q) < INFINITE_COST
    ensures IsWalkBetween(g, v, p, s, r) && AllBelow(v, r + 1) && WalkCost(g, p) == UpCost(w.forward, q)
    decreases |q|
  {
    if q == [] {
      v, p := [s], [];
    } else {
      var a := q[|q| - 1];
      ArcBucket(c, n, a);
      assert s <= c.upTail[a] by {
        UpPathAscends(c, n, s, q[..|q| - 1], c.upTail[a]);
      }
      v, p := ClimbWalk(c, n, w, g, s, q[..|q| - 1], c.upTail[a]);
      var v2, p2 := ArcWalk(c, n, w, g, true, a);
      v, p := JoinAt(g, v, p, v2, p2, s, c.upTail[a], r, r + 1);
    }
  }

  /** A finite climb over backward weights is a walk down from its highest rank. */
  lemma {:induction false} DescentWalk(c: CchStructure, n: nat, w: CchWeights, g: seq<PackArc>, t: nat, q: seq<nat>,
                                       r: nat)
      returns (v: seq<nat>, p: seq<nat>)
    requires BuiltFor(c, n, w, g) && UpPath(c, t, q, r) && UpCost(w.backward, q) < INFINITE_COST
    ensures IsWalkBetween(g, v, p, r, t) && AllBelow(v, r + 1) && WalkCost(g, p) == UpCost(w.backward, q)
    decreases |q|
  {
    if q == [] {
      v, p := [t], [];
    } else {
      var a := q[|q| - 1];
      ArcBucket(c, n, a);
      assert t <= c.upTail[a] by {
        UpPathAscends(c, n, t, q[..|q| - 1], c.upTail[a]);
      }
      v, p := DescentWalk(c, n, w, g, t, q[..|q| - 1], c.upTail[a]);
      var v2, p2 := ArcWalk(c, n, w, g, false, a);
      v, p := JoinAt(g, v2, p2, v, p, r, c.upTail[a], t, r + 1);
    }
  }

  /** A walk among the ranks up to r can be made simple at a cost of at most r
      arcs. */
  lemma SimpleBelow(g: seq<PackArc>, v: seq<nat>, p: seq<nat>, x: nat, y: nat, r: nat, m: nat)
      returns (u: seq<nat>, q: seq<nat>)
    requires IsWalkBetween(g, v, p, x, y) && x != y && AllBelow(v, r + 1) && WeightsAtMost(g, m)
    ensures IsWalkBetween(g, u, q, x, y) && AllBelow(u, r + 1) && WalkCost(g, q) <= r * m
  {
    u, q := Simplify(g, v, p, x, y, r + 1, r + 1);
    DistinctBound(u, r + 1);
    CostBound(g, q, m);
    MulLe(|q|, r, m);
  }

  lemma UpBound(c: CchStructure, n: nat, w: CchWeights, g: seq<PackArc>, s: nat, r: nat, d: Cost, m: nat)
    requires BuiltFor(c, n, w, g) && WeightsAtMost(g, m) && ShortestUp(c, w.forward, s, r, d) && d < INFINITE_COST
    ensures d <= r * m
  {
    var q :| UpPathCosting(c, w.forward, s, q, r, d);
    if s == r {
      SourceZero(c, w.forward, s, d);
    } else {
      var v, p := ClimbWalk(c, n, w, g, s, q, r);
      v, p := SimpleBelow(g, v, p, s, r, r, m);
      var climb := ClimbUp(c, n, w, g, v, p, r);
    }
  }

  lemma DownBound(c: CchStructure, n: nat, w: CchWeights, g: seq<PackArc>, t: nat, r: nat, e: Cost, m: nat)
    requires BuiltFor(c, n, w, g) && WeightsAtMost(g, m) && ShortestUp(c, w.backward, t, r, e) && e < INFINITE_COST
    ensures e <= r * m
  {
    var q :| UpPathCosting(c, w.backward, t, q, r, e);
    if t == r {
      SourceZero(c, w.backward, t, e);
    } else {
      var v, p := DescentWalk(c, n, w, g, t, q, r);
      v, p := SimpleBelow(g, v, p, r, t, r, m);
      var climb := ClimbDown(c, n, w, g, v, p, r);
    }
  }

  /** Neither search nor the meeting sum can overflow. */
  lemma NoQueryOverflow(c: CchStructure, n: nat, w: CchWeights, g: seq<PackArc>, s: nat, t: nat)
    requires BuiltFor(c, n, w, g) && WeightsAtMost(g, MAX_PACK_ARC_WEIGHT) && n <= SAFE_QUERY_NODES
    ensures !QueryOverflows(c, n, w, s, t)
  {
    var m := MAX_PACK_ARC_WEIGHT;
    forall a: nat, d: Cost | a < c.ArcCount() && d < INFINITE_COST && ShortestUp(c, w.forward, s, c.upTail[a], d)
                             && w.forward[a] < INFINITE_COST
      ensures Plus(d, w.forward[a]) < INFINITE_COST
    {
      ArcBucket(c, n, a);
      UpBound(c, n, w, g, s, c.upTail[a], d, m);
      WeightBound(c, n, w, g, m, true, a);
    }
    forall a: nat, d: Cost | a < c.ArcCount() && d < INFINITE_COST && ShortestUp(c, w.backward, t, c.upTail[a], d)
                             && w.backward[a] < INFINITE_COST
      ensures Plus(d, w.backward[a]) < INFINITE_COST
    {
      ArcBucket(c, n, a);
      DownBound(c, n, w, g, t, c.upTail[a], d, m);
      WeightBound(c, n, w, g, m, false, a);
    }
    forall r: nat, d: Cost, e: Cost | r < n && Meets(c, w, s, t, r, d, e) && d < INFINITE_COST && e < INFINITE_COST
      ensures Plus(d, e) < INFINITE_COST
    {
      UpBound(c, n, w, g, s, r, d, m);
      DownBound(c, n, w, g, t, r, e, m);
    }
  }
}
