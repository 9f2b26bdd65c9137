/** Customization never leaves the cost domain on a structure whose arcs have
    32-bit indices, whatever the number of nodes: a detour that does would be
    so long that its ranks alone fill more arcs than that. */
module Overflow {
  import opened Common
  import opened Costs
  import opened Walks
  import opened LowWalks
  import opened Cch
  import opened Fill
  import opened Customize
  import opened Optimality

  /** Two different arcs lead up from this rank. */
  ghost predicate Branches(c: CchStructure, r: nat) {
    exists x: nat, y: nat :: x != y && c.HasArc(r, x) && c.HasArc(r, y)
  }

  lemma PathSlice(g: seq<PackArc>, v: seq<nat>, i: nat, j: nat)
    requires IsPath(g, v) && i <= j < |v|
    ensures IsPath(g, v[i..j + 1])
  {
    var w := v[i..j + 1];
    forall a, b | 0 <= a < |w| && b == a + 1 < |w|
      ensures Linked(g, w[a], w[b])
    {
      var d, e := i + a, i + b;
      assert Linked(g, v[d], v[e]);
    }
  }

  /** Within a path between higher ends, a rank has an arc to the nearest higher
      rank on either side. */
  lemma InnerBranches(c: CchStructure, g: seq<PackArc>, v: seq<nat>, i: nat)
    requires Contains(c, g) && Filled(c) && IsPath(g, v) && Distinct(v)
    requires 0 < i < |v| - 1 && v[i] < v[0] && v[i] < v[|v| - 1]
    ensures Branches(c, v[i])
  {
    var l := LastAbove(v, i, v[i]);
    var r := FirstAbove(v, i + 1, v[i]);
    PathSlice(g, v, l, i);
    PathSlice(g, v, i, r);
    PathHasArc(c, g, v[l..i + 1], v[l], v[i]);
    PathHasArc(c, g, v[i..r + 1], v[i], v[r]);
    assert c.HasArc(v[i], v[l]) && c.HasArc(v[i], v[r]);
  }

  /** Distinct branching ranks take two arcs each. */
  lemma {:induction false} ArcsOfBranching(c: CchStructure, n: nat, s: set<nat>, t: nat)
    requires c.Valid(n) && t <= n
    requires forall r | r in s :: r < t && Branches(c, r)
    ensures c.upFirstOut[t] >= 2 * |s|
    decreases t
  {
    if t > 0 {
      var r := t - 1;
      ArcsOfBranching(c, n, s - {r}, r);
      if r in s {
        TwoInBucket(c, n, r);
        assert |s| == |s - {r}| + 1;
      } else {
        assert s - {r} == s;
      }
    } else {
      assert s == {};
    }
  }

  lemma TwoInBucket(c: CchStructure, n: nat, r: nat)
    requires c.Valid(n) && r < n && Branches(c, r)
    ensures c.upFirstOut[r + 1] >= c.upFirstOut[r] + 2
  {
    var x: nat, y: nat :| x != y && c.HasArc(r, x) && c.HasArc(r, y);
    var a: nat :| c.ArcIs(a, r, x);
    var b: nat :| c.ArcIs(b, r, y);
    ArcBucket(c, n, a);
    ArcBucket(c, n, b);
  }

  /** The ranks inside a path between higher ends take two arcs each. */
  lemma ArcsOfPath(c: CchStructure, n: nat, g: seq<PackArc>, v: seq<nat>, k: nat)
    requires c.Valid(n) && Contains(c, g) && Filled(c) && IsPath(g, v) && Distinct(v)
    requires |v| >= 2 && InteriorBelow(v, k) && k <= v[0] && k <= v[|v| - 1]
    ensures c.ArcCount() >= 2 * (|v| - 2)
  {
    var inner := v[1..|v| - 1];
    DistinctCard(inner);
    var s := set i | 0 <= i < |inner| :: inner[i];
    forall r | r in s
      ensures r < n && Branches(c, r)
    {
      var i :| 0 <= i < |inner| && inner[i] == r;
      InnerBranches(c, g, v, i + 1);
      BranchInRange(c, n, r);
    }
    ArcsOfBranching(c, n, s, n);
  }

  lemma BranchInRange(c: CchStructure, n: nat, r: nat)
    requires c.Valid(n) && Branches(c, r)
    ensures r < n
  {
    var x: nat, y: nat :| x != y && c.HasArc(r, x) && c.HasArc(r, y);
    var a: nat :| c.ArcIs(a, r, x);
    ArcBucket(c, n, a);
  }

  const HALF_DOMAIN: nat := 0x8000_0000_0000_0000

  /** A leg that costs half the domain is long, and so are its arcs. */
  lemma LegTakesArcs(c: CchStructure, n: nat, g: seq<PackArc>, x: nat, y: nat, d: nat)
    requires c.Valid(n) && Contains(c, g) && Filled(c) && WeightsAtMost(g, MAX_PACK_ARC_WEIGHT)
    requires x != y && Cheapest(g, x, y, Min(x, y), d) && d >= HALF_DOMAIN
    ensures c.ArcCount() >= 0x1_0000_0002
  {
    var k := Min(x, y);
    var v, p :| LowWalk(g, v, p, x, y, k) && WalkCost(g, p) == d;
    var u, q := Simplify(g, v, p, x, y, k, MaxOf(v) + 1);
    assert LowWalk(g, u, q, x, y, k);
    CostBound(g, q, MAX_PACK_ARC_WEIGHT);
    if |q| <= 0x8000_0001 {
      MulLe(|q|, 0x8000_0001, MAX_PACK_ARC_WEIGHT);
    }
    assert |q| >= 0x8000_0002;
    LowWalkIsPath(g, u, q, x, y);
    ArcsOfPath(c, n, g, u, k);
  }

  /** A detour outside the cost domain needs more than 2^32 arcs, for any number
      of nodes. */
  lemma OverflowNeedsArcs(c: CchStructure, n: nat, g: seq<PackArc>)
    requires c.Valid(n) && Contains(c, g) && Filled(c) && WeightsAtMost(g, MAX_PACK_ARC_WEIGHT)
    requires SomeTriangleOverflows(g)
    ensures c.ArcCount() >= 0x1_0000_0002
  {
    var z: nat, x: nat, y: nat, d: nat, e: nat :| TriangleOverflows(g, z, x, y, d, e);
    assert Min(x, z) == z && Min(z, y) == z;
    if d >= HALF_DOMAIN {
      LegTakesArcs(c, n, g, x, z, d);
    } else {
      LegTakesArcs(c, n, g, z, y, e);
    }
  }

  /** With 32-bit arc indices customization never reports an overflow. */
  lemma NoOverflowInWords(c: CchStructure, n: nat, g: seq<PackArc>)
    requires c.Valid(n) && Contains(c, g) && Filled(c) && WeightsAtMost(g, MAX_PACK_ARC_WEIGHT)
    requires c.ArcCount() <= U32_MAX
    ensures !SomeTriangleOverflows(g)
  {
    if SomeTriangleOverflows(g) {
      OverflowNeedsArcs(c, n, g);
    }
  }
}
