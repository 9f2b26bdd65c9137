/** Directed walks over an arc list: a walk carries its node sequence `v` and
    its arc-index sequence `p`, so both ends can be cut and joined alike. */
module Walks {
  import opened Common

  datatype PackArc = PackArc(from: nat, to: nat, weight: u32)

  /** The arcs that the builder and the loader accept over `n` nodes. */
  predicate ValidArc(n: nat, a: PackArc) {
    a.from < n && a.to < n && a.from != a.to && a.weight != 0
  }

  predicate ValidArcs(n: nat, g: seq<PackArc>) {
    forall a | a in g :: ValidArc(n, a)
  }

  predicate InRange(g: seq<PackArc>, p: seq<nat>) {
    forall i | 0 <= i < |p| :: p[i] < |g|
  }

  predicate IsWalk(g: seq<PackArc>, v: seq<nat>, p: seq<nat>) {
    && |v| == |p| + 1
    && InRange(g, p)
    && forall i {:trigger p[i]} | 0 <= i < |p| :: g[p[i]].from == v[i] && g[p[i]].to == v[i + 1]
  }

  predicate IsWalkBetween(g: seq<PackArc>, v: seq<nat>, p: seq<nat>, x: nat, y: nat) {
    IsWalk(g, v, p) && v[0] == x && v[|v| - 1] == y
  }

  function WalkCost(g: seq<PackArc>, p: seq<nat>): nat
    requires InRange(g, p)
  {
    if p == [] then 0 else WalkCost(g, p[..|p| - 1]) + g[p[|p| - 1]].weight
  }

  lemma {:induction false} CostConcat(g: seq<PackArc>, p: seq<nat>, q: seq<nat>)
    requires InRange(g, p) && InRange(g, q)
    ensures InRange(g, p + q)
    ensures WalkCost(g, p + q) == WalkCost(g, p) + WalkCost(g, q)
  {
    if q == [] {
      assert p + q == p;
    } else {
      CostConcat(g, p, q[..|q| - 1]);
      assert (p + q)[..|p + q| - 1] == p + q[..|q| - 1];
    }
  }

  /** Joining two walks at a common node. */
  lemma WalkJoin(g: seq<PackArc>, v: seq<nat>, p: seq<nat>, u: seq<nat>, q: seq<nat>)
    requires IsWalk(g, v, p) && IsWalk(g, u, q) && v[|v| - 1] == u[0]
    ensures IsWalk(g, v + u[1..], p + q)
    ensures WalkCost(g, p + q) == WalkCost(g, p) + WalkCost(g, q)
  {
    JoinedIsWalk(g, v, p, u, q);
    CostConcat(g, p, q);
  }

  lemma JoinedIsWalk(g: seq<PackArc>, v: seq<nat>, p: seq<nat>, u: seq<nat>, q: seq<nat>)
    requires IsWalk(g, v, p) && IsWalk(g, u, q) && v[|v| - 1] == u[0]
    ensures IsWalk(g, v + u[1..], p + q)
  {
    var w, r := v + u[1..], p + q;
    forall i | 0 <= i < |r|
      ensures r[i] < |g| && g[r[i]].from == w[i] && g[r[i]].to == w[i + 1]
    {
      if i < |p| {
        assert r[i] == p[i] && w[i] == v[i];
      } else {
        assert r[i] == q[i - |p|] && w[i + 1] == u[i - |p| + 1];
      }
    }
  }

  /** Cutting a stretch out of a walk; what is left before and after it costs
      the rest. */
  lemma WalkSlice(g: seq<PackArc>, v: seq<nat>, p: seq<nat>, i: nat, j: nat)
    requires IsWalk(g, v, p) && i <= j < |v|
    ensures IsWalk(g, v[i..j + 1], p[i..j])
    ensures InRange(g, p[..i]) && InRange(g, p[j..])
    ensures WalkCost(g, p) == WalkCost(g, p[..i]) + WalkCost(g, p[i..j]) + WalkCost(g, p[j..])
  {
    assert p == (p[..i] + p[i..j]) + p[j..];
    CostConcat(g, p[..i], p[i..j]);
    CostConcat(g, p[..i] + p[i..j], p[j..]);
  }

  predicate Distinct(v: seq<nat>) {
    forall i, j | 0 <= i < j < |v| :: v[i] != v[j]
  }

  predicate InteriorBelow(v: seq<nat>, k: nat) {
    forall i | 0 < i < |v| - 1 :: v[i] < k
  }

  predicate AllBelow(v: seq<nat>, k: nat) {
    forall i | 0 <= i < |v| :: v[i] < k
  }

  /** Taking a closed detour out of a walk leaves a walk that costs no more. */
  lemma CutLoop(g: seq<PackArc>, v: seq<nat>, p: seq<nat>, i: nat, j: nat)
      returns (u: seq<nat>, q: seq<nat>)
    requires IsWalk(g, v, p) && i < j < |v| && v[i] == v[j]
    ensures u == v[..i] + v[j..] && q == p[..i] + p[j..]
    ensures IsWalk(g, u, q)
    ensures WalkCost(g, q) <= WalkCost(g, p)
  {
    u, q := v[..i] + v[j..], p[..i] + p[j..];
    WalkSlice(g, v, p, i, j);
    CostConcat(g, p[..i], p[j..]);
  }

  /** Every walk between distinct ends can be made simple without costing more;
      its interior stays as low as it was and its nodes stay in range. */
  lemma {:induction false} Simplify(g: seq<PackArc>, v: seq<nat>, p: seq<nat>, x: nat, y: nat, k: nat, n: nat)
      returns (u: seq<nat>, q: seq<nat>)
    requires IsWalkBetween(g, v, p, x, y) && x != y
    requires InteriorBelow(v, k) && AllBelow(v, n)
    ensures IsWalkBetween(g, u, q, x, y) && Distinct(u)
    ensures InteriorBelow(u, k) && AllBelow(u, n)
    ensures WalkCost(g, q) <= WalkCost(g, p)
    decreases |p|
  {
    if i, j :| 0 <= i < j < |v| && v[i] == v[j] {
      u, q := CutLoop(g, v, p, i, j);
      u, q := Simplify(g, u, q, x, y, k, n);
    } else {
      u, q := v, p;
    }
  }

  /** Pigeonhole: distinct numbers below `k` are at most `k` many. */
  lemma {:induction false} DistinctBound(v: seq<nat>, k: nat)
    requires Distinct(v) && AllBelow(v, k)
    ensures |v| <= k
  {
    DistinctCard(v);
    SubsetCard(set i | 0 <= i < |v| :: v[i], Below(k));
  }

  lemma {:induction false} DistinctCard(v: seq<nat>)
    requires Distinct(v)
    ensures |set i | 0 <= i < |v| :: v[i]| == |v|
  {
    if v != [] {
      var w := v[..|v| - 1];
      DistinctCard(w);
      var s, t := set i | 0 <= i < |v| :: v[i], set i | 0 <= i < |w| :: w[i];
      assert v[|v| - 1] !in t;
      assert s == t + {v[|v| - 1]};
    }
  }

  /** The set {0, ..., k - 1}. */
  function Below(k: nat): (r: set<nat>)
    ensures forall x: nat :: x in r <==> x < k
    ensures |r| == k
  {
    if k == 0 then {} else Below(k - 1) + {k - 1}
  }

  lemma {:induction false} SubsetCard<T>(s: set<T>, t: set<T>)
    requires s <= t
    ensures |s| <= |t|
    ensures |s| == |t| ==> s == t
  {
    assert t == s + (t - s);
  }

  predicate WeightsAtMost(g: seq<PackArc>, m: nat) {
    forall a | a in g :: a.weight <= m
  }

  lemma {:induction false} CostBound(g: seq<PackArc>, p: seq<nat>, m: nat)
    requires InRange(g, p) && WeightsAtMost(g, m)
    ensures WalkCost(g, p) <= |p| * m
  {
    if p != [] {
      CostBound(g, p[..|p| - 1], m);
    }
  }
}
