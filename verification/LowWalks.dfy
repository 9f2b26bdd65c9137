/** Walks whose interior stays below a rank, and the cheapest among them.
    Nodes are ranks here: `g` is an arc list over ranks. */
module LowWalks {
  import opened Common
  import opened Costs
  import opened Walks

  /** A walk of at least one arc from x to y whose interior ranks are below k. */
  predicate LowWalk(g: seq<PackArc>, v: seq<nat>, p: seq<nat>, x: nat, y: nat, k: nat) {
    IsWalkBetween(g, v, p, x, y) && |v| >= 2 && InteriorBelow(v, k)
  }

  /** No low walk from x to y is cheaper than c. */
  ghost predicate Dominates(g: seq<PackArc>, x: nat, y: nat, k: nat, c: nat) {
    forall v, p {:trigger LowWalk(g, v, p, x, y, k)} :: LowWalk(g, v, p, x, y, k) ==> c <= WalkCost(g, p)
  }

  /** Some low walk from x to y costs c. */
  ghost predicate Attained(g: seq<PackArc>, x: nat, y: nat, k: nat, c: nat) {
    exists v, p {:trigger LowWalk(g, v, p, x, y, k)} :: LowWalk(g, v, p, x, y, k) && WalkCost(g, p) == c
  }

  /** c is the cost of the cheapest low walk from x to y. */
  ghost predicate Cheapest(g: seq<PackArc>, x: nat, y: nat, k: nat, c: nat) {
    Attained(g, x, y, k, c) && Dominates(g, x, y, k, c)
  }

  /** What a customized weight stands for: the sentinel when there is no low
      walk at all, and otherwise the cost of the cheapest one. */
  ghost predicate CheapestOrNone(g: seq<PackArc>, x: nat, y: nat, k: nat, c: Cost) {
    if c == INFINITE_COST
    then !exists v, p :: LowWalk(g, v, p, x, y, k)
    else Cheapest(g, x, y, k, c)
  }

  lemma AttainedMonotone(g: seq<PackArc>, x: nat, y: nat, k: nat, k': nat, c: nat)
    requires Attained(g, x, y, k, c) && k <= k'
    ensures Attained(g, x, y, k', c)
  {
    var v, p :| LowWalk(g, v, p, x, y, k) && WalkCost(g, p) == c;
    assert LowWalk(g, v, p, x, y, k');
  }

  /** Two low walks that meet in b make one whose interior may touch b. */
  lemma AttainedJoin(g: seq<PackArc>, x: nat, b: nat, y: nat, c: nat, d: nat, k: nat)
    requires Attained(g, x, b, b, c) && Attained(g, b, y, b, d) && b < k
    ensures Attained(g, x, y, k, c + d)
  {
    var v, p :| LowWalk(g, v, p, x, b, b) && WalkCost(g, p) == c;
    var u, q :| LowWalk(g, u, q, b, y, b) && WalkCost(g, q) == d;
    WalkJoin(g, v, p, u, q);
    assert LowWalk(g, v + u[1..], p + q, x, y, k);
  }

  lemma {:induction false} FirstAt(v: seq<nat>, lo: nat, hi: nat, b: nat) returns (i: nat)
    requires lo < hi <= |v| && exists k :: lo <= k < hi && v[k] == b
    ensures lo <= i < hi && v[i] == b && forall k | lo <= k < i :: v[k] != b
    decreases hi - lo
  {
    if v[lo] == b {
      i := lo;
    } else {
      i := FirstAt(v, lo + 1, hi, b);
    }
  }

  lemma {:induction false} LastAt(v: seq<nat>, lo: nat, hi: nat, b: nat) returns (i: nat)
    requires lo < hi <= |v| && exists k :: lo <= k < hi && v[k] == b
    ensures lo <= i < hi && v[i] == b && forall k | i < k < hi :: v[k] != b
    decreases hi - lo
  {
    if v[hi - 1] == b {
      i := hi - 1;
    } else {
      i := LastAt(v, lo, hi - 1, b);
    }
  }

  /** The relaxation step: once c is at most the detour through b, letting b
      into the interior opens no cheaper walk. A walk through b is cut at its
      first and its last visit of b. */
  lemma DominatesThrough(g: seq<PackArc>, x: nat, y: nat, b: nat, c: nat, cin: nat, cout: nat)
    requires Dominates(g, x, y, b, c)
    requires Dominates(g, x, b, b, cin) && Dominates(g, b, y, b, cout)
    requires c <= cin + cout
    ensures Dominates(g, x, y, b + 1, c)
  {
    var above := b + 1;
    forall v, p | LowWalk(g, v, p, x, y, above)
      ensures c <= WalkCost(g, p)
    {
      if k :| 0 < k < |v| - 1 && v[k] == b {
        DetourCost(g, v, p, x, y, b, cin, cout);
      } else {
        assert LowWalk(g, v, p, x, y, b);
      }
    }
  }

  lemma DetourCost(g: seq<PackArc>, v: seq<nat>, p: seq<nat>, x: nat, y: nat, b: nat, cin: nat, cout: nat)
    requires LowWalk(g, v, p, x, y, b + 1) && exists k :: 0 < k < |v| - 1 && v[k] == b
    requires Dominates(g, x, b, b, cin) && Dominates(g, b, y, b, cout)
    ensures cin + cout <= WalkCost(g, p)
  {
    var i := FirstAt(v, 1, |v| - 1, b);
    var j := LastAt(v, i, |v| - 1, b);
    var vIn, pIn := v[..i + 1], p[..i];
    var vOut, pOut := v[j..], p[j..];
    HeadIsLow(g, v, p, x, y, b, i);
    TailIsLow(g, v, p, x, y, b, j);
    assert LowWalk(g, vIn, pIn, x, b, b) && LowWalk(g, vOut, pOut, b, y, b);
    WalkSlice(g, v, p, i, j);
  }

  lemma HeadIsLow(g: seq<PackArc>, v: seq<nat>, p: seq<nat>, x: nat, y: nat, b: nat, i: nat)
    requires LowWalk(g, v, p, x, y, b + 1) && 0 < i < |v| - 1 && v[i] == b
    requires forall k | 1 <= k < i :: v[k] != b
    ensures LowWalk(g, v[..i + 1], p[..i], x, b, b)
  {
  }

  lemma TailIsLow(g: seq<PackArc>, v: seq<nat>, p: seq<nat>, x: nat, y: nat, b: nat, j: nat)
    requires LowWalk(g, v, p, x, y, b + 1) && 0 < j < |v| - 1 && v[j] == b
    requires forall k | j < k < |v| - 1 :: v[k] != b
    ensures LowWalk(g, v[j..], p[j..], b, y, b)
  {
  }

  /** A cheapest low walk is no dearer than a simple one, so it has at most
      k + 1 arcs' worth of cost. */
  lemma CheapestBound(g: seq<PackArc>, x: nat, y: nat, k: nat, c: nat, m: nat)
    requires Dominates(g, x, y, k, c) && x != y && WeightsAtMost(g, m)
    requires exists v, p :: LowWalk(g, v, p, x, y, k)
    ensures c <= (k + 1) * m
  {
    var v, p :| LowWalk(g, v, p, x, y, k);
    var n := MaxOf(v) + 1;
    var u, q := Simplify(g, v, p, x, y, k, n);
    assert LowWalk(g, u, q, x, y, k);
    var inner := u[1..|u| - 1];
    DistinctBound(inner, k);
    CostBound(g, q, m);
    MulLe(|q|, k + 1, m);
  }

  lemma MulLe(a: nat, b: nat, m: nat)
    requires a <= b
    ensures a * m <= b * m
  {
  }

  function MaxOf(v: seq<nat>): (r: nat)
    ensures AllBelow(v, r + 1)
  {
    if v == [] then 0
    else
      var rest := MaxOf(v[..|v| - 1]);
      if rest < v[|v| - 1] then v[|v| - 1] else rest
  }
}
