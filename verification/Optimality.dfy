/** Why the bidirectional upward search finds the cheapest walk: every walk is
    cut at its highest rank, and both halves are replaced, prefix maximum by
    prefix maximum, by upward arcs that cost no more. */
module Optimality {
  import opened Costs
  import opened Walks
  import opened LowWalks
  import opened Cch
  import opened Fill
  import opened Weights
  import opened Customize
  import opened Search
  import opened Query
  import opened Unpack

  /** The arc that stands for a low walk, at no more than its cost. */
  lemma LowWalkArc(c: CchStructure, n: nat, w: CchWeights, g: seq<PackArc>, v: seq<nat>, p: seq<nat>, x: nat, y: nat)
      returns (a: nat)
    requires c.Valid(n) && w.Sized(c.ArcCount()) && Filled(c) && Contains(c, g) && Phase(c, w, g, n)
    requires x != y && LowWalk(g, v, p, x, y, Min(x, y))
    ensures a < c.ArcCount() && Start(c, x < y, a) == x && End(c, x < y, a) == y
    ensures w.At(x < y, a) <= WalkCost(g, p)
  {
    LowWalkIsPath(g, v, p, x, y);
    PathHasArc(c, g, v, x, y);
    SlotIff(c, n, x, y);
    a := Slot(c, x, y).value;
    ArcBucket(c, n, a);
    assert Dominates(g, x, y, Limit(n, x, y), Weight(c, w, x, y));
    assert Limit(n, x, y) == Min(x, y);
  }

  lemma {:induction false} FirstAbove(v: seq<nat>, lo: nat, x: nat) returns (i: nat)
    requires lo < |v| && v[|v| - 1] > x
    ensures lo <= i < |v| && v[i] > x && forall k | lo <= k < i :: v[k] <= x
    decreases |v| - lo
  {
    if v[lo] > x {
      i := lo;
    } else {
      i := FirstAbove(v, lo + 1, x);
    }
  }

  lemma {:induction false} LastAbove(v: seq<nat>, hi: nat, x: nat) returns (i: nat)
    requires hi <= |v| && 0 < hi && v[0] > x
    ensures i < hi && v[i] > x && forall k | i < k < hi :: v[k] <= x
    decreases hi
  {
    if v[hi - 1] > x {
      i := hi - 1;
    } else {
      i := LastAbove(v, hi - 1, x);
    }
  }

  /** A walk that ends at its highest rank has an upward path below its cost. */
  lemma {:induction false} ClimbUp(c: CchStructure, n: nat, w: CchWeights, g: seq<PackArc>, v: seq<nat>, p: seq<nat>,
                                   m: nat)
      returns (q: seq<nat>)
    requires c.Valid(n) && w.Sized(c.ArcCount()) && Filled(c) && Contains(c, g) && Phase(c, w, g, n)
    requires IsWalk(g, v, p) && v[|v| - 1] == m && AllBelow(v, m + 1)
    ensures UpPath(c, v[0], q, m) && UpCost(w.forward, q) <= WalkCost(g, p)
    decreases |v|
  {
    var x := v[0];
    if x == m {
      q := [];
    } else {
      var i := FirstAbove(v, 0, x);
      var j := LastAt(v, 0, i, x);
      WalkSlice(g, v, p, j, i);
      assert LowWalk(g, v[j..i + 1], p[j..i], x, v[i], Min(x, v[i]));
      var a := LowWalkArc(c, n, w, g, v[j..i + 1], p[j..i], x, v[i]);
      q := ClimbUp(c, n, w, g, v[i..], p[i..], m);
      UpPrepend(c, w.forward, a, q, m);
      q := [a] + q;
    }
  }

  /** A walk that starts at its highest rank has an upward path from its end,
      over the backward weights, below its cost. */
  lemma {:induction false} ClimbDown(c: CchStructure, n: nat, w: CchWeights, g: seq<PackArc>, v: seq<nat>, p: seq<nat>,
                                     m: nat)
      returns (q: seq<nat>)
    requires c.Valid(n) && w.Sized(c.ArcCount()) && Filled(c) && Contains(c, g) && Phase(c, w, g, n)
    requires IsWalk(g, v, p) && v[0] == m && AllBelow(v, m + 1)
    ensures UpPath(c, v[|v| - 1], q, m) && UpCost(w.backward, q) <= WalkCost(g, p)
    decreases |v|
  {
    var y := v[|v| - 1];
    if y == m {
      q := [];
    } else {
      var i := LastAbove(v, |v|, y);
      var j := FirstAt(v, i + 1, |v|, y);
      WalkSlice(g, v, p, i, j);
      assert LowWalk(g, v[i..j + 1], p[i..j], v[i], y, Min(v[i], y));
      var a := LowWalkArc(c, n, w, g, v[i..j + 1], p[i..j], v[i], y);
      q := ClimbDown(c, n, w, g, v[..i + 1], p[..i], m);
      UpPrepend(c, w.backward, a, q, m);
      q := [a] + q;
    }
  }

  lemma {:induction false} HighestAt(v: seq<nat>) returns (i: nat)
    requires v != []
    ensures i < |v| && AllBelow(v, v[i] + 1)
  {
    if |v| == 1 {
      i := 0;
    } else {
      i := HighestAt(v[..|v| - 1]);
      if v[i] < v[|v| - 1] {
        i := |v| - 1;
      }
    }
  }

  /** Every walk has an up-down path that costs no more. */
  lemma WalkHasUpDown(c: CchStructure, n: nat, w: CchWeights, g: seq<PackArc>, v: seq<nat>, p: seq<nat>, s: nat, t: nat)
      returns (m: nat, up: seq<nat>, down: seq<nat>)
    requires c.Valid(n) && w.Sized(c.ArcCount()) && Filled(c) && Contains(c, g) && Phase(c, w, g, n)
    requires IsWalkBetween(g, v, p, s, t) && AllBelow(v, n)
    ensures m < n && UpDown(c, s, t, m, up, down)
    ensures UpDownCost(w, up, down) <= WalkCost(g, p)
  {
    var i := HighestAt(v);
    m := v[i];
    WalkSlice(g, v, p, i, i);
    assert p[i..i] == [] && WalkCost(g, p[i..i]) == 0;
    up := ClimbUp(c, n, w, g, v[..i + 1], p[..i], m);
    down := ClimbDown(c, n, w, g, v[i..], p[i..], m);
  }

  /** Climbs and descents are connected paths of the same cost. */
  lemma {:induction false} UpsConnected(c: CchStructure, w: CchWeights, s: nat, q: seq<nat>, m: nat)
    requires |c.upTail| == |c.upHead| && w.Sized(c.ArcCount()) && UpPath(c, s, q, m)
    ensures Connected(c, Ups(q), s, m) && IndicesBelow(Ups(q), c.ArcCount())
    ensures PathCost(w, Ups(q)) == UpCost(w.forward, q)
  {
    if q != [] {
      var a := q[|q| - 1];
      UpsConnected(c, w, s, q[..|q| - 1], c.upTail[a]);
      var last := [QueryArc(a, true)];
      assert last[1..] == [];
      assert Ups(q) == Ups(q[..|q| - 1]) + last;
      ConnectedConcat(c, w, Ups(q[..|q| - 1]), last, s, c.upTail[a], m);
    }
  }

  lemma {:induction false} DownsConnected(c: CchStructure, w: CchWeights, t: nat, q: seq<nat>, m: nat)
    requires |c.upTail| == |c.upHead| && w.Sized(c.ArcCount()) && UpPath(c, t, q, m)
    ensures Connected(c, Downs(q), m, t) && IndicesBelow(Downs(q), c.ArcCount())
    ensures PathCost(w, Downs(q)) == UpCost(w.backward, q)
  {
    if q != [] {
      var a := q[|q| - 1];
      DownsConnected(c, w, t, q[..|q| - 1], c.upTail[a]);
      assert Downs(q)[1..] == Downs(q[..|q| - 1]);
      assert Downs(q) == [QueryArc(a, false)] + Downs(q[..|q| - 1]);
    }
  }

  lemma {:induction false} ConnectedConcat(c: CchStructure, w: CchWeights, p: seq<QueryArc>, q: seq<QueryArc>,
                                           x: nat, y: nat, z: nat)
    requires |c.upTail| == |c.upHead| && w.Sized(c.ArcCount())
    requires Connected(c, p, x, y) && Connected(c, q, y, z)
    requires IndicesBelow(p, c.ArcCount()) && IndicesBelow(q, c.ArcCount())
    ensures Connected(c, p + q, x, z) && IndicesBelow(p + q, c.ArcCount())
    ensures PathCost(w, p + q) == PathCost(w, p) + PathCost(w, q)
  {
    if p == [] {
      assert p + q == q;
    } else {
      ConnectedConcat(c, w, p[1..], q, End(c, p[0].forward, p[0].index), y, z);
      assert (p + q)[1..] == p[1..] + q;
    }
  }

  /** An answer's path leads from source to target at the answer's cost. */
  lemma AnswerConnected(c: CchStructure, n: nat, w: CchWeights, s: nat, t: nat, cost: Cost, path: seq<QueryArc>)
    requires c.Valid(n) && w.Sized(c.ArcCount()) && Answer(c, n, w, s, t, cost, path)
    ensures Connected(c, path, s, t) && IndicesBelow(path, c.ArcCount())
    ensures PathCost(w, path) == cost < INFINITE_COST
  {
    var m, up, down :|
      && BestMeeting(c, n, w, s, t, m, cost)
      && UpDown(c, s, t, m, up, down) && UpDownCost(w, up, down) == cost
      && path == Ups(up) + Downs(down);
    UpsConnected(c, w, s, up, m);
    DownsConnected(c, w, t, down, m);
    ConnectedConcat(c, w, Ups(up), Downs(down), s, m, t);
  }

  /** The sound half of the query, on every accepted pack: the answer unpacks
      to a walk over original arcs whose weights sum to the answer's cost. */
  lemma AnswerWalk(c: CchStructure, n: nat, w: CchWeights, arcs: seq<PackArc>, g: seq<PackArc>, s: nat, t: nat,
                   cost: Cost, path: seq<QueryArc>)
      returns (v: seq<nat>)
    requires c.Valid(n) && Witnessed(c, w, arcs) && s < n && Answer(c, n, w, s, t, cost, path)
    requires (forall e | e in arcs :: e.from < n && e.to < n) && g == Ranked(arcs, c.rank)
    ensures IndicesBelow(path, c.ArcCount()) && FinitePath(w, path)
    ensures IsWalkBetween(g, v, ExpandPath(c, n, w, arcs, path), s, t) && AllBelow(v, n)
    ensures WalkCost(g, ExpandPath(c, n, w, arcs, path)) == cost
  {
    AnswerConnected(c, n, w, s, t, cost, path);
    FiniteCostFinitePath(w, path);
    v := ExpandPathWalk(c, n, w, arcs, g, path, s, t);
  }

  /** Least upward costs exist, whatever the weights. */
  lemma {:induction false} ShortestExists(c: CchStructure, costs: seq<Cost>, s: nat, r: nat, bound: Cost)
    requires |c.upTail| == |c.upHead|
    requires bound == INFINITE_COST || exists q :: UpPathCosting(c, costs, s, q, r, bound)
    ensures exists d: Cost :: ShortestUp(c, costs, s, r, d)
    decreases bound
  {
    if q :| UpPath(c, s, q, r) && UpCost(costs, q) < bound {
      var lower: Cost := UpCost(costs, q);
      assert UpPathCosting(c, costs, s, q, r, lower);
      ShortestExists(c, costs, s, r, lower);
    } else {
      assert ShortestUp(c, costs, s, r, bound);
    }
  }

  /** The optimal half, on customized packs: no walk is cheaper than the answer. */
  lemma AnswerOptimal(c: CchStructure, n: nat, w: CchWeights, g: seq<PackArc>, s: nat, t: nat, cost: Cost,
                      path: seq<QueryArc>, v: seq<nat>, p: seq<nat>)
    requires c.Valid(n) && w.Sized(c.ArcCount()) && Filled(c) && Contains(c, g) && Phase(c, w, g, n)
    requires Answer(c, n, w, s, t, cost, path)
    requires IsWalkBetween(g, v, p, s, t) && AllBelow(v, n)
    ensures cost <= WalkCost(g, p)
  {
    var d, e, up, down, m := WalkMeeting(c, n, w, g, s, t, v, p);
    var best :| BestMeeting(c, n, w, s, t, best, cost);
    assert Meets(c, w, s, t, m, d, e);
  }

  /** On customized packs a query comes back empty only if every walk reaches
      the sentinel. */
  lemma NoMeetingNoWalk(c: CchStructure, n: nat, w: CchWeights, g: seq<PackArc>, s: nat, t: nat, v: seq<nat>,
                        p: seq<nat>)
    requires c.Valid(n) && w.Sized(c.ArcCount()) && Filled(c) && Contains(c, g) && Phase(c, w, g, n)
    requires NoMeeting(c, n, w, s, t)
    requires IsWalkBetween(g, v, p, s, t) && AllBelow(v, n)
    ensures INFINITE_COST <= WalkCost(g, p)
  {
    var d, e, up, down, m := WalkMeeting(c, n, w, g, s, t, v, p);
    assert Meets(c, w, s, t, m, d, e);
  }

  lemma WalkMeeting(c: CchStructure, n: nat, w: CchWeights, g: seq<PackArc>, s: nat, t: nat, v: seq<nat>, p: seq<nat>)
      returns (d: Cost, e: Cost, up: seq<nat>, down: seq<nat>, m: nat)
    requires c.Valid(n) && w.Sized(c.ArcCount()) && Filled(c) && Contains(c, g) && Phase(c, w, g, n)
    requires IsWalkBetween(g, v, p, s, t) && AllBelow(v, n)
    ensures m < n && Meets(c, w, s, t, m, d, e) && Plus(d, e) <= WalkCost(g, p)
  {
    m, up, down := WalkHasUpDown(c, n, w, g, v, p, s, t);
    ShortestExists(c, w.forward, s, m, INFINITE_COST);
    ShortestExists(c, w.backward, t, m, INFINITE_COST);
    d :| ShortestUp(c, w.forward, s, m, d);
    e :| ShortestUp(c, w.backward, t, m, e);
  }
}
