/** What elimination fill means: a CCH arc joins two ranks exactly when the
    undirected input graph joins them by a path whose interior is below both. */
module Fill {
  import opened Walks
  import opened LowWalks
  import opened Cch

  /** The input arcs with their node ids replaced by ranks. */
  function Ranked(arcs: seq<PackArc>, rank: seq<nat>): (g: seq<PackArc>)
    requires forall a | a in arcs :: a.from < |rank| && a.to < |rank|
    ensures |g| == |arcs|
    ensures forall i | 0 <= i < |arcs| ::
              g[i] == PackArc(rank[arcs[i].from], rank[arcs[i].to], arcs[i].weight)
  {
    seq(|arcs|, i requires 0 <= i < |arcs| =>
      PackArc(rank[arcs[i].from], rank[arcs[i].to], arcs[i].weight))
  }

  function SortedPair(left: nat, right: nat): (nat, nat) {
    if left < right then (left, right) else (right, left)
  }

  ghost predicate Linked(g: seq<PackArc>, x: nat, y: nat) {
    exists i :: 0 <= i < |g| && SortedPair(g[i].from, g[i].to) == SortedPair(x, y)
  }

  ghost predicate IsPath(g: seq<PackArc>, v: seq<nat>) {
    forall i, j | 0 <= i < |v| && j == i + 1 < |v| :: Linked(g, v[i], v[j])
  }

  ghost predicate LowPathAlong(g: seq<PackArc>, v: seq<nat>, x: nat, y: nat) {
    && |v| >= 2 && v[0] == x && v[|v| - 1] == y
    && IsPath(g, v) && InteriorBelow(v, SortedPair(x, y).0)
  }

  /** An undirected path from x to y whose interior ranks are below both. */
  ghost predicate LowPath(g: seq<PackArc>, x: nat, y: nat) {
    exists v :: LowPathAlong(g, v, x, y)
  }

  ghost predicate Joined(c: CchStructure, x: nat, y: nat) {
    c.HasArc(SortedPair(x, y).0, SortedPair(x, y).1)
  }

  /** Every input arc has its CCH arc. */
  ghost predicate Contains(c: CchStructure, g: seq<PackArc>) {
    forall i | 0 <= i < |g| :: Joined(c, g[i].from, g[i].to)
  }

  /** The upper neighbours of every rank form a clique. */
  ghost predicate Filled(c: CchStructure) {
    forall z: nat, x: nat, y: nat | c.HasArc(z, x) && c.HasArc(z, y) && x < y :: c.HasArc(x, y)
  }

  ghost predicate FillSound(c: CchStructure, g: seq<PackArc>) {
    forall x: nat, y: nat | c.HasArc(x, y) :: LowPath(g, x, y)
  }

  lemma LowPathSingle(g: seq<PackArc>, x: nat, y: nat)
    requires Linked(g, x, y)
    ensures LowPath(g, x, y)
  {
    assert LowPathAlong(g, [x, y], x, y);
  }

  lemma LowPathReverse(g: seq<PackArc>, v: seq<nat>, x: nat, y: nat) returns (u: seq<nat>)
    requires LowPathAlong(g, v, x, y) && x != y
    ensures LowPathAlong(g, u, y, x)
  {
    u := seq(|v|, i requires 0 <= i < |v| => v[|v| - 1 - i]);
    forall i, j | 0 <= i < |u| && j == i + 1 < |u|
      ensures Linked(g, u[i], u[j])
    {
      var a, b := |v| - 1 - j, |v| - 1 - i;
      assert Linked(g, v[a], v[b]);
    }
  }

  /** Eliminating b: low paths b..x and b..y make a low path x..y. */
  lemma LowPathThrough(g: seq<PackArc>, b: nat, x: nat, y: nat)
    requires LowPath(g, b, x) && LowPath(g, b, y) && b < x < y
    ensures LowPath(g, x, y)
  {
    var v :| LowPathAlong(g, v, b, x);
    var u :| LowPathAlong(g, u, b, y);
    var r := LowPathReverse(g, v, b, x);
    var w := r + u[1..];
    forall i, j | 0 <= i < |w| && j == i + 1 < |w|
      ensures Linked(g, w[i], w[j])
    {
      if j < |r| {
        assert Linked(g, r[i], r[j]);
      } else {
        assert w[i] == u[i - |r| + 1] && w[j] == u[j - |r| + 1];
        assert Linked(g, u[i - |r| + 1], u[j - |r| + 1]);
      }
    }
    assert LowPathAlong(g, w, x, y);
  }

  lemma {:induction false} MaxInterior(v: seq<nat>, hi: nat) returns (m: nat)
    requires 1 < hi < |v|
    ensures exists i :: 1 <= i < hi && v[i] == m
    ensures forall i | 1 <= i < hi :: v[i] <= m
  {
    if hi == 2 {
      m := v[1];
    } else {
      m := MaxInterior(v, hi - 1);
      if m < v[hi - 1] {
        m := v[hi - 1];
      }
    }
  }

  /** The hard half of the fill lemma: a low path is cut at the first and the
      last visit of its highest interior rank, whose two arcs were filled. */
  lemma {:induction false} PathHasArc(c: CchStructure, g: seq<PackArc>, v: seq<nat>, x: nat, y: nat)
    requires Contains(c, g) && Filled(c)
    requires LowPathAlong(g, v, x, y) && x != y
    ensures Joined(c, x, y)
    decreases |v|
  {
    if |v| == 2 {
      assert Linked(g, v[0], v[1]);
      var i :| 0 <= i < |g| && SortedPair(g[i].from, g[i].to) == SortedPair(x, y);
      assert Joined(c, g[i].from, g[i].to);
    } else {
      var m := MaxInterior(v, |v| - 1);
      var i := FirstAt(v, 1, |v| - 1, m);
      var j := LastAt(v, 1, |v| - 1, m);
      assert LowPathAlong(g, v[..i + 1], x, m) by {
        assert IsPath(g, v[..i + 1]);
      }
      PathHasArc(c, g, v[..i + 1], x, m);
      assert LowPathAlong(g, v[j..], m, y) by {
        PathSuffix(g, v, j);
      }
      PathHasArc(c, g, v[j..], m, y);
      assert c.HasArc(m, x) && c.HasArc(m, y);
    }
  }

  lemma PathSuffix(g: seq<PackArc>, v: seq<nat>, j: nat)
    requires IsPath(g, v) && j < |v|
    ensures IsPath(g, v[j..])
  {
    forall a, b | 0 <= a < |v[j..]| && b == a + 1 < |v[j..]|
      ensures Linked(g, v[j..][a], v[j..][b])
    {
      var d, e := j + a, j + b;
      assert Linked(g, v[d], v[e]);
    }
  }

  /** The fill lemma. */
  lemma FillLemma(c: CchStructure, g: seq<PackArc>, x: nat, y: nat)
    requires Contains(c, g) && Filled(c) && FillSound(c, g) && x < y
    ensures c.HasArc(x, y) <==> LowPath(g, x, y)
  {
    if LowPath(g, x, y) {
      var v :| LowPathAlong(g, v, x, y);
      PathHasArc(c, g, v, x, y);
    }
  }

  function Min(a: nat, b: nat): nat {
    if a < b then a else b
  }

  /** A low walk is a low path of the undirected input graph. */
  lemma LowWalkIsPath(g: seq<PackArc>, v: seq<nat>, p: seq<nat>, x: nat, y: nat)
    requires LowWalk(g, v, p, x, y, Min(x, y)) && x != y
    ensures LowPathAlong(g, v, x, y)
  {
    forall i, j | 0 <= i < |v| && j == i + 1 < |v|
      ensures Linked(g, v[i], v[j])
    {
      assert g[p[i]].from == v[i] && g[p[i]].to == v[j];
    }
  }

  lemma LowWalkJoined(c: CchStructure, g: seq<PackArc>, x: nat, y: nat, d: nat)
    requires Contains(c, g) && Filled(c) && x != y && Attained(g, x, y, Min(x, y), d)
    ensures Joined(c, x, y)
  {
    var v, p :| LowWalk(g, v, p, x, y, Min(x, y));
    LowWalkIsPath(g, v, p, x, y);
    PathHasArc(c, g, v, x, y);
  }
}
