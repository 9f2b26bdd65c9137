/** Elimination fill: from an arc list and a rank permutation to the upward
    CSR structure. */
module Build {
  import opened Costs
  import opened Walks
  import opened Cch
  import opened Fill

  /** One set of higher neighbours per rank. */
  type Adjacency = seq<set<nat>>

  predicate Upward(adj: Adjacency, n: nat) {
    |adj| == n && forall x, y | 0 <= x < n && y in adj[x] :: x < y < n
  }

  predicate Includes(adj: Adjacency, a: PackArc) {
    Has(adj, SortedPair(a.from, a.to).0, SortedPair(a.from, a.to).1)
  }

  predicate Has(adj: Adjacency, x: nat, y: nat) {
    x < |adj| && y in adj[x]
  }

  ghost predicate PathsOnly(adj: Adjacency, g: seq<PackArc>) {
    forall x, y | 0 <= x < |adj| && y in adj[x] :: LowPath(g, x, y)
  }

  /** The higher neighbours of every rank below b form a clique. */
  ghost predicate CliquesBelow(adj: Adjacency, b: nat) {
    forall z, x, y | 0 <= z < b && z < |adj| && x in adj[z] && y in adj[z] && x < y ::
      Has(adj, x, y)
  }

  predicate IsLeast(s: set<nat>, m: nat) {
    m in s && forall k | k in s :: m <= k
  }

  function Least(s: set<nat>): (m: nat)
    requires s != {}
    ensures IsLeast(s, m)
  {
    HasLeast(s);
    var m: nat :| IsLeast(s, m);
    m
  }

  lemma HasLeast(s: set<nat>)
    requires s != {}
    ensures exists m: nat :: IsLeast(s, m)
  {
    var x: nat :| x in s;
    CountUp(s, 0, x);
  }

  /** Counting up from below reaches the first member. */
  lemma {:induction false} CountUp(s: set<nat>, from: nat, x: nat)
    requires x in s && forall k | k in s :: from <= k
    ensures exists m: nat :: IsLeast(s, m)
    decreases x - from
  {
    if from in s {
      assert IsLeast(s, from);
    } else {
      CountUp(s, from + 1, x);
    }
  }

  /** The elements of a set in ascending order, as an ordered set yields them. */
  function Ascending(s: set<nat>): (r: seq<nat>)
    ensures forall x: nat :: x in r <==> x in s
    ensures forall i, j | 0 <= i < j < |r| :: r[i] < r[j]
  {
    if s == {} then []
    else [Least(s)] + Ascending(s - {Least(s)})
  }

  method Connect(adjacency: array<set<nat>>, low: nat, high: nat)
    requires low < adjacency.Length
    modifies adjacency
    ensures adjacency[..] == old(adjacency[..])[low := old(adjacency[low]) + {high}]
  {
    adjacency[low] := adjacency[low] + {high};
  }

  /** The undirected input arcs enter the adjacency at their lower rank, and
      nothing else does. */
  method InsertArcs(n: nat, arcs: seq<PackArc>, rank: seq<nat>, adjacency: array<set<nat>>)
      returns (r: Result<()>)
    requires Permutation(n, rank) && adjacency.Length == n
    requires forall x | 0 <= x < n :: adjacency[x] == {}
    modifies adjacency
    ensures r.Ok? <==> ValidArcs(n, arcs)
    ensures r.Err? ==> r.error.InvalidPack?
    ensures r.Ok? ==> Inserted(adjacency[..], n, arcs, rank)
    ensures r.Ok? ==>
              var g := Ranked(arcs, rank);
              && Upward(adjacency[..], n)
              && (forall i | 0 <= i < |g| :: Includes(adjacency[..], g[i]))
              && PathsOnly(adjacency[..], g)
  {
    for k := 0 to |arcs|
      invariant forall i | 0 <= i < k :: ValidArc(n, arcs[i])
      invariant Inserted(adjacency[..], n, arcs[..k], rank)
    {
      var arc := arcs[k];
      if !ValidArc(n, arc) {
        assert arc in arcs;
        return Err(InvalidPack("input arcs need distinct valid endpoints and non-zero weights"));
      }
      var (low, high) := SortedPair(rank[arc.from], rank[arc.to]);
      assert arcs[..k + 1] == arcs[..k] + [arc];
      InsertedNext(adjacency[..], n, arcs[..k], rank, arc);
      Connect(adjacency, low, high);
    }
    assert arcs[..|arcs|] == arcs;
    InsertedPaths(adjacency[..], n, arcs, rank);
    return Ok(());
  }

  predicate Endpoints(n: nat, arcs: seq<PackArc>) {
    forall i | 0 <= i < |arcs| :: arcs[i].from < n && arcs[i].to < n && arcs[i].from != arcs[i].to
  }

  predicate PairOf(a: PackArc, rank: seq<nat>, x: nat, y: nat)
    requires a.from < |rank| && a.to < |rank|
  {
    SortedPair(rank[a.from], rank[a.to]) == (x, y)
  }

  /** The adjacency holds the sorted pairs of the arcs and nothing else. */
  ghost predicate Inserted(adj: Adjacency, n: nat, arcs: seq<PackArc>, rank: seq<nat>) {
    && Permutation(n, rank) && Endpoints(n, arcs) && Upward(adj, n)
    && (forall x, y, i | 0 <= i < |arcs| && PairOf(arcs[i], rank, x, y) :: Has(adj, x, y))
    && forall x, y | Has(adj, x, y) :: exists i :: 0 <= i < |arcs| && PairOf(arcs[i], rank, x, y)
  }

  lemma InsertedNext(adj: Adjacency, n: nat, arcs: seq<PackArc>, rank: seq<nat>, arc: PackArc)
    requires Inserted(adj, n, arcs, rank) && ValidArc(n, arc)
    ensures var (low, high) := SortedPair(rank[arc.from], rank[arc.to]);
            low < |adj| && Inserted(adj[low := adj[low] + {high}], n, arcs + [arc], rank)
  {
    var (low, high) := SortedPair(rank[arc.from], rank[arc.to]);
    var adj' := adj[low := adj[low] + {high}];
    var arcs' := arcs + [arc];
    assert PairOf(arcs'[|arcs|], rank, low, high);
    forall x, y | Has(adj', x, y)
      ensures exists i :: 0 <= i < |arcs'| && PairOf(arcs'[i], rank, x, y)
    {
      if Has(adj, x, y) {
        var i :| 0 <= i < |arcs| && PairOf(arcs[i], rank, x, y);
        assert arcs'[i] == arcs[i];
      }
    }
    forall x, y, i | 0 <= i < |arcs'| && PairOf(arcs'[i], rank, x, y)
      ensures Has(adj', x, y)
    {
      if i < |arcs| {
        assert arcs'[i] == arcs[i];
        assert PairOf(arcs[i], rank, x, y);
        assert Has(adj, x, y);
      } else {
        assert arcs'[i] == arc;
        assert x == low && y == high;
      }
    }
  }

  lemma InsertedPaths(adj: Adjacency, n: nat, arcs: seq<PackArc>, rank: seq<nat>)
    requires Inserted(adj, n, arcs, rank) && ValidArcs(n, arcs)
    ensures PathsOnly(adj, Ranked(arcs, rank))
    ensures var g := Ranked(arcs, rank);
            forall i | 0 <= i < |g| :: Includes(adj, g[i])
  {
    var g := Ranked(arcs, rank);
    forall x, y | 0 <= x < |adj| && y in adj[x]
      ensures LowPath(g, x, y)
    {
      assert Has(adj, x, y);
      var i :| 0 <= i < |arcs| && PairOf(arcs[i], rank, x, y);
      assert SortedPair(g[i].from, g[i].to) == SortedPair(x, y);
      LowPathSingle(g, x, y);
    }
    forall i | 0 <= i < |g|
      ensures Includes(adj, g[i])
    {
      var (x, y) := SortedPair(g[i].from, g[i].to);
      assert PairOf(arcs[i], rank, x, y);
    }
  }

  /** Contracting one rank completes the clique of its higher neighbours. */
  method Eliminate(n: nat, bottom: nat, adjacency: array<set<nat>>, ghost g: seq<PackArc>)
    requires adjacency.Length == n && bottom < n
    requires Upward(adjacency[..], n) && PathsOnly(adjacency[..], g) && CliquesBelow(adjacency[..], bottom)
    modifies adjacency
    ensures Upward(adjacency[..], n) && PathsOnly(adjacency[..], g) && CliquesBelow(adjacency[..], bottom + 1)
    ensures forall x | 0 <= x < n :: old(adjacency[..])[x] <= adjacency[..][x]
  {
    ghost var start := adjacency[..];
    var higher := Ascending(adjacency[bottom]);
    for index := 0 to |higher|
      invariant Completing(start, adjacency[..], n, bottom, g, higher, index, 0)
    {
      for other := index + 1 to |higher|
        invariant Completing(start, adjacency[..], n, bottom, g, higher, index, other)
      {
        var (low, high) := SortedPair(higher[index], higher[other]);
        CompletingNext(start, adjacency[..], n, bottom, g, higher, index, other);
        Connect(adjacency, low, high);
      }
    }
    CliqueDone(start, adjacency[..], n, bottom, higher);
  }

  /** While rank b is being eliminated: the pairs of its higher neighbours
      before (index, other) are connected. */
  ghost predicate Completing(start: Adjacency, adj: Adjacency, n: nat, b: nat, g: seq<PackArc>,
                             higher: seq<nat>, index: nat, other: nat)
  {
    && b < n && Upward(start, n) && PathsOnly(start, g) && Upward(adj, n) && PathsOnly(adj, g) && Grown(start, adj, b)
    && higher == Ascending(start[b])
    && forall i, j | 0 <= i < j < |higher| && (i < index || (i == index && j < other)) :: Has(adj, higher[i], higher[j])
  }

  lemma CompletingNext(start: Adjacency, adj: Adjacency, n: nat, b: nat, g: seq<PackArc>,
                       higher: seq<nat>, index: nat, other: nat)
    requires Completing(start, adj, n, b, g, higher, index, other) && index < other < |higher|
    ensures higher[index] < |adj| && higher[index] < higher[other]
    ensures var next := adj[higher[index] := adj[higher[index]] + {higher[other]}];
            Completing(start, next, n, b, g, higher, index, other + 1)
  {
    var low, high := higher[index], higher[other];
    assert low in higher && high in higher;
    LowPathThrough(g, b, low, high);
    var next := adj[low := adj[low] + {high}];
    forall x, y | 0 <= x < |next| && y in next[x]
      ensures LowPath(g, x, y) && x < y < n
    {
      if y !in adj[x] {
        assert x == low && y == high;
      }
    }
    forall i, j | 0 <= i < j < |higher| && (i < index || (i == index && j < other + 1))
      ensures Has(next, higher[i], higher[j])
    {
      assert (i == index && j == other) || Has(adj, higher[i], higher[j]);
    }
  }

  /** Nothing is removed, and ranks up to b keep their neighbours. */
  ghost predicate Grown(start: Adjacency, adj: Adjacency, b: nat) {
    && |adj| == |start|
    && (forall x | 0 <= x < |adj| :: start[x] <= adj[x])
    && forall x | 0 <= x <= b && x < |adj| :: adj[x] == start[x]
  }

  lemma CliqueDone(start: Adjacency, adj: Adjacency, n: nat, b: nat, higher: seq<nat>)
    requires Upward(start, n) && Upward(adj, n) && b < n && Grown(start, adj, b)
    requires CliquesBelow(start, b) && higher == Ascending(start[b])
    requires forall i, j | 0 <= i < j < |higher| :: Has(adj, higher[i], higher[j])
    ensures CliquesBelow(adj, b + 1)
  {
    forall z, x, y | 0 <= z < b + 1 && z < |adj| && x in adj[z] && y in adj[z] && x < y
      ensures Has(adj, x, y)
    {
      if z < b {
        assert x in start[z] && y in start[z];
        assert Has(start, x, y);
        assert start[x] <= adj[x];
      } else {
        assert x in higher && y in higher;
        var i :| 0 <= i < |higher| && higher[i] == x;
        var j :| 0 <= j < |higher| && higher[j] == y;
        assert i < j;
        assert Has(adj, higher[i], higher[j]);
      }
    }
  }

  /** The CSR columns list every rank's neighbours in ascending order. */
  ghost predicate Flattened(adj: Adjacency, off: seq<nat>, tail: seq<nat>, head: seq<nat>, k: nat) {
    && k <= |adj| && |off| == k + 1 && off[0] == 0 && off[k] == |head| && |tail| == |head|
    && (forall t | 0 <= t <= k :: off[t] <= |head|)
    && (forall t | 0 <= t < k :: off[t] <= off[t + 1])
    && (forall t | 0 <= t < k :: head[off[t]..off[t + 1]] == Ascending(adj[t]))
    && forall t, a | 0 <= t < k && off[t] <= a < off[t + 1] :: tail[a] == t
  }

  method Flatten(adjacency: seq<set<nat>>) returns (firstOut: seq<nat>, tail: seq<nat>, head: seq<nat>)
    ensures Flattened(adjacency, firstOut, tail, head, |adjacency|)
  {
    firstOut, tail, head := [], [], [];
    for x := 0 to |adjacency|
      invariant Flattened(adjacency, firstOut + [|head|], tail, head, x)
    {
      ghost var off := firstOut + [|head|];
      ghost var tail0, head0 := tail, head;
      firstOut := firstOut + [|head|];
      var neighbours := Ascending(adjacency[x]);
      for i := 0 to |neighbours|
        invariant head == head0 + neighbours[..i]
        invariant |tail| == |head| && tail[..|head0|] == tail0
        invariant forall a | |head0| <= a < |tail| :: tail[a] == x
      {
        tail := tail + [x];
        head := head + [neighbours[i]];
      }
      FlattenedNext(adjacency, off, tail0, head0, tail, head, x);
    }
    firstOut := firstOut + [|head|];
  }

  lemma FlattenedNext(adj: Adjacency, off: seq<nat>, tail0: seq<nat>, head0: seq<nat>,
                      tail: seq<nat>, head: seq<nat>, x: nat)
    requires x < |adj| && Flattened(adj, off, tail0, head0, x)
    requires head == head0 + Ascending(adj[x])
    requires |tail| == |head| && tail[..|head0|] == tail0
    requires forall a | |head0| <= a < |tail| :: tail[a] == x
    ensures Flattened(adj, off + [|head|], tail, head, x + 1)
  {
    var off' := off + [|head|];
    forall t | 0 <= t < x + 1
      ensures head[off'[t]..off'[t + 1]] == Ascending(adj[t])
    {
      if t < x {
        assert head[off[t]..off[t + 1]] == head0[off[t]..off[t + 1]];
      }
    }
    forall t, a | 0 <= t < x + 1 && off'[t] <= a < off'[t + 1]
      ensures tail[a] == t
    {
      if t < x {
        assert tail[..|head0|][a] == tail0[a];
      }
    }
  }

  /** The structure's arcs are the adjacency's pairs. */
  ghost predicate ArcsAre(c: CchStructure, adj: Adjacency) {
    forall x: nat, y: nat :: c.HasArc(x, y) <==> Has(adj, x, y)
  }

  lemma FlattenedValid(c: CchStructure, adj: Adjacency, n: nat)
    requires Upward(adj, n) && Flattened(adj, c.upFirstOut, c.upTail, c.upHead, n)
    requires |c.order| == n && Permutation(n, c.rank) && forall v | 0 <= v < n :: c.order[c.rank[v]] == v
    ensures c.Valid(n)
  {
    assert c.Dimensions(n);
    forall t | 0 <= t < n
      ensures c.ValidBucket(n, t)
    {
      var heads := Ascending(adj[t]);
      BucketHeads(c, adj, n, t);
      assert forall i | 0 <= i < |heads| :: heads[i] in adj[t];
    }
  }

  lemma BucketHeads(c: CchStructure, adj: Adjacency, n: nat, t: nat)
    requires Flattened(adj, c.upFirstOut, c.upTail, c.upHead, n) && t < n
    ensures |Ascending(adj[t])| == c.upFirstOut[t + 1] - c.upFirstOut[t]
    ensures forall a | c.upFirstOut[t] <= a < c.upFirstOut[t + 1] ::
              c.upHead[a] == Ascending(adj[t])[a - c.upFirstOut[t]]
  {
    var heads := c.upHead[c.upFirstOut[t]..c.upFirstOut[t + 1]];
    assert forall a | c.upFirstOut[t] <= a < c.upFirstOut[t + 1] :: c.upHead[a] == heads[a - c.upFirstOut[t]];
  }

  lemma FlattenedArcs(c: CchStructure, adj: Adjacency, n: nat)
    requires Upward(adj, n) && Flattened(adj, c.upFirstOut, c.upTail, c.upHead, n) && c.Valid(n)
    ensures ArcsAre(c, adj)
  {
    forall x: nat, y: nat
      ensures c.HasArc(x, y) <==> Has(adj, x, y)
    {
      if a: nat :| c.ArcIs(a, x, y) {
        ArcInAdjacency(c, adj, n, a);
      }
      if Has(adj, x, y) {
        var a := AdjacencyInArcs(c, adj, n, x, y);
      }
    }
  }

  lemma ArcInAdjacency(c: CchStructure, adj: Adjacency, n: nat, a: nat)
    requires Upward(adj, n) && Flattened(adj, c.upFirstOut, c.upTail, c.upHead, n) && c.Valid(n) && a < |c.upHead|
    ensures Has(adj, c.upTail[a], c.upHead[a])
  {
    ArcBucket(c, n, a);
    BucketHeads(c, adj, n, c.upTail[a]);
    assert c.upHead[a] in Ascending(adj[c.upTail[a]]);
  }

  lemma AdjacencyInArcs(c: CchStructure, adj: Adjacency, n: nat, x: nat, y: nat) returns (a: nat)
    requires Upward(adj, n) && Flattened(adj, c.upFirstOut, c.upTail, c.upHead, n) && c.Valid(n) && Has(adj, x, y)
    ensures c.ArcIs(a, x, y)
  {
    assert y in Ascending(adj[x]);
    var i :| 0 <= i < |Ascending(adj[x])| && Ascending(adj[x])[i] == y;
    BucketHeads(c, adj, n, x);
    assert c.ValidBucket(n, x);
    a := c.upFirstOut[x] + i;
  }

  method InvertRank(n: nat, rank: seq<nat>) returns (order: seq<nat>)
    requires Permutation(n, rank)
    ensures |order| == n && forall v | 0 <= v < n :: order[rank[v]] == v
  {
    var slots := new nat[n](_ => 0);
    for v := 0 to n
      invariant forall u | 0 <= u < v :: slots[rank[u]] == u
    {
      slots[rank[v]] := v;
    }
    order := slots[..];
  }

  /** Building succeeds exactly on a rank permutation and valid arcs; the
      result passes the loader's structure check, keeps the ranks, has an arc
      for every input arc, is closed under elimination, and has no arc without
      a low path behind it. */
  method BuildCch(n: nat, arcs: seq<PackArc>, rank: seq<nat>) returns (r: Result<CchStructure>)
    ensures r.Ok? <==> Permutation(n, rank) && ValidArcs(n, arcs)
    ensures r.Err? ==> r.error.InvalidPack?
    ensures r.Ok? ==>
              var c, g := r.value, Ranked(arcs, rank);
              c.Valid(n) && c.rank == rank && Contains(c, g) && Filled(c) && FillSound(c, g)
  {
    var _ :- ValidateRank(n, rank);
    var adjacency := new set<nat>[n](_ => {});
    var _ :- InsertArcs(n, arcs, rank, adjacency);
    ghost var g := Ranked(arcs, rank);
    ghost var inserted := adjacency[..];
    for bottom := 0 to n
      invariant Upward(adjacency[..], n) && PathsOnly(adjacency[..], g)
      invariant CliquesBelow(adjacency[..], bottom)
      invariant forall x | 0 <= x < n :: inserted[x] <= adjacency[..][x]
    {
      Eliminate(n, bottom, adjacency, g);
    }
    var firstOut, tail, head := Flatten(adjacency[..]);
    var order := InvertRank(n, rank);
    var c := CchStructure(rank, order, firstOut, tail, head);
    FlattenedValid(c, adjacency[..], n);
    FlattenedArcs(c, adjacency[..], n);
    AdjacencyFacts(c, adjacency[..], n, g, inserted);
    return Ok(c);
  }

  lemma AdjacencyFacts(c: CchStructure, adj: Adjacency, n: nat, g: seq<PackArc>, inserted: Adjacency)
    requires Upward(adj, n) && PathsOnly(adj, g) && CliquesBelow(adj, n) && ArcsAre(c, adj)
    requires |inserted| == n && forall x | 0 <= x < n :: inserted[x] <= adj[x]
    requires forall i | 0 <= i < |g| :: Includes(inserted, g[i])
    ensures Contains(c, g) && Filled(c) && FillSound(c, g)
  {
    forall i | 0 <= i < |g|
      ensures Joined(c, g[i].from, g[i].to)
    {
      assert Includes(inserted, g[i]);
      assert Includes(adj, g[i]);
    }
  }
}
