/** One upward search: Dijkstra over the upward arcs with lazy deletion. */
module Search {
  import opened Common
  import opened Costs
  import opened Walks
  import opened Cch

  /** Upward arcs q leading from rank s to rank r. */
  predicate UpPath(c: CchStructure, s: nat, q: seq<nat>, r: nat)
    requires |c.upTail| == |c.upHead|
  {
    if q == [] then s == r
    else
      var a := q[|q| - 1];
      a < |c.upHead| && c.upHead[a] == r && UpPath(c, s, q[..|q| - 1], c.upTail[a])
  }

  function UpCost(costs: seq<Cost>, q: seq<nat>): nat {
    if q == [] then 0
    else
      var a := q[|q| - 1];
      UpCost(costs, q[..|q| - 1]) + if a < |costs| then costs[a] else 0
  }

  predicate UpPathCosting(c: CchStructure, costs: seq<Cost>, s: nat, q: seq<nat>, r: nat, d: nat)
    requires |c.upTail| == |c.upHead|
  {
    UpPath(c, s, q, r) && UpCost(costs, q) == d
  }

  ghost predicate UpLowerBound(c: CchStructure, costs: seq<Cost>, s: nat, r: nat, d: nat)
    requires |c.upTail| == |c.upHead|
  {
    forall q :: UpPath(c, s, q, r) ==> d <= UpCost(costs, q)
  }

  /** d is the least cost of an upward path from s to r; the sentinel means
      that every path costs at least the sentinel. */
  ghost predicate ShortestUp(c: CchStructure, costs: seq<Cost>, s: nat, r: nat, d: Cost)
    requires |c.upTail| == |c.upHead|
  {
    && UpLowerBound(c, costs, s, r, d)
    && (d < INFINITE_COST ==> exists q :: UpPathCosting(c, costs, s, q, r, d))
  }

  /** Some arc behind a reached rank leaves the cost domain. */
  ghost predicate SearchOverflows(c: CchStructure, costs: seq<Cost>, s: nat)
    requires |c.upTail| == |c.upHead| == |costs|
  {
    exists a: nat, d: Cost :: a < |costs| && d < INFINITE_COST && costs[a] < INFINITE_COST
                              && ShortestUp(c, costs, s, c.upTail[a], d) && Plus(d, costs[a]) >= INFINITE_COST
  }

  /** Distances are shortest and parents lead back along them. */
  ghost predicate Searched(c: CchStructure, n: nat, costs: seq<Cost>, s: nat, dist: seq<Cost>, parent: seq<Option<nat>>)
    requires |c.upTail| == |c.upHead|
  {
    && |dist| == n && |parent| == n
    && (forall r: nat | r < n :: ShortestUp(c, costs, s, r, dist[r]))
    && forall r: nat | r < n :: ParentOk(c, n, costs, s, dist, parent[r], r)
  }

  /** The parent arc of a reached rank other than the source is tight. */
  predicate ParentOk(c: CchStructure, n: nat, costs: seq<Cost>, s: nat, dist: seq<Cost>, parent: Option<nat>, r: nat)
    requires |c.upTail| == |c.upHead| && |dist| == n && r < n
  {
    if r == s || dist[r] == INFINITE_COST then parent == None
    else
      && parent.Some? && parent.value < |c.upHead| && parent.value < |costs|
      && c.upHead[parent.value] == r && c.upTail[parent.value] < n
      && Plus(dist[c.upTail[parent.value]], costs[parent.value]) == dist[r]
  }

  type Entry = (Cost, nat)

  predicate Before(e: Entry, f: Entry) {
    e.0 < f.0 || (e.0 == f.0 && e.1 <= f.1)
  }

  lemma {:induction false} HasFirst(queue: multiset<Entry>) returns (e: Entry)
    requires queue != multiset{}
    ensures e in queue && forall f | f in queue :: Before(e, f)
    decreases |queue|
  {
    e :| e in queue;
    var rest := queue - multiset{e};
    if rest != multiset{} {
      var d := HasFirst(rest);
      var first := if Before(d, e) then d else e;
      assert forall f | f in queue :: f == e || f in rest;
      e := first;
    }
  }

  /** Taking the least entry off the heap. */
  method PopFirst(queue: multiset<Entry>) returns (e: Entry, rest: multiset<Entry>)
    requires queue != multiset{}
    ensures e in queue && rest == queue - multiset{e}
    ensures forall f | f in queue :: Before(e, f)
  {
    ghost var first := HasFirst(queue);
    e :| e in queue && forall f | f in queue :: Before(e, f);
    rest := queue - multiset{e};
  }

  /** An arc relaxed within the checked cost domain. */
  predicate ArcRelaxed(c: CchStructure, n: nat, costs: seq<Cost>, dist: seq<Cost>, a: nat)
    requires |dist| == n && a < |c.upHead| && a < |c.upTail| && a < |costs|
  {
    && c.upTail[a] < n && c.upHead[a] < n
    && dist[c.upHead[a]] <= Plus(dist[c.upTail[a]], costs[a])
    && Add(dist[c.upTail[a]], costs[a]).Ok?
  }

  /** Parents are tight and lie among the settled ranks. */
  ghost predicate Tree(c: CchStructure, n: nat, costs: seq<Cost>, s: nat, dist: seq<Cost>, parent: seq<Option<nat>>,
                       settled: set<nat>)
    requires |c.upTail| == |c.upHead|
  {
    && |dist| == n && |parent| == n && s < n && dist[s] == 0
    && forall r: nat | r < n ::
         && ParentOk(c, n, costs, s, dist, parent[r], r)
         && (parent[r].Some? ==> parent[r].value < |c.upTail| && c.upTail[parent[r].value] in settled)
  }

  /** The arcs of the settled ranks are relaxed, those of `open` only below `from`. */
  ghost predicate Closed(c: CchStructure, n: nat, costs: seq<Cost>, dist: seq<Cost>, settled: set<nat>, open: nat,
                         from: nat)
    requires |c.upTail| == |c.upHead|
  {
    && |dist| == n && |costs| == |c.upHead|
    && forall a: nat | a < |c.upHead| && c.upTail[a] in settled && (c.upTail[a] == open ==> a < from) ::
         ArcRelaxed(c, n, costs, dist, a)
  }

  /** The heap holds one current entry for every reached rank that is not
      settled; all else in it is stale, and nothing in it undercuts a settled
      rank. */
  ghost predicate Heap(n: nat, dist: seq<Cost>, queue: multiset<Entry>, settled: set<nat>) {
    && |dist| == n
    && (forall r | r in settled :: r < n && dist[r] < INFINITE_COST && (dist[r], r) !in queue)
    && (forall e | e in queue :: e.1 < n && dist[e.1] <= e.0 < INFINITE_COST && queue[e] == 1)
    && (forall r: nat | r < n && r !in settled && dist[r] < INFINITE_COST :: (dist[r], r) in queue)
    && forall r, e | r in settled && e in queue :: dist[r] <= e.0
  }

  /** The search between two queue operations. */
  ghost predicate Searching(c: CchStructure, n: nat, costs: seq<Cost>, s: nat, dist: seq<Cost>,
                            parent: seq<Option<nat>>,
                            queue: multiset<Entry>, settled: set<nat>, open: nat, from: nat)
  {
    && c.Valid(n) && Tree(c, n, costs, s, dist, parent, settled)
    && Closed(c, n, costs, dist, settled, open, from) && Heap(n, dist, queue, settled)
  }

  lemma StartsSearching(c: CchStructure, n: nat, costs: seq<Cost>, s: nat, dist: seq<Cost>, parent: seq<Option<nat>>)
    requires c.Valid(n) && |costs| == |c.upHead| && s < n && |dist| == n && |parent| == n
    requires forall r: nat | r < n :: dist[r] == (if r == s then 0 else INFINITE_COST) && parent[r] == None
    ensures Searching(c, n, costs, s, dist, parent, multiset{(0, s)}, {}, n, 0)
  {
  }

  lemma Stale(n: nat, dist: seq<Cost>, queue: multiset<Entry>, settled: set<nat>, e: Entry)
    requires Heap(n, dist, queue, settled) && e in queue && e.0 != dist[e.1]
    ensures Heap(n, dist, queue - multiset{e}, settled)
  {
  }

  /** The least entry, if current, settles a new rank. */
  lemma Settle(c: CchStructure, n: nat, costs: seq<Cost>, s: nat, dist: seq<Cost>, parent: seq<Option<nat>>,
               queue: multiset<Entry>, settled: set<nat>, e: Entry)
    requires Searching(c, n, costs, s, dist, parent, queue, settled, n, 0)
    requires e in queue && e.0 == dist[e.1] && forall f | f in queue :: Before(e, f)
    ensures e.1 !in settled && e.1 < n
    ensures Searching(c, n, costs, s, dist, parent, queue - multiset{e}, settled + {e.1}, e.1, c.upFirstOut[e.1])
    ensures forall r | r in settled + {e.1} :: dist[r] <= e.0
  {
    forall a: nat | a < |c.upHead| && c.upTail[a] in settled + {e.1} && (c.upTail[a] == e.1 ==> a < c.upFirstOut[e.1])
      ensures ArcRelaxed(c, n, costs, dist, a)
    {
      ArcBucket(c, n, a);
    }
  }

  lemma SettleDone(c: CchStructure, n: nat, costs: seq<Cost>, dist: seq<Cost>, settled: set<nat>, u: nat)
    requires u < n && c.Valid(n) && Closed(c, n, costs, dist, settled, u, c.upFirstOut[u + 1])
    ensures Closed(c, n, costs, dist, settled, n, 0)
  {
    forall a: nat | a < |c.upHead| && c.upTail[a] in settled
      ensures ArcRelaxed(c, n, costs, dist, a)
    {
      ArcBucket(c, n, a);
    }
  }

  lemma ImprovedHeap(n: nat, dist: seq<Cost>, queue: multiset<Entry>, settled: set<nat>, h: nat, next: Cost)
    requires Heap(n, dist, queue, settled) && h < n && next < dist[h]
    requires forall r | r in settled :: dist[r] <= next
    ensures h !in settled
    ensures Heap(n, dist[h := next], queue + multiset{(next, h)}, settled)
  {
    var e: Entry := (next, h);
    var dist', queue' := dist[h := next], queue + multiset{e};
    assert e !in queue;
    forall f | f in queue'
      ensures f.1 < n && dist'[f.1] <= f.0 < INFINITE_COST && queue'[f] == 1
    {
      assert f == e || f in queue;
    }
  }

  lemma ImprovedTree(c: CchStructure, n: nat, costs: seq<Cost>, s: nat, dist: seq<Cost>, parent: seq<Option<nat>>,
                     settled: set<nat>, a: nat, next: Cost)
    requires |c.upTail| == |c.upHead| && Tree(c, n, costs, s, dist, parent, settled)
    requires a < |c.upHead| && a < |costs| && c.upTail[a] < n && c.upTail[a] in settled
    requires c.upHead[a] < n && c.upHead[a] !in settled
    requires Plus(dist[c.upTail[a]], costs[a]) == next < dist[c.upHead[a]]
    ensures Tree(c, n, costs, s, dist[c.upHead[a] := next], parent[c.upHead[a] := Some(a)], settled)
  {
    var h := c.upHead[a];
    var dist', parent' := dist[h := next], parent[h := Some(a)];
    forall r: nat | r < n
      ensures ParentOk(c, n, costs, s, dist', parent'[r], r)
    {
      assert ParentOk(c, n, costs, s, dist, parent[r], r);
    }
  }

  lemma ImprovedClosed(c: CchStructure, n: nat, costs: seq<Cost>, dist: seq<Cost>, settled: set<nat>, u: nat, a: nat,
                       next: Cost)
    requires |c.upTail| == |c.upHead| && Closed(c, n, costs, dist, settled, u, a)
    requires a < |c.upHead| && c.upTail[a] == u && u < n && c.upHead[a] < n && c.upHead[a] !in settled
    requires u in settled && Add(dist[u], costs[a]) == Ok(next) && next <= dist[c.upHead[a]]
    ensures Closed(c, n, costs, dist[c.upHead[a] := next], settled, u, a + 1)
  {
    var dist' := dist[c.upHead[a] := next];
    forall i: nat | i < |c.upHead| && c.upTail[i] in settled && (c.upTail[i] == u ==> i < a + 1)
      ensures ArcRelaxed(c, n, costs, dist', i)
    {
      assert i == a || ArcRelaxed(c, n, costs, dist, i);
    }
  }

  /** Dijkstra's argument: a path to r either costs at least the least heap
      entry, or r is settled at no more than the path's cost. */
  lemma {:induction false} PathOrHeap(c: CchStructure, n: nat, costs: seq<Cost>, s: nat, dist: seq<Cost>,
                                      parent: seq<Option<nat>>, queue: multiset<Entry>, settled: set<nat>, k: Cost,
                                      q: seq<nat>, r: nat)
    requires Searching(c, n, costs, s, dist, parent, queue, settled, n, 0)
    requires forall e | e in queue :: k <= e.0
    requires UpPath(c, s, q, r)
    ensures k <= UpCost(costs, q) || (r in settled && dist[r] <= UpCost(costs, q))
  {
    if q != [] {
      var a := q[|q| - 1];
      PathOrHeap(c, n, costs, s, dist, parent, queue, settled, k, q[..|q| - 1], c.upTail[a]);
      ArcBucket(c, n, a);
    }
  }

  /** Following parents back to the source gives a path of the exact distance. */
  lemma {:induction false} ParentPath(c: CchStructure, n: nat, costs: seq<Cost>, s: nat, dist: seq<Cost>,
                                      parent: seq<Option<nat>>, settled: set<nat>, r: nat) returns (q: seq<nat>)
    requires c.Valid(n) && Tree(c, n, costs, s, dist, parent, settled) && r < n && dist[r] < INFINITE_COST
    ensures UpPath(c, s, q, r) && UpCost(costs, q) == dist[r]
    decreases r
  {
    if r == s {
      q := [];
    } else {
      assert ParentOk(c, n, costs, s, dist, parent[r], r);
      var a := parent[r].value;
      ArcBucket(c, n, a);
      q := ParentPath(c, n, costs, s, dist, parent, settled, c.upTail[a]);
      q := q + [a];
      assert q[..|q| - 1] + [a] == q;
    }
  }

  /** Whatever is at or below the heap's least entry is final. */
  lemma FinalBelow(c: CchStructure, n: nat, costs: seq<Cost>, s: nat, dist: seq<Cost>, parent: seq<Option<nat>>,
                   queue: multiset<Entry>, settled: set<nat>, k: Cost, r: nat)
    requires Searching(c, n, costs, s, dist, parent, queue, settled, n, 0)
    requires (forall e | e in queue :: k <= e.0) && r < n && dist[r] <= k
    ensures ShortestUp(c, costs, s, r, dist[r])
  {
    forall q | UpPath(c, s, q, r)
      ensures dist[r] <= UpCost(costs, q)
    {
      PathOrHeap(c, n, costs, s, dist, parent, queue, settled, k, q, r);
    }
    if dist[r] < INFINITE_COST {
      var q := ParentPath(c, n, costs, s, dist, parent, settled, r);
      assert UpPathCosting(c, costs, s, q, r, dist[r]);
    }
  }

  lemma ShortestUnique(c: CchStructure, costs: seq<Cost>, s: nat, r: nat, d: Cost, e: Cost)
    requires |c.upTail| == |c.upHead|
    requires ShortestUp(c, costs, s, r, d) && ShortestUp(c, costs, s, r, e)
    ensures d == e
  {
    if d < INFINITE_COST {
      var q :| UpPathCosting(c, costs, s, q, r, d);
    }
    if e < INFINITE_COST {
      var q :| UpPathCosting(c, costs, s, q, r, e);
    }
  }

  /** An empty heap means that the search is complete. */
  lemma Finished(c: CchStructure, n: nat, costs: seq<Cost>, s: nat, dist: seq<Cost>, parent: seq<Option<nat>>,
                 settled: set<nat>)
    requires Searching(c, n, costs, s, dist, parent, multiset{}, settled, n, 0)
    ensures Searched(c, n, costs, s, dist, parent) && !SearchOverflows(c, costs, s)
  {
    forall r: nat | r < n
      ensures ShortestUp(c, costs, s, r, dist[r])
    {
      FinalBelow(c, n, costs, s, dist, parent, multiset{}, settled, INFINITE_COST, r);
    }
    forall a: nat, d: Cost | a < |costs| && d < INFINITE_COST && ShortestUp(c, costs, s, c.upTail[a], d)
      ensures costs[a] == INFINITE_COST || Plus(d, costs[a]) < INFINITE_COST
    {
      ArcBucket(c, n, a);
      ShortestUnique(c, costs, s, c.upTail[a], d, dist[c.upTail[a]]);
      assert c.upTail[a] in settled;
      assert ArcRelaxed(c, n, costs, dist, a);
    }
  }

  /** A rank is being settled at its final cost: the arcs behind it below
      index `from` are relaxed. */
  ghost predicate Settling(c: CchStructure, n: nat, costs: seq<Cost>, s: nat, dist: seq<Cost>, parent: seq<Option<nat>>,
                           queue: multiset<Entry>, settled: set<nat>, u: nat, cost: Cost, from: nat)
  {
    && c.Valid(n) && u < n && u in settled && c.upFirstOut[u] <= from <= c.upFirstOut[u + 1]
    && Searching(c, n, costs, s, dist, parent, queue, settled, u, from)
    && dist[u] == cost && (forall r | r in settled :: dist[r] <= cost)
    && ShortestUp(c, costs, s, u, cost)
  }

  lemma StartsSettling(c: CchStructure, n: nat, costs: seq<Cost>, s: nat, dist: seq<Cost>, parent: seq<Option<nat>>,
                       queue: multiset<Entry>, settled: set<nat>, e: Entry)
    requires Searching(c, n, costs, s, dist, parent, queue, settled, n, 0)
    requires e in queue && e.0 == dist[e.1] && forall f | f in queue :: Before(e, f)
    ensures e.1 !in settled && e.1 < n
    ensures Settling(c, n, costs, s, dist, parent, queue - multiset{e}, settled + {e.1}, e.1, e.0, c.upFirstOut[e.1])
  {
    Settle(c, n, costs, s, dist, parent, queue, settled, e);
    FinalBelow(c, n, costs, s, dist, parent, queue, settled, e.0, e.1);
  }

  lemma SettlingArc(c: CchStructure, n: nat, costs: seq<Cost>, s: nat, dist: seq<Cost>, parent: seq<Option<nat>>,
                    queue: multiset<Entry>, settled: set<nat>, u: nat, cost: Cost, a: nat)
    requires Settling(c, n, costs, s, dist, parent, queue, settled, u, cost, a) && a < c.upFirstOut[u + 1]
    ensures a < |costs| && c.upHead[a] < n && c.upTail[a] == u
    ensures Add(cost, costs[a]).Err? ==> SearchOverflows(c, costs, s)
    ensures Add(cost, costs[a]).Ok? ==>
              var h, next := c.upHead[a], Add(cost, costs[a]).value;
              if next < dist[h] then
                Settling(c, n, costs, s, dist[h := next], parent[h := Some(a)], queue + multiset{(next, h)}, settled, u,
                         cost, a + 1)
              else Settling(c, n, costs, s, dist, parent, queue, settled, u, cost, a + 1)
  {
    assert c.ValidBucket(n, u);
    if Add(cost, costs[a]).Ok? {
      var h, next := c.upHead[a], Add(cost, costs[a]).value;
      if next < dist[h] {
        ImprovedHeap(n, dist, queue, settled, h, next);
        ImprovedTree(c, n, costs, s, dist, parent, settled, a, next);
        ImprovedClosed(c, n, costs, dist, settled, u, a, next);
      } else {
        NotImproved(c, n, costs, dist, settled, u, a);
      }
    }
  }

  lemma NotImproved(c: CchStructure, n: nat, costs: seq<Cost>, dist: seq<Cost>, settled: set<nat>, u: nat, a: nat)
    requires |c.upTail| == |c.upHead| && Closed(c, n, costs, dist, settled, u, a)
    requires a < |c.upHead| && c.upTail[a] == u && u < n && c.upHead[a] < n
    requires Add(dist[u], costs[a]).Ok? && dist[c.upHead[a]] <= Add(dist[u], costs[a]).value
    ensures Closed(c, n, costs, dist, settled, u, a + 1)
  {
  }

  lemma Settled(c: CchStructure, n: nat, costs: seq<Cost>, s: nat, dist: seq<Cost>, parent: seq<Option<nat>>,
                queue: multiset<Entry>, settled: set<nat>, u: nat, cost: Cost)
    requires c.Valid(n) && u < n
    requires Settling(c, n, costs, s, dist, parent, queue, settled, u, cost, c.upFirstOut[u + 1])
    ensures Searching(c, n, costs, s, dist, parent, queue, settled, n, 0)
  {
    SettleDone(c, n, costs, dist, settled, u);
  }

  /** The arcs behind a rank that has just been popped. */
  method RelaxArcs(c: CchStructure, ghost n: nat, costs: seq<Cost>, ghost s: nat, distance: array<Cost>,
                   parent: array<Option<nat>>, queue: multiset<Entry>, ghost settled: set<nat>, node: nat, cost: Cost)
      returns (r: Result<multiset<Entry>>)
    requires c.Valid(n) && node < n
    requires Settling(c, n, costs, s, distance[..], parent[..], queue, settled, node, cost, c.upFirstOut[node])
    modifies distance, parent
    ensures r.Err? ==> r.error == CostOverflow && SearchOverflows(c, costs, s)
    ensures r.Ok? ==> Searching(c, n, costs, s, distance[..], parent[..], r.value, settled, n, 0)
  {
    var open := queue;
    var start, end := c.upFirstOut[node], c.upFirstOut[node + 1];
    for a := start to end
      invariant Settling(c, n, costs, s, distance[..], parent[..], open, settled, node, cost, a)
    {
      SettlingArc(c, n, costs, s, distance[..], parent[..], open, settled, node, cost, a);
      var next :- Add(cost, costs[a]);
      var head := c.upHead[a];
      if next < distance[head] {
        Record(distance, parent, head, next, a);
        open := open + multiset{(next, head)};
      }
    }
    Settled(c, n, costs, s, distance[..], parent[..], open, settled, node, cost);
    return Ok(open);
  }

  method Record(distance: array<Cost>, parent: array<Option<nat>>, head: nat, next: Cost, a: nat)
    requires head < distance.Length && head < parent.Length
    modifies distance, parent
    ensures distance[..] == old(distance[..])[head := next]
    ensures parent[..] == old(parent[..])[head := Some(a)]
  {
    distance[head] := next;
    parent[head] := Some(a);
  }

  /** One round of the search: a stale entry is dropped, a current one settles
      its rank. */
  method ProcessFirst(c: CchStructure, ghost n: nat, costs: seq<Cost>, ghost s: nat, distance: array<Cost>,
                      parent: array<Option<nat>>, queue: multiset<Entry>, ghost settled: set<nat>)
      returns (r: Result<multiset<Entry>>, ghost settled': set<nat>)
    requires queue != multiset{}
    requires Searching(c, n, costs, s, distance[..], parent[..], queue, settled, n, 0)
    modifies distance, parent
    ensures r.Err? ==> r.error == CostOverflow && SearchOverflows(c, costs, s)
    ensures r.Ok? ==> Searching(c, n, costs, s, distance[..], parent[..], r.value, settled', n, 0)
    ensures r.Ok? ==> (settled' == settled && |r.value| < |queue|)
                      || exists u: nat :: u < n && u !in settled && settled' == settled + {u}
  {
    var e, rest := PopFirst(queue);
    var (cost, node) := e;
    settled' := settled;
    if cost != distance[node] {
      Stale(n, distance[..], queue, settled, e);
      return Ok(rest), settled;
    }
    StartsSettling(c, n, costs, s, distance[..], parent[..], queue, settled, e);
    settled' := settled + {node};
    r := RelaxArcs(c, n, costs, s, distance, parent, rest, settled', node, cost);
  }

  method NewSearch(n: nat, source: nat) returns (distance: array<Cost>, parent: array<Option<nat>>)
    requires source < n
    ensures fresh(distance) && fresh(parent) && distance.Length == n && parent.Length == n
    ensures forall r: nat | r < n :: distance[r] == (if r == source then 0 else INFINITE_COST) && parent[r] == None
  {
    distance := new Cost[n](_ => INFINITE_COST);
    parent := new Option<nat>[n](_ => None);
    distance[source] := 0;
  }

  /** The search succeeds exactly when no arc behind a reached rank leaves the
      cost domain, and then knows every shortest upward distance. Each rank is
      settled at most once: the measure counts unsettled ranks before heap
      entries. */
  method UpwardSearch(c: CchStructure, ghost n: nat, costs: seq<Cost>, source: nat)
      returns (r: Result<(seq<Cost>, seq<Option<nat>>)>)
    requires c.Valid(n) && |costs| == |c.upHead| && source < n
    ensures r.Ok? <==> !SearchOverflows(c, costs, source)
    ensures r.Ok? ==> Searched(c, n, costs, source, r.value.0, r.value.1)
    ensures r.Err? ==> r.error == CostOverflow
  {
    var distance, parent := NewSearch(|c.rank|, source);
    var queue: multiset<Entry> := multiset{(0, source)};
    ghost var settled: set<nat> := {};
    StartsSearching(c, n, costs, source, distance[..], parent[..]);
    while queue != multiset{}
      invariant fresh(distance) && fresh(parent)
      invariant Searching(c, n, costs, source, distance[..], parent[..], queue, settled, n, 0)
      decreases Below(n) - settled, |queue|
    {
      var step;
      step, settled := ProcessFirst(c, n, costs, source, distance, parent, queue, settled);
      queue :- step;
    }
    Finished(c, n, costs, source, distance[..], parent[..], settled);
    return Ok((distance[..], parent[..]));
  }
}
