/** The bidirectional query: two upward searches, the best meeting rank, and
    the arcs that lead over it. */
module Query {
  import opened Common
  import opened Costs
  import opened Cch
  import opened Weights
  import opened Search

  datatype QueryArc = QueryArc(index: nat, forward: bool)

  /** The climb from the source, in travel order. */
  function Ups(q: seq<nat>): seq<QueryArc> {
    seq(|q|, i requires 0 <= i < |q| => QueryArc(q[i], true))
  }

  /** The climb from the target, travelled backwards. */
  function Downs(q: seq<nat>): seq<QueryArc> {
    seq(|q|, i requires 0 <= i < |q| => QueryArc(q[|q| - 1 - i], false))
  }

  function Reversed<T>(s: seq<T>): seq<T> {
    seq(|s|, i requires 0 <= i < |s| => s[|s| - 1 - i])
  }

  /** An up-down path from s over the meeting rank m to t. */
  predicate UpDown(c: CchStructure, s: nat, t: nat, m: nat, up: seq<nat>, down: seq<nat>)
    requires |c.upTail| == |c.upHead|
  {
    UpPath(c, s, up, m) && UpPath(c, t, down, m)
  }

  function UpDownCost(w: CchWeights, up: seq<nat>, down: seq<nat>): nat {
    UpCost(w.forward, up) + UpCost(w.backward, down)
  }

  /** Two searches meet in m at the given distances. */
  ghost predicate Meets(c: CchStructure, w: CchWeights, s: nat, t: nat, m: nat, d: Cost, e: Cost)
    requires |c.upTail| == |c.upHead|
  {
    ShortestUp(c, w.forward, s, m, d) && ShortestUp(c, w.backward, t, m, e)
  }

  ghost predicate MeetingOverflows(c: CchStructure, n: nat, w: CchWeights, s: nat, t: nat)
    requires |c.upTail| == |c.upHead|
  {
    exists m: nat, d: Cost, e: Cost ::
      m < n && Meets(c, w, s, t, m, d, e) && d < INFINITE_COST && e < INFINITE_COST && Plus(d, e) >= INFINITE_COST
  }

  /** What makes a query report an overflow. */
  ghost predicate QueryOverflows(c: CchStructure, n: nat, w: CchWeights, s: nat, t: nat)
    requires |c.upTail| == |c.upHead| == |w.forward| == |w.backward|
  {
    SearchOverflows(c, w.forward, s) || SearchOverflows(c, w.backward, t) || MeetingOverflows(c, n, w, s, t)
  }

  /** No meeting is cheaper, and none as cheap lies at a lower rank. */
  ghost predicate BestMeeting(c: CchStructure, n: nat, w: CchWeights, s: nat, t: nat, m: nat, cost: Cost)
    requires |c.upTail| == |c.upHead|
  {
    && m < n && cost < INFINITE_COST
    && (exists d: Cost, e: Cost :: Meets(c, w, s, t, m, d, e) && Plus(d, e) == cost)
    && forall r: nat, d: Cost, e: Cost | r < n && Meets(c, w, s, t, r, d, e) ::
         cost < Plus(d, e) || (cost == Plus(d, e) && m <= r)
  }

  ghost predicate NoMeeting(c: CchStructure, n: nat, w: CchWeights, s: nat, t: nat)
    requires |c.upTail| == |c.upHead|
  {
    forall r: nat, d: Cost, e: Cost | r < n && Meets(c, w, s, t, r, d, e) :: d == INFINITE_COST || e == INFINITE_COST
  }

  /** The best meeting of two finished searches. */
  method ChooseMeeting(c: CchStructure, ghost n: nat, ghost w: CchWeights, ghost s: nat, ghost t: nat,
                       fdist: seq<Cost>, bdist: seq<Cost>)
      returns (r: Result<Option<(nat, Cost)>>)
    requires c.Valid(n) && |fdist| == n && |bdist| == n
    requires forall m: nat | m < n :: Meets(c, w, s, t, m, fdist[m], bdist[m])
    ensures r.Err? <==> MeetingOverflows(c, n, w, s, t)
    ensures r.Err? ==> r.error == CostOverflow
    ensures r.Ok? ==> match r.value
                      case None => NoMeeting(c, n, w, s, t)
                      case Some((m, cost)) => BestMeeting(c, n, w, s, t, m, cost)
  {
    var best: Option<(nat, Cost)> := None;
    for rank := 0 to |fdist|
      invariant forall r: nat | r < rank :: Add(fdist[r], bdist[r]).Ok?
      invariant best.None? ==> forall r: nat | r < rank :: fdist[r] == INFINITE_COST || bdist[r] == INFINITE_COST
      invariant best.Some? ==>
                  var (m, cost) := best.value;
                  m < rank && cost < INFINITE_COST && Plus(fdist[m], bdist[m]) == cost &&
                  forall r: nat | r < rank ::
                    cost < Plus(fdist[r], bdist[r]) || (cost == Plus(fdist[r], bdist[r]) && m <= r)
    {
      assert Meets(c, w, s, t, rank, fdist[rank], bdist[rank]);
      var total :- Add(fdist[rank], bdist[rank]);
      if total != INFINITE_COST {
        match best {
          case None =>
            best := Some((rank, total));
          case Some((bestRank, bestCost)) =>
            if total < bestCost || (total == bestCost && rank < bestRank) {
              best := Some((rank, total));
            }
        }
      }
    }
    MeetingUnique(c, n, w, s, t, fdist, bdist);
    return Ok(best);
  }

  lemma MeetingUnique(c: CchStructure, n: nat, w: CchWeights, s: nat, t: nat, fdist: seq<Cost>, bdist: seq<Cost>)
    requires |c.upTail| == |c.upHead| && |fdist| == n && |bdist| == n
    requires forall m: nat | m < n :: Meets(c, w, s, t, m, fdist[m], bdist[m])
    ensures forall m: nat, d: Cost, e: Cost | m < n && Meets(c, w, s, t, m, d, e) :: d == fdist[m] && e == bdist[m]
  {
    forall m: nat, d: Cost, e: Cost | m < n && Meets(c, w, s, t, m, d, e)
      ensures d == fdist[m] && e == bdist[m]
    {
      assert Meets(c, w, s, t, m, fdist[m], bdist[m]);
      ShortestUnique(c, w.forward, s, m, d, fdist[m]);
      ShortestUnique(c, w.backward, t, m, e, bdist[m]);
    }
  }

  lemma {:induction false} UpPrepend(c: CchStructure, costs: seq<Cost>, a: nat, q: seq<nat>, r: nat)
    requires |c.upTail| == |c.upHead| == |costs| && a < |c.upHead| && UpPath(c, c.upHead[a], q, r)
    ensures UpPath(c, c.upTail[a], [a] + q, r)
    ensures UpCost(costs, [a] + q) == Plus(costs[a], UpCost(costs, q))
  {
    if q == [] {
      assert [a] + q == [a] && [a][..0] == [];
    } else {
      var z := q[|q| - 1];
      UpPrepend(c, costs, a, q[..|q| - 1], c.upTail[z]);
      assert ([a] + q)[..|[a] + q| - 1] == [a] + q[..|q| - 1];
    }
  }

  /** Walking parents back from the meeting rank collects the climb from the
      source, last arc first. The missing-parent exit is never taken. */
  method ClimbBack(c: CchStructure, ghost n: nat, ghost costs: seq<Cost>, dist: seq<Cost>, parent: seq<Option<nat>>,
                   source: nat, meeting: nat, forward: bool)
      returns (arcs: seq<QueryArc>, ghost q: seq<nat>)
    requires c.Valid(n) && |costs| == |c.upHead| && source < n && meeting < n
    requires Searched(c, n, costs, source, dist, parent) && dist[meeting] < INFINITE_COST
    ensures UpPath(c, source, q, meeting) && UpCost(costs, q) == dist[meeting]
    ensures arcs == seq(|q|, i requires 0 <= i < |q| => QueryArc(q[|q| - 1 - i], forward))
  {
    arcs, q := [], [];
    var current: nat := meeting;
    while current != source
      invariant current < n && dist[current] < INFINITE_COST
      invariant UpPath(c, current, q, meeting) && Plus(dist[current], UpCost(costs, q)) == dist[meeting]
      invariant arcs == seq(|q|, i requires 0 <= i < |q| => QueryArc(q[|q| - 1 - i], forward))
      decreases current
    {
      assert ParentOk(c, n, costs, source, dist, parent[current], current);
      var arc := parent[current].value;
      ArcBucket(c, n, arc);
      UpPrepend(c, costs, arc, q, meeting);
      arcs := arcs + [QueryArc(arc, forward)];
      q := [arc] + q;
      current := c.upTail[arc];
    }
    SourceZero(c, costs, source, dist[source]);
  }

  lemma SourceZero(c: CchStructure, costs: seq<Cost>, s: nat, d: Cost)
    requires |c.upTail| == |c.upHead| && ShortestUp(c, costs, s, s, d)
    ensures d == 0
  {
    assert UpPath(c, s, [], s);
  }

  /** An answer: the best meeting's cost, and an up-down path over it of
      exactly that cost. */
  ghost predicate Answer(c: CchStructure, n: nat, w: CchWeights, s: nat, t: nat, cost: Cost, path: seq<QueryArc>)
    requires |c.upTail| == |c.upHead|
  {
    exists m, up, down ::
      && BestMeeting(c, n, w, s, t, m, cost)
      && UpDown(c, s, t, m, up, down) && UpDownCost(w, up, down) == cost
      && path == Ups(up) + Downs(down)
  }

  /** The query over ranks s and t of two different nodes. */
  method QueryRanks(c: CchStructure, ghost n: nat, w: CchWeights, s: nat, t: nat)
      returns (r: Result<Option<(Cost, seq<QueryArc>)>>)
    requires c.Valid(n) && w.Sized(c.ArcCount()) && s < n && t < n
    ensures r.Err? <==> QueryOverflows(c, n, w, s, t)
    ensures r.Err? ==> r.error == CostOverflow
    ensures r.Ok? ==> match r.value
                      case None => NoMeeting(c, n, w, s, t)
                      case Some((cost, path)) => Answer(c, n, w, s, t, cost, path)
  {
    var fromSource :- UpwardSearch(c, n, w.forward, s);
    var fromTarget :- UpwardSearch(c, n, w.backward, t);
    var (fdist, fparent) := fromSource;
    var (bdist, bparent) := fromTarget;
    var best :- ChooseMeeting(c, n, w, s, t, fdist, bdist);
    if best.None? {
      return Ok(None);
    }
    var (meeting, cost) := best.value;
    assert Meets(c, w, s, t, meeting, fdist[meeting], bdist[meeting]);
    var ups, up := ClimbBack(c, n, w.forward, fdist, fparent, s, meeting, true);
    var downs, down := ClimbBack(c, n, w.backward, bdist, bparent, t, meeting, false);
    assert Reversed(ups) == Ups(up);
    assert downs == Downs(down);
    assert UpDown(c, s, t, meeting, up, down);
    return Ok(Some((cost, Reversed(ups) + downs)));
  }

  /** What a query between two nodes returns. */
  ghost predicate QueryResult(c: CchStructure, n: nat, w: CchWeights, source: nat, target: nat,
                              r: Result<Option<(Cost, seq<QueryArc>)>>)
    requires c.Valid(n) && w.Sized(c.ArcCount()) && source < n && target < n
  {
    var s, t := c.rank[source], c.rank[target];
    if source == target then r == Ok(Some((0, [])))
    else
      && (r.Err? <==> QueryOverflows(c, n, w, s, t))
      && match r
         case Err(error) => error == CostOverflow
         case Ok(None) => NoMeeting(c, n, w, s, t)
         case Ok(Some((cost, path))) => Answer(c, n, w, s, t, cost, path)
  }

  /** The query between two nodes. */
  method QueryNodes(c: CchStructure, ghost n: nat, w: CchWeights, source: nat, target: nat)
      returns (r: Result<Option<(Cost, seq<QueryArc>)>>)
    requires c.Valid(n) && w.Sized(c.ArcCount()) && source < n && target < n
    ensures QueryResult(c, n, w, source, target, r)
  {
    if source == target {
      return Ok(Some((0, [])));
    }
    r := QueryRanks(c, n, w, c.rank[source], c.rank[target]);
  }
}
