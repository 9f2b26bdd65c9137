/** Routing over a loaded pack, from node to node and through many controls. */
module Router {
  import opened Common
  import opened Costs
  import opened Walks
  import opened LowWalks
  import opened Cch
  import opened Fill
  import opened Weights
  import opened Customize
  import opened Query
  import opened Unpack
  import opened Optimality
  import opened Bounds
  import opened QueryBounds
  import opened Pack

  datatype Coordinate = Coordinate(lat: real, lng: real)

  /** The distance between two coordinates, in metres. */
  type Distance = (Coordinate, Coordinate) -> real

  datatype Metrics = Metrics(distanceM: nat, elevationGainM: nat, elevationLossM: nat)

  datatype Route = Route(totalWeight: nat, geometry: seq<GraphNode>, metrics: Metrics)

  datatype MultiRoute = MultiRoute(
    controlCount: nat,
    closedLoop: bool,
    legs: seq<Route>,
    geometry: seq<GraphNode>,
    totalWeight: nat,
    metrics: Metrics)

  /** The same walk seen in rank space. */
  lemma {:induction false} CostInRankSpace(arcs: seq<PackArc>, rank: seq<nat>, p: seq<nat>)
    requires (forall a | a in arcs :: a.from < |rank| && a.to < |rank|) && InRange(arcs, p)
    ensures WalkCost(Ranked(arcs, rank), p) == WalkCost(arcs, p)
  {
    if p != [] {
      CostInRankSpace(arcs, rank, p[..|p| - 1]);
    }
  }

  lemma WalkToRanks(arcs: seq<PackArc>, n: nat, rank: seq<nat>, v: seq<nat>, p: seq<nat>) returns (u: seq<nat>)
    requires (forall a | a in arcs :: a.from < n && a.to < n) && Permutation(n, rank)
    requires IsWalk(arcs, v, p) && AllBelow(v, n)
    ensures IsWalk(Ranked(arcs, rank), u, p) && AllBelow(u, n)
    ensures u[0] == rank[v[0]] && u[|u| - 1] == rank[v[|v| - 1]]
    ensures WalkCost(Ranked(arcs, rank), p) == WalkCost(arcs, p)
  {
    u := seq(|v|, i requires 0 <= i < |v| => rank[v[i]]);
    CostInRankSpace(arcs, rank, p);
  }

  lemma WalkToNodes(arcs: seq<PackArc>, n: nat, c: CchStructure, u: seq<nat>, p: seq<nat>) returns (v: seq<nat>)
    requires (forall a | a in arcs :: a.from < n && a.to < n) && c.Valid(n)
    requires IsWalk(Ranked(arcs, c.rank), u, p) && AllBelow(u, n)
    ensures IsWalk(arcs, v, p) && AllBelow(v, n)
    ensures v[0] == c.order[u[0]] && v[|v| - 1] == c.order[u[|u| - 1]]
    ensures WalkCost(arcs, p) == WalkCost(Ranked(arcs, c.rank), p)
  {
    v := seq(|u|, i requires 0 <= i < |u| => c.order[u[i]]);
    forall i | 0 <= i < |u|
      ensures v[i] < n
    {
      RankOfOrder(c, n, u[i]);
    }
    forall i | 0 <= i < |p|
      ensures arcs[p[i]].from == v[i] && arcs[p[i]].to == v[i + 1]
    {
      assert arcs[p[i]] in arcs;
    }
    CostInRankSpace(arcs, c.rank, p);
  }

  lemma WalkUnique(arcs: seq<PackArc>, v: seq<nat>, u: seq<nat>, p: seq<nat>)
    requires IsWalk(arcs, v, p) && IsWalk(arcs, u, p) && v[0] == u[0]
    ensures v == u
  {
    forall i | 0 <= i < |v|
      ensures v[i] == u[i]
    {
      if i > 0 {
        assert arcs[p[i - 1]].to == v[i] && arcs[p[i - 1]].to == u[i];
      }
    }
  }

  function Points(nodes: seq<GraphNode>, v: seq<nat>): (r: seq<GraphNode>)
    requires AllBelow(v, |nodes|)
    ensures |r| == |v| && forall i | 0 <= i < |v| :: r[i] == nodes[v[i]]
  {
    seq(|v|, i requires 0 <= i < |v| => nodes[v[i]])
  }

  /** The route follows the walk v over the original arcs p. */
  predicate Follows(d: DiskPack, source: nat, target: nat, route: Route, v: seq<nat>, p: seq<nat>) {
    && IsWalkBetween(d.arcs, v, p, source, target) && AllBelow(v, |d.nodes|)
    && WalkCost(d.arcs, p) == route.totalWeight
    && |route.geometry| == |v| && forall i | 0 <= i < |v| :: route.geometry[i] == d.nodes[v[i]]
  }

  ghost predicate NoCheaperWalk(d: DiskPack, source: nat, target: nat, cost: nat) {
    forall v, p | IsWalkBetween(d.arcs, v, p, source, target) :: cost <= WalkCost(d.arcs, p)
  }

  ghost predicate Reachable(d: DiskPack, source: nat, target: nat) {
    exists v, p :: IsWalkBetween(d.arcs, v, p, source, target)
  }

  /** A walk from a node of the pack stays among its nodes. */
  lemma WalkStays(d: DiskPack, v: seq<nat>, p: seq<nat>, source: nat, target: nat)
    requires ValidArcs(|d.nodes|, d.arcs) && IsWalkBetween(d.arcs, v, p, source, target) && source < |d.nodes|
    ensures AllBelow(v, |d.nodes|)
  {
    if |v| >= 2 {
      WalkInRange(|d.nodes|, d.arcs, v, p);
    }
  }

  /** An answer of the query is a walk between the nodes. */
  lemma AnswerNodes(d: DiskPack, source: nat, target: nat, cost: Cost, path: seq<QueryArc>) returns (v: seq<nat>)
    requires ValidPack(d) && source < |d.nodes| && target < |d.nodes|
    requires Answer(d.cch, |d.nodes|, d.weights, d.cch.rank[source], d.cch.rank[target], cost, path)
    ensures IndicesBelow(path, d.cch.ArcCount()) && FinitePath(d.weights, path)
    ensures var p := ExpandPath(d.cch, |d.nodes|, d.weights, d.arcs, path);
            IsWalkBetween(d.arcs, v, p, source, target) && AllBelow(v, |d.nodes|) && WalkCost(d.arcs, p) == cost
  {
    var n, c := |d.nodes|, d.cch;
    var g := Ranked(d.arcs, c.rank);
    var u := AnswerWalk(c, n, d.weights, d.arcs, g, c.rank[source], c.rank[target], cost, path);
    v := WalkToNodes(d.arcs, n, c, u, ExpandPath(c, n, d.weights, d.arcs, path));
  }

  /** On a built pack the answer is optimal. */
  lemma AnswerCheapest(d: DiskPack, source: nat, target: nat, cost: Cost, path: seq<QueryArc>)
    requires BuiltPack(d) && source < |d.nodes| && target < |d.nodes|
    requires Answer(d.cch, |d.nodes|, d.weights, d.cch.rank[source], d.cch.rank[target], cost, path)
    ensures NoCheaperWalk(d, source, target, cost)
  {
    var n, c := |d.nodes|, d.cch;
    forall v, p | IsWalkBetween(d.arcs, v, p, source, target)
      ensures cost <= WalkCost(d.arcs, p)
    {
      WalkStays(d, v, p, source, target);
      var u := WalkToRanks(d.arcs, n, c.rank, v, p);
      AnswerOptimal(c, n, d.weights, Ranked(d.arcs, c.rank), c.rank[source], c.rank[target], cost, path, u, p);
    }
  }

  /** On a built pack no meeting means no walk: a walk could be made simple, and
      a simple walk's cost is below the sentinel. */
  lemma NoMeetingUnreachable(d: DiskPack, source: nat, target: nat)
    requires ValidPack(d) && BuiltPack(d) && source < |d.nodes| && target < |d.nodes| && source != target
    requires NoMeeting(d.cch, |d.nodes|, d.weights, d.cch.rank[source], d.cch.rank[target])
    ensures !Reachable(d, source, target)
  {
    var n, c := |d.nodes|, d.cch;
    forall v, p
      ensures !IsWalkBetween(d.arcs, v, p, source, target)
    {
      if IsWalkBetween(d.arcs, v, p, source, target) {
        WalkStays(d, v, p, source, target);
        var v', p' := SimpleBelow(d.arcs, v, p, source, target, n - 1, MAX_PACK_ARC_WEIGHT);
        MulLe(n - 1, MAX_PACK_ARC_WEIGHT, MAX_PACK_ARC_WEIGHT);
        var u := WalkToRanks(d.arcs, n, c.rank, v', p');
        NoMeetingNoWalk(c, n, d.weights, Ranked(d.arcs, c.rank), c.rank[source], c.rank[target], u, p');
      }
    }
  }

  lemma NoOverflowWhenBuilt(d: DiskPack, source: nat, target: nat)
    requires ValidPack(d) && BuiltPack(d) && |d.nodes| <= SAFE_QUERY_NODES
    requires source < |d.nodes| && target < |d.nodes|
    ensures !QueryOverflows(d.cch, |d.nodes|, d.weights, d.cch.rank[source], d.cch.rank[target])
  {
    RankedProperties(|d.nodes|, d.arcs, d.cch.rank);
    NoQueryOverflow(d.cch, |d.nodes|, d.weights, Ranked(d.arcs, d.cch.rank), d.cch.rank[source], d.cch.rank[target]);
  }

  const WORD := 0x1_0000_0000_0000_0000

  function Saturate(x: nat): nat {
    if x < WORD then x else WORD - 1
  }

  /** Rounds to whole metres, in a 64-bit word. */
  function Metres(x: real): nat {
    if x < 0.0 then 0 else Saturate((x + 0.5).Floor)
  }

  function CoordinateOf(node: GraphNode): Coordinate {
    Coordinate(node.lat, node.lng)
  }

  function Length(points: seq<GraphNode>, between: Distance): real {
    if |points| < 2 then 0.0
    else
      Length(points[..|points| - 1], between)
      + between(CoordinateOf(points[|points| - 2]), CoordinateOf(points[|points| - 1]))
  }

  /** All ascents along the points, and all descents. */
  function Gain(points: seq<GraphNode>): nat {
    if |points| < 2 then 0
    else
      var step := points[|points| - 1].elevationM as int - points[|points| - 2].elevationM as int;
      Gain(points[..|points| - 1]) + if step >= 0 then step else 0
  }

  function Loss(points: seq<GraphNode>): nat {
    if |points| < 2 then 0
    else
      var step := points[|points| - 1].elevationM as int - points[|points| - 2].elevationM as int;
      Loss(points[..|points| - 1]) + if step >= 0 then 0 else -step
  }

  /** From one point to the next: what is measured along a longer geometry adds
      up from this. */
  lemma OneStepTotals(a: GraphNode, b: GraphNode, between: Distance)
    ensures Length([a, b], between) == between(Coordinate(a.lat, a.lng), Coordinate(b.lat, b.lng))
    ensures Gain([a, b]) == if a.elevationM < b.elevationM then b.elevationM as int - a.elevationM as int else 0
    ensures Loss([a, b]) == if b.elevationM < a.elevationM then a.elevationM as int - b.elevationM as int else 0
    ensures Length([a], between) == 0.0 && Gain([a]) == 0 && Loss([a]) == 0
  {
    assert [a, b][..1] == [a];
  }

  /** Ascents and descents balance to the difference of the ends. */
  lemma {:induction false} GainMinusLoss(points: seq<GraphNode>)
    requires points != []
    ensures Gain(points) - Loss(points) == points[|points| - 1].elevationM as int - points[0].elevationM as int
  {
    if |points| >= 2 {
      GainMinusLoss(points[..|points| - 1]);
    }
  }

  function MetricsOf(points: seq<GraphNode>, between: Distance): Metrics {
    Metrics(Metres(Length(points, between)), Saturate(Gain(points)), Saturate(Loss(points)))
  }

  /** Totals along a geometry; those of the elevation saturate. */
  method RouteMetrics(geometry: seq<GraphNode>, between: Distance) returns (m: Metrics)
    ensures m == MetricsOf(geometry, between)
    ensures m.elevationGainM == Gain(geometry) < 0x1_0000_0000_0000_0000
            || m.elevationGainM == 0xFFFF_FFFF_FFFF_FFFF < Gain(geometry)
    ensures m.elevationLossM == Loss(geometry) < 0x1_0000_0000_0000_0000
            || m.elevationLossM == 0xFFFF_FFFF_FFFF_FFFF < Loss(geometry)
  {
    var distance, gain: nat, loss: nat := 0.0, 0, 0;
    var i := 1;
    while i < |geometry|
      invariant 1 <= i && (i <= |geometry| || geometry == [])
      invariant distance == Length(if geometry == [] then [] else geometry[..i], between)
      invariant gain == Saturate(Gain(if geometry == [] then [] else geometry[..i]))
      invariant loss == Saturate(Loss(if geometry == [] then [] else geometry[..i]))
    {
      assert geometry[..i + 1][..i] == geometry[..i];
      distance := distance + between(CoordinateOf(geometry[i - 1]), CoordinateOf(geometry[i]));
      var delta := geometry[i].elevationM as int - geometry[i - 1].elevationM as int;
      if delta >= 0 {
        gain := Saturate(gain + delta);
      } else {
        loss := Saturate(loss - delta);
      }
      i := i + 1;
    }
    assert geometry[..|geometry|] == geometry;
    m := Metrics(Metres(distance), gain, loss);
  }

  /** From node to node. On every accepted pack a route is a connected walk of
      original arcs whose weights sum to its cost, and the connectivity and
      target checks never fire. On a built pack, up to SAFE_QUERY_NODES nodes,
      a route comes back exactly when there is one, and none is cheaper. */
  method RouteNodes(d: DiskPack, between: Distance, source: nat, target: nat)
      returns (r: Result<Route>, ghost v: seq<nat>, ghost p: seq<nat>)
    requires ValidPack(d) && source < |d.nodes| && target < |d.nodes|
    ensures r.Ok? ==> Follows(d, source, target, r.value, v, p)
    ensures r.Ok? ==>
              var points := r.value.geometry;
              && |points| == |v| && v[0] == source && v[|v| - 1] == target
              && forall i | 0 <= i < |v| :: v[i] < |d.nodes| && points[i] == d.nodes[v[i]]
    ensures r.Ok? ==> r.value.metrics == MetricsOf(r.value.geometry, between)
    ensures r.Err? ==> r.error.NoRoute? || r.error.CostOverflow?
    ensures BuiltPack(d) && r.Ok? ==> NoCheaperWalk(d, source, target, r.value.totalWeight)
    ensures BuiltPack(d) && r == Err(NoRoute) ==> !Reachable(d, source, target)
    ensures BuiltPack(d) && |d.nodes| <= SAFE_QUERY_NODES ==> (r.Ok? <==> Reachable(d, source, target))
  {
    v, p := [source], [];
    ghost var n := |d.nodes|;
    var found := QueryNodes(d.cch, n, d.weights, source, target);
    QueryMeaning(d, source, target, found);
    if found.Err? {
      return Err(found.error), v, p;
    }
    if found.value.None? {
      return Err(NoRoute), v, p;
    }
    var (cost, path) := found.value.value;
    v, p := PathNodes(d, source, target, cost, path);
    var unpacked := UnpackPath(d.cch, n, d.weights, d.arcs, path);
    var edgeIds := unpacked.value;
    var nodeIds := OriginalNodePath(d.arcs, source, edgeIds);
    assert nodeIds.Ok?;
    WalkUnique(d.arcs, nodeIds.value, v, p);
    // the unpacked node list ends at the target
    assert nodeIds.value[|nodeIds.value| - 1] == target;
    var geometry := Points(d.nodes, nodeIds.value);
    var metrics := RouteMetrics(geometry, between);
    r := Ok(Route(cost, geometry, metrics));
  }

  /** What a query result says about walks. */
  lemma QueryMeaning(d: DiskPack, source: nat, target: nat, found: Result<Option<(Cost, seq<QueryArc>)>>)
    requires ValidPack(d) && source < |d.nodes| && target < |d.nodes|
    requires QueryResult(d.cch, |d.nodes|, d.weights, source, target, found)
    ensures BuiltPack(d) && |d.nodes| <= SAFE_QUERY_NODES ==> found.Ok?
    ensures BuiltPack(d) && found == Ok(None) ==> !Reachable(d, source, target)
    ensures BuiltPack(d) && found.Ok? && found.value.Some? ==> NoCheaperWalk(d, source, target, found.value.value.0)
  {
    if BuiltPack(d) && source != target {
      if |d.nodes| <= SAFE_QUERY_NODES {
        NoOverflowWhenBuilt(d, source, target);
      }
      if found.Ok? {
        match found.value {
          case None => NoMeetingUnreachable(d, source, target);
          case Some((cost, path)) => AnswerCheapest(d, source, target, cost, path);
        }
      }
    }
  }

  /** The walk behind a query result. */
  lemma PathNodes(d: DiskPack, source: nat, target: nat, cost: Cost, path: seq<QueryArc>)
      returns (v: seq<nat>, p: seq<nat>)
    requires ValidPack(d) && source < |d.nodes| && target < |d.nodes|
    requires QueryResult(d.cch, |d.nodes|, d.weights, source, target, Ok(Some((cost, path))))
    ensures IndicesBelow(path, d.cch.ArcCount()) && FinitePath(d.weights, path)
    ensures p == ExpandPath(d.cch, |d.nodes|, d.weights, d.arcs, path)
    ensures IsWalkBetween(d.arcs, v, p, source, target) && AllBelow(v, |d.nodes|) && WalkCost(d.arcs, p) == cost
    ensures Reachable(d, source, target)
  {
    p := [];
    if source == target {
      v := [source];
    } else {
      v := AnswerNodes(d, source, target, cost, path);
    }
    p := ExpandPath(d.cch, |d.nodes|, d.weights, d.arcs, path);
    assert IsWalkBetween(d.arcs, v, p, source, target);
  }

  /** The node count up to which the weights of 16 legs add up. The loader reads
      bodies of up to 32 MiB, so every loaded pack is far below. */
  const SAFE_MANY_NODES := 0x1000_0001

  /** Where control i lies, and where leg i leads: the leg behind the last
      control of a loop returns to the first. */
  function LegEnd(controls: seq<Coordinate>, i: nat): Coordinate
    requires i < |controls|
  {
    if i + 1 == |controls| then controls[0] else controls[i + 1]
  }

  /** A snapping that only knows nodes of the pack. */
  ghost predicate Snaps(d: DiskPack, snap: Coordinate -> Result<nat>) {
    forall q :: snap(q).Ok? ==> snap(q).value < |d.nodes|
  }

  /** Leg i is a route between the snapped ends of its controls. */
  ghost predicate LegFollows(d: DiskPack, snap: Coordinate -> Result<nat>, controls: seq<Coordinate>, i: nat,
                             leg: Route,
                             v: seq<nat>, p: seq<nat>)
    requires i < |controls|
  {
    && snap(controls[i]).Ok? && snap(LegEnd(controls, i)).Ok?
    && Follows(d, snap(controls[i]).value, snap(LegEnd(controls, i)).value, leg, v, p)
    && (BuiltPack(d) ==> NoCheaperWalk(d, snap(controls[i]).value, snap(LegEnd(controls, i)).value, leg.totalWeight))
  }

  ghost predicate LegOk(d: DiskPack, snap: Coordinate -> Result<nat>, controls: seq<Coordinate>, i: nat, leg: Route)
    requires i < |controls|
  {
    exists v, p :: LegFollows(d, snap, controls, i, leg, v, p)
  }

  ghost predicate LegsOk(d: DiskPack, snap: Coordinate -> Result<nat>, controls: seq<Coordinate>, legs: seq<Route>) {
    |legs| <= |controls| && forall i | 0 <= i < |legs| :: LegOk(d, snap, controls, i, legs[i])
  }

  /** Both ends of leg i snap, and a walk leads from one to the other. */
  ghost predicate LegRoutable(d: DiskPack, snap: Coordinate -> Result<nat>, controls: seq<Coordinate>, i: nat)
    requires i < |controls|
  {
    snap(controls[i]).Ok? && snap(LegEnd(controls, i)).Ok? &&
    Reachable(d, snap(controls[i]).value, snap(LegEnd(controls, i)).value)
  }

  ghost predicate AllRoutable(d: DiskPack, snap: Coordinate -> Result<nat>, controls: seq<Coordinate>, legCount: nat)
    requires legCount <= |controls|
  {
    forall i | 0 <= i < legCount :: LegRoutable(d, snap, controls, i)
  }

  function LegCount(controls: seq<Coordinate>, closedLoop: bool): (r: int)
    ensures r <= |controls|
  {
    |controls| - 1 + if closedLoop then 1 else 0
  }

  /** One leg: both ends are snapped, then routed. */
  method RouteLeg(d: DiskPack, between: Distance, snap: Coordinate -> Result<nat>, origin: Coordinate,
                  destination: Coordinate)
      returns (r: Result<Route>, ghost v: seq<nat>, ghost p: seq<nat>)
    requires ValidPack(d) && Snaps(d, snap)
    ensures r.Ok? ==> r.value.metrics == MetricsOf(r.value.geometry, between)
    ensures snap(origin).Err? ==> r == Err(snap(origin).error)
    ensures snap(origin).Ok? && snap(destination).Err? ==> r == Err(snap(destination).error)
    ensures snap(origin).Ok? && snap(destination).Ok? ==>
              var s, t := snap(origin).value, snap(destination).value;
              && (r.Ok? ==> Follows(d, s, t, r.value, v, p))
              && (r.Err? ==> r.error.NoRoute? || r.error.CostOverflow?)
              && (BuiltPack(d) && r.Ok? ==> NoCheaperWalk(d, s, t, r.value.totalWeight))
              && (BuiltPack(d) && |d.nodes| <= SAFE_QUERY_NODES ==> (r.Ok? <==> Reachable(d, s, t)))
  {
    v, p := [], [];
    var source :- snap(origin);
    var target :- snap(destination);
    r, v, p := RouteNodes(d, between, source, target);
  }

  /** The geometry of the legs from leg k on, each but the first of the route
      without the point it shares with the leg before. */
  function Stitched(legs: seq<Route>): seq<GraphNode> {
    if legs == [] then []
    else
      var before, last := Stitched(legs[..|legs| - 1]), legs[|legs| - 1].geometry;
      before + if before == [] || last == [] then last else last[1..]
  }

  function TotalWeight(legs: seq<Route>): nat {
    if legs == [] then 0 else TotalWeight(legs[..|legs| - 1]) + legs[|legs| - 1].totalWeight
  }

  /** Stitched legs are one walk: from the first control to the end of the last
      leg, over all original arcs of all legs, at their total weight. */
  ghost predicate OneWalk(d: DiskPack, snap: Coordinate -> Result<nat>, controls: seq<Coordinate>, legs: seq<Route>,
                          v: seq<nat>, p: seq<nat>)
  {
    && 0 < |legs| <= |controls|
    && snap(controls[0]).Ok? && snap(LegEnd(controls, |legs| - 1)).Ok?
    && IsWalkBetween(d.arcs, v, p, snap(controls[0]).value, snap(LegEnd(controls, |legs| - 1)).value)
    && AllBelow(v, |d.nodes|)
    && WalkCost(d.arcs, p) == TotalWeight(legs)
    && Traces(d.nodes, v, Stitched(legs))
  }

  /** The geometry is that of the nodes of the walk. */
  predicate Traces(nodes: seq<GraphNode>, v: seq<nat>, geometry: seq<GraphNode>)
    requires AllBelow(v, |nodes|)
  {
    |geometry| == |v| && forall i | 0 <= i < |v| :: geometry[i] == nodes[v[i]]
  }

  /** The geometry comes by the node of each control at the index listed for it,
      in order; a loop ends at the first control. */
  ghost predicate Visits(d: DiskPack, snap: Coordinate -> Result<nat>, controls: seq<Coordinate>,
                         geometry: seq<GraphNode>, at: seq<nat>)
  {
    && controls != [] && 0 < |at| <= |controls| + 1 && at[0] == 0 && at[|at| - 1] == |geometry| - 1
    && (forall i, j | 0 <= i < j < |at| :: at[i] <= at[j])
    && forall i | 0 <= i < |at| :: at[i] < |geometry| && At(d, snap, controls, i, geometry[at[i]])
  }

  /** The point is the node of control i, or of the first behind the last. */
  ghost predicate At(d: DiskPack, snap: Coordinate -> Result<nat>, controls: seq<Coordinate>, i: nat, point: GraphNode)
    requires i <= |controls| && controls != []
  {
    var control := controls[if i < |controls| then i else 0];
    snap(control).Ok? && snap(control).value < |d.nodes| && point == d.nodes[snap(control).value]
  }

  lemma StitchNext(d: DiskPack, snap: Coordinate -> Result<nat>, controls: seq<Coordinate>, legs: seq<Route>,
                   leg: Route,
                   v: seq<nat>, p: seq<nat>, v2: seq<nat>, p2: seq<nat>)
      returns (vs: seq<nat>, ps: seq<nat>)
    requires |legs| < |controls| && LegFollows(d, snap, controls, |legs|, leg, v2, p2)
    requires legs != [] ==> OneWalk(d, snap, controls, legs, v, p)
    ensures OneWalk(d, snap, controls, legs + [leg], vs, ps)
  {
    if legs == [] {
      vs, ps := v2, p2;
      assert legs + [leg] == [leg];
      FirstWalk(d, snap, controls, leg, v2, p2);
    } else {
      vs, ps := v + v2[1..], p + p2;
      StitchBehind(d, snap, controls, legs, leg, v, p, v2, p2);
    }
  }

  lemma FirstWalk(d: DiskPack, snap: Coordinate -> Result<nat>, controls: seq<Coordinate>, leg: Route,
                  v: seq<nat>, p: seq<nat>)
    requires controls != [] && LegFollows(d, snap, controls, 0, leg, v, p)
    ensures OneWalk(d, snap, controls, [leg], v, p)
  {
    assert [leg][..0] == [] && Stitched([]) == [] && TotalWeight([]) == 0;
    assert Stitched([leg]) == leg.geometry && TotalWeight([leg]) == leg.totalWeight;
  }

  lemma StitchBehind(d: DiskPack, snap: Coordinate -> Result<nat>, controls: seq<Coordinate>, legs: seq<Route>,
                     leg: Route, v: seq<nat>, p: seq<nat>, v2: seq<nat>, p2: seq<nat>)
    requires 0 < |legs| < |controls| && LegFollows(d, snap, controls, |legs|, leg, v2, p2)
    requires OneWalk(d, snap, controls, legs, v, p)
    ensures OneWalk(d, snap, controls, legs + [leg], v + v2[1..], p + p2)
  {
    StitchedMore(legs, leg);
    WalksAdd(d.arcs, v, p, v2, p2, snap(controls[0]).value, snap(controls[|legs|]).value,
             snap(LegEnd(controls, |legs|)).value);
    PointsJoin(d.nodes, v, v2, Stitched(legs), leg.geometry);
    NextWalk(d, snap, controls, legs, leg, v + v2[1..], p + p2);
  }

  lemma NextWalk(d: DiskPack, snap: Coordinate -> Result<nat>, controls: seq<Coordinate>, legs: seq<Route>, leg: Route,
                 v: seq<nat>, p: seq<nat>)
    requires |legs| < |controls| && snap(controls[0]).Ok? && snap(LegEnd(controls, |legs|)).Ok?
    requires IsWalkBetween(d.arcs, v, p, snap(controls[0]).value, snap(LegEnd(controls, |legs|)).value)
    requires AllBelow(v, |d.nodes|) && WalkCost(d.arcs, p) == TotalWeight(legs + [leg])
    requires Traces(d.nodes, v, Stitched(legs + [leg]))
    ensures OneWalk(d, snap, controls, legs + [leg], v, p)
  {
  }

  lemma WalksAdd(g: seq<PackArc>, v: seq<nat>, p: seq<nat>, u: seq<nat>, q: seq<nat>, s: nat, m: nat, t: nat)
    requires IsWalkBetween(g, v, p, s, m) && IsWalkBetween(g, u, q, m, t)
    ensures IsWalkBetween(g, v + u[1..], p + q, s, t)
    ensures WalkCost(g, p + q) == WalkCost(g, p) + WalkCost(g, q)
  {
    WalkJoin(g, v, p, u, q);
  }

  lemma StitchedMore(legs: seq<Route>, leg: Route)
    requires leg.geometry != []
    ensures Stitched(legs + [leg])
            == if Stitched(legs) == [] then leg.geometry else Stitched(legs) + leg.geometry[1..]
    ensures TotalWeight(legs + [leg]) == TotalWeight(legs) + leg.totalWeight
  {
    var all := legs + [leg];
    assert all[..|all| - 1] == legs;
  }

  lemma PointsJoin(nodes: seq<GraphNode>, v: seq<nat>, u: seq<nat>, a: seq<GraphNode>, b: seq<GraphNode>)
    requires AllBelow(v, |nodes|) && AllBelow(u, |nodes|) && u != []
    requires Traces(nodes, v, a) && Traces(nodes, u, b)
    ensures AllBelow(v + u[1..], |nodes|) && Traces(nodes, v + u[1..], a + b[1..])
  {
  }

  lemma VisitNext(d: DiskPack, snap: Coordinate -> Result<nat>, controls: seq<Coordinate>, legs: seq<Route>,
                  leg: Route, v2: seq<nat>, p2: seq<nat>, at: seq<nat>)
      returns (next: seq<nat>)
    requires |legs| < |controls| && LegFollows(d, snap, controls, |legs|, leg, v2, p2)
    requires legs != [] ==> |at| == |legs| + 1 && Visits(d, snap, controls, Stitched(legs), at)
    ensures |next| == |legs| + 2 && Visits(d, snap, controls, Stitched(legs + [leg]), next)
  {
    if legs == [] {
      next := [0, |leg.geometry| - 1];
      assert legs + [leg] == [leg];
      FirstVisits(d, snap, controls, leg, v2, p2);
    } else {
      next := VisitBehind(d, snap, controls, legs, leg, v2, p2, at);
    }
  }

  lemma FirstVisits(d: DiskPack, snap: Coordinate -> Result<nat>, controls: seq<Coordinate>, leg: Route,
                    v: seq<nat>, p: seq<nat>)
    requires controls != [] && LegFollows(d, snap, controls, 0, leg, v, p)
    ensures leg.geometry != [] && Visits(d, snap, controls, Stitched([leg]), [0, |leg.geometry| - 1])
  {
    LegEnds(d, snap, controls, 0, leg, v, p);
    assert [leg][..0] == [] && Stitched([]) == [];
    assert Stitched([leg]) == leg.geometry;
  }

  lemma VisitBehind(d: DiskPack, snap: Coordinate -> Result<nat>, controls: seq<Coordinate>, legs: seq<Route>,
                    leg: Route, v: seq<nat>, p: seq<nat>, at: seq<nat>)
      returns (next: seq<nat>)
    requires 0 < |legs| < |controls| && LegFollows(d, snap, controls, |legs|, leg, v, p)
    requires |at| == |legs| + 1 && Visits(d, snap, controls, Stitched(legs), at)
    ensures |next| == |legs| + 2 && Visits(d, snap, controls, Stitched(legs + [leg]), next)
  {
    LegEnds(d, snap, controls, |legs|, leg, v, p);
    StitchedMore(legs, leg);
    next := VisitOneMore(d, snap, controls, Stitched(legs), leg.geometry, at);
  }

  /** A leg's geometry begins and ends at the nodes of its controls. */
  lemma LegEnds(d: DiskPack, snap: Coordinate -> Result<nat>, controls: seq<Coordinate>, i: nat, leg: Route,
                v: seq<nat>, p: seq<nat>)
    requires i < |controls| && LegFollows(d, snap, controls, i, leg, v, p)
    ensures leg.geometry != [] && At(d, snap, controls, i, leg.geometry[0])
    ensures At(d, snap, controls, i + 1, leg.geometry[|leg.geometry| - 1])
  {
  }

  lemma VisitOneMore(d: DiskPack, snap: Coordinate -> Result<nat>, controls: seq<Coordinate>, before: seq<GraphNode>,
                     last: seq<GraphNode>, at: seq<nat>)
      returns (next: seq<nat>)
    requires 0 < |at| <= |controls| && Visits(d, snap, controls, before, at)
    requires last != [] && At(d, snap, controls, |at| - 1, last[0])
    requires At(d, snap, controls, |at|, last[|last| - 1])
    ensures |next| == |at| + 1 && Visits(d, snap, controls, before + last[1..], next)
  {
    var all := before + last[1..];
    assert all[|all| - 1] == last[|last| - 1] by {
      assert |last| == 1 ==> all == before && before[at[|at| - 1]] == last[0];
    }
    next := at + [|all| - 1];
    forall i | 0 <= i < |next|
      ensures next[i] < |all| && At(d, snap, controls, i, all[next[i]])
    {
      if i < |at| {
        assert all[at[i]] == before[at[i]];
      }
    }
  }

  /** Through 2 to 16 controls, all legs or none: on a built pack the call
      succeeds exactly when every leg that was asked for can be routed. */
  method RouteMany(d: DiskPack, between: Distance, snap: Coordinate -> Result<nat>, controls: seq<Coordinate>,
                   closedLoop: bool)
      returns (r: Result<MultiRoute>, ghost vs: seq<nat>, ghost ps: seq<nat>, ghost at: seq<nat>)
    requires ValidPack(d) && Snaps(d, snap)
    ensures !(2 <= |controls| <= 16) ==> r == Err(InvalidControlCount(|controls|))
    ensures r.Ok? ==>
              var m := r.value;
              && |m.legs| == LegCount(controls, closedLoop)
              && |at| == |controls| + (if closedLoop then 1 else 0) && Visits(d, snap, controls, m.geometry, at)
              && LegsOk(d, snap, controls, m.legs) && OneWalk(d, snap, controls, m.legs, vs, ps)
              && m.totalWeight == WalkCost(d.arcs, ps) && |m.geometry| == |vs|
              && (forall i | 0 <= i < |vs| :: vs[i] < |d.nodes| && m.geometry[i] == d.nodes[vs[i]])
              && m.geometry == Stitched(m.legs) && m.totalWeight == TotalWeight(m.legs)
              && m.controlCount == |controls| && m.closedLoop == closedLoop
              && m.metrics == Wrapped(Totals(m.legs)) && Measured(m.legs, between)
              && ElevationOf(m.metrics, m.geometry)
              && (NonNegative(between) ==> Near(m.metrics.distanceM, Length(m.geometry, between), |m.legs|))
    ensures BuiltPack(d) && |d.nodes| <= SAFE_MANY_NODES && 2 <= |controls| <= 16 ==>
              (r.Ok? <==> AllRoutable(d, snap, controls, LegCount(controls, closedLoop)))
    ensures r.Ok? ==> AllRoutable(d, snap, controls, LegCount(controls, closedLoop))
    ensures BuiltPack(d) && |d.nodes| <= SAFE_QUERY_NODES && 2 <= |controls| <= 16
            && r.Err? && r.error != CostOverflow ==>
              !AllRoutable(d, snap, controls, LegCount(controls, closedLoop))
  {
    if !(2 <= |controls| <= 16) {
      return Err(InvalidControlCount(|controls|)), [], [], [];
    }
    var routed;
    routed, vs, ps, at := RouteLegs(d, between, snap, controls, LegCount(controls, closedLoop));
    var legs :- routed;
    LegsWeight(d, snap, controls, legs);
    var geometry := Stitch(legs);
    var total :- AddWeights(legs);
    var metrics := AddMetrics(legs);
    LegsJoined(d, snap, controls, legs);
    TotalsOfGeometry(legs, between);
    r := Ok(MultiRoute(|controls|, closedLoop, legs, geometry, total, metrics));
  }

  /** The legs in order, up to the first that fails. */
  method RouteLegs(d: DiskPack, between: Distance, snap: Coordinate -> Result<nat>, controls: seq<Coordinate>,
                   legCount: nat)
      returns (r: Result<seq<Route>>, ghost vs: seq<nat>, ghost ps: seq<nat>, ghost at: seq<nat>)
    requires ValidPack(d) && Snaps(d, snap) && 0 < legCount <= |controls|
    ensures r.Ok? ==> |r.value| == legCount && LegsOk(d, snap, controls, r.value) && Measured(r.value, between)
    ensures r.Ok? ==> OneWalk(d, snap, controls, r.value, vs, ps)
    ensures r.Ok? ==> |at| == legCount + 1 && Visits(d, snap, controls, Stitched(r.value), at)
    ensures r.Ok? ==> AllRoutable(d, snap, controls, legCount)
    ensures BuiltPack(d) && |d.nodes| <= SAFE_QUERY_NODES && r.Err? ==> !AllRoutable(d, snap, controls, legCount)
  {
    vs, ps, at := [], [], [];
    var legs: seq<Route> := [];
    for index := 0 to legCount
      invariant |legs| == index && LegsDone(d, between, snap, controls, legs, vs, ps, at)
    {
      var leg, v, p := RouteLegAt(d, between, snap, controls, index);
      if leg.Err? {
        return Err(leg.error), vs, ps, at;
      }
      vs, ps, at := LegDone(d, between, snap, controls, legs, leg.value, vs, ps, at, v, p);
      legs := legs + [leg.value];
    }
    LegsRoutable(d, snap, controls, legs);
    return Ok(legs), vs, ps, at;
  }

  /** Leg i of the controls. */
  method RouteLegAt(d: DiskPack, between: Distance, snap: Coordinate -> Result<nat>, controls: seq<Coordinate>, i: nat)
      returns (r: Result<Route>, ghost v: seq<nat>, ghost p: seq<nat>)
    requires ValidPack(d) && Snaps(d, snap) && i < |controls|
    ensures r.Ok? ==> LegFollows(d, snap, controls, i, r.value, v, p)
    ensures r.Ok? ==> r.value.metrics == MetricsOf(r.value.geometry, between)
    ensures BuiltPack(d) && |d.nodes| <= SAFE_QUERY_NODES && r.Err? ==> !LegRoutable(d, snap, controls, i)
  {
    var destination := if i + 1 == |controls| then controls[0] else controls[i + 1];
    r, v, p := RouteLeg(d, between, snap, controls[i], destination);
  }

  /** The first legs are routed, measured and make one walk. */
  ghost predicate LegsDone(d: DiskPack, between: Distance, snap: Coordinate -> Result<nat>, controls: seq<Coordinate>,
                           legs: seq<Route>, vs: seq<nat>, ps: seq<nat>, at: seq<nat>)
  {
    && LegsOk(d, snap, controls, legs) && Measured(legs, between)
    && (legs != [] ==>
          && OneWalk(d, snap, controls, legs, vs, ps)
          && |at| == |legs| + 1 && Visits(d, snap, controls, Stitched(legs), at))
  }

  /** Whatever was routed can be. */
  lemma LegsRoutable(d: DiskPack, snap: Coordinate -> Result<nat>, controls: seq<Coordinate>, legs: seq<Route>)
    requires LegsOk(d, snap, controls, legs)
    ensures AllRoutable(d, snap, controls, |legs|)
  {
    forall i: nat | i < |legs|
      ensures LegRoutable(d, snap, controls, i)
    {
      assert LegOk(d, snap, controls, i, legs[i]);
      var v, p :| LegFollows(d, snap, controls, i, legs[i], v, p);
    }
  }

  lemma LegDone(d: DiskPack, between: Distance, snap: Coordinate -> Result<nat>, controls: seq<Coordinate>,
                legs: seq<Route>, leg: Route, v: seq<nat>, p: seq<nat>, at: seq<nat>, v2: seq<nat>, p2: seq<nat>)
      returns (vs: seq<nat>, ps: seq<nat>, next: seq<nat>)
    requires |legs| < |controls| && LegsDone(d, between, snap, controls, legs, v, p, at)
    requires LegFollows(d, snap, controls, |legs|, leg, v2, p2)
    requires leg.metrics == MetricsOf(leg.geometry, between)
    ensures LegsDone(d, between, snap, controls, legs + [leg], vs, ps, next)
  {
    LegsOkNext(d, snap, controls, legs, leg, v2, p2);
    next := VisitNext(d, snap, controls, legs, leg, v2, p2, at);
    vs, ps := StitchNext(d, snap, controls, legs, leg, v, p, v2, p2);
  }

  lemma LegsOkNext(d: DiskPack, snap: Coordinate -> Result<nat>, controls: seq<Coordinate>, legs: seq<Route>,
                   leg: Route, v: seq<nat>, p: seq<nat>)
    requires |legs| < |controls| && LegsOk(d, snap, controls, legs)
    requires LegFollows(d, snap, controls, |legs|, leg, v, p)
    ensures LegsOk(d, snap, controls, legs + [leg])
  {
    assert LegOk(d, snap, controls, |legs|, leg);
  }

  /** A leg of a built pack costs no more than a simple walk can. */
  lemma LegWeight(d: DiskPack, snap: Coordinate -> Result<nat>, controls: seq<Coordinate>, i: nat, leg: Route)
    requires ValidPack(d) && BuiltPack(d) && i < |controls| && LegOk(d, snap, controls, i, leg)
    ensures leg.totalWeight <= (|d.nodes| - 1) * MAX_PACK_ARC_WEIGHT
  {
    var v, p :| LegFollows(d, snap, controls, i, leg, v, p);
    var s, t := snap(controls[i]).value, snap(LegEnd(controls, i)).value;
    if s == t {
      assert IsWalkBetween(d.arcs, [s], [], s, t);
    } else {
      var u, q := SimpleBelow(d.arcs, v, p, s, t, |d.nodes| - 1, MAX_PACK_ARC_WEIGHT);
    }
  }

  lemma LegsWeight(d: DiskPack, snap: Coordinate -> Result<nat>, controls: seq<Coordinate>, legs: seq<Route>)
    requires ValidPack(d) && LegsOk(d, snap, controls, legs) && |legs| <= 16
    ensures BuiltPack(d) && |d.nodes| <= SAFE_MANY_NODES ==> TotalWeight(legs) <= INFINITE_COST
  {
    if BuiltPack(d) && |d.nodes| <= SAFE_MANY_NODES {
      var most := (|d.nodes| - 1) * MAX_PACK_ARC_WEIGHT;
      LegsBelow(d, snap, controls, legs, most);
      TotalFits(legs, |d.nodes| - 1, most);
    }
  }

  lemma TotalFits(legs: seq<Route>, arcs: nat, most: nat)
    requires forall i | 0 <= i < |legs| :: legs[i].totalWeight <= most
    requires most == arcs * MAX_PACK_ARC_WEIGHT && arcs < SAFE_MANY_NODES && |legs| <= 16
    ensures TotalWeight(legs) <= INFINITE_COST
  {
    TotalBound(legs, most);
    SixteenFit(arcs, |legs|);
  }

  lemma LegsBelow(d: DiskPack, snap: Coordinate -> Result<nat>, controls: seq<Coordinate>, legs: seq<Route>, most: nat)
    requires ValidPack(d) && BuiltPack(d) && LegsOk(d, snap, controls, legs)
    requires most == (|d.nodes| - 1) * MAX_PACK_ARC_WEIGHT
    ensures forall i | 0 <= i < |legs| :: legs[i].totalWeight <= most
  {
    forall i | 0 <= i < |legs|
      ensures legs[i].totalWeight <= most
    {
      LegWeight(d, snap, controls, i, legs[i]);
    }
  }

  lemma SixteenFit(arcs: nat, legs: nat)
    requires arcs < SAFE_MANY_NODES && legs <= 16
    ensures legs * (arcs * MAX_PACK_ARC_WEIGHT) <= INFINITE_COST
  {
    MulLe(legs, 16, arcs * MAX_PACK_ARC_WEIGHT);
  }

  lemma {:induction false} TotalBound(legs: seq<Route>, most: nat)
    requires forall i | 0 <= i < |legs| :: legs[i].totalWeight <= most
    ensures TotalWeight(legs) <= |legs| * most
  {
    if legs != [] {
      TotalBound(legs[..|legs| - 1], most);
      assert |legs| * most == (|legs| - 1) * most + most;
    }
  }

  method Stitch(legs: seq<Route>) returns (geometry: seq<GraphNode>)
    ensures geometry == Stitched(legs)
  {
    geometry := [];
    for i := 0 to |legs|
      invariant geometry == Stitched(legs[..i])
    {
      assert legs[..i + 1][..i] == legs[..i];
      var leg := legs[i].geometry;
      var skip := if geometry != [] then 1 else 0;
      geometry := geometry + if skip <= |leg| then leg[skip..] else [];
    }
    assert legs[..|legs|] == legs;
  }

  /** The legs' weights, refused when their sum leaves the 64-bit word. */
  method AddWeights(legs: seq<Route>) returns (r: Result<nat>)
    ensures r == if TotalWeight(legs) <= INFINITE_COST then Ok(TotalWeight(legs)) else Err(CostOverflow)
  {
    var total: nat := 0;
    for i := 0 to |legs|
      invariant total == TotalWeight(legs[..i]) <= INFINITE_COST
    {
      assert legs[..i + 1][..i] == legs[..i];
      TotalMonotone(legs, i + 1);
      total := total + legs[i].totalWeight;
      if total > INFINITE_COST {
        return Err(CostOverflow);
      }
    }
    assert legs[..|legs|] == legs;
    return Ok(total);
  }

  lemma {:induction false} TotalMonotone(legs: seq<Route>, i: nat)
    requires i <= |legs|
    ensures TotalWeight(legs[..i]) <= TotalWeight(legs)
    decreases |legs| - i
  {
    if i < |legs| {
      assert legs[..i + 1][..i] == legs[..i];
      TotalMonotone(legs, i + 1);
    } else {
      assert legs[..i] == legs;
    }
  }

  /** The sums of the legs' metrics, as numbers and as 64-bit words. */
  function Totals(legs: seq<Route>): Metrics {
    if legs == [] then Metrics(0, 0, 0)
    else
      var before, last := Totals(legs[..|legs| - 1]), legs[|legs| - 1].metrics;
      Metrics(before.distanceM + last.distanceM, before.elevationGainM + last.elevationGainM,
              before.elevationLossM + last.elevationLossM)
  }

  function Wrapped(m: Metrics): Metrics {
    Metrics(m.distanceM % WORD, m.elevationGainM % WORD, m.elevationLossM % WORD)
  }

  lemma WrapSum(a: nat, b: nat)
    ensures (a % WORD + b) % WORD == (a + b) % WORD
  {
  }

  method AddMetrics(legs: seq<Route>) returns (m: Metrics)
    ensures m == Wrapped(Totals(legs))
  {
    var distance: nat, gain: nat, loss: nat := 0, 0, 0;
    for i := 0 to |legs|
      invariant Metrics(distance, gain, loss) == Wrapped(Totals(legs[..i]))
    {
      assert legs[..i + 1][..i] == legs[..i];
      ghost var before := Totals(legs[..i]);
      var leg := legs[i].metrics;
      WrapSum(before.distanceM, leg.distanceM);
      WrapSum(before.elevationGainM, leg.elevationGainM);
      WrapSum(before.elevationLossM, leg.elevationLossM);
      distance := (distance + leg.distanceM) % WORD;
      gain := (gain + leg.elevationGainM) % WORD;
      loss := (loss + leg.elevationLossM) % WORD;
    }
    assert legs[..|legs|] == legs;
    m := Metrics(distance, gain, loss);
  }

  ghost predicate Measured(legs: seq<Route>, between: Distance) {
    forall i | 0 <= i < |legs| :: legs[i].metrics == MetricsOf(legs[i].geometry, between)
  }

  ghost predicate NonNegative(between: Distance) {
    forall a, b :: between(a, b) >= 0.0
  }

  /** Each leg begins where the one before ends. */
  predicate Joined(legs: seq<Route>) {
    && (forall i | 0 <= i < |legs| :: legs[i].geometry != [])
    && forall i, j | 0 <= i && j == i + 1 < |legs| ::
         legs[j].geometry[0] == legs[i].geometry[|legs[i].geometry| - 1]
  }

  /** The elevation totals are those of the whole geometry, if they fit. */
  predicate ElevationOf(m: Metrics, geometry: seq<GraphNode>) {
    && (Gain(geometry) < WORD ==> m.elevationGainM == Gain(geometry))
    && (Loss(geometry) < WORD ==> m.elevationLossM == Loss(geometry))
  }

  /** A total of so many legs is off by half a metre a leg at most, if it fits. */
  predicate Near(total: nat, length: real, legs: nat) {
    var slack := legs as real / 2.0;
    length + slack < 18446744073709551616.0 ==> length - slack <= total as real <= length + slack
  }

  lemma {:induction false} JoinedTotals(a: seq<GraphNode>, b: seq<GraphNode>, between: Distance)
    requires a != [] && b != [] && a[|a| - 1] == b[0]
    ensures Gain(a + b[1..]) == Gain(a) + Gain(b) && Loss(a + b[1..]) == Loss(a) + Loss(b)
    ensures Length(a + b[1..], between) == Length(a, between) + Length(b, between)
    decreases |b|
  {
    if |b| == 1 {
      assert a + b[1..] == a;
    } else {
      var c := b[..|b| - 1];
      JoinedTotals(a, c, between);
      var all := a + b[1..];
      assert all[..|all| - 1] == a + c[1..];
    }
  }

  lemma LegsJoined(d: DiskPack, snap: Coordinate -> Result<nat>, controls: seq<Coordinate>, legs: seq<Route>)
    requires LegsOk(d, snap, controls, legs)
    ensures Joined(legs)
  {
    forall i | 0 <= i < |legs|
      ensures legs[i].geometry != []
      ensures i + 1 < |legs| ==> legs[i + 1].geometry != []
                                 && legs[i + 1].geometry[0] == legs[i].geometry[|legs[i].geometry| - 1]
    {
      assert LegOk(d, snap, controls, i, legs[i]);
      var v, p :| LegFollows(d, snap, controls, i, legs[i], v, p);
      if i + 1 < |legs| {
        assert LegOk(d, snap, controls, i + 1, legs[i + 1]);
        var u, q :| LegFollows(d, snap, controls, i + 1, legs[i + 1], u, q);
      }
    }
  }

  /** What the legs' own totals add up to is measured along the whole route. */
  lemma {:induction false} SumsOfGeometry(legs: seq<Route>, between: Distance)
    requires legs != [] && Joined(legs) && Measured(legs, between)
    ensures Stitched(legs) != []
    ensures var last := legs[|legs| - 1].geometry; Stitched(legs)[|Stitched(legs)| - 1] == last[|last| - 1]
    ensures ElevationOf(Totals(legs), Stitched(legs))
  {
    var before, last := legs[..|legs| - 1], legs[|legs| - 1];
    assert last.metrics == MetricsOf(last.geometry, between);
    if before != [] {
      SumsOfGeometry(before, between);
      JoinedTotals(Stitched(before), last.geometry, between);
      assert Stitched(legs) == Stitched(before) + last.geometry[1..];
    } else {
      assert Stitched(legs) == last.geometry;
    }
  }

  lemma {:induction false} LengthNonNegative(points: seq<GraphNode>, between: Distance)
    requires NonNegative(between)
    ensures Length(points, between) >= 0.0
  {
    if |points| >= 2 {
      LengthNonNegative(points[..|points| - 1], between);
    }
  }

  lemma NearMetres(x: real)
    requires x >= 0.0
    ensures Near(Metres(x), x, 1)
  {
  }

  lemma NearSum(total: nat, length: real, legs: nat, total2: nat, length2: real)
    requires length >= 0.0 && length2 >= 0.0 && Near(total, length, legs) && Near(total2, length2, 1)
    ensures Near(total + total2, length + length2, legs + 1)
  {
  }

  lemma {:induction false} DistanceOfGeometry(legs: seq<Route>, between: Distance)
    requires legs != [] && Joined(legs) && Measured(legs, between) && NonNegative(between)
    ensures Near(Totals(legs).distanceM, Length(Stitched(legs), between), |legs|)
  {
    var before, last := legs[..|legs| - 1], legs[|legs| - 1];
    assert last.metrics == MetricsOf(last.geometry, between);
    LengthNonNegative(last.geometry, between);
    NearMetres(Length(last.geometry, between));
    if before != [] {
      SumsOfGeometry(before, between);
      JoinedTotals(Stitched(before), last.geometry, between);
      LengthNonNegative(Stitched(before), between);
      DistanceOfGeometry(before, between);
      NearSum(Totals(before).distanceM, Length(Stitched(before), between), |before|,
              last.metrics.distanceM, Length(last.geometry, between));
      assert Stitched(legs) == Stitched(before) + last.geometry[1..];
    } else {
      assert Stitched(legs) == last.geometry;
    }
  }

  lemma FitsWord(x: nat)
    requires x < WORD
    ensures x % WORD == x
  {
  }

  lemma WrappedElevation(m: Metrics, geometry: seq<GraphNode>)
    requires ElevationOf(m, geometry)
    ensures ElevationOf(Wrapped(m), geometry)
  {
    if m.elevationGainM < WORD {
      FitsWord(m.elevationGainM);
    }
    if m.elevationLossM < WORD {
      FitsWord(m.elevationLossM);
    }
  }

  lemma WrappedDistance(total: nat, length: real, legs: nat)
    requires Near(total, length, legs)
    ensures Near(total % WORD, length, legs)
  {
    if total < WORD {
      FitsWord(total);
    }
  }

  /** The totals of a multi-leg route describe its stitched geometry. */
  lemma TotalsOfGeometry(legs: seq<Route>, between: Distance)
    requires legs != [] && Joined(legs) && Measured(legs, between)
    ensures ElevationOf(Wrapped(Totals(legs)), Stitched(legs))
    ensures NonNegative(between) ==>
              Near(Wrapped(Totals(legs)).distanceM, Length(Stitched(legs), between), |legs|)
  {
    SumsOfGeometry(legs, between);
    WrappedElevation(Totals(legs), Stitched(legs));
    if NonNegative(between) {
      DistanceOfGeometry(legs, between);
      WrappedDistance(Totals(legs).distanceM, Length(Stitched(legs), between), |legs|);
    }
  }

  /** Sorting the arcs for the pack changes no walk: what is cheapest over the
      pack's arcs is cheapest over the builder's input. */
  lemma CheapestForInput(d: DiskPack, input: seq<PackArc>, source: nat, target: nat, cost: nat)
    requires multiset(input) == multiset(d.arcs)
    ensures NoCheaperWalk(d, source, target, cost) <==>
            forall v, p | IsWalkBetween(input, v, p, source, target) :: cost <= WalkCost(input, p)
  {
    if NoCheaperWalk(d, source, target, cost) {
      forall v, p | IsWalkBetween(input, v, p, source, target)
        ensures cost <= WalkCost(input, p)
      {
        var q := WalkRearranged(input, d.arcs, v, p);
        assert IsWalkBetween(d.arcs, v, q, source, target);
      }
    }
    if forall v, p | IsWalkBetween(input, v, p, source, target) :: cost <= WalkCost(input, p) {
      forall v, p | IsWalkBetween(d.arcs, v, p, source, target)
        ensures cost <= WalkCost(d.arcs, p)
      {
        var q := WalkRearranged(d.arcs, input, v, p);
        assert IsWalkBetween(input, v, q, source, target);
      }
    }
  }
}
