/** Directional CCH weights, their witnesses and what the loader accepts. */
module Weights {
  import opened Common
  import opened Costs
  import opened Walks
  import opened Cch
  import opened Fill

  datatype Witness =
    | NoWitness
    | Original(arc: nat)
    | Triangle(bottomArc: nat, midArc: nat)
  {
    /** The triangle's two arcs in travel order: down to the bottom over the
        first one, up from it over the second. */
    function Legs(up: bool): (nat, nat)
      requires Triangle?
    {
      if up then (bottomArc, midArc) else (midArc, bottomArc)
    }
  }

  datatype CchWeights = CchWeights(
    forward: seq<Cost>,
    backward: seq<Cost>,
    forwardWitness: seq<Witness>,
    backwardWitness: seq<Witness>)
  {
    predicate Sized(count: nat) {
      |forward| == |backward| == |forwardWitness| == |backwardWitness| == count
    }

    function At(up: bool, a: nat): Cost
      requires a < |forward| && a < |backward|
    {
      if up then forward[a] else backward[a]
    }

    function WitnessAt(up: bool, a: nat): Witness
      requires a < |forwardWitness| && a < |backwardWitness|
    {
      if up then forwardWitness[a] else backwardWitness[a]
    }

    /** Replaces one directional weight and its witness if `cost` is lower. */
    function Improve(up: bool, a: nat, cost: Cost, via: Witness): CchWeights
      requires Sized(|forward|) && a < |forward|
    {
      if cost >= At(up, a) then this
      else if up then this.(forward := forward[a := cost], forwardWitness := forwardWitness[a := via])
      else this.(backward := backward[a := cost], backwardWitness := backwardWitness[a := via])
    }
  }

  /** The node at which a directed traversal of arc a starts and ends. */
  function Start(c: CchStructure, up: bool, a: nat): nat
    requires a < |c.upTail| && a < |c.upHead|
  {
    if up then c.upTail[a] else c.upHead[a]
  }

  function End(c: CchStructure, up: bool, a: nat): nat
    requires a < |c.upTail| && a < |c.upHead|
  {
    Start(c, !up, a)
  }

  /** The arc that carries the weight from x to y. */
  function Slot(c: CchStructure, x: nat, y: nat): Option<nat>
    requires c.CsrBounds()
  {
    if x < y then c.FindArc(x, y) else c.FindArc(y, x)
  }

  /** The weight from rank x to rank y, the sentinel where there is no arc. */
  function Weight(c: CchStructure, w: CchWeights, x: nat, y: nat): Cost
    requires c.CsrBounds() && w.Sized(c.ArcCount())
  {
    match Slot(c, x, y)
    case None => INFINITE_COST
    case Some(a) => w.At(x < y, a)
  }

  lemma SlotIff(c: CchStructure, n: nat, x: nat, y: nat)
    requires c.Valid(n) && x != y
    ensures Slot(c, x, y).Some? <==> Joined(c, x, y)
    ensures forall a: nat :: Slot(c, x, y) == Some(a) <==>
                             a < |c.upHead| && Start(c, x < y, a) == x && End(c, x < y, a) == y
  {
    var (lo, hi) := SortedPair(x, y);
    FindArcIff(c, n, lo, hi);
    forall a: nat
      ensures Slot(c, x, y) == Some(a) <==>
              a < |c.upHead| && Start(c, x < y, a) == x && End(c, x < y, a) == y
    {
      assert Slot(c, x, y) == Some(a) <==> c.ArcIs(a, lo, hi);
    }
  }

  /** Reading an arc's directional weight is reading the weight of its ends. */
  lemma WeightOfArc(c: CchStructure, n: nat, w: CchWeights, up: bool, a: nat)
    requires c.Valid(n) && w.Sized(c.ArcCount()) && a < c.ArcCount()
    ensures Start(c, up, a) != End(c, up, a)
    ensures up == (Start(c, up, a) < End(c, up, a))
    ensures Weight(c, w, Start(c, up, a), End(c, up, a)) == w.At(up, a)
  {
    ArcBucket(c, n, a);
    SlotIff(c, n, Start(c, up, a), End(c, up, a));
    assert Slot(c, Start(c, up, a), End(c, up, a)) == Some(a);
  }

  lemma ImproveWeight(c: CchStructure, n: nat, w: CchWeights, x: nat, y: nat, a: nat, cost: Cost, via: Witness)
    requires c.Valid(n) && w.Sized(c.ArcCount()) && x != y && Slot(c, x, y) == Some(a) && a < c.ArcCount()
    ensures var w' := w.Improve(x < y, a, cost, via);
            && w'.Sized(c.ArcCount())
            && Weight(c, w', x, y) == (if cost < Weight(c, w, x, y) then cost else Weight(c, w, x, y))
            && forall u: nat, v: nat | u != v && (u != x || v != y) :: Weight(c, w', u, v) == Weight(c, w, u, v)
  {
    var w' := w.Improve(x < y, a, cost, via);
    SlotIff(c, n, x, y);
    forall u: nat, v: nat | u != v && (u != x || v != y)
      ensures Weight(c, w', u, v) == Weight(c, w, u, v)
    {
      SlotIff(c, n, u, v);
    }
  }

  predicate TriangleOk(c: CchStructure, w: CchWeights, a: nat, up: bool, weight: Cost, bottom: nat, mid: nat)
    requires w.Sized(c.ArcCount()) && |c.upTail| == c.ArcCount() && a < c.ArcCount()
  {
    && weight != INFINITE_COST
    && bottom < a && mid < a
    && c.upTail[bottom] == c.upTail[mid] && c.upHead[bottom] == c.upTail[a] && c.upHead[mid] == c.upHead[a]
    && var (first, second) := Triangle(bottom, mid).Legs(up);
       Add(w.backward[first], w.forward[second]) == Ok(weight)
  }

  /** The loader's condition on one directional weight: no witness for an
      unreachable weight, otherwise an original arc or a lower triangle that
      realizes the weight exactly. */
  predicate WitnessOk(c: CchStructure, w: CchWeights, arcs: seq<PackArc>, up: bool, a: nat)
    requires w.Sized(c.ArcCount()) && |c.upTail| == c.ArcCount() && a < c.ArcCount()
    requires c.upTail[a] < |c.order| && c.upHead[a] < |c.order|
  {
    var weight := w.At(up, a);
    match w.WitnessAt(up, a)
    case NoWitness => weight == INFINITE_COST
    case Original(i) =>
      i < |arcs| && arcs[i].from == c.order[Start(c, up, a)] && arcs[i].to == c.order[End(c, up, a)]
      && arcs[i].weight == weight
    case Triangle(bottom, mid) => TriangleOk(c, w, a, up, weight, bottom, mid)
  }

  predicate RanksInRange(c: CchStructure) {
    |c.upTail| == |c.upHead| &&
    forall a | 0 <= a < |c.upHead| :: c.upTail[a] < |c.order| && c.upHead[a] < |c.order|
  }

  /** Every directional weight has a witness that realizes it. */
  predicate Witnessed(c: CchStructure, w: CchWeights, arcs: seq<PackArc>) {
    && w.Sized(c.ArcCount()) && RanksInRange(c)
    && forall a, up | 0 <= a < c.ArcCount() :: WitnessOk(c, w, arcs, up, a)
  }

  predicate FiniteAtMost(costs: seq<Cost>, bound: nat) {
    forall i | 0 <= i < |costs| :: costs[i] == INFINITE_COST || costs[i] <= bound
  }

  /** What the loader accepts. */
  predicate ValidWeights(c: CchStructure, w: CchWeights, arcs: seq<PackArc>) {
    Witnessed(c, w, arcs) && FiniteAtMost(w.forward, MAX_ROUTE_WEIGHT) && FiniteAtMost(w.backward, MAX_ROUTE_WEIGHT)
  }

  lemma ValidRanksInRange(c: CchStructure, n: nat)
    requires c.Valid(n)
    ensures RanksInRange(c)
  {
    forall a | 0 <= a < |c.upHead|
      ensures c.upTail[a] < |c.order| && c.upHead[a] < |c.order|
    {
      ArcBucket(c, n, a);
    }
  }

  /** The loader's check of one witness. */
  method ValidateWitness(c: CchStructure, w: CchWeights, arcs: seq<PackArc>, a: nat, up: bool)
      returns (r: Result<()>)
    requires w.Sized(c.ArcCount()) && RanksInRange(c) && a < c.ArcCount()
    ensures r.Ok? <==> WitnessOk(c, w, arcs, up, a)
    ensures r.Err? ==> r.error.InvalidPack? || r.error.CostOverflow?
  {
    var weight := w.At(up, a);
    match w.WitnessAt(up, a) {
      case NoWitness =>
        if weight == INFINITE_COST {
          return Ok(());
        }
        return Err(InvalidPack("finite CCH weight needs a witness"));
      case Original(i) =>
        if i >= |arcs| {
          return Err(InvalidPack("CCH witness references missing input arc"));
        }
        var original := arcs[i];
        var tailRank, headRank := c.upTail[a], c.upHead[a];
        var (expectedFrom, expectedTo) :=
          if up then (c.order[tailRank], c.order[headRank]) else (c.order[headRank], c.order[tailRank]);
        if original.from != expectedFrom || original.to != expectedTo || original.weight != weight {
          return Err(InvalidPack("CCH original witness does not realize its arc"));
        }
        return Ok(());
      case Triangle(bottom, mid) =>
        r := ValidateTriangle(c, w, a, up, weight, bottom, mid);
    }
  }

  method ValidateTriangle(c: CchStructure, w: CchWeights, a: nat, up: bool, weight: Cost, bottom: nat, mid: nat)
      returns (r: Result<()>)
    requires w.Sized(c.ArcCount()) && |c.upTail| == c.ArcCount() && a < c.ArcCount()
    ensures r.Ok? <==> TriangleOk(c, w, a, up, weight, bottom, mid)
    ensures r.Err? ==> r.error.InvalidPack? || r.error.CostOverflow?
  {
    if weight == INFINITE_COST {
      return Err(InvalidPack("unreachable CCH weight must not have a witness"));
    }
    if bottom >= a || mid >= a || bottom >= c.ArcCount() || mid >= c.ArcCount() {
      return Err(InvalidPack("CCH triangle witness is not lower-ranked"));
    }
    if c.upTail[bottom] != c.upTail[mid] || c.upHead[bottom] != c.upTail[a] || c.upHead[mid] != c.upHead[a] {
      return Err(InvalidPack("CCH triangle witness endpoints mismatch"));
    }
    var expected :- if up then Add(w.backward[bottom], w.forward[mid]) else Add(w.backward[mid], w.forward[bottom]);
    if expected != weight {
      return Err(InvalidPack("CCH triangle witness weight mismatch"));
    }
    return Ok(());
  }

  /** Finite, and more than 2^32 - 2 arcs of weight 2^32 - 2 cost. */
  predicate TooHeavy(x: Cost) {
    0xFFFF_FFFC_0000_0004 < x < 0xFFFF_FFFF_FFFF_FFFF
  }

  /** The loader's check of all weights. */
  method ValidateWeights(c: CchStructure, w: CchWeights, arcs: seq<PackArc>) returns (r: Result<()>)
    requires RanksInRange(c)
    ensures r.Ok? <==> ValidWeights(c, w, arcs)
    ensures r.Err? ==> r.error.InvalidPack? || r.error.CostOverflow?
    ensures w.Sized(c.ArcCount()) && (exists x | x in w.forward + w.backward :: TooHeavy(x)) ==> r == Err(CostOverflow)
  {
    if !w.Sized(c.ArcCount()) {
      return Err(InvalidPack("CCH weights/witness dimensions differ"));
    }
    if !FiniteAtMost(w.forward, MAX_ROUTE_WEIGHT) || !FiniteAtMost(w.backward, MAX_ROUTE_WEIGHT) {
      return Err(CostOverflow);
    }
    for a := 0 to c.ArcCount()
      invariant forall b, up | 0 <= b < a :: WitnessOk(c, w, arcs, up, b)
    {
      var _ :- ValidateWitness(c, w, arcs, a, true);
      var _ :- ValidateWitness(c, w, arcs, a, false);
    }
    return Ok(());
  }

  lemma {:induction false} PermutationHits(n: nat, rank: seq<nat>, x: nat) returns (v: nat)
    requires Permutation(n, rank) && x < n
    ensures v < n && rank[v] == x
  {
    // otherwise n distinct values would fit into the n - 1 ranks other than x
    var s := set i | 0 <= i < |rank| :: rank[i];
    DistinctCard(rank);
    if x !in s {
      SubsetCard(s, Below(n) - {x});
    }
    v :| v < n && rank[v] == x;
  }

  /** `order` inverts `rank` on both sides. */
  lemma RankOfOrder(c: CchStructure, n: nat, x: nat)
    requires c.Valid(n) && x < n
    ensures c.order[x] < n && c.rank[c.order[x]] == x
  {
    var v := PermutationHits(n, c.rank, x);
  }
}
