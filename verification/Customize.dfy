/** Basic customization: original weights first, then lower triangles in
    ascending order of their bottom rank. */
module Customize {
  import opened Common
  import opened Costs
  import opened Walks
  import opened LowWalks
  import opened Cch
  import opened Fill
  import opened Weights

  /** The interior ranks admitted for x to y once all bottoms below b are done. */
  function Limit(b: nat, x: nat, y: nat): nat {
    Min(b, Min(x, y))
  }

  /** After the bottoms below b: each weight belongs to an actual low walk and,
      on a filled structure, no low walk is cheaper. */
  ghost predicate Phase(c: CchStructure, w: CchWeights, g: seq<PackArc>, b: nat)
    requires c.CsrBounds() && w.Sized(c.ArcCount())
  {
    && (forall x: nat, y: nat | x != y && Weight(c, w, x, y) < INFINITE_COST ::
          Attained(g, x, y, Limit(b, x, y), Weight(c, w, x, y)))
    && (Filled(c) ==>
          forall x: nat, y: nat | x != y :: Dominates(g, x, y, Limit(b, x, y), Weight(c, w, x, y)))
  }

  /** While bottom b is processed: the weights at b and below are those of `w0`,
      the weights above only fell, and to costs of walks that may touch b. */
  ghost predicate Midway(c: CchStructure, w0: CchWeights, w: CchWeights, g: seq<PackArc>, b: nat)
    requires c.CsrBounds() && w0.Sized(c.ArcCount())
  {
    && w.Sized(c.ArcCount())
    && (forall x: nat, y: nat | x != y && Min(x, y) <= b :: Weight(c, w, x, y) == Weight(c, w0, x, y))
    && (forall x: nat, y: nat | x != y :: Weight(c, w, x, y) <= Weight(c, w0, x, y))
    && (forall x: nat, y: nat | x != y && Weight(c, w, x, y) < INFINITE_COST ::
          Attained(g, x, y, Limit(b + 1, x, y), Weight(c, w, x, y)))
  }

  /** The detour x, b, y has been added up without overflow and is no shortcut
      any more. */
  ghost predicate Relaxed(c: CchStructure, w: CchWeights, b: nat, x: nat, y: nat)
    requires c.CsrBounds() && w.Sized(c.ArcCount())
  {
    Slot(c, x, y).Some? ==>
      && Add(Weight(c, w, x, b), Weight(c, w, b, y)).Ok?
      && Weight(c, w, x, y) <= Weight(c, w, x, b) + Weight(c, w, b, y)
  }

  /** Every detour through b has been relaxed. */
  ghost predicate BottomRelaxed(c: CchStructure, w: CchWeights, b: nat)
    requires c.CsrBounds() && w.Sized(c.ArcCount())
  {
    forall x: nat, y: nat | c.HasArc(b, x) && c.HasArc(b, y) && x != y :: Relaxed(c, w, b, x, y)
  }

  /** One direction of one lower triangle. */
  lemma RelaxOne(c: CchStructure, n: nat, w0: CchWeights, w: CchWeights, g: seq<PackArc>,
                 b: nat, x: nat, y: nat, a: nat, cost: Cost, via: Witness)
    requires c.Valid(n) && w0.Sized(c.ArcCount()) && Phase(c, w0, g, b) && Midway(c, w0, w, g, b)
    requires b < x && b < y && x != y && Slot(c, x, y) == Some(a) && a < c.ArcCount()
    requires Add(Weight(c, w, x, b), Weight(c, w, b, y)) == Ok(cost)
    ensures var w' := w.Improve(x < y, a, cost, via);
            Midway(c, w0, w', g, b) && Relaxed(c, w', b, x, y)
  {
    var w' := w.Improve(x < y, a, cost, via);
    ImproveWeight(c, n, w, x, y, a, cost, via);
    if cost < Weight(c, w, x, y) {
      DetourAttained(c, w0, w, g, b, x, y, cost);
    }
  }

  lemma DetourAttained(c: CchStructure, w0: CchWeights, w: CchWeights, g: seq<PackArc>, b: nat, x: nat, y: nat,
                       cost: Cost)
    requires c.CsrBounds() && w0.Sized(c.ArcCount()) && Phase(c, w0, g, b) && Midway(c, w0, w, g, b)
    requires b < x && b < y && x != y
    requires Add(Weight(c, w, x, b), Weight(c, w, b, y)) == Ok(cost) && cost < INFINITE_COST
    ensures Attained(g, x, y, Limit(b + 1, x, y), cost)
  {
    assert Attained(g, x, b, Limit(b, x, b), Weight(c, w0, x, b));
    assert Attained(g, b, y, Limit(b, b, y), Weight(c, w0, b, y));
    AttainedJoin(g, x, b, y, Weight(c, w, x, b), Weight(c, w, b, y), b + 1);
  }

  lemma RelaxedKept(c: CchStructure, n: nat, w: CchWeights, b: nat, x: nat, y: nat, a: nat, cost: Cost, via: Witness)
    requires c.Valid(n) && w.Sized(c.ArcCount())
    requires b < x && b < y && x != y && Slot(c, x, y) == Some(a) && a < c.ArcCount()
    ensures var w' := w.Improve(x < y, a, cost, via);
            && w'.Sized(c.ArcCount())
            && forall u: nat, v: nat | Relaxed(c, w, b, u, v) && u != v && b < u && b < v :: Relaxed(c, w', b, u, v)
  {
    ImproveWeight(c, n, w, x, y, a, cost, via);
  }

  /** With every detour through b relaxed, b may enter the interior. */
  lemma PhaseNext(c: CchStructure, n: nat, w0: CchWeights, w: CchWeights, g: seq<PackArc>, b: nat)
    requires c.Valid(n) && w0.Sized(c.ArcCount()) && Phase(c, w0, g, b) && Midway(c, w0, w, g, b)
    requires BottomRelaxed(c, w, b)
    ensures Phase(c, w, g, b + 1)
  {
    if Filled(c) {
      forall x: nat, y: nat | x != y
        ensures Dominates(g, x, y, Limit(b + 1, x, y), Weight(c, w, x, y))
      {
        assert Dominates(g, x, y, Limit(b, x, y), Weight(c, w0, x, y));
        if b < x && b < y {
          DominatesLess(g, x, y, b, Weight(c, w0, x, y), Weight(c, w, x, y));
          assert Dominates(g, x, b, Limit(b, x, b), Weight(c, w0, x, b));
          assert Dominates(g, b, y, Limit(b, b, y), Weight(c, w0, b, y));
          DetourCovered(c, n, w, b, x, y);
          DominatesThrough(g, x, y, b, Weight(c, w, x, y), Weight(c, w, x, b), Weight(c, w, b, y));
          assert Limit(b + 1, x, y) == b + 1;
        } else {
          assert Limit(b + 1, x, y) == Limit(b, x, y);
        }
      }
    }
  }

  lemma DominatesLess(g: seq<PackArc>, x: nat, y: nat, k: nat, c: nat, d: nat)
    requires Dominates(g, x, y, k, c) && d <= c
    ensures Dominates(g, x, y, k, d)
  {
  }

  lemma DetourCovered(c: CchStructure, n: nat, w: CchWeights, b: nat, x: nat, y: nat)
    requires c.Valid(n) && w.Sized(c.ArcCount()) && Filled(c) && BottomRelaxed(c, w, b)
    requires b < x && b < y && x != y
    ensures Weight(c, w, x, y) <= Weight(c, w, x, b) + Weight(c, w, b, y)
  {
    SlotIff(c, n, x, b);
    SlotIff(c, n, b, y);
    SlotIff(c, n, x, y);
    if c.HasArc(b, x) && c.HasArc(b, y) {
      assert Relaxed(c, w, b, x, y);
    }
  }

  /** Triangle witnesses use bottoms below b only, so the arcs they add up are
      final. */
  ghost predicate BottomsBelow(c: CchStructure, w: CchWeights, b: nat)
    requires w.Sized(c.ArcCount()) && |c.upTail| == c.ArcCount()
  {
    forall up, a | 0 <= a < c.ArcCount() && w.WitnessAt(up, a).Triangle? ::
      w.WitnessAt(up, a).bottomArc < c.ArcCount() && c.upTail[w.WitnessAt(up, a).bottomArc] < b
  }

  lemma ImproveWitnessed(c: CchStructure, n: nat, w: CchWeights, arcs: seq<PackArc>, b: nat,
                         l: nat, r: nat, up: bool, a: nat, cost: Cost)
    requires c.Valid(n) && Witnessed(c, w, arcs) && BottomsBelow(c, w, b + 1)
    requires l < c.ArcCount() && r < c.ArcCount() && a < c.ArcCount()
    requires c.upTail[l] == b && c.upTail[r] == b && c.upHead[l] == c.upTail[a] && c.upHead[r] == c.upHead[a]
    requires Add(if up then w.backward[l] else w.backward[r], if up then w.forward[r] else w.forward[l]) == Ok(cost)
    ensures var w' := w.Improve(up, a, cost, Triangle(l, r));
            Witnessed(c, w', arcs) && BottomsBelow(c, w', b + 1)
  {
    var w' := w.Improve(up, a, cost, Triangle(l, r));
    ArcBucket(c, n, l);
    LowerTailFirst(c, n, l, a);
    LowerTailFirst(c, n, r, a);
    forall i, d | 0 <= i < c.ArcCount()
      ensures WitnessOk(c, w', arcs, d, i)
    {
      assert WitnessOk(c, w, arcs, d, i);
      WitnessKept(c, n, w, w', arcs, b, up, a, d, i);
    }
    forall d, i | 0 <= i < c.ArcCount() && w'.WitnessAt(d, i).Triangle?
      ensures w'.WitnessAt(d, i).bottomArc < c.ArcCount() && c.upTail[w'.WitnessAt(d, i).bottomArc] < b + 1
    {
      if w'.WitnessAt(d, i) == w.WitnessAt(d, i) {
        assert w.WitnessAt(d, i).Triangle?;
      } else {
        assert w'.WitnessAt(d, i) == Triangle(l, r);
      }
    }
  }

  /** A change at an arc above b leaves every other witness exact. */
  lemma WitnessKept(c: CchStructure, n: nat, w: CchWeights, w': CchWeights, arcs: seq<PackArc>, b: nat,
                    up: bool, a: nat, up': bool, i: nat)
    requires c.Valid(n) && Witnessed(c, w, arcs) && BottomsBelow(c, w, b + 1)
    requires w'.Sized(c.ArcCount()) && a < c.ArcCount() && b < c.upTail[a] && i < c.ArcCount()
    requires forall d, j | 0 <= j < c.ArcCount() && (j != a || d != up) ::
               w'.At(d, j) == w.At(d, j) && w'.WitnessAt(d, j) == w.WitnessAt(d, j)
    ensures i != a || up' != up ==> WitnessOk(c, w', arcs, up', i)
  {
    if i != a || up' != up {
      assert WitnessOk(c, w, arcs, up', i);
      var via := w.WitnessAt(up', i);
      assert w'.WitnessAt(up', i) == via && w'.At(up', i) == w.At(up', i);
      if via.Triangle? {
        assert c.upTail[via.bottomArc] <= b && c.upTail[via.midArc] <= b;
        assert w'.At(true, via.bottomArc) == w.At(true, via.bottomArc);
        assert w'.At(false, via.bottomArc) == w.At(false, via.bottomArc);
        assert w'.At(true, via.midArc) == w.At(true, via.midArc);
        assert w'.At(false, via.midArc) == w.At(false, via.midArc);
      }
    }
  }

  /** The state between two relaxations of bottom b. */
  ghost predicate Relaxing(c: CchStructure, n: nat, w0: CchWeights, w: CchWeights, arcs: seq<PackArc>,
                           g: seq<PackArc>, b: nat)
  {
    && c.Valid(n) && w0.Sized(c.ArcCount()) && Phase(c, w0, g, b) && Midway(c, w0, w, g, b)
    && Witnessed(c, w, arcs) && BottomsBelow(c, w, b + 1)
  }

  /** Both directions of the detour between two heads are relaxed. */
  ghost predicate PairRelaxed(c: CchStructure, w: CchWeights, b: nat, x: nat, y: nat)
    requires c.CsrBounds() && w.Sized(c.ArcCount())
  {
    Relaxed(c, w, b, x, y) && Relaxed(c, w, b, y, x)
  }

  /** A detour through b that the checked addition refuses. */
  ghost predicate Refused(c: CchStructure, w: CchWeights, b: nat, x: nat, y: nat)
    requires c.CsrBounds() && w.Sized(c.ArcCount())
  {
    && c.HasArc(b, x) && c.HasArc(b, y) && x != y && Slot(c, x, y).Some?
    && Add(Weight(c, w, x, b), Weight(c, w, b, y)).Err?
  }

  /** The two relaxations of one lower triangle, left and right being arcs of
      the same bottom. */
  method RelaxTriangle(c: CchStructure, ghost n: nat, ghost w0: CchWeights, w: CchWeights, ghost arcs: seq<PackArc>,
                       ghost g: seq<PackArc>, b: nat, left: nat, right: nat)
      returns (r: Result<CchWeights>)
    requires Relaxing(c, n, w0, w, arcs, g, b)
    requires left < right < c.ArcCount() && c.upTail[left] == b && c.upTail[right] == b
    requires b < c.upHead[left] < c.upHead[right]
    ensures r.Ok? ==> Relaxing(c, n, w0, r.value, arcs, g, b)
    ensures r.Ok? ==> PairRelaxed(c, r.value, b, c.upHead[left], c.upHead[right])
    ensures r.Ok? ==> forall u: nat, v: nat | Relaxed(c, w, b, u, v) && u != v && b < u && b < v ::
                        Relaxed(c, r.value, b, u, v)
    ensures r.Err? ==> r.error == CostOverflow
    ensures r.Err? ==> var x, y := c.upHead[left], c.upHead[right]; Refused(c, w, b, x, y) || Refused(c, w, b, y, x)
  {
    var x, y := c.upHead[left], c.upHead[right];
    SlotIff(c, n, x, y);
    SlotIff(c, n, y, x);
    WeightOfArc(c, n, w, false, left);
    WeightOfArc(c, n, w, true, left);
    WeightOfArc(c, n, w, false, right);
    WeightOfArc(c, n, w, true, right);
    assert c.ArcIs(left, b, x) && c.ArcIs(right, b, y);
    match c.FindArc(x, y) {
      case None =>
        return Ok(w);
      case Some(target) =>
        var w' := w;
        var forward :- Add(w'.backward[left], w'.forward[right]);
        RelaxOne(c, n, w0, w', g, b, x, y, target, forward, Triangle(left, right));
        RelaxedKept(c, n, w', b, x, y, target, forward, Triangle(left, right));
        ImproveWitnessed(c, n, w', arcs, b, left, right, true, target, forward);
        w' := w'.Improve(true, target, forward, Triangle(left, right));
        WeightOfArc(c, n, w', false, right);
        WeightOfArc(c, n, w', true, left);
        var backward :- Add(w'.backward[right], w'.forward[left]);
        RelaxOne(c, n, w0, w', g, b, y, x, target, backward, Triangle(left, right));
        RelaxedKept(c, n, w', b, y, x, target, backward, Triangle(left, right));
        ImproveWitnessed(c, n, w', arcs, b, left, right, false, target, backward);
        w' := w'.Improve(false, target, backward, Triangle(left, right));
        return Ok(w');
    }
  }

  lemma BottomsKept(c: CchStructure, n: nat, w0: CchWeights, w: CchWeights, g: seq<PackArc>, b: nat)
    requires c.Valid(n) && w0.Sized(c.ArcCount()) && Midway(c, w0, w, g, b)
    ensures forall z: nat | z < b && BottomRelaxed(c, w0, z) :: BottomRelaxed(c, w, z)
  {
    forall z: nat | z < b && BottomRelaxed(c, w0, z)
      ensures BottomRelaxed(c, w, z)
    {
      forall x: nat, y: nat | c.HasArc(z, x) && c.HasArc(z, y) && x != y
        ensures Relaxed(c, w, z, x, y)
      {
        HasArcAbove(c, n, z, x);
        HasArcAbove(c, n, z, y);
        assert Relaxed(c, w0, z, x, y);
      }
    }
  }

  lemma HasArcAbove(c: CchStructure, n: nat, x: nat, y: nat)
    requires c.Valid(n) && c.HasArc(x, y)
    ensures x < y < n
  {
    var a: nat :| c.ArcIs(a, x, y);
    ArcBucket(c, n, a);
  }

  lemma StartMidway(c: CchStructure, n: nat, w: CchWeights, arcs: seq<PackArc>, g: seq<PackArc>, b: nat)
    requires c.Valid(n) && w.Sized(c.ArcCount()) && Phase(c, w, g, b)
    requires Witnessed(c, w, arcs) && BottomsBelow(c, w, b)
    ensures Relaxing(c, n, w, w, arcs, g, b)
  {
    forall x: nat, y: nat | x != y && Weight(c, w, x, y) < INFINITE_COST
      ensures Attained(g, x, y, Limit(b + 1, x, y), Weight(c, w, x, y))
    {
      AttainedMonotone(g, x, y, Limit(b, x, y), Limit(b + 1, x, y), Weight(c, w, x, y));
    }
  }

  /** The pairs of heads below index `done` of bucket b, and those of `done`
      with an index below `next`. */
  ghost predicate PairsDone(c: CchStructure, w: CchWeights, b: nat, start: nat, end: nat, done: nat, next: nat)
    requires c.CsrBounds() && w.Sized(c.ArcCount()) && end <= c.ArcCount()
  {
    forall i, j | start <= i < j < end && (i < done || (i == done && j < next)) ::
      PairRelaxed(c, w, b, c.upHead[i], c.upHead[j])
  }

  lemma BottomDone(c: CchStructure, n: nat, w: CchWeights, b: nat)
    requires c.Valid(n) && w.Sized(c.ArcCount()) && b < n
    requires PairsDone(c, w, b, c.upFirstOut[b], c.upFirstOut[b + 1], c.upFirstOut[b + 1], 0)
    ensures BottomRelaxed(c, w, b)
  {
    forall x: nat, y: nat | c.HasArc(b, x) && c.HasArc(b, y) && x != y
      ensures Relaxed(c, w, b, x, y)
    {
      var i: nat :| c.ArcIs(i, b, x);
      var j: nat :| c.ArcIs(j, b, y);
      PairDoneAt(c, n, w, b, i, j);
    }
  }

  lemma PairDoneAt(c: CchStructure, n: nat, w: CchWeights, b: nat, i: nat, j: nat)
    requires c.Valid(n) && w.Sized(c.ArcCount()) && b < n
    requires PairsDone(c, w, b, c.upFirstOut[b], c.upFirstOut[b + 1], c.upFirstOut[b + 1], 0)
    requires i < c.ArcCount() && j < c.ArcCount() && i != j && c.upTail[i] == b && c.upTail[j] == b
    ensures Relaxed(c, w, b, c.upHead[i], c.upHead[j])
  {
    ArcBucket(c, n, i);
    ArcBucket(c, n, j);
    if i < j {
      assert PairRelaxed(c, w, b, c.upHead[i], c.upHead[j]);
    } else {
      assert PairRelaxed(c, w, b, c.upHead[j], c.upHead[i]);
    }
  }

  /** All lower triangles of one bottom. */
  method RelaxBottom(c: CchStructure, ghost n: nat, w0: CchWeights, ghost arcs: seq<PackArc>, ghost g: seq<PackArc>,
                     b: nat)
      returns (r: Result<CchWeights>)
    requires c.Valid(n) && b < n && w0.Sized(c.ArcCount()) && Phase(c, w0, g, b)
    requires Witnessed(c, w0, arcs) && BottomsBelow(c, w0, b)
    ensures r.Ok? ==> Relaxing(c, n, w0, r.value, arcs, g, b) && BottomRelaxed(c, r.value, b)
    ensures r.Err? ==> r.error == CostOverflow && exists x: nat, y: nat :: Refused(c, w0, b, x, y)
  {
    var w := w0;
    StartMidway(c, n, w0, arcs, g, b);
    var start, end := c.upFirstOut[b], c.upFirstOut[b + 1];
    assert c.ValidBucket(n, b);
    for left := start to end
      invariant Relaxing(c, n, w0, w, arcs, g, b)
      invariant PairsDone(c, w, b, start, end, left, 0)
    {
      for right := left + 1 to end
        invariant Relaxing(c, n, w0, w, arcs, g, b)
        invariant PairsDone(c, w, b, start, end, left, right)
      {
        var step := RelaxTriangle(c, n, w0, w, arcs, g, b, left, right);
        if step.Err? {
          RefusedEarlier(c, n, w0, w, g, b);
          return step;
        }
        PairsKept(c, n, w, step.value, b, left, right);
        w := step.value;
      }
    }
    BottomDone(c, n, w, b);
    return Ok(w);
  }

  lemma RefusedEarlier(c: CchStructure, n: nat, w0: CchWeights, w: CchWeights, g: seq<PackArc>, b: nat)
    requires c.Valid(n) && w0.Sized(c.ArcCount()) && Midway(c, w0, w, g, b)
    ensures forall x: nat, y: nat | Refused(c, w, b, x, y) :: Refused(c, w0, b, x, y)
  {
    forall x: nat, y: nat | Refused(c, w, b, x, y)
      ensures Refused(c, w0, b, x, y)
    {
      HasArcAbove(c, n, b, x);
      HasArcAbove(c, n, b, y);
    }
  }

  lemma PairsKept(c: CchStructure, n: nat, w: CchWeights, w': CchWeights, b: nat, left: nat, right: nat)
    requires c.Valid(n) && b < n && w.Sized(c.ArcCount()) && w'.Sized(c.ArcCount())
    requires c.upFirstOut[b] <= left < right < c.upFirstOut[b + 1]
    requires PairsDone(c, w, b, c.upFirstOut[b], c.upFirstOut[b + 1], left, right)
    requires PairRelaxed(c, w', b, c.upHead[left], c.upHead[right])
    requires forall u: nat, v: nat | Relaxed(c, w, b, u, v) && u != v && b < u && b < v :: Relaxed(c, w', b, u, v)
    ensures PairsDone(c, w', b, c.upFirstOut[b], c.upFirstOut[b + 1], left, right + 1)
  {
    assert c.ValidBucket(n, b);
    forall i, j | c.upFirstOut[b] <= i < j < c.upFirstOut[b + 1] && (i < left || (i == left && j < right))
      ensures PairRelaxed(c, w', b, c.upHead[i], c.upHead[j])
    {
      PairKept(c, n, w, w', b, i, j);
    }
  }

  lemma PairKept(c: CchStructure, n: nat, w: CchWeights, w': CchWeights, b: nat, i: nat, j: nat)
    requires c.Valid(n) && b < n && w.Sized(c.ArcCount()) && w'.Sized(c.ArcCount())
    requires c.upFirstOut[b] <= i < j < c.upFirstOut[b + 1] <= c.ArcCount() && c.ValidBucket(n, b)
    requires PairRelaxed(c, w, b, c.upHead[i], c.upHead[j])
    requires forall u: nat, v: nat | Relaxed(c, w, b, u, v) && u != v && b < u && b < v :: Relaxed(c, w', b, u, v)
    ensures PairRelaxed(c, w', b, c.upHead[i], c.upHead[j])
  {
  }

  /** Each weight is that of the cheapest input arc among the first k. */
  ghost predicate Direct(c: CchStructure, w: CchWeights, g: seq<PackArc>, k: nat)
    requires c.CsrBounds() && w.Sized(c.ArcCount()) && k <= |g|
  {
    && (forall i | 0 <= i < k :: g[i].from != g[i].to && Weight(c, w, g[i].from, g[i].to) <= g[i].weight)
    && forall x: nat, y: nat | x != y && Weight(c, w, x, y) < INFINITE_COST ::
         exists i :: 0 <= i < k && g[i].from == x && g[i].to == y && g[i].weight == Weight(c, w, x, y)
  }

  lemma DirectNext(c: CchStructure, n: nat, w: CchWeights, g: seq<PackArc>, k: nat, a: nat)
    requires c.Valid(n) && w.Sized(c.ArcCount()) && k < |g| && Direct(c, w, g, k)
    requires g[k].from != g[k].to && Slot(c, g[k].from, g[k].to) == Some(a) && a < c.ArcCount()
    ensures var w' := w.Improve(g[k].from < g[k].to, a, g[k].weight, Original(k));
            w'.Sized(c.ArcCount()) && Direct(c, w', g, k + 1)
  {
    var w' := w.Improve(g[k].from < g[k].to, a, g[k].weight, Original(k));
    ImproveWeight(c, n, w, g[k].from, g[k].to, a, g[k].weight, Original(k));
    forall x: nat, y: nat | x != y && Weight(c, w', x, y) < INFINITE_COST
      ensures exists i :: 0 <= i < k + 1 && g[i].from == x && g[i].to == y && g[i].weight == Weight(c, w', x, y)
    {
      if Weight(c, w', x, y) == Weight(c, w, x, y) {
        var i :| 0 <= i < k && g[i].from == x && g[i].to == y && g[i].weight == Weight(c, w, x, y);
      } else {
        assert g[k].from == x && g[k].to == y && g[k].weight == Weight(c, w', x, y);
      }
    }
  }

  lemma ShortWalk(v: seq<nat>, k: nat)
    requires InteriorBelow(v, k)
    ensures |v| <= 2 || k > 0
  {
    if |v| > 2 {
      assert v[1] < k;
    }
  }

  lemma DirectAttained(c: CchStructure, w: CchWeights, g: seq<PackArc>, x: nat, y: nat)
    requires c.CsrBounds() && w.Sized(c.ArcCount()) && Direct(c, w, g, |g|)
    requires x != y && Weight(c, w, x, y) < INFINITE_COST
    ensures Attained(g, x, y, 0, Weight(c, w, x, y))
  {
    var i: nat :| i < |g| && g[i].from == x && g[i].to == y && g[i].weight == Weight(c, w, x, y);
    assert LowWalk(g, [x, y], [i], x, y, 0);
    assert [i][..0] == [];
    assert WalkCost(g, [i]) == g[i].weight;
  }

  lemma DirectDominates(c: CchStructure, w: CchWeights, g: seq<PackArc>, x: nat, y: nat)
    requires c.CsrBounds() && w.Sized(c.ArcCount()) && Direct(c, w, g, |g|) && x != y
    ensures Dominates(g, x, y, 0, Weight(c, w, x, y))
  {
    forall v, p | LowWalk(g, v, p, x, y, 0)
      ensures Weight(c, w, x, y) <= WalkCost(g, p)
    {
      ShortWalk(v, 0);
      var i := p[0];
      assert g[i].from == v[0] && g[i].to == v[1];
      assert p[..0] == [];
    }
  }

  /** Direct arcs are the low walks with no interior at all. */
  lemma DirectIsPhaseZero(c: CchStructure, n: nat, w: CchWeights, g: seq<PackArc>)
    requires c.Valid(n) && w.Sized(c.ArcCount()) && Direct(c, w, g, |g|)
    ensures Phase(c, w, g, 0)
  {
    forall x: nat, y: nat | x != y && Weight(c, w, x, y) < INFINITE_COST
      ensures Attained(g, x, y, 0, Weight(c, w, x, y))
    {
      DirectAttained(c, w, g, x, y);
    }
    forall x: nat, y: nat | x != y
      ensures Dominates(g, x, y, 0, Weight(c, w, x, y))
    {
      DirectDominates(c, w, g, x, y);
    }
  }

  /** Customization succeeded: every weight is the cheapest low walk's cost,
      every weight is witnessed, and no detour was refused. */
  ghost predicate Customized(c: CchStructure, n: nat, w: CchWeights, arcs: seq<PackArc>, g: seq<PackArc>)
    requires c.Valid(n)
  {
    && Witnessed(c, w, arcs) && Phase(c, w, g, n)
    && forall z: nat | z < n :: BottomRelaxed(c, w, z)
  }

  /** A detour x, z, y below x and y whose two cheapest legs add up past the
      cost domain. */
  ghost predicate TriangleOverflows(g: seq<PackArc>, z: nat, x: nat, y: nat, d: nat, e: nat) {
    && z < x && z < y && x != y
    && Cheapest(g, x, z, z, d) && Cheapest(g, z, y, z, e)
    && d < INFINITE_COST && e < INFINITE_COST && d + e >= INFINITE_COST
  }

  ghost predicate SomeTriangleOverflows(g: seq<PackArc>) {
    exists z, x, y, d, e :: TriangleOverflows(g, z, x, y, d, e)
  }

  lemma RefusedOverflows(c: CchStructure, n: nat, w: CchWeights, g: seq<PackArc>, b: nat)
    requires c.Valid(n) && w.Sized(c.ArcCount()) && Phase(c, w, g, b) && Filled(c)
    requires exists x: nat, y: nat :: Refused(c, w, b, x, y)
    ensures SomeTriangleOverflows(g)
  {
    var x: nat, y: nat :| Refused(c, w, b, x, y);
    HasArcAbove(c, n, b, x);
    HasArcAbove(c, n, b, y);
    var d, e := Weight(c, w, x, b), Weight(c, w, b, y);
    assert Limit(b, x, b) == b && Limit(b, b, y) == b;
    assert Attained(g, x, b, Limit(b, x, b), d) && Dominates(g, x, b, Limit(b, x, b), d);
    assert Attained(g, b, y, Limit(b, b, y), e) && Dominates(g, b, y, Limit(b, b, y), e);
    assert TriangleOverflows(g, b, x, y, d, e);
  }

  lemma CheapestUnique(g: seq<PackArc>, x: nat, y: nat, k: nat, c: nat, d: nat)
    requires Cheapest(g, x, y, k, c) && Attained(g, x, y, k, d) && Dominates(g, x, y, k, d)
    ensures c == d
  {
  }

  lemma CustomizedNoOverflow(c: CchStructure, n: nat, w: CchWeights, arcs: seq<PackArc>, g: seq<PackArc>)
    requires c.Valid(n) && Filled(c) && Contains(c, g) && Customized(c, n, w, arcs, g)
    ensures !SomeTriangleOverflows(g)
  {
    forall z, x, y, d, e
      ensures !TriangleOverflows(g, z, x, y, d, e)
    {
      if TriangleOverflows(g, z, x, y, d, e) {
        LowWalkJoined(c, g, x, z, d);
        LowWalkJoined(c, g, z, y, e);
        HasArcAbove(c, n, z, x);
        LegWeight(c, n, w, g, x, z, z, d);
        LegWeight(c, n, w, g, z, y, z, e);
        DetourAdds(c, n, w, arcs, g, z, x, y);
      }
    }
  }

  lemma DetourAdds(c: CchStructure, n: nat, w: CchWeights, arcs: seq<PackArc>, g: seq<PackArc>,
                   z: nat, x: nat, y: nat)
    requires c.Valid(n) && Filled(c) && Customized(c, n, w, arcs, g)
    requires z < n && c.HasArc(z, x) && c.HasArc(z, y) && x != y
    ensures Add(Weight(c, w, x, z), Weight(c, w, z, y)).Ok?
  {
    SlotIff(c, n, x, y);
    assert Joined(c, x, y);
    assert BottomRelaxed(c, w, z);
    assert Relaxed(c, w, z, x, y);
  }

  /** The customized weight is the cheapest low walk's cost where that is finite. */
  lemma LegWeight(c: CchStructure, n: nat, w: CchWeights, g: seq<PackArc>, x: nat, y: nat, z: nat, d: nat)
    requires c.Valid(n) && w.Sized(c.ArcCount()) && Phase(c, w, g, n) && Filled(c)
    requires x != y && z == Min(x, y) < n && Cheapest(g, x, y, z, d) && d < INFINITE_COST
    ensures Weight(c, w, x, y) == d
  {
    var f := Weight(c, w, x, y);
    assert Limit(n, x, y) == z;
    assert Dominates(g, x, y, Limit(n, x, y), f);
    var v, p :| LowWalk(g, v, p, x, y, z) && WalkCost(g, p) == d;
    assert f <= d;
    assert Attained(g, x, y, Limit(n, x, y), f);
    CheapestUnique(g, x, y, z, d, f);
  }

  /** After the first k input arcs. */
  ghost predicate Offered(c: CchStructure, n: nat, w: CchWeights, arcs: seq<PackArc>, g: seq<PackArc>, k: nat)
    requires c.Valid(n)
  {
    && |g| == |arcs| && k <= |g| && Witnessed(c, w, arcs) && Direct(c, w, g, k) && BottomsBelow(c, w, 0)
    && forall i | 0 <= i < k :: Joined(c, g[i].from, g[i].to)
  }

  lemma OfferedNext(c: CchStructure, n: nat, w: CchWeights, arcs: seq<PackArc>, g: seq<PackArc>, k: nat, a: nat)
    requires c.Valid(n) && Offered(c, n, w, arcs, g, k) && k < |arcs|
    requires arcs[k].from < n && arcs[k].to < n
    requires g[k] == PackArc(c.rank[arcs[k].from], c.rank[arcs[k].to], arcs[k].weight)
    requires c.FindArc(SortedPair(g[k].from, g[k].to).0, SortedPair(g[k].from, g[k].to).1) == Some(a)
    ensures a < c.ArcCount()
    ensures Offered(c, n, w.Improve(g[k].from < g[k].to, a, g[k].weight, Original(k)), arcs, g, k + 1)
  {
    ArcPlaced(c, n, a, g[k].from, g[k].to);
    DirectNext(c, n, w, g, k, a);
    OriginalWitnessed(c, n, w, arcs, k, a);
  }

  lemma NothingOffered(c: CchStructure, n: nat, w: CchWeights, arcs: seq<PackArc>, g: seq<PackArc>)
    requires c.Valid(n) && |g| == |arcs| && w.Sized(c.ArcCount())
    requires forall a, d | 0 <= a < c.ArcCount() :: w.At(d, a) == INFINITE_COST && w.WitnessAt(d, a) == NoWitness
    ensures Offered(c, n, w, arcs, g, 0)
  {
    ValidRanksInRange(c, n);
    forall x: nat, y: nat | x != y
      ensures Weight(c, w, x, y) == INFINITE_COST
    {
      SlotIff(c, n, x, y);
    }
  }

  /** The first pass: every input arc offers its weight to its CCH arc. */
  method OriginalWeights(c: CchStructure, ghost n: nat, arcs: seq<PackArc>, ghost g: seq<PackArc>)
      returns (r: Result<CchWeights>)
    requires c.Valid(n) && (forall a | a in arcs :: a.from < n && a.to < n) && g == Ranked(arcs, c.rank)
    ensures r.Ok? ==> Processed(c, n, r.value, arcs, g, 0) && Contains(c, g)
    ensures r.Err? ==> r.error.InvalidPack? && !Contains(c, g)
  {
    var count := c.ArcCount();
    var w := CchWeights(seq(count, _ => INFINITE_COST), seq(count, _ => INFINITE_COST),
                        seq(count, _ => NoWitness), seq(count, _ => NoWitness));
    NothingOffered(c, n, w, arcs, g);
    for k := 0 to |arcs|
      invariant Offered(c, n, w, arcs, g, k)
    {
      assert arcs[k] in arcs;
      var fromRank, toRank := c.rank[arcs[k].from], c.rank[arcs[k].to];
      var (tail, head, forward) := if fromRank < toRank then (fromRank, toRank, true) else (toRank, fromRank, false);
      var found := c.FindArc(tail, head);
      if found.None? {
        FindArcIff(c, n, tail, head);
        assert !Joined(c, g[k].from, g[k].to);
        return Err(InvalidPack("input arc missing from CCH topology"));
      }
      OfferedNext(c, n, w, arcs, g, k, found.value);
      w := w.Improve(forward, found.value, arcs[k].weight, Original(k));
    }
    AllOffered(c, n, w, arcs, g);
    return Ok(w);
  }

  lemma AllOffered(c: CchStructure, n: nat, w: CchWeights, arcs: seq<PackArc>, g: seq<PackArc>)
    requires c.Valid(n) && Offered(c, n, w, arcs, g, |arcs|)
    ensures Processed(c, n, w, arcs, g, 0) && Contains(c, g)
  {
    DirectIsPhaseZero(c, n, w, g);
  }

  /** After the bottoms below b. */
  ghost predicate Processed(c: CchStructure, n: nat, w: CchWeights, arcs: seq<PackArc>, g: seq<PackArc>, b: nat)
    requires c.Valid(n)
  {
    && Witnessed(c, w, arcs) && BottomsBelow(c, w, b) && Phase(c, w, g, b)
    && forall z: nat | z < b :: BottomRelaxed(c, w, z)
  }

  method ProcessBottom(c: CchStructure, ghost n: nat, w: CchWeights, ghost arcs: seq<PackArc>, ghost g: seq<PackArc>,
                       b: nat)
      returns (r: Result<CchWeights>)
    requires c.Valid(n) && b < n && Processed(c, n, w, arcs, g, b)
    ensures r.Ok? ==> Processed(c, n, r.value, arcs, g, b + 1)
    ensures r.Err? ==> r.error == CostOverflow && (Filled(c) ==> SomeTriangleOverflows(g))
  {
    r := RelaxBottom(c, n, w, arcs, g, b);
    if r.Err? {
      BottomRefused(c, n, w, g, b);
    } else {
      BottomFinished(c, n, w, r.value, arcs, g, b);
    }
  }

  lemma BottomRefused(c: CchStructure, n: nat, w: CchWeights, g: seq<PackArc>, b: nat)
    requires c.Valid(n) && w.Sized(c.ArcCount()) && Phase(c, w, g, b)
    requires exists x: nat, y: nat :: Refused(c, w, b, x, y)
    ensures Filled(c) ==> SomeTriangleOverflows(g)
  {
    if Filled(c) {
      RefusedOverflows(c, n, w, g, b);
    }
  }

  lemma BottomFinished(c: CchStructure, n: nat, w0: CchWeights, w: CchWeights, arcs: seq<PackArc>, g: seq<PackArc>,
                       b: nat)
    requires c.Valid(n) && Processed(c, n, w0, arcs, g, b)
    requires Relaxing(c, n, w0, w, arcs, g, b) && BottomRelaxed(c, w, b)
    ensures Processed(c, n, w, arcs, g, b + 1)
  {
    PhaseNext(c, n, w0, w, g, b);
    BottomsKept(c, n, w0, w, g, b);
  }

  lemma AllProcessed(c: CchStructure, n: nat, w: CchWeights, arcs: seq<PackArc>, g: seq<PackArc>)
    requires c.Valid(n) && Processed(c, n, w, arcs, g, n) && Contains(c, g)
    ensures Customized(c, n, w, arcs, g)
    ensures Filled(c) ==> !SomeTriangleOverflows(g)
  {
    if Filled(c) {
      CustomizedNoOverflow(c, n, w, arcs, g);
    }
  }

  /** Customization of a structure for its input arcs. It fails for want of an
      arc exactly when the structure lacks one; on a filled structure it
      reports an overflow exactly when some lower triangle's cheapest legs add
      up past the cost domain; otherwise every weight is exact. */
  method CustomizeCch(c: CchStructure, ghost n: nat, arcs: seq<PackArc>, ghost g: seq<PackArc>)
      returns (r: Result<CchWeights>)
    requires c.Valid(n) && (forall a | a in arcs :: a.from < n && a.to < n) && g == Ranked(arcs, c.rank)
    ensures r.Ok? ==> Contains(c, g) && Customized(c, n, r.value, arcs, g)
    ensures r.Err? ==> if Contains(c, g) then r.error == CostOverflow else r.error.InvalidPack?
    ensures Filled(c) && Contains(c, g) ==> (r.Err? <==> SomeTriangleOverflows(g))
  {
    var w :- OriginalWeights(c, n, arcs, g);
    for bottom := 0 to |c.rank|
      invariant Processed(c, n, w, arcs, g, bottom)
    {
      w :- ProcessBottom(c, n, w, arcs, g, bottom);
    }
    AllProcessed(c, n, w, arcs, g);
    return Ok(w);
  }

  lemma ArcPlaced(c: CchStructure, n: nat, a: nat, x: nat, y: nat)
    requires c.Valid(n) && c.FindArc(SortedPair(x, y).0, SortedPair(x, y).1) == Some(a)
    ensures x != y && a < c.ArcCount() && Slot(c, x, y) == Some(a) && Joined(c, x, y)
    ensures Start(c, x < y, a) == x && End(c, x < y, a) == y
  {
    FindArcIff(c, n, SortedPair(x, y).0, SortedPair(x, y).1);
    ArcBucket(c, n, a);
  }

  lemma OriginalWitnessed(c: CchStructure, n: nat, w: CchWeights, arcs: seq<PackArc>, k: nat, a: nat)
    requires c.Valid(n) && Witnessed(c, w, arcs) && BottomsBelow(c, w, 0)
    requires k < |arcs| && arcs[k].from < n && arcs[k].to < n && a < c.ArcCount()
    requires var x, y := c.rank[arcs[k].from], c.rank[arcs[k].to];
             x != y && Start(c, x < y, a) == x && End(c, x < y, a) == y
    ensures var w' := w.Improve(c.rank[arcs[k].from] < c.rank[arcs[k].to], a, arcs[k].weight, Original(k));
            Witnessed(c, w', arcs) && BottomsBelow(c, w', 0)
  {
    var up := c.rank[arcs[k].from] < c.rank[arcs[k].to];
    var w' := w.Improve(up, a, arcs[k].weight, Original(k));
    forall i, d | 0 <= i < c.ArcCount()
      ensures !w'.WitnessAt(d, i).Triangle? && WitnessOk(c, w', arcs, d, i)
    {
      assert WitnessOk(c, w, arcs, d, i);
      assert !w.WitnessAt(d, i).Triangle?;
    }
  }
}
