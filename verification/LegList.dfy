/** The list of legs that are to be computed: when it misses a leg, and when it
    names one that does not exist. */
module LegList {
  import opened Common
  import opened Outcomes
  import opened Draft

  /** Every missing leg is listed. */
  predicate ListsMissing(c: Content) {
    forall i | 0 <= i < Legs(c) && Entry(c.legResults, i).None? :: i in c.invalidatedLegIndexes
  }

  /** Only legs are listed. */
  predicate ListsLegs(c: Content) {
    forall i | i in c.invalidatedLegIndexes :: 0 <= i < Legs(c)
  }

  /** Of the first `count` legs, all that are not dropped are stored. */
  predicate StoredBut(c: Content, count: nat, dropped: set<int>) {
    forall i | 0 <= i < count && i !in dropped :: Entry(c.legResults, i).Some?
  }

  lemma InvalidatedLists(c: Content, indexes: set<int>)
    ensures ListsMissing(Invalidated(c, indexes)) <==> StoredBut(c, Legs(c), indexes)
  {
    var v := Invalidated(c, indexes);
    forall i: nat | i < Legs(c)
      ensures Entry(v.legResults, i) == if i in indexes then None else Entry(c.legResults, i)
    {
    }
  }

  /** Whether an edit leaves every missing leg listed: an edit of the points
      replaces the list, so no other leg may be missing before it. */
  predicate KeepsMissingListed(c: Content, e: Edit) {
    var count := |c.controlPoints|;
    match e
    case Add(_) => StoredBut(c, LegCount(count + 1, c.closedLoop), ImpactedByInsert(count, count + 1, c.closedLoop))
    case Move(id, _) => MoveKeepsMissingListed(c, id)
    case Preview(id, _) => MoveKeepsMissingListed(c, id)
    case Remove(id) =>
      FindPoint(c.controlPoints, id).Some? ==>
        var after := count - 1;
        var closedLoop := c.closedLoop && after >= 2;
        StoredBut(c, LegCount(after, closedLoop),
                  ImpactedByRemoval(FindPoint(c.controlPoints, id).value, after, closedLoop))
    case Reorder(id, target) =>
      FindPoint(c.controlPoints, id).Some? && 0 <= target ==>
        var from := FindPoint(c.controlPoints, id).value;
        StoredBut(c, Legs(c), if from == target then {} else ImpactedByReorder(from, target, count, c.closedLoop))
    case SetLoop(closedLoop) =>
      var enabled := closedLoop && count > 1;
      StoredBut(c, LegCount(count, enabled), if c.closedLoop == enabled then {} else {count - 1})
    case SetLeg(i, _) =>
      forall j | 0 <= j < Legs(c) && j != i && Entry(c.legResults, j).None? :: j in c.invalidatedLegIndexes
    case _ => ListsMissing(c)
  }

  predicate MoveKeepsMissingListed(c: Content, id: nat) {
    FindPoint(c.controlPoints, id).Some? ==>
      StoredBut(c, Legs(c), ImpactedByMove(FindPoint(c.controlPoints, id).value, |c.controlPoints|, c.closedLoop))
  }

  lemma ClampedLists(c: Content, measured: nat)
    ensures ListsMissing(Clamped(c, measured)) <==> ListsMissing(c)
    ensures ListsLegs(Clamped(c, measured)) <==> ListsLegs(c)
  {
  }

  lemma RemovalListsMissing(c: Content, index: nat, measured: nat)
    requires WellFormed(c) && index < |c.controlPoints|
    ensures var after := |c.controlPoints| - 1;
            var closedLoop := c.closedLoop && after >= 2;
            ListsMissing(RemovedAt(c, index, measured))
            <==> StoredBut(c, LegCount(after, closedLoop), ImpactedByRemoval(index, after, closedLoop))
  {
    var points := Without(c.controlPoints, index);
    var closedLoop := c.closedLoop && |points| >= 2;
    var shorter := c.(controlPoints := points, closedLoop := closedLoop);
    InvalidatedLists(shorter, ImpactedByRemoval(index, |points|, closedLoop));
    ClampedLists(Invalidated(shorter, ImpactedByRemoval(index, |points|, closedLoop)), measured);
  }

  lemma MoveListsMissing(c: Content, index: nat, at: Position, measured: nat)
    requires WellFormed(c) && index < |c.controlPoints|
    ensures ListsMissing(MovedTo(c, index, at, measured))
            <==> StoredBut(c, Legs(c), ImpactedByMove(index, |c.controlPoints|, c.closedLoop))
  {
    var moved := c.(controlPoints := c.controlPoints[index := c.controlPoints[index].(at := at)]);
    InvalidatedLists(moved, ImpactedByMove(index, |c.controlPoints|, c.closedLoop));
    ClampedLists(Invalidated(moved, ImpactedByMove(index, |c.controlPoints|, c.closedLoop)), measured);
  }

  lemma ReorderListsMissing(c: Content, from: nat, target: nat, measured: nat)
    requires WellFormed(c) && from < |c.controlPoints| && target < |c.controlPoints|
    ensures ListsMissing(MovedInOrder(c, from, target, measured))
            <==> StoredBut(c, Legs(c), if from == target then {}
                                       else ImpactedByReorder(from, target, |c.controlPoints|, c.closedLoop))
  {
    if from != target {
      var turned := c.(controlPoints := Reordered(c.controlPoints, from, target));
      InvalidatedLists(turned, ImpactedByReorder(from, target, |c.controlPoints|, c.closedLoop));
      ClampedLists(Invalidated(turned, ImpactedByReorder(from, target, |c.controlPoints|, c.closedLoop)), measured);
    }
  }

  lemma LoopListsMissing(c: Content, closedLoop: bool, measured: nat)
    requires WellFormed(c)
    ensures var enabled := closedLoop && |c.controlPoints| > 1;
            ListsMissing(Looped(c, closedLoop, measured))
            <==> StoredBut(c, LegCount(|c.controlPoints|, enabled),
                           if c.closedLoop == enabled then {} else {|c.controlPoints| - 1})
  {
    var count := |c.controlPoints|;
    var enabled := closedLoop && count > 1;
    if c.closedLoop != enabled {
      var dropped := Listed(ClosingLeg(count, c.closedLoop)) + Listed(ClosingLeg(count, enabled));
      assert dropped == {count - 1};
      InvalidatedLists(c.(closedLoop := enabled), dropped);
      ClampedLists(Invalidated(c.(closedLoop := enabled), dropped), measured);
    }
  }

  /** Exactly when an edit leaves every missing leg listed. */
  lemma ListsMissingIff(c: Content, e: Edit, measured: nat)
    requires WellFormed(c) && Apply(c, e, measured).Ok?
    ensures ListsMissing(Apply(c, e, measured).value) <==> KeepsMissingListed(c, e)
  {
    match e
    case Add(at) => AddListsMissing(c, at);
    case Move(id, at) => MoveListsMissing(c, FindPoint(c.controlPoints, id).value, at, measured);
    case Preview(id, at) => MoveListsMissing(c, FindPoint(c.controlPoints, id).value, at, measured);
    case Remove(id) => RemovalListsMissing(c, FindPoint(c.controlPoints, id).value, measured);
    case Reorder(id, target) => ReorderListsMissing(c, FindPoint(c.controlPoints, id).value, target, measured);
    case SetLoop(closedLoop) => LoopListsMissing(c, closedLoop, measured);
    case SetLeg(i, leg) => LegListsMissing(c, i, leg, measured);
    case _ =>
  }

  lemma AddListsMissing(c: Content, at: Position)
    requires WellFormed(c)
    ensures ListsMissing(Added(c, at)) <==> KeepsMissingListed(c, Add(at))
  {
    var count := |c.controlPoints| + 1;
    var longer := c.(controlPoints := c.controlPoints + [ControlPoint(c.nextControlPointNumber, at)],
                     nextControlPointNumber := c.nextControlPointNumber + 1);
    InvalidatedLists(longer, ImpactedByInsert(count - 1, count, c.closedLoop));
  }

  lemma LegListsMissing(c: Content, i: nat, leg: Leg, measured: nat)
    requires WellFormed(c) && i < Legs(c)
    ensures ListsMissing(WithLeg(c, i, leg, measured)) <==> KeepsMissingListed(c, SetLeg(i, leg))
  {
    var stored := c.(legResults := Assigned(c.legResults, i, Some(leg)),
                     invalidatedLegIndexes := c.invalidatedLegIndexes - {i});
    ClampedLists(stored, measured);
    forall j: nat | j < Legs(c)
      ensures Entry(stored.legResults, j) == if j == i then Some(leg) else Entry(c.legResults, j)
    {
    }
  }

  /** Three points added in a row: the first leg is missing, but no longer listed. */
  lemma MissingLegForgotten(a: Position, b: Position, d: Position)
    ensures var c := Added(Added(Added(EMPTY, a), b), d);
            Legs(c) == 2 && c.invalidatedLegIndexes == {1} && Entry(c.legResults, 0).None? && !ListsMissing(c)
  {
    var one := Added(EMPTY, a);
    var two := Added(one, b);
    assert |two.controlPoints| == 2 && two.legResults[0] == None;
    var three := Added(two, d);
    assert three.legResults[0] == None && 0 !in three.invalidatedLegIndexes;
  }

  /** Whether an edit leaves only legs listed. Opening a loop lists the leg it
      takes away; so does removing one of the last two points of an open route. */
  predicate KeepsLegsListed(c: Content, e: Edit) {
    match e
    case Remove(id) =>
      FindPoint(c.controlPoints, id).Some? ==>
        var count := |c.controlPoints|;
        count == 1 || (c.closedLoop && count >= 3) || FindPoint(c.controlPoints, id).value + 2 < count
    case SetLoop(closedLoop) => c.closedLoop ==> closedLoop
    case SetLeg(_, _) => ListsLegs(c)
    case SetName(_) => ListsLegs(c)
    case Trim(_, _) => ListsLegs(c)
    case ResetTrim => ListsLegs(c)
    case _ => true
  }

  lemma InvalidatedListsLegs(c: Content, indexes: set<int>)
    ensures ListsLegs(Invalidated(c, indexes)) <==> forall i | i in indexes :: i < Legs(c)
  {
    var v := Invalidated(c, indexes);
    if ListsLegs(v) {
      forall i | i in indexes
        ensures i < Legs(c)
      {
        assert i < 0 || i in v.invalidatedLegIndexes;
      }
    }
  }

  lemma RemovalListsLegs(c: Content, index: nat, measured: nat)
    requires WellFormed(c) && index < |c.controlPoints|
    ensures var count := |c.controlPoints|;
            ListsLegs(RemovedAt(c, index, measured))
            <==> count == 1 || (c.closedLoop && count >= 3) || index + 2 < count
  {
    var points := Without(c.controlPoints, index);
    var closedLoop := c.closedLoop && |points| >= 2;
    var shorter := c.(controlPoints := points, closedLoop := closedLoop);
    var dropped := ImpactedByRemoval(index, |points|, closedLoop);
    InvalidatedListsLegs(shorter, dropped);
    ClampedLists(Invalidated(shorter, dropped), measured);
    assert index == |points| > 0 ==> index - 1 in dropped;
    assert index < |points| ==> index in dropped;
  }

  lemma LoopListsLegs(c: Content, closedLoop: bool, measured: nat)
    requires WellFormed(c)
    ensures ListsLegs(Looped(c, closedLoop, measured)) <==> (c.closedLoop ==> closedLoop)
  {
    var count := |c.controlPoints|;
    var enabled := closedLoop && count > 1;
    if c.closedLoop != enabled {
      var dropped := Listed(ClosingLeg(count, c.closedLoop)) + Listed(ClosingLeg(count, enabled));
      InvalidatedListsLegs(c.(closedLoop := enabled), dropped);
      ClampedLists(Invalidated(c.(closedLoop := enabled), dropped), measured);
      assert dropped == {count - 1};
    }
  }

  lemma ReorderListsLegs(c: Content, from: nat, target: nat, measured: nat)
    requires WellFormed(c) && from < |c.controlPoints| && target < |c.controlPoints|
    ensures ListsLegs(MovedInOrder(c, from, target, measured))
  {
    if from != target {
      var turned := c.(controlPoints := Reordered(c.controlPoints, from, target));
      var dropped := ImpactedByReorder(from, target, |c.controlPoints|, c.closedLoop);
      InvalidatedListsLegs(turned, dropped);
      ClampedLists(Invalidated(turned, dropped), measured);
    }
  }

  /** Exactly when an edit leaves only legs listed. */
  lemma ListsLegsIff(c: Content, e: Edit, measured: nat)
    requires WellFormed(c) && Apply(c, e, measured).Ok?
    ensures ListsLegs(Apply(c, e, measured).value) <==> KeepsLegsListed(c, e)
  {
    match e
    case Add(at) => AddListsLegs(c, at);
    case Move(id, at) => MoveListsLegs(c, FindPoint(c.controlPoints, id).value, at, measured);
    case Preview(id, at) => MoveListsLegs(c, FindPoint(c.controlPoints, id).value, at, measured);
    case Remove(id) => RemovalListsLegs(c, FindPoint(c.controlPoints, id).value, measured);
    case Reorder(id, target) => ReorderListsLegs(c, FindPoint(c.controlPoints, id).value, target, measured);
    case SetLoop(closedLoop) => LoopListsLegs(c, closedLoop, measured);
    case SetLeg(i, leg) => LegListsLegs(c, i, leg, measured);
    case _ =>
  }

  lemma AddListsLegs(c: Content, at: Position)
    requires WellFormed(c)
    ensures ListsLegs(Added(c, at))
  {
  }

  lemma MoveListsLegs(c: Content, index: nat, at: Position, measured: nat)
    requires WellFormed(c) && index < |c.controlPoints|
    ensures ListsLegs(MovedTo(c, index, at, measured))
  {
    var moved := c.(controlPoints := c.controlPoints[index := c.controlPoints[index].(at := at)]);
    InvalidatedListsLegs(moved, ImpactedByMove(index, |c.controlPoints|, c.closedLoop));
    ClampedLists(Invalidated(moved, ImpactedByMove(index, |c.controlPoints|, c.closedLoop)), measured);
  }

  lemma LegListsLegs(c: Content, i: nat, leg: Leg, measured: nat)
    requires i < Legs(c)
    ensures ListsLegs(WithLeg(c, i, leg, measured)) <==> ListsLegs(c)
  {
    var stored := c.(legResults := Assigned(c.legResults, i, Some(leg)),
                     invalidatedLegIndexes := c.invalidatedLegIndexes - {i});
    ClampedLists(stored, measured);
    assert forall j :: j in c.invalidatedLegIndexes ==> j == i || j in stored.invalidatedLegIndexes;
  }

  /** Leg results, one after another. */
  predicate LegResults(actions: seq<Action>) {
    forall k | 0 <= k < |actions| :: actions[k].Do? && actions[k].edit.SetLeg?
  }

  predicate Results(c: Content, a: Action, i: int) {
    a.Do? && a.edit.SetLeg? && a.edit.index == i && 0 <= i < Legs(c) && |a.edit.leg.geometry| >= 2
  }

  predicate ResultFor(c: Content, actions: seq<Action>, i: int) {
    exists k :: 0 <= k < |actions| && Results(c, actions[k], i)
  }

  /** Results take their own legs off the list, and nothing else. */
  lemma {:induction false} ListAfterResults(d: Draft, actions: seq<Action>)
    requires d.status == Editing && LegResults(actions)
    ensures var v := Run(d, actions);
            && v.status == Editing && v.content.controlPoints == d.content.controlPoints
            && v.content.closedLoop == d.content.closedLoop
            && forall i :: i in v.content.invalidatedLegIndexes
                           <==> i in d.content.invalidatedLegIndexes && !ResultFor(d.content, actions, i)
    decreases |actions|
  {
    if actions != [] {
      var last := |actions| - 1;
      ListAfterResults(d, actions[..last]);
      var before := Run(d, actions[..last]);
      assert Legs(before.content) == Legs(d.content);
      forall i
        ensures ResultFor(d.content, actions, i)
                <==> ResultFor(d.content, actions[..last], i) || Results(d.content, actions[last], i)
      {
        if k :| 0 <= k < |actions| && Results(d.content, actions[k], i) && k < last {
          assert Results(d.content, actions[..last][k], i);
        }
      }
    }
  }

  /** A result for every leg empties the list exactly when only legs are listed. */
  lemma AllResultsEmptyList(d: Draft, actions: seq<Action>)
    requires d.status == Editing && LegResults(actions)
    requires forall i | 0 <= i < Legs(d.content) :: ResultFor(d.content, actions, i)
    ensures Run(d, actions).content.invalidatedLegIndexes == {} <==> ListsLegs(d.content)
  {
    ListAfterResults(d, actions);
    var left := Run(d, actions).content.invalidatedLegIndexes;
    if i :| i in d.content.invalidatedLegIndexes && !(0 <= i < Legs(d.content)) {
      assert i in left;
    } else {
      assert forall i :: i !in left;
    }
  }

  /** A draft that lists what is no leg cannot be prepared, whatever results it is given. */
  lemma DeadLegUnprepared(d: Draft, actions: seq<Action>, points: nat)
    requires d.status == Editing && LegResults(actions) && !ListsLegs(d.content)
    ensures Prepare(Run(d, actions), points) == TypeError
  {
    ListAfterResults(d, actions);
    var i :| i in d.content.invalidatedLegIndexes && !(0 <= i < Legs(d.content));
    assert i in Run(d, actions).content.invalidatedLegIndexes;
  }

  /** So it is behind every loop that is opened. */
  lemma OpenedLoopUnprepared(d: Draft, measured: nat, actions: seq<Action>, points: nat)
    requires WellFormed(d.content) && d.content.closedLoop && d.status == Editing && LegResults(actions)
    ensures Prepare(Run(Perform(d, SetLoop(false), measured).value, actions), points) == TypeError
  {
    ListsLegsIff(d.content, SetLoop(false), measured);
    DeadLegUnprepared(Perform(d, SetLoop(false), measured).value, actions, points);
  }

  /** And behind the removal of one of the last two points of an open route. */
  lemma ShortenedRouteUnprepared(d: Draft, id: nat, measured: nat, actions: seq<Action>, points: nat)
    requires WellFormed(d.content) && !d.content.closedLoop && d.status == Editing && LegResults(actions)
    requires |d.content.controlPoints| >= 2 && FindPoint(d.content.controlPoints, id).Some?
    requires FindPoint(d.content.controlPoints, id).value + 2 >= |d.content.controlPoints|
    ensures Prepare(Run(Perform(d, Remove(id), measured).value, actions), points) == TypeError
  {
    ListsLegsIff(d.content, Remove(id), measured);
    DeadLegUnprepared(Perform(d, Remove(id), measured).value, actions, points);
  }
}
