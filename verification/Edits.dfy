/** What each edit does to a draft, field by field, and what becomes of the
    publication range in any run. */
module Edits {
  import opened Common
  import opened Outcomes
  import opened Draft

  /** The first point with this id is the i-th. */
  predicate PointAt(points: seq<ControlPoint>, id: nat, i: nat) {
    i < |points| && points[i].id == id && forall k | 0 <= k < i :: points[k].id != id
  }

  predicate HasPoint(points: seq<ControlPoint>, id: nat) {
    exists i :: 0 <= i < |points| && points[i].id == id
  }

  lemma FoundFirst(points: seq<ControlPoint>, id: nat)
    ensures FindPoint(points, id).Some? <==> HasPoint(points, id)
    ensures FindPoint(points, id).Some? ==> PointAt(points, id, FindPoint(points, id).value)
  {
    if points != [] && points[0].id != id {
      FoundFirst(points[1..], id);
      if i :| 0 <= i < |points| && points[i].id == id {
        assert points[1..][i - 1].id == id;
      }
    }
  }

  /** The points after an edit, and whether the route is a loop. */
  ghost predicate PointsAfter(c: Content, e: Edit, v: Content) {
    var p, q := c.controlPoints, v.controlPoints;
    match e
    case Add(at) =>
      && q == p + [ControlPoint(c.nextControlPointNumber, at)] && v.closedLoop == c.closedLoop
      && v.nextControlPointNumber == c.nextControlPointNumber + 1
    case Move(id, at) => PointMoved(p, id, at, q) && v.closedLoop == c.closedLoop
    case Preview(id, at) => PointMoved(p, id, at, q) && v.closedLoop == c.closedLoop
    case Remove(id) =>
      && (exists i: nat :: PointAt(p, id, i) && q == p[..i] + p[i + 1..])
      && v.closedLoop == (c.closedLoop && |q| >= 2)
    case Reorder(id, target) =>
      && 0 <= target < |q| == |p| && v.closedLoop == c.closedLoop
      && exists i: nat :: PointAt(p, id, i) && q[target] == p[i] && q[..target] + q[target + 1..] == p[..i] + p[i + 1..]
    case SetLoop(closedLoop) => q == p && v.closedLoop == (closedLoop && |p| >= 2)
    case _ => q == p && v.closedLoop == c.closedLoop
  }

  ghost predicate PointMoved(p: seq<ControlPoint>, id: nat, at: Position, q: seq<ControlPoint>) {
    exists i: nat :: PointAt(p, id, i) && q == p[i := ControlPoint(id, at)]
  }

  /** Exactly when an edit of the points or the loop is possible. */
  lemma EditPossible(c: Content, e: Edit, measured: nat)
    ensures e.Move? || e.Preview? || e.Remove? ==> (Apply(c, e, measured).Ok? <==> HasPoint(c.controlPoints, e.id))
    ensures e.Reorder? ==>
              (Apply(c, e, measured).Ok? <==> HasPoint(c.controlPoints, e.id) && 0 <= e.target < |c.controlPoints|)
    ensures e.Add? || e.SetLoop? ==> Apply(c, e, measured).Ok?
  {
    if e.Move? || e.Preview? || e.Remove? || e.Reorder? {
      FoundFirst(c.controlPoints, e.id);
    }
  }

  /** What an edit does to the points and the loop; only its own edit changes the name. */
  lemma EditMovesPoints(c: Content, e: Edit, measured: nat)
    requires Apply(c, e, measured).Ok?
    ensures var v := Apply(c, e, measured).value;
            && PointsAfter(c, e, v) && (!e.SetName? ==> v.name == c.name)
            && (!e.Add? ==> v.nextControlPointNumber == c.nextControlPointNumber)
            && (e.SetName? ==> NormalizeSegmentName(e.name) == Ok(v.name))
  {
    match e
    case Move(id, at) => MovePoints(c, id, at, measured);
    case Preview(id, at) => MovePoints(c, id, at, measured);
    case Remove(id) => RemovePoints(c, id, measured);
    case Reorder(id, target) => ReorderPoints(c, id, target, measured);
    case _ =>
  }

  lemma MovePoints(c: Content, id: nat, at: Position, measured: nat)
    requires FindPoint(c.controlPoints, id).Some?
    ensures var v := MovedTo(c, FindPoint(c.controlPoints, id).value, at, measured);
            PointMoved(c.controlPoints, id, at, v.controlPoints) && v.closedLoop == c.closedLoop
  {
    FoundFirst(c.controlPoints, id);
  }

  lemma RemovePoints(c: Content, id: nat, measured: nat)
    requires FindPoint(c.controlPoints, id).Some?
    ensures PointsAfter(c, Remove(id), RemovedAt(c, FindPoint(c.controlPoints, id).value, measured))
  {
    FoundFirst(c.controlPoints, id);
  }

  lemma ReorderPoints(c: Content, id: nat, target: nat, measured: nat)
    requires FindPoint(c.controlPoints, id).Some? && target < |c.controlPoints|
    ensures PointsAfter(c, Reorder(id, target), MovedInOrder(c, FindPoint(c.controlPoints, id).value, target, measured))
  {
    FoundFirst(c.controlPoints, id);
    ReorderMoves(c.controlPoints, FindPoint(c.controlPoints, id).value, target);
  }

  lemma ReorderMoves(p: seq<ControlPoint>, i: nat, target: nat)
    requires i < |p| && target < |p|
    ensures var q := if i == target then p else Reordered(p, i, target);
            |q| == |p| && q[target] == p[i] && q[..target] + q[target + 1..] == p[..i] + p[i + 1..]
  {
    var rest := p[..i] + p[i + 1..];
    PutBack(rest, p[i], target);
    if i == target {
      assert p == rest[..i] + [p[i]] + rest[i..];
    } else {
      assert Reordered(p, i, target) == rest[..target] + [p[i]] + rest[target..];
    }
  }

  /** Taking out what was put in leaves what was there. */
  lemma PutBack(rest: seq<ControlPoint>, x: ControlPoint, at: nat)
    requires at <= |rest|
    ensures var q := rest[..at] + [x] + rest[at..];
            |q| == |rest| + 1 && q[at] == x && q[..at] + q[at + 1..] == rest
  {
    var q := rest[..at] + [x] + rest[at..];
    assert q[..at] == rest[..at] && q[at + 1..] == rest[at..];
  }

  /** The legs after a removal: those at the removed point are dropped, with the
      way back if it was one of them or its point moved to the end; the others
      keep their places. */
  lemma RemoveDropsExactly(c: Content, index: nat, measured: nat, j: nat)
    requires WellFormed(c) && index < |c.controlPoints| && j < Legs(RemovedAt(c, index, measured))
    ensures var after := |c.controlPoints| - 1;
            var wayBack := j == after - 1 && c.closedLoop && after >= 2;
            RemovedAt(c, index, measured).legResults[j]
            == if j == index || j + 1 == index || (wayBack && (index == 0 || index == after)) then None
               else c.legResults[j]
  {
  }

  /** Closing or opening a loop adds a missing way back or takes it away. */
  lemma LoopKeepsOtherLegs(c: Content, closedLoop: bool, measured: nat, j: nat)
    requires WellFormed(c) && j < Legs(Looped(c, closedLoop, measured))
    ensures Looped(c, closedLoop, measured).legResults[j]
            == if j == |c.controlPoints| - 1 && !c.closedLoop then None else c.legResults[j]
  {
  }

  /** A leg's result is stored in its place and taken off the list. */
  lemma LegIsStored(c: Content, i: nat, leg: Leg, measured: nat)
    ensures Apply(c, SetLeg(i, leg), measured).Ok? <==> i < Legs(c) && |leg.geometry| >= 2
    ensures i < Legs(c) && |leg.geometry| >= 2 ==>
              var v := Apply(c, SetLeg(i, leg), measured).value;
              && (forall j: nat :: Entry(v.legResults, j) == if j == i then Some(leg) else Entry(c.legResults, j))
              && (forall k :: k in v.invalidatedLegIndexes <==> k in c.invalidatedLegIndexes && k != i)
  {
  }

  /** Between 0 and the length of the route. */
  predicate InRange(s: Selection, total: nat) {
    0.0 <= s.startM <= s.endM <= total as real
  }

  /** The nearest value between 0 and the length of the route. */
  ghost predicate Nearest(value: real, total: nat, v: real) {
    && 0.0 <= v <= total as real
    && (0.0 <= value <= total as real ==> v == value)
    && (value < 0.0 ==> v == 0.0) && (value > total as real ==> v == total as real)
  }

  /** The publication range is fitted to a route of this length: dropped without
      a route, left alone if it fits. */
  ghost predicate FittedTo(before: Option<Selection>, total: nat, after: Option<Selection>) {
    if before.None? || total == 0 then after.None?
    else
      && after.Some? && InRange(after.value, total)
      && Nearest(before.value.startM, total, after.value.startM)
      && (before.value.startM <= before.value.endM ==> Nearest(before.value.endM, total, after.value.endM))
      && (InRange(before.value, total) ==> after == before)
  }

  /** The length of a route, which is 0 when a leg is missing. */
  function Length(c: Content, measured: nat): nat {
    if Complete(c) then measured else 0
  }

  /** Whether the edit fits the range to the new route. */
  predicate Refits(c: Content, e: Edit, v: Content) {
    match e
    case Move(_, _) => true
    case Preview(_, _) => true
    case Remove(_) => true
    case SetLeg(_, _) => true
    case Reorder(_, _) => v.controlPoints != c.controlPoints
    case SetLoop(_) => v.closedLoop != c.closedLoop
    case _ => false
  }

  lemma ClampedFits(c: Content, measured: nat)
    ensures FittedTo(c.selection, Length(Clamped(c, measured), measured), Clamped(c, measured).selection)
  {
  }

  /** The publication range after an edit: a trim sets it, a reset removes it, an
      edit of the route fits it, and nothing else touches it. */
  lemma SelectionAfter(c: Content, e: Edit, measured: nat)
    requires DistinctIds(c.controlPoints, c.nextControlPointNumber)
    ensures e.Trim? ==>
              (Apply(c, e, measured).Ok? <==> InRange(Selection(e.startM, e.endM), Length(c, measured)))
    ensures Apply(c, e, measured).Ok? ==>
              var v := Apply(c, e, measured).value;
              && (e.Trim? ==> v == c.(selection := Some(Selection(e.startM, e.endM))))
              && (e.ResetTrim? ==> v == c.(selection := None))
              && (Refits(c, e, v) ==> FittedTo(c.selection, Length(v, measured), v.selection))
              && (!e.Trim? && !e.ResetTrim? && !Refits(c, e, v) ==> v.selection == c.selection)
  {
    if Apply(c, e, measured).Ok? {
      match e
      case Move(id, at) => MoveFits(c, FindPoint(c.controlPoints, id).value, at, measured);
      case Preview(id, at) => MoveFits(c, FindPoint(c.controlPoints, id).value, at, measured);
      case Remove(id) => RemovalFits(c, FindPoint(c.controlPoints, id).value, measured);
      case Reorder(id, target) => ReorderFits(c, FindPoint(c.controlPoints, id).value, target, measured);
      case SetLoop(closedLoop) => LoopFits(c, closedLoop, measured);
      case SetLeg(i, leg) => LegFits(c, i, leg, measured);
      case _ =>
    }
  }

  lemma MoveFits(c: Content, index: nat, at: Position, measured: nat)
    requires index < |c.controlPoints|
    ensures var v := MovedTo(c, index, at, measured); FittedTo(c.selection, Length(v, measured), v.selection)
  {
    var moved := c.(controlPoints := c.controlPoints[index := c.controlPoints[index].(at := at)]);
    ClampedFits(Invalidated(moved, ImpactedByMove(index, |c.controlPoints|, c.closedLoop)), measured);
  }

  lemma RemovalFits(c: Content, index: nat, measured: nat)
    requires index < |c.controlPoints|
    ensures var v := RemovedAt(c, index, measured); FittedTo(c.selection, Length(v, measured), v.selection)
  {
    var points := Without(c.controlPoints, index);
    var closedLoop := c.closedLoop && |points| >= 2;
    var shorter := c.(controlPoints := points, closedLoop := closedLoop);
    ClampedFits(Invalidated(shorter, ImpactedByRemoval(index, |points|, closedLoop)), measured);
  }

  lemma ReorderFits(c: Content, from: nat, target: nat, measured: nat)
    requires DistinctIds(c.controlPoints, c.nextControlPointNumber)
    requires from < |c.controlPoints| && target < |c.controlPoints|
    ensures var v := MovedInOrder(c, from, target, measured);
            if v.controlPoints != c.controlPoints then FittedTo(c.selection, Length(v, measured), v.selection)
            else v.selection == c.selection
  {
    if from != target {
      var turned := c.(controlPoints := Reordered(c.controlPoints, from, target));
      ClampedFits(Invalidated(turned, ImpactedByReorder(from, target, |c.controlPoints|, c.closedLoop)), measured);
      assert turned.controlPoints[target] == c.controlPoints[from];
      assert c.controlPoints[from].id != c.controlPoints[target].id by {
        assert from < target || target < from;
      }
    }
  }

  lemma LoopFits(c: Content, closedLoop: bool, measured: nat)
    ensures var v := Looped(c, closedLoop, measured);
            if v.closedLoop != c.closedLoop then FittedTo(c.selection, Length(v, measured), v.selection)
            else v.selection == c.selection
  {
    var count := |c.controlPoints|;
    var enabled := closedLoop && count > 1;
    if c.closedLoop != enabled {
      var dropped := Listed(ClosingLeg(count, c.closedLoop)) + Listed(ClosingLeg(count, enabled));
      ClampedFits(Invalidated(c.(closedLoop := enabled), dropped), measured);
    }
  }

  lemma LegFits(c: Content, i: nat, leg: Leg, measured: nat)
    ensures var v := WithLeg(c, i, leg, measured); FittedTo(c.selection, Length(v, measured), v.selection)
  {
    ClampedFits(c.(legResults := Assigned(c.legResults, i, Some(leg)),
                   invalidatedLegIndexes := c.invalidatedLegIndexes - {i}), measured);
  }

  /** A stored range begins at 0 at the earliest and does not end before it begins. */
  predicate Ordered(c: Content) {
    c.selection.Some? ==> 0.0 <= c.selection.value.startM <= c.selection.value.endM
  }

  predicate AllOrdered(shots: seq<Snapshot>) {
    forall k | 0 <= k < |shots| :: Ordered(shots[k].content)
  }

  predicate OrderedDraft(d: Draft) {
    && Ordered(d.content) && AllOrdered(d.undoStack) && AllOrdered(d.redoStack)
    && Sound(d, false)
  }

  lemma EditOrdered(c: Content, e: Edit, measured: nat)
    requires WellFormed(c) && Ordered(c) && Apply(c, e, measured).Ok?
    ensures Ordered(Apply(c, e, measured).value)
  {
    SelectionAfter(c, e, measured);
  }

  lemma ActOrdered(d: Draft, a: Action)
    requires OrderedDraft(d) && Act(d, a).Ok?
    ensures OrderedDraft(Act(d, a).value)
  {
    ActSound(d, a, false);
    match a
    case Do(e, measured) => EditOrdered(d.content, e, measured);
    case _ =>
  }

  /** In every run, through undo and redo, a stored range is a range. */
  lemma {:induction false} RangesStayOrdered(limit: nat, actions: seq<Action>)
    requires limit > 0
    ensures OrderedDraft(Run(CreateDraft(limit).value, actions))
    decreases |actions|
  {
    if actions != [] {
      var last := |actions| - 1;
      RangesStayOrdered(limit, actions[..last]);
      var d := Run(CreateDraft(limit).value, actions[..last]);
      if Act(d, actions[last]).Ok? {
        ActOrdered(d, actions[last]);
      }
    }
  }

  /** Previews and leg results leave the history alone; every other edit puts the
      content before it on the undo stack, which keeps the newest entries, and
      drops what could be redone. */
  lemma EditIsRemembered(d: Draft, e: Edit, measured: nat)
    requires Perform(d, e, measured).Ok? && |d.undoStack| <= d.historyLimit && d.historyLimit > 0
    ensures var v := Perform(d, e, measured).value;
            if e.Preview? || e.SetLeg? then
              v.undoStack == d.undoStack && v.redoStack == d.redoStack && v.revision == d.revision
            else
              && v.redoStack == [] && v.revision == d.revision + 1
              && v.undoStack == (if |d.undoStack| < d.historyLimit then d.undoStack else d.undoStack[1..])
                                + [Snapshot(d.content, d.revision)]
  {
    PushedLast(d.undoStack, Shot(d), d.historyLimit);
  }

  /** The revision number counts every call that succeeds, but for previews, leg
      results, and an undo or a redo of nothing. */
  lemma RevisionCounts(d: Draft, a: Action)
    requires Act(d, a).Ok?
    ensures var quiet := || (a.Do? && (a.edit.Preview? || a.edit.SetLeg?)) || (a.Undo? && d.undoStack == [])
                         || (a.Redo? && d.redoStack == []);
            Act(d, a).value.revision == if quiet then d.revision else d.revision + 1
  {
  }
}
