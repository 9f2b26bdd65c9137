/** Drafts that come about by ordinary calls and then lose the coherence of
    their legs: the edits that are not careful. */
module StaleLegs {
  import opened Common
  import opened Outcomes
  import opened Draft

  const NEW_DRAFT := CreateDraft(50).value

  /** The leg from one position straight to another. */
  function Straight(a: Position, b: Position): Leg {
    Leg(a, b, [a, b])
  }

  /** What a run leads to from a new draft. */
  ghost predicate Reached(c: Content) {
    exists actions :: Run(NEW_DRAFT, actions).status == Editing && Run(NEW_DRAFT, actions).content == c
  }

  lemma ReachedNext(c: Content, e: Edit, measured: nat)
    requires Reached(c) && Apply(c, e, measured).Ok?
    ensures Reached(Apply(c, e, measured).value)
  {
    var actions :| Run(NEW_DRAFT, actions).status == Editing && Run(NEW_DRAFT, actions).content == c;
    RunOneMore(NEW_DRAFT, actions, Do(e, measured));
    assert Run(NEW_DRAFT, actions + [Do(e, measured)]).content == Apply(c, e, measured).value;
  }

  lemma ReachedEmpty()
    ensures Reached(EMPTY)
  {
    assert Run(NEW_DRAFT, []) == NEW_DRAFT;
  }

  function Named(p: seq<Position>): (r: seq<ControlPoint>)
    ensures |r| == |p| && forall i | 0 <= i < |p| :: r[i] == ControlPoint(i + 1, p[i])
  {
    if p == [] then [] else Named(p[..|p| - 1]) + [ControlPoint(|p|, p[|p| - 1])]
  }

  /** Points added one after another to a new draft, no leg computed. */
  function Route(p: seq<Position>): Content {
    Content("", Named(p), false, Kept([], LegCount(|p|, false), {}), if |p| < 2 then {} else {|p| - 2}, None, |p| + 1)
  }

  lemma AddedToRoute(p: seq<Position>)
    requires p != []
    ensures Added(Route(p[..|p| - 1]), p[|p| - 1]) == Route(p)
  {
    var c := Added(Route(p[..|p| - 1]), p[|p| - 1]);
    assert c.legResults == Route(p).legResults;
    assert c.invalidatedLegIndexes == Route(p).invalidatedLegIndexes;
  }

  lemma {:induction false} RouteReached(p: seq<Position>)
    ensures Reached(Route(p))
  {
    if p == [] {
      ReachedEmpty();
      assert Route([]) == EMPTY;
    } else {
      var last := |p| - 1;
      RouteReached(p[..last]);
      ReachedNext(Route(p[..last]), Add(p[last]), 0);
      AddedToRoute(p);
    }
  }

  /** Four points, the middle leg computed. */
  function FourPoints(p: seq<Position>): Content
    requires |p| == 4
  {
    Route(p).(legResults := [None, Some(Straight(p[1], p[2])), None])
  }

  lemma FourPointsReached(p: seq<Position>)
    requires |p| == 4
    ensures Reached(FourPoints(p)) && WellFormed(FourPoints(p)) && Coherent(FourPoints(p))
  {
    RouteReached(p);
    var leg := Straight(p[1], p[2]);
    ReachedNext(Route(p), SetLeg(1, leg), 0);
    var legs := Assigned(Route(p).legResults, 1, Some(leg));
    assert legs == [None, Some(leg), None] by {
      assert Entry(legs, 0) == None && Entry(legs, 1) == Some(leg) && Entry(legs, 2) == None;
    }
    assert WithLeg(Route(p), 1, leg, 0) == FourPoints(p);
  }

  /** Removing the first of them leaves the computed leg between the second and
      the third of the others. */
  lemma RemovalMisplaces(p: seq<Position>)
    requires |p| == 4 && p[1] != p[2]
    ensures var c := FourPoints(p);
            && Reached(c) && Coherent(c)
            && Apply(c, Remove(1), 0).Ok? && !Coherent(Apply(c, Remove(1), 0).value)
  {
    FourPointsReached(p);
    FirstIsFound(p);
    RemovedStays(FourPoints(p), 0, 0);
    assert Misplaced(FourPoints(p), 1);
  }

  lemma FirstIsFound(p: seq<Position>)
    requires p != []
    ensures FindPoint(Named(p), 1) == Some(0)
  {
    assert Named(p)[0].id == 1;
  }

  /** A loop of two points, its way back computed. */
  function TwoPointLoop(p: seq<Position>): Content
    requires |p| == 2
  {
    Route(p).(closedLoop := true, legResults := [None, Some(Straight(p[1], p[0]))], invalidatedLegIndexes := {})
  }

  lemma TwoPointLoopReached(p: seq<Position>)
    requires |p| == 2
    ensures Reached(TwoPointLoop(p)) && WellFormed(TwoPointLoop(p)) && Coherent(TwoPointLoop(p))
  {
    RouteReached(p);
    var leg := Straight(p[1], p[0]);
    var loop := Looped(Route(p), true, 0);
    ReachedNext(Route(p), SetLoop(true), 0);
    assert loop.legResults == [None, None] && loop.invalidatedLegIndexes == {1};
    ReachedNext(loop, SetLeg(1, leg), 0);
    assert WithLeg(loop, 1, leg, 0) == TwoPointLoop(p);
  }

  /** Moving a point of it keeps the way back to where the point was, and
      turning the two around keeps it as well. */
  lemma TwoPointLoopKeepsWayBack(p: seq<Position>, at: Position)
    requires |p| == 2 && p[0] != p[1] && p[0] != at
    ensures var c := TwoPointLoop(p);
            && Reached(c) && Coherent(c)
            && Apply(c, Move(1, at), 0).Ok? && !Coherent(Apply(c, Move(1, at), 0).value)
            && Apply(c, Reorder(1, 1), 0).Ok? && !Coherent(Apply(c, Reorder(1, 1), 0).value)
  {
    TwoPointLoopReached(p);
    FirstIsFound(p);
    MovedStays(TwoPointLoop(p), 0, at, 0);
    ReorderedStays(TwoPointLoop(p), 0, 1, 0);
  }
}
