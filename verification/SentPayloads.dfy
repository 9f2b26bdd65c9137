/** What the app sends in any run, and what the server makes of its control points. */
module SentPayloads {
  import opened Common
  import opened Outcomes
  import D = Draft
  import C = Controller
  import P = Payloads

  /** Sixteen points at most, and every leg has two points at least. */
  predicate Small(c: D.Content) {
    |c.controlPoints| <= C.MAX_CONTROL_POINTS && LongLegs(c.legResults)
  }

  predicate LongLegs(legs: P.Legs) {
    forall i | 0 <= i < |legs| && legs[i].Some? :: |legs[i].value.geometry| >= 2
  }

  predicate SmallShots(shots: seq<D.Snapshot>) {
    forall i | 0 <= i < |shots| :: Small(shots[i].content)
  }

  predicate SmallDraft(d: D.Draft) {
    && Small(d.content) && SmallShots(d.undoStack) && SmallShots(d.redoStack)
    && d.historyLimit == 50 && |d.undoStack| + |d.redoStack| <= 50
  }

  function LegsOf(p: C.Payload): nat {
    D.LegCount(p.controlPoints, p.closedLoop)
  }

  predicate Sendable(p: C.Payload) {
    2 <= p.controlPoints <= C.MAX_CONTROL_POINTS && P.Routed(p.legs, LegsOf(p))
  }

  predicate Inv(w: C.World) {
    && SmallDraft(w.state.draft)
    && (w.saved.Some? ==> SmallDraft(w.saved.value.draft))
    && AllSendable(w.sent)
  }

  predicate AllSendable(sent: seq<C.Sending>) {
    forall i | 0 <= i < |sent| :: Sendable(sent[i].payload)
  }

  lemma AppliedSmall(c: D.Content, e: D.Edit, measured: nat)
    requires Small(c) && D.Apply(c, e, measured).Ok? && (e.Add? ==> |c.controlPoints| < C.MAX_CONTROL_POINTS)
    ensures Small(D.Apply(c, e, measured).value)
  {
    match e
    case Move(id, at) => MovedSmall(c, D.FindPoint(c.controlPoints, id).value, at, measured);
    case Preview(id, at) => MovedSmall(c, D.FindPoint(c.controlPoints, id).value, at, measured);
    case Remove(id) => RemovedSmall(c, D.FindPoint(c.controlPoints, id).value, measured);
    case SetLeg(i, leg) => LegSmall(c, i, leg, measured);
    case Add(at) => AddedSmall(c, at);
    case Reorder(id, target) => OrderedSmall(c, D.FindPoint(c.controlPoints, id).value, target, measured);
    case SetLoop(closedLoop) => LoopedSmall(c, closedLoop, measured);
    case _ =>
  }

  lemma AddedSmall(c: D.Content, at: D.Position)
    requires Small(c) && |c.controlPoints| < C.MAX_CONTROL_POINTS
    ensures Small(D.Added(c, at))
  {
  }

  lemma OrderedSmall(c: D.Content, from: nat, target: nat, measured: nat)
    requires Small(c) && from < |c.controlPoints| && target < |c.controlPoints|
    ensures Small(D.MovedInOrder(c, from, target, measured))
  {
  }

  lemma LoopedSmall(c: D.Content, closedLoop: bool, measured: nat)
    requires Small(c)
    ensures Small(D.Looped(c, closedLoop, measured))
  {
  }

  lemma MovedSmall(c: D.Content, index: nat, at: D.Position, measured: nat)
    requires Small(c) && index < |c.controlPoints|
    ensures Small(D.MovedTo(c, index, at, measured))
  {
  }

  lemma RemovedSmall(c: D.Content, index: nat, measured: nat)
    requires Small(c) && index < |c.controlPoints|
    ensures Small(D.RemovedAt(c, index, measured))
  {
  }

  lemma LegSmall(c: D.Content, i: nat, leg: D.Leg, measured: nat)
    requires Small(c) && |leg.geometry| >= 2
    ensures Small(D.WithLeg(c, i, leg, measured))
  {
    var legs := D.Assigned(c.legResults, i, Some(leg));
    forall j: nat | j < |legs| && legs[j].Some?
      ensures |legs[j].value.geometry| >= 2
    {
      assert D.Entry(legs, j) == if j == i then Some(leg) else D.Entry(c.legResults, j);
    }
  }

  predicate Fits(d: D.Draft, a: D.Action) {
    a.Do? && a.edit.Add? ==> |d.content.controlPoints| < C.MAX_CONTROL_POINTS
  }

  lemma ActedSmall(d: D.Draft, a: D.Action)
    requires SmallDraft(d) && D.Act(d, a).Ok? && Fits(d, a)
    ensures SmallDraft(D.Act(d, a).value)
  {
    match a
    case Do(e, measured) => AppliedSmall(d.content, e, measured);
    case _ =>
  }

  lemma {:induction false} RecomputedSmall(d: D.Draft, todo: set<int>, i: nat, routes: C.Routes, measured: nat)
    requires SmallDraft(d)
    ensures SmallDraft(C.Recomputed(d, todo, i, routes, measured))
    decreases D.Legs(d.content) - i
  {
    if i < D.Legs(d.content) {
      if i !in todo {
        RecomputedSmall(d, todo, i + 1, routes, measured);
      } else if i in routes {
        var e := D.SetLeg(i, C.LegFor(d.content, i, routes[i]));
        if D.Perform(d, e, measured).Ok? {
          ActedSmall(d, D.Do(e, measured));
          RecomputedSmall(D.Perform(d, e, measured).value, todo, i + 1, routes, measured);
        }
      }
    }
  }

  lemma EditedKeeps(w: C.World, a: D.Action, routes: C.Routes, measured: nat, save: C.Save)
    requires Inv(w) && Fits(w.state.draft, a)
    ensures Inv(C.Edited(w, a, routes, measured, save))
  {
    match D.Act(w.state.draft, a) {
      case Ok(draft) =>
        ActedSmall(w.state.draft, a);
        RecomputedSmall(C.Filtered(draft), C.Filtered(draft).content.invalidatedLegIndexes, 0, routes, measured);
      case _ =>
    }
  }

  lemma SelectedKeeps(w: C.World, e: D.Edit, measured: nat, save: C.Save)
    requires Inv(w) && !e.Add?
    ensures Inv(C.Selected(w, e, measured, save))
  {
    match D.Perform(w.state.draft, e, measured) {
      case Ok(draft) => ActedSmall(w.state.draft, D.Do(e, measured));
      case _ =>
    }
  }

  lemma RequestKeeps(w: C.World, online: bool, newKey: C.Key, measured: nat, points: nat, save: C.Save)
    requires Inv(w)
    ensures Inv(C.RequestPublish(w, online, newKey, measured, points, save))
  {
    var d := w.state.draft;
    var editable := if d.status == D.Ready then D.Resume(d).value else d;
    var e := D.SetName(w.state.nameInput);
    if D.Perform(editable, e, measured).Ok? {
      ActedSmall(editable, D.Do(e, measured));
    }
  }

  /** Only complete drafts are sent. */
  lemma CompleteIsSendable(c: D.Content)
    requires Small(c) && D.Complete(c)
    ensures Sendable(C.PayloadOf(c))
  {
    forall i: nat | i < D.Legs(c)
      ensures |P.PointsOf(c.legResults, i)| >= 2
    {
    }
  }

  lemma ConfirmKeeps(
    w: C.World, online: bool, newKey: C.Key, points: nat, before: C.Save, reply: C.Reply, after: C.Save
  )
    requires Inv(w)
    ensures Inv(C.ConfirmPublish(w, online, newKey, points, before, reply, after))
  {
    var d := w.state.draft;
    if D.Complete(d.content) && (d.status == D.Publishing || d.status == D.Ready) {
      var publishing := if d.status == D.Publishing then d else D.Transition(d, D.Ready, D.Publishing).value;
      var key := if w.state.pendingPublishKey.Some? then w.state.pendingPublishKey.value else newKey;
      SentKeeps(w, publishing, key, before, reply, after);
    }
  }

  lemma SentKeeps(w: C.World, publishing: D.Draft, key: C.Key, before: C.Save, reply: C.Reply, after: C.Save)
    requires Inv(w) && publishing.status == D.Publishing
    requires SmallDraft(publishing) && D.Complete(publishing.content)
    ensures Inv(C.Sent(w, publishing, key, before, reply, after))
  {
    CompleteIsSendable(publishing.content);
    var held := C.Held(w, publishing, key, before);
    SettledKeeps(held.(sent := held.sent + [C.Sending(key, C.PayloadOf(publishing.content))]), reply, after);
  }

  lemma SettledKeeps(w: C.World, reply: C.Reply, save: C.Save)
    requires Inv(w) && w.state.draft.status == D.Publishing
    ensures Inv(C.Settled(w, reply, save))
  {
  }

  lemma StepKeeps(w: C.World, e: C.Event)
    requires Inv(w)
    ensures Inv(C.Step(w, e))
  {
    match e
    case Tapped(at, routes, measured, save) => TapKeeps(w, at, routes, measured, save);
    case Acted(a, routes, measured, save) => ActKeeps(w, a, routes, measured, save);
    case RangeSet(startM, endM, measured, save) => SelectedKeeps(w, D.Trim(startM, endM), measured, save);
    case RangeReset(measured, save) => SelectedKeeps(w, D.ResetTrim, measured, save);
    case Requested(online, newKey, measured, points, save) => RequestKeeps(w, online, newKey, measured, points, save);
    case Confirmed(online, newKey, points, before, reply, after) =>
      ConfirmKeeps(w, online, newKey, points, before, reply, after);
    case Cancelled(save) => ResumeKeeps(w, save);
    case Resumed(save) => ResumeKeeps(w, save);
    case Cleared(save) => RenewedKeeps(w, "", save);
    case Named(value, save) => RenewedKeeps(w, value, save);
    case Booted(corrupt) => BootKeeps(w, corrupt);
    case Start => RenewedKeeps(w, "", C.Save(false, false));
    case MoveBegun(id) => TargetKeeps(w, Some(id));
    case MoveCancelled => TargetKeeps(w, None);
  }

  lemma ActKeeps(w: C.World, a: D.Action, routes: C.Routes, measured: nat, save: C.Save)
    requires Inv(w)
    ensures C.RoutedAction(a) ==> Inv(C.Edited(w, a, routes, measured, save))
  {
    if C.RoutedAction(a) {
      EditedKeeps(w, a, routes, measured, save);
    }
  }

  lemma TargetKeeps(w: C.World, target: Option<nat>)
    requires Inv(w)
    ensures Inv(w.(state := w.state.(moveTargetId := target)))
  {
  }

  lemma BootKeeps(w: C.World, corrupt: bool)
    requires Inv(w)
    ensures Inv(C.Boot(w, corrupt))
  {
  }

  lemma TapKeeps(w: C.World, at: D.Position, routes: C.Routes, measured: nat, save: C.Save)
    requires Inv(w)
    ensures Inv(C.TapPoint(w, at, routes, measured, save))
  {
    if w.state.moveTargetId.Some? {
      EditedKeeps(w, D.Do(D.Move(w.state.moveTargetId.value, at), measured), routes, measured, save);
    } else if |w.state.draft.content.controlPoints| < C.MAX_CONTROL_POINTS {
      EditedKeeps(w, D.Do(D.Add(at), measured), routes, measured, save);
    }
  }

  lemma ResumeKeeps(w: C.World, save: C.Save)
    requires Inv(w)
    ensures Inv(C.ResumeEditing(w, save)) && Inv(C.CancelPublish(w, save))
  {
  }

  lemma RenewedKeeps(w: C.World, value: string, save: C.Save)
    requires Inv(w)
    ensures Inv(C.NewDraft(w, save)) && Inv(C.SetName(w, value, save)) && Inv(w.(state := C.Fresh()))
  {
  }

  lemma {:induction false} RunKeeps(events: seq<C.Event>)
    ensures Inv(C.Run(events))
  {
    if events != [] {
      var last := |events| - 1;
      RunKeeps(events[..last]);
      StepKeeps(C.Run(events[..last]), events[last]);
    }
  }

  /** In every run the app remembers fifty edits at most. */
  lemma AppHistory(events: seq<C.Event>)
    ensures var d := C.Run(events).state.draft;
            d.historyLimit == 50 && |d.undoStack| + |d.redoStack| <= 50 && |d.content.controlPoints| <= 16
  {
    RunKeeps(events);
  }

  /** The server's verdict on the control points of a payload whose trimmed route is `geometry`. */
  function VerdictOf(p: C.Payload, geometry: seq<D.Position>): P.Verdict
    requires |geometry| >= 2
  {
    P.NormalizeControlPoints(P.ControlPoints(geometry, P.InnerStops(p.legs, LegsOf(p))), |geometry|)
  }

  /** In every run, whatever the app sends passes the server's test of the
      control points, except a loop of sixteen points whose stops all lie apart. */
  lemma SentControlPoints(events: seq<C.Event>, i: nat, geometry: seq<D.Position>)
    requires i < |C.Run(events).sent| && |geometry| >= 2
    ensures var p := C.Run(events).sent[i].payload;
            VerdictOf(p, geometry)
            == if p.closedLoop && p.controlPoints == 16 && P.Apart(geometry, P.InnerStops(p.legs, LegsOf(p)))
               then P.RefusedWith(413) else P.Taken
  {
    RunKeeps(events);
    var p := C.Run(events).sent[i].payload;
    P.VerdictOnDraft(p.legs, p.controlPoints, p.closedLoop, geometry);
  }

  // A run that sends a loop of sixteen points.

  const SAVED := C.Save(true, true)

  /** Points that were tapped in a row, each leg routed straight. */
  function Legs(p: seq<D.Position>, closedLoop: bool): (r: P.Legs)
    requires p != []
    ensures |r| == D.LegCount(|p|, closedLoop && |p| > 1)
    ensures forall i | 0 <= i < |r| ::
              r[i] == Some(D.Leg(p[i], p[D.Next(i, |p|)], [p[i], p[D.Next(i, |p|)]]))
  {
    seq(D.LegCount(|p|, closedLoop && |p| > 1), i requires 0 <= i < |p| =>
      Some(D.Leg(p[i], p[D.Next(i, |p|)], [p[i], p[D.Next(i, |p|)]])))
  }

  function Points(p: seq<D.Position>): (r: seq<D.ControlPoint>)
    ensures |r| == |p| && forall i | 0 <= i < |p| :: r[i] == D.ControlPoint(i + 1, p[i])
  {
    if p == [] then [] else Points(p[..|p| - 1]) + [D.ControlPoint(|p|, p[|p| - 1])]
  }

  function Tapped(p: seq<D.Position>, closedLoop: bool): D.Content
    requires p != []
  {
    D.Content("", Points(p), closedLoop, Legs(p, closedLoop), {}, None, |p| + 1)
  }

  /** The app is editing this content and has sent nothing. */
  predicate Edits(w: C.World, c: D.Content) {
    && w.state.draft.status == D.Editing && w.state.draft.content == c
    && w.state.moveTargetId.None? && w.state.pendingPublishKey.None? && w.sent == [] && w.used == {}
  }

  /** A listed leg is routed, and the others are passed over. */
  lemma {:induction false} RecomputedOne(d: D.Draft, k: nat, i: nat, routes: C.Routes, measured: nat)
    requires d.status == D.Editing && i <= k < D.Legs(d.content) && k in routes && |routes[k]| >= 2
    ensures C.Recomputed(d, {k}, i, routes, measured)
            == D.Perform(d, D.SetLeg(k, C.LegFor(d.content, k, routes[k])), measured).value
    decreases k - i
  {
    if i < k {
      RecomputedOne(d, k, i + 1, routes, measured);
    } else {
      var v := D.Perform(d, D.SetLeg(k, C.LegFor(d.content, k, routes[k])), measured).value;
      RecomputedNone(v, k, k + 1, routes, measured);
    }
  }

  lemma {:induction false} RecomputedNone(d: D.Draft, k: nat, i: nat, routes: C.Routes, measured: nat)
    requires i > k
    ensures C.Recomputed(d, {k}, i, routes, measured) == d
    decreases D.Legs(d.content) - i
  {
    if i < D.Legs(d.content) {
      RecomputedNone(d, k, i + 1, routes, measured);
    }
  }

  function Route(p: seq<D.Position>, i: nat): C.Routes
    requires i < |p|
  {
    map[i := [p[i], p[D.Next(i, |p|)]]]
  }

  /** An edit that leaves leg i of these points to be routed. */
  lemma LegRouted(w: C.World, draft: D.Draft, p: seq<D.Position>, closedLoop: bool, i: nat)
    requires |p| >= 2 && i < D.LegCount(|p|, closedLoop)
    requires draft.status == D.Editing
    requires draft.content == Tapped(p, closedLoop).(legResults := Legs(p, closedLoop)[i := None],
                                                     invalidatedLegIndexes := {i})
    ensures C.FinishEdit(w, draft, Route(p, i), 0, SAVED).state.draft.content == Tapped(p, closedLoop)
    ensures C.FinishEdit(w, draft, Route(p, i), 0, SAVED).state.draft.status == D.Editing
  {
    assert C.Filtered(draft).content.invalidatedLegIndexes == {i};
    RecomputedOne(C.Filtered(draft), i, 0, Route(p, i), 0);
    var leg := C.LegFor(draft.content, i, Route(p, i)[i]);
    assert Legs(p, closedLoop)[i := None][i := Some(leg)] == Legs(p, closedLoop);
    assert {i} - {i} == {};
  }

  function Tap(p: seq<D.Position>): C.Event
    requires p != []
  {
    C.Tapped(p[|p| - 1], if |p| == 1 then map[] else Route(p, |p| - 2), 0, SAVED)
  }

  lemma AddedPoint(p: seq<D.Position>)
    requires |p| >= 2
    ensures D.Added(Tapped(p[..|p| - 1], false), p[|p| - 1])
            == Tapped(p, false).(legResults := Legs(p, false)[|p| - 2 := None], invalidatedLegIndexes := {|p| - 2})
  {
    var c := D.Added(Tapped(p[..|p| - 1], false), p[|p| - 1]);
    assert c.legResults == Legs(p, false)[|p| - 2 := None];
    assert c.invalidatedLegIndexes == {|p| - 2};
  }

  lemma TapOne(w: C.World, p: seq<D.Position>)
    requires 0 < |p| <= C.MAX_CONTROL_POINTS
    requires Edits(w, if |p| == 1 then D.EMPTY else Tapped(p[..|p| - 1], false))
    ensures Edits(C.Step(w, Tap(p)), Tapped(p, false))
  {
    var draft := D.Perform(w.state.draft, D.Add(p[|p| - 1]), 0).value;
    if |p| == 1 {
      assert draft.content == Tapped(p, false);
      assert C.Filtered(draft).content.invalidatedLegIndexes == {};
    } else {
      AddedPoint(p);
      LegRouted(w, draft, p, false, |p| - 2);
    }
  }

  function Taps(p: seq<D.Position>): (r: seq<C.Event>)
    ensures |r| == |p|
  {
    if p == [] then [] else Taps(p[..|p| - 1]) + [Tap(p)]
  }

  lemma {:induction false} TapsReach(p: seq<D.Position>)
    requires |p| <= C.MAX_CONTROL_POINTS
    ensures Edits(C.Run(Taps(p)), if p == [] then D.EMPTY else Tapped(p, false))
    ensures C.FreshKeys(Taps(p))
  {
    if p != [] {
      var front := p[..|p| - 1];
      TapsReach(front);
      TapOne(C.Run(Taps(front)), p);
      OneMore(Taps(front), Tap(p));
    }
  }

  lemma OneMore(events: seq<C.Event>, e: C.Event)
    requires C.FreshKeys(events) && C.DrawsFresh(C.Run(events), e)
    ensures C.Run(events + [e]) == C.Step(C.Run(events), e) && C.FreshKeys(events + [e])
  {
    var all := events + [e];
    assert all[..|events|] == events;
    forall k | 0 <= k < |all|
      ensures C.DrawsFresh(C.Run(all[..k]), all[k])
    {
      if k < |events| {
        assert all[..k] == events[..k];
      }
    }
  }

  function CloseLoop(p: seq<D.Position>): C.Event
    requires p != []
  {
    C.Acted(D.Do(D.SetLoop(true), 0), Route(p, |p| - 1), 0, SAVED)
  }

  lemma LoopCloses(w: C.World, p: seq<D.Position>)
    requires |p| >= 2 && Edits(w, Tapped(p, false))
    ensures Edits(C.Step(w, CloseLoop(p)), Tapped(p, true))
  {
    var draft := D.Perform(w.state.draft, D.SetLoop(true), 0).value;
    assert draft.content.legResults == Legs(p, true)[|p| - 1 := None];
    assert draft.content.invalidatedLegIndexes == {|p| - 1};
    LegRouted(w, draft, p, true, |p| - 1);
  }

  /** The loop is named, offered and sent; `points` is the length of its route. */
  lemma LoopSent(w: C.World, p: seq<D.Position>, points: nat)
    requires |p| >= 2 && points >= 2 && Edits(w, Tapped(p, true))
    ensures var named := C.Step(w, C.Named("A", SAVED));
            var offered := C.Step(named, C.Requested(true, 0, 0, points, SAVED));
            var done := C.Step(offered, C.Confirmed(true, 1, points, SAVED, C.NoReply, SAVED));
            && 0 !in named.used && 1 !in offered.used
            && done.sent == [C.Sending(0, C.PayloadOf(Tapped(p, true).(name := "A")))]
  {
    var named := C.Step(w, C.Named("A", SAVED));
    LoopOffered(named, p, points);
    var offered := C.Step(named, C.Requested(true, 0, 0, points, SAVED));
    OfferSent(offered, p, points);
  }

  predicate Offers(w: C.World, c: D.Content) {
    && w.state.draft.status == D.Ready && w.state.draft.content == c
    && w.state.publishStatus == C.Confirming && w.state.pendingPublishKey == Some(0)
    && w.sent == [] && w.used == {0}
  }

  lemma LoopOffered(w: C.World, p: seq<D.Position>, points: nat)
    requires |p| >= 2 && points >= 2 && Edits(w, Tapped(p, true)) && w.state.nameInput == "A"
    ensures Offers(C.Step(w, C.Requested(true, 0, 0, points, SAVED)), Tapped(p, true).(name := "A"))
  {
    LetterIsName();
    assert D.Complete(Tapped(p, true).(name := "A"));
  }

  lemma OfferSent(w: C.World, p: seq<D.Position>, points: nat)
    requires |p| >= 2 && points >= 2 && Offers(w, Tapped(p, true).(name := "A"))
    ensures C.Step(w, C.Confirmed(true, 1, points, SAVED, C.NoReply, SAVED)).sent
            == [C.Sending(0, C.PayloadOf(Tapped(p, true).(name := "A")))]
  {
    LetterIsName();
    assert D.Complete(Tapped(p, true).(name := "A"));
  }

  lemma LetterIsName()
    ensures D.NormalizeSegmentName("A") == Ok("A")
  {
    assert D.Squeezed("A"[1..], true, false) == "";
    assert D.Squeezed("A", false, false) == "A";
  }

  lemma LoopUnbroken(p: seq<D.Position>)
    requires |p| >= 2
    ensures P.Unbroken(Legs(p, true), |p|)
    ensures forall i: nat | i < |p| :: P.StartOf(Legs(p, true), i) == p[i]
  {
    var legs := Legs(p, true);
    assert forall i: nat | i < |p| :: P.PointsOf(legs, i) == [p[i], p[D.Next(i, |p|)]];
  }

  /** Sixteen taps at different positions, the loop closed and every leg routed:
      the app offers the loop and sends it, and the server refuses it. */
  lemma LoopOfSixteenRefused(p: seq<D.Position>) returns (events: seq<C.Event>)
    requires |p| == 16 && forall i, j | 0 <= i < j < |p| :: p[i] != p[j]
    ensures C.FreshKeys(events) && |C.Run(events).sent| == 1
    ensures var sent := C.Run(events).sent[0].payload;
            var route := P.ComposedGeometry(sent.legs, LegsOf(sent));
            && sent.selection.None? && |route| >= 2 && VerdictOf(sent, route) == P.RefusedWith(413)
  {
    var legs := Legs(p, true);
    LoopUnbroken(p);
    assert P.DifferentStarts(legs, 16);
    P.LoopOfSixteen(legs);
    var points := |P.ComposedGeometry(legs, 16)|;
    TapsReach(p);
    LoopCloses(C.Run(Taps(p)), p);
    OneMore(Taps(p), CloseLoop(p));
    events := SendLoop(Taps(p) + [CloseLoop(p)], p, points);
  }

  lemma SendLoop(looped: seq<C.Event>, p: seq<D.Position>, points: nat) returns (events: seq<C.Event>)
    requires |p| >= 2 && points >= 2 && C.FreshKeys(looped) && Edits(C.Run(looped), Tapped(p, true))
    ensures C.FreshKeys(events)
    ensures C.Run(events).sent == [C.Sending(0, C.PayloadOf(Tapped(p, true).(name := "A")))]
  {
    LoopSent(C.Run(looped), p, points);
    OneMore(looped, C.Named("A", SAVED));
    var named := looped + [C.Named("A", SAVED)];
    OneMore(named, C.Requested(true, 0, 0, points, SAVED));
    var offered := named + [C.Requested(true, 0, 0, points, SAVED)];
    OneMore(offered, C.Confirmed(true, 1, points, SAVED, C.NoReply, SAVED));
    events := offered + [C.Confirmed(true, 1, points, SAVED, C.NoReply, SAVED)];
  }
}
