/** The app's controller: edits with local routing, and publication under an
    idempotency key that is kept for retries, across failures and restarts.
    Calls do not overlap; saving, routing and the network may fail. */
module Controller {
  import opened Common
  import opened Outcomes
  import D = Draft
  import L = LegList

  type Key = nat
  type Id = nat

  /** What the published route is made from. */
  datatype Payload = Payload(
    name: string,
    legs: seq<Option<D.Leg>>,
    closedLoop: bool,
    controlPoints: nat,
    selection: Option<D.Selection>)

  datatype PublishStatus = Idle | Offline | Confirming | Publishing | Failed | Published

  datatype State = State(
    draft: D.Draft,
    nameInput: string,
    publishStatus: PublishStatus,
    pendingPublishKey: Option<Key>,
    lastPublishedId: Option<Id>,
    moveTargetId: Option<nat>)

  /** What is written to the local store. */
  datatype Envelope = Envelope(draft: D.Draft, nameInput: string, pendingPublishKey: Option<Key>)

  /** A publication handed to the network. */
  datatype Sending = Sending(key: Key, payload: Payload)

  /** The running app, its store, everything sent so far, and all keys drawn. */
  datatype World = World(state: State, saved: Option<Envelope>, sent: seq<Sending>, used: set<Key>)

  const HISTORY_LIMIT: nat := 50
  const MAX_CONTROL_POINTS: nat := 16

  function Fresh(): State {
    State(D.CreateDraft(HISTORY_LIMIT).value, "", Idle, None, None, None)
  }

  function PayloadOf(c: D.Content): Payload {
    var name := D.NormalizeSegmentName(c.name);
    Payload(if name.Ok? then name.value else "", c.legResults, c.closedLoop, |c.controlPoints|, c.selection)
  }

  function EnvelopeOf(s: State): Envelope {
    Envelope(s.draft, s.nameInput, s.pendingPublishKey)
  }

  /** Whether a write took effect, and whether it was reported to have. */
  datatype Save = Save(stored: bool, reported: bool)

  function Persisted(w: World, save: Save): World {
    if save.stored then w.(saved := Some(EnvelopeOf(w.state))) else w
  }

  function MarkEdited(s: State): State {
    s.(publishStatus := Idle, pendingPublishKey := None, lastPublishedId := None)
  }

  /** The routes found from here on: a leg without an entry has none. */
  type Routes = map<nat, seq<D.Position>>

  function LegFor(c: D.Content, i: nat, geometry: seq<D.Position>): D.Leg
    requires i < |c.controlPoints|
  {
    var points := c.controlPoints;
    D.Leg(points[i].at, if i == |points| - 1 then points[0].at else points[i + 1].at, geometry)
  }

  /** The listed legs from i on are computed in order, up to the first that fails. */
  function Recomputed(d: D.Draft, todo: set<int>, i: nat, routes: Routes, measured: nat): D.Draft
    decreases D.Legs(d.content) - i
  {
    if i >= D.Legs(d.content) then d
    else if i !in todo then Recomputed(d, todo, i + 1, routes, measured)
    else if i !in routes then d
    else
      match D.Perform(d, D.SetLeg(i, LegFor(d.content, i, routes[i])), measured)
      case Ok(v) => Recomputed(v, todo, i + 1, routes, measured)
      case _ => d
  }

  /** Legs that no longer exist are taken off the list first. */
  function Filtered(d: D.Draft): D.Draft {
    d.(content := d.content.(invalidatedLegIndexes :=
         set i | i in d.content.invalidatedLegIndexes && i < D.Legs(d.content)))
  }

  function RecomputeInvalidated(d: D.Draft, routes: Routes, measured: nat): D.Draft {
    Recomputed(Filtered(d), Filtered(d).content.invalidatedLegIndexes, 0, routes, measured)
  }

  function FinishEdit(w: World, draft: D.Draft, routes: Routes, measured: nat, save: Save): World {
    var edited := MarkEdited(w.state.(draft := draft, moveTargetId := None));
    Persisted(w.(state := edited.(draft := RecomputeInvalidated(draft, routes, measured))), save)
  }

  /** An action on the draft that is followed by routing, unless it throws. */
  function Edited(w: World, a: D.Action, routes: Routes, measured: nat, save: Save): World {
    match D.Act(w.state.draft, a)
    case Ok(draft) => FinishEdit(w, draft, routes, measured, save)
    case _ => w
  }

  function TapPoint(w: World, at: D.Position, routes: Routes, measured: nat, save: Save): World {
    if w.state.moveTargetId.Some? then
      Edited(w, D.Do(D.Move(w.state.moveTargetId.value, at), measured), routes, measured, save)
    else if |w.state.draft.content.controlPoints| >= MAX_CONTROL_POINTS then w
    else Edited(w, D.Do(D.Add(at), measured), routes, measured, save)
  }

  /** A new publication range; the draft's legs stay. */
  function Selected(w: World, e: D.Edit, measured: nat, save: Save): World {
    match D.Perform(w.state.draft, e, measured)
    case Ok(draft) => Persisted(w.(state := MarkEdited(w.state.(draft := draft))), save)
    case _ => w
  }

  function SetName(w: World, value: string, save: Save): World {
    Persisted(w.(state := MarkEdited(w.state.(nameInput := value))), save)
  }

  function NewDraft(w: World, save: Save): World {
    Persisted(w.(state := Fresh()), save)
  }

  /** The draft as it is offered for confirmation. */
  function Offered(s: State, measured: nat, points: nat): Outcome<D.Draft> {
    var editable := if s.draft.status == D.Ready then D.Resume(s.draft).value else s.draft;
    match D.Perform(editable, D.SetName(s.nameInput), measured)
    case Ok(named) => D.Prepare(named, points)
    case _ => TypeError
  }

  function RequestPublish(w: World, online: bool, newKey: Key, measured: nat, points: nat, save: Save): World {
    if !online then w.(state := w.state.(publishStatus := Offline))
    else
      match Offered(w.state, measured, points)
      case Ok(ready) =>
        var s := w.state.(draft := ready, nameInput := ready.content.name, publishStatus := Confirming);
        if s.pendingPublishKey.Some? then Persisted(w.(state := s), save)
        else Persisted(w.(state := s.(pendingPublishKey := Some(newKey)), used := w.used + {newKey}), save)
      case _ => w
  }

  function CancelPublish(w: World, save: Save): World {
    var draft := if w.state.draft.status == D.Ready then D.Resume(w.state.draft).value else w.state.draft;
    Persisted(w.(state := w.state.(draft := draft, publishStatus := Idle, pendingPublishKey := None)), save)
  }

  /** The network's answer; without one the app may have been stopped. */
  datatype Reply = Accepted(id: Id) | Refused | NoReply

  function Settled(w: World, reply: Reply, save: Save): World
    requires w.state.draft.status == D.Publishing
  {
    match reply
    case NoReply => w
    case Accepted(id) =>
      var draft := D.Transition(w.state.draft, D.Publishing, D.Published).value;
      Persisted(w.(state := w.state.(draft := draft, publishStatus := Published, pendingPublishKey := None,
                                     lastPublishedId := Some(id))), save)
    case Refused =>
      var draft := D.Transition(w.state.draft, D.Publishing, D.Ready).value;
      Persisted(w.(state := w.state.(draft := draft, publishStatus := Failed)), save)
  }

  /** The draft is no longer editable and its key is saved before anything is sent. */
  function Held(w: World, publishing: D.Draft, key: Key, before: Save): World {
    var s := w.state.(draft := publishing, pendingPublishKey := Some(key), publishStatus := Publishing);
    Persisted(w.(state := s, used := w.used + {key}), before)
  }

  /** Nothing is sent unless saving was reported to have worked. */
  function Sent(w: World, publishing: D.Draft, key: Key, before: Save, reply: Reply, after: Save): World
    requires publishing.status == D.Publishing
  {
    var held := Held(w, publishing, key, before);
    if !before.reported then held
    else Settled(held.(sent := held.sent + [Sending(key, PayloadOf(publishing.content))]), reply, after)
  }

  function ConfirmPublish(
    w: World, online: bool, newKey: Key, points: nat, before: Save, reply: Reply, after: Save
  ): World {
    var d := w.state.draft;
    if w.state.publishStatus != Confirming && w.state.publishStatus != Failed then w
    else if !online then w.(state := w.state.(publishStatus := Offline))
    else if d.status != D.Publishing && d.status != D.Ready then w
    else if !D.Payable(d.content, points) then w
    else
      var publishing := if d.status == D.Publishing then d else D.Transition(d, D.Ready, D.Publishing).value;
      var key := if w.state.pendingPublishKey.Some? then w.state.pendingPublishKey.value else newKey;
      Sent(w, publishing, key, before, reply, after)
  }

  function ResumeEditing(w: World, save: Save): World {
    match D.Resume(w.state.draft)
    case Ok(draft) => Persisted(w.(state := w.state.(draft := draft, publishStatus := Idle)), save)
    case _ => w
  }

  /** Loads what was saved, unless there is nothing or it is corrupt. */
  function Boot(w: World, corrupt: bool): World {
    var s :=
      if w.saved.None? || corrupt then w.state
      else
        var e := w.saved.value;
        var draft :=
          if e.draft.status == D.Publishing then D.Transition(e.draft, D.Publishing, D.Ready).value else e.draft;
        w.state.(draft := draft, nameInput := e.nameInput, pendingPublishKey := e.pendingPublishKey);
    w.(state := s.(publishStatus := if s.pendingPublishKey.Some? then Failed else Idle))
  }

  datatype Event =
    | Start
    | Booted(corrupt: bool)
    | Tapped(at: D.Position, routes: Routes, measured: nat, save: Save)
    | Acted(action: D.Action, routes: Routes, measured: nat, save: Save)
    | MoveBegun(id: nat)
    | MoveCancelled
    | Cleared(save: Save)
    | RangeSet(startM: real, endM: real, measured: nat, save: Save)
    | RangeReset(measured: nat, save: Save)
    | Named(value: string, save: Save)
    | Requested(online: bool, newKey: Key, measured: nat, points: nat, save: Save)
    | Cancelled(save: Save)
    | Confirmed(online: bool, newKey: Key, points: nat, before: Save, reply: Reply, after: Save)
    | Resumed(save: Save)

  /** The actions that the controller routes after: edits of the points, undo and redo. */
  predicate RoutedAction(a: D.Action) {
    a.Undo? || a.Redo? || (a.Do? && (a.edit.Remove? || a.edit.Reorder? || a.edit.SetLoop?))
  }

  function Step(w: World, e: Event): World {
    match e
    case Start => w.(state := Fresh())
    case Booted(corrupt) => Boot(w, corrupt)
    case Tapped(at, routes, measured, save) => TapPoint(w, at, routes, measured, save)
    case Acted(a, routes, measured, save) => if RoutedAction(a) then Edited(w, a, routes, measured, save) else w
    case MoveBegun(id) =>
      if D.FindPoint(w.state.draft.content.controlPoints, id).None? then w
      else w.(state := w.state.(moveTargetId := Some(id)))
    case MoveCancelled => w.(state := w.state.(moveTargetId := None))
    case Cleared(save) => NewDraft(w, save)
    case RangeSet(startM, endM, measured, save) => Selected(w, D.Trim(startM, endM), measured, save)
    case RangeReset(measured, save) => Selected(w, D.ResetTrim, measured, save)
    case Named(value, save) => SetName(w, value, save)
    case Requested(online, newKey, measured, points, save) => RequestPublish(w, online, newKey, measured, points, save)
    case Cancelled(save) => CancelPublish(w, save)
    case Confirmed(online, newKey, points, before, reply, after) =>
      ConfirmPublish(w, online, newKey, points, before, reply, after)
    case Resumed(save) => ResumeEditing(w, save)
  }

  /** A key that an event draws has not been drawn before. */
  predicate DrawsFresh(w: World, e: Event) {
    match e
    case Requested(_, newKey, _, _, _) => newKey !in w.used
    case Confirmed(_, newKey, _, _, _, _) => newKey !in w.used
    case _ => true
  }

  function Run(events: seq<Event>): World {
    if events == [] then World(Fresh(), None, [], {})
    else Step(Run(events[..|events| - 1]), events[|events| - 1])
  }

  ghost predicate FreshKeys(events: seq<Event>) {
    forall k | 0 <= k < |events| :: DrawsFresh(Run(events[..k]), events[k])
  }

  /** A key that was sent keeps its payload. */
  predicate SameKeySamePayload(sent: seq<Sending>) {
    forall i, j | 0 <= i < j < |sent| && sent[i].key == sent[j].key :: sent[i].payload == sent[j].payload
  }

  /** Whatever was sent under the envelope's key is what its draft would send. */
  predicate Faithful(e: Envelope, sent: seq<Sending>) {
    e.pendingPublishKey.Some? ==>
      && D.NormalizeSegmentName(e.nameInput) == Ok(e.draft.content.name)
      && D.NormalizeSegmentName(e.draft.content.name) == Ok(e.draft.content.name)
      && forall i | 0 <= i < |sent| && sent[i].key == e.pendingPublishKey.value ::
           sent[i].payload == PayloadOf(e.draft.content)
  }

  predicate KeysUsed(w: World) {
    && (w.state.pendingPublishKey.Some? ==> w.state.pendingPublishKey.value in w.used)
    && (w.saved.Some? && w.saved.value.pendingPublishKey.Some? ==> w.saved.value.pendingPublishKey.value in w.used)
    && forall i | 0 <= i < |w.sent| :: w.sent[i].key in w.used
  }

  /** The store may lag behind, but under one key it holds the same route. */
  predicate Agree(w: World) {
    w.saved.Some? && w.state.pendingPublishKey.Some? && w.saved.value.pendingPublishKey == w.state.pendingPublishKey
    ==> PayloadOf(w.saved.value.draft.content) == PayloadOf(w.state.draft.content)
  }

  /** Whoever may confirm has a key. */
  predicate Armed(s: State) {
    s.publishStatus in {Confirming, Failed, Publishing} ==> s.pendingPublishKey.Some?
  }

  predicate Inv(w: World) {
    && Armed(w.state)
    && SameKeySamePayload(w.sent) && KeysUsed(w) && Agree(w)
    && Faithful(EnvelopeOf(w.state), w.sent)
    && (w.saved.Some? ==> Faithful(w.saved.value, w.sent))
  }

  lemma PersistedKeeps(w: World, save: Save)
    requires Inv(w)
    ensures Inv(Persisted(w, save))
  {
  }

  lemma UnkeyedKeeps(w: World, s: State)
    requires Inv(w) && s.pendingPublishKey.None? && Armed(s)
    ensures Inv(w.(state := s))
  {
  }

  lemma OfferedName(s: State, measured: nat, points: nat)
    requires Offered(s, measured, points).Ok?
    ensures var c := Offered(s, measured, points).value.content;
            && D.NormalizeSegmentName(s.nameInput) == Ok(c.name)
            && D.NormalizeSegmentName(c.name) == Ok(c.name)
            && c == s.draft.content.(name := c.name)
  {
    D.NormalizedTwice(s.nameInput);
  }

  lemma RequestKeeps(w: World, online: bool, newKey: Key, measured: nat, points: nat, save: Save)
    requires Inv(w) && newKey !in w.used
    ensures Inv(RequestPublish(w, online, newKey, measured, points, save))
  {
    if online && Offered(w.state, measured, points).Ok? {
      OfferedName(w.state, measured, points);
    }
  }

  lemma SettledKeeps(w: World, reply: Reply, save: Save)
    requires Inv(w) && w.state.draft.status == D.Publishing && w.state.pendingPublishKey.Some?
    ensures Inv(Settled(w, reply, save))
  {
  }

  /** The draft leaves editing under a key that is kept. */
  lemma HeldKeeps(w: World, publishing: D.Draft, key: Key, before: Save)
    requires Inv(w) && w.state.pendingPublishKey == Some(key) && publishing.content == w.state.draft.content
    ensures Inv(Held(w, publishing, key, before))
  {
    assert w.used + {key} == w.used;
    PersistedKeeps(w.(state := w.state.(draft := publishing, publishStatus := Publishing)), before);
  }

  lemma SendingKeeps(w: World, key: Key)
    requires Inv(w) && w.state.pendingPublishKey == Some(key)
    ensures Inv(w.(sent := w.sent + [Sending(key, PayloadOf(w.state.draft.content))]))
  {
  }

  lemma ConfirmKeeps(w: World, online: bool, newKey: Key, points: nat, before: Save, reply: Reply, after: Save)
    requires Inv(w)
    ensures Inv(ConfirmPublish(w, online, newKey, points, before, reply, after))
  {
    var d := w.state.draft;
    if w.state.pendingPublishKey.Some? && (d.status == D.Publishing || d.status == D.Ready) {
      var publishing := if d.status == D.Publishing then d else D.Transition(d, D.Ready, D.Publishing).value;
      SentKeeps(w, publishing, w.state.pendingPublishKey.value, before, reply, after);
    }
  }

  lemma SentKeeps(w: World, publishing: D.Draft, key: Key, before: Save, reply: Reply, after: Save)
    requires Inv(w) && w.state.pendingPublishKey == Some(key)
    requires publishing.content == w.state.draft.content && publishing.status == D.Publishing
    ensures Inv(Sent(w, publishing, key, before, reply, after))
  {
    HeldKeeps(w, publishing, key, before);
    var held := Held(w, publishing, key, before);
    SendingKeeps(held, key);
    SettledKeeps(held.(sent := held.sent + [Sending(key, PayloadOf(publishing.content))]), reply, after);
  }

  lemma BootKeeps(w: World, corrupt: bool)
    requires Inv(w)
    ensures Inv(Boot(w, corrupt))
  {
  }

  lemma EditedKeeps(w: World, a: D.Action, routes: Routes, measured: nat, save: Save)
    requires Inv(w)
    ensures Inv(Edited(w, a, routes, measured, save))
  {
  }

  lemma SelectedKeeps(w: World, e: D.Edit, measured: nat, save: Save)
    requires Inv(w)
    ensures Inv(Selected(w, e, measured, save))
  {
    match D.Perform(w.state.draft, e, measured) {
      case Ok(draft) =>
        UnkeyedKeeps(w, MarkEdited(w.state.(draft := draft)));
        PersistedKeeps(w.(state := MarkEdited(w.state.(draft := draft))), save);
      case _ =>
    }
  }

  lemma RenewedKeeps(w: World, value: string, save: Save)
    requires Inv(w)
    ensures Inv(NewDraft(w, save)) && Inv(SetName(w, value, save)) && Inv(w.(state := Fresh()))
  {
    UnkeyedKeeps(w, Fresh());
    PersistedKeeps(w.(state := Fresh()), save);
    UnkeyedKeeps(w, MarkEdited(w.state.(nameInput := value)));
    PersistedKeeps(w.(state := MarkEdited(w.state.(nameInput := value))), save);
  }

  lemma TargetKeeps(w: World, target: Option<nat>)
    requires Inv(w)
    ensures Inv(w.(state := w.state.(moveTargetId := target)))
  {
  }

  lemma ResumeKeeps(w: World, save: Save)
    requires Inv(w)
    ensures Inv(ResumeEditing(w, save)) && Inv(CancelPublish(w, save))
  {
  }

  lemma StepKeeps(w: World, e: Event)
    requires Inv(w) && DrawsFresh(w, e)
    ensures Inv(Step(w, e))
  {
    match e
    case Booted(corrupt) => BootKeeps(w, corrupt);
    case Tapped(at, routes, measured, save) =>
      EditedKeeps(w, D.Do(D.Add(at), measured), routes, measured, save);
      if w.state.moveTargetId.Some? {
        EditedKeeps(w, D.Do(D.Move(w.state.moveTargetId.value, at), measured), routes, measured, save);
      }
    case Acted(a, routes, measured, save) => EditedKeeps(w, a, routes, measured, save);
    case Requested(online, newKey, measured, points, save) => RequestKeeps(w, online, newKey, measured, points, save);
    case Confirmed(online, newKey, points, before, reply, after) =>
      ConfirmKeeps(w, online, newKey, points, before, reply, after);
    case Cancelled(save) => ResumeKeeps(w, save);
    case Resumed(save) => ResumeKeeps(w, save);
    case MoveBegun(id) => TargetKeeps(w, Some(id));
    case MoveCancelled => TargetKeeps(w, None);
    case RangeSet(startM, endM, measured, save) => SelectedKeeps(w, D.Trim(startM, endM), measured, save);
    case RangeReset(measured, save) => SelectedKeeps(w, D.ResetTrim, measured, save);
    case Start => RenewedKeeps(w, "", Save(false, false));
    case Cleared(save) => RenewedKeeps(w, "", save);
    case Named(value, save) => RenewedKeeps(w, value, save);
  }

  lemma {:induction false} RunKeeps(events: seq<Event>)
    requires FreshKeys(events)
    ensures Inv(Run(events))
    decreases |events|
  {
    if events != [] {
      var last := |events| - 1;
      assert forall k | 0 <= k <= last :: events[..last][..k] == events[..k];
      RunKeeps(events[..last]);
      StepKeeps(Run(events[..last]), events[last]);
    }
  }

  /** In every run - edits, failed and lost replies, stale stores and restarts
      in any order - two publications sent under one key are the same. */
  lemma RetriesSendTheSame(events: seq<Event>, i: nat, j: nat)
    requires FreshKeys(events) && i < j < |Run(events).sent|
    requires Run(events).sent[i].key == Run(events).sent[j].key
    ensures Run(events).sent[i].payload == Run(events).sent[j].payload
  {
    RunKeeps(events);
  }

  /** Whether all that a call writes to the store takes effect; starting and
      booting write nothing. */
  predicate WritesTakeEffect(e: Event) {
    match e
    case Tapped(_, _, _, save) => save.stored
    case Acted(_, _, _, save) => save.stored
    case Cleared(save) => save.stored
    case RangeSet(_, _, _, save) => save.stored
    case RangeReset(_, save) => save.stored
    case Named(_, save) => save.stored
    case Requested(_, _, _, _, save) => save.stored
    case Cancelled(save) => save.stored
    case Confirmed(_, _, _, before, _, after) => before.stored && after.stored
    case Resumed(save) => save.stored
    case Start => false
    case Booted(_) => false
    case _ => true
  }

  /** Whatever a call changes in draft, name or key is in the store afterwards. */
  lemma ChangesAreSaved(w: World, e: Event)
    requires WritesTakeEffect(e)
    ensures var s, v := w.state, Step(w, e);
            || v.saved == Some(Envelope(v.state.draft, v.state.nameInput, v.state.pendingPublishKey))
            || (&& v.saved == w.saved && v.state.draft == s.draft && v.state.nameInput == s.nameInput
                && v.state.pendingPublishKey == s.pendingPublishKey)
  {
    match e
    case Tapped(at, routes, measured, save) =>
      EditIsSaved(w, D.Do(D.Add(at), measured), routes, measured, save);
      if w.state.moveTargetId.Some? {
        EditIsSaved(w, D.Do(D.Move(w.state.moveTargetId.value, at), measured), routes, measured, save);
      }
    case Acted(a, routes, measured, save) => EditIsSaved(w, a, routes, measured, save);
    case Confirmed(online, newKey, points, before, reply, after) =>
      ConfirmIsSaved(w, online, newKey, points, before, reply, after);
    case _ =>
  }

  /** An edit that succeeds leaves nothing pending: no key, no moved point, no
      published segment; and it is saved. One that throws changes nothing. */
  lemma EditIsSaved(w: World, a: D.Action, routes: Routes, measured: nat, save: Save)
    ensures var v := Edited(w, a, routes, measured, save);
            if D.Act(w.state.draft, a).Ok? then
              && v.state.publishStatus == Idle && v.state.pendingPublishKey.None? && v.state.lastPublishedId.None?
              && v.state.moveTargetId.None? && v.state.nameInput == w.state.nameInput && v.sent == w.sent
              && (save.stored ==> v.saved == Some(Envelope(v.state.draft, v.state.nameInput, None)))
            else v == w
  {
  }

  lemma ConfirmIsSaved(w: World, online: bool, newKey: Key, points: nat, before: Save, reply: Reply, after: Save)
    requires before.stored && after.stored
    ensures var s, v := w.state, ConfirmPublish(w, online, newKey, points, before, reply, after);
            || v.saved == Some(Envelope(v.state.draft, v.state.nameInput, v.state.pendingPublishKey))
            || (&& v.saved == w.saved && v.state.draft == s.draft && v.state.nameInput == s.nameInput
                && v.state.pendingPublishKey == s.pendingPublishKey)
  {
  }

  /** Cancelling gives the key up and lets the draft be edited again; naming and
      a new range give it up as well. */
  lemma KeyGivenUp(w: World, e: Event)
    requires e.Cancelled? || e.Named? || e.Cleared?
             || ((e.RangeSet? || e.RangeReset?) && Step(w, e).state.draft != w.state.draft)
    ensures var s, v := w.state, Step(w, e).state;
            && v.pendingPublishKey.None? && v.publishStatus == Idle && Step(w, e).sent == w.sent
            && (e.Cancelled? ==>
                  v.draft.content == s.draft.content && v.draft.status == if s.draft.status == D.Ready then D.Editing
                                                                          else s.draft.status)
            && (e.Named? ==> v.nameInput == e.value && v.draft == s.draft)
            && (e.Cleared? ==> v.draft.content == D.EMPTY && v.nameInput == "" && v.lastPublishedId.None?)
  {
  }

  /** What takes no key away: no edit, new draft or cancellation, no answer that
      accepts the publication, and no restart from a store without the key. */
  predicate KeepsKey(w: World, e: Event) {
    match e
    case MoveBegun(_) => true
    case MoveCancelled => true
    case Requested(_, _, _, _, _) => true
    case Resumed(_) => true
    case Confirmed(_, _, _, _, reply, _) => !reply.Accepted?
    case Booted(corrupt) =>
      corrupt || w.saved.None? || w.saved.value.pendingPublishKey == w.state.pendingPublishKey
    case _ => false
  }

  lemma KeyKept(w: World, e: Event)
    requires w.state.pendingPublishKey.Some? && KeepsKey(w, e)
    ensures Step(w, e).state.pendingPublishKey == w.state.pendingPublishKey
  {
  }

  /** Events from m to n, none of which takes the key away. */
  ghost predicate KeyKeptThrough(events: seq<Event>, m: nat, n: nat) {
    m <= n <= |events| && forall k | m <= k < n :: KeepsKeyAt(events, k)
  }

  /** The key that is pending after the first n events. */
  function PendingAfter(events: seq<Event>, n: nat): Option<Key>
    requires n <= |events|
  {
    Run(events[..n]).state.pendingPublishKey
  }

  predicate KeepsKeyAt(events: seq<Event>, k: nat) {
    k < |events| && KeepsKey(Run(events[..k]), events[k])
  }

  lemma KeyKeptAt(events: seq<Event>, k: nat)
    requires KeepsKeyAt(events, k) && PendingAfter(events, k).Some?
    ensures PendingAfter(events, k + 1) == PendingAfter(events, k)
  {
    RunOne(events, k);
    KeyKept(Run(events[..k]), events[k]);
  }

  lemma {:induction false} KeyStays(events: seq<Event>, m: nat, n: nat)
    requires KeyKeptThrough(events, m, n) && PendingAfter(events, m).Some?
    ensures PendingAfter(events, n) == PendingAfter(events, m)
    decreases n
  {
    if m < n {
      KeyStays(events, m, n - 1);
      KeyKeptAt(events, n - 1);
    }
  }

  lemma RunOne(events: seq<Event>, k: nat)
    requires k < |events|
    ensures Run(events[..k + 1]) == Step(Run(events[..k]), events[k])
  {
    assert events[..k + 1][..k] == events[..k];
  }

  /** Event k hands something to the network. */
  ghost predicate Sends(events: seq<Event>, k: nat) {
    k < |events| && |Run(events[..k + 1]).sent| > |Run(events[..k]).sent|
  }

  /** A sending goes out last, under the key that is pending then and afterwards
      unless it is accepted. */
  lemma SendsPending(events: seq<Event>, k: nat)
    requires Sends(events, k)
    ensures var before, after := Run(events[..k]), Run(events[..k + 1]);
            && after.sent[..|before.sent|] == before.sent && |after.sent| == |before.sent| + 1
            && var key := after.sent[|before.sent|].key;
               && (before.state.pendingPublishKey.Some? ==> before.state.pendingPublishKey == Some(key))
               && (KeepsKey(before, events[k]) ==> after.state.pendingPublishKey == Some(key))
  {
    RunOne(events, k);
    var w := Run(events[..k]);
    OnlyConfirmationsSend(w, events[k]);
    match events[k]
    case Confirmed(online, newKey, points, before, reply, after) =>
      ConfirmationSends(w, online, newKey, points, before, reply, after);
    case _ =>
  }

  lemma OnlyConfirmationsSend(w: World, e: Event)
    ensures !e.Confirmed? ==> Step(w, e).sent == w.sent
  {
  }

  lemma ConfirmationSends(w: World, online: bool, newKey: Key, points: nat, before: Save, reply: Reply, after: Save)
    requires |ConfirmPublish(w, online, newKey, points, before, reply, after).sent| > |w.sent|
    ensures var v := ConfirmPublish(w, online, newKey, points, before, reply, after);
            var key := if w.state.pendingPublishKey.Some? then w.state.pendingPublishKey.value else newKey;
            && v.sent == w.sent + [Sending(key, PayloadOf(w.state.draft.content))]
            && (!reply.Accepted? ==> v.state.pendingPublishKey == Some(key))
            && v.state.draft.content == w.state.draft.content && before.reported
            && match reply
               case NoReply =>
                 && v.state.draft.status == D.Publishing
                 && (before.stored ==> v.saved == Some(Envelope(v.state.draft, w.state.nameInput, Some(key))))
               case Refused => v.state.draft.status == D.Ready && v.state.publishStatus == Failed
               case Accepted(id) =>
                 && v.state.draft.status == D.Published && v.state.publishStatus == Published
                 && v.state.pendingPublishKey.None? && v.state.lastPublishedId == Some(id)
  {
  }

  /** A publication whose answer never came, after which the app was stopped and
      started again: it comes back ready under its key, and confirming it once
      more sends the same under the same key. */
  lemma RestartResends(
    w: World, key: Key, points: nat, before: Save, after: Save, newKey: Key, otherKey: Key, again: Save, reply: Reply
  )
    requires w.state.pendingPublishKey == Some(key) && before.stored && again.reported
    requires |ConfirmPublish(w, true, newKey, points, before, NoReply, after).sent| > |w.sent|
    ensures var stopped := ConfirmPublish(w, true, newKey, points, before, NoReply, after);
            var booted := Step(Step(stopped, Start), Booted(false));
            && booted.state.publishStatus == Failed && booted.state.draft.status == D.Ready
            && booted.state.draft.content == w.state.draft.content && booted.state.nameInput == w.state.nameInput
            && booted.state.pendingPublishKey == Some(key)
            && ConfirmPublish(booted, true, otherKey, points, again, reply, after).sent
               == w.sent + [Sending(key, PayloadOf(w.state.draft.content)),
                            Sending(key, PayloadOf(w.state.draft.content))]
  {
    ConfirmationSends(w, true, newKey, points, before, NoReply, after);
    var stopped := ConfirmPublish(w, true, newKey, points, before, NoReply, after);
    var booted := Step(Step(stopped, Start), Booted(false));
    ReadyIsSent(booted, key, points, otherKey, again, reply, after);
  }

  lemma ReadyIsSent(w: World, key: Key, points: nat, newKey: Key, before: Save, reply: Reply, after: Save)
    requires w.state.publishStatus == Failed && w.state.draft.status == D.Ready
    requires D.Payable(w.state.draft.content, points) && w.state.pendingPublishKey == Some(key) && before.reported
    ensures ConfirmPublish(w, true, newKey, points, before, reply, after).sent
            == w.sent + [Sending(key, PayloadOf(w.state.draft.content))]
  {
  }

  /** Two contents with one payload would be published alike. */
  lemma PayloadTells(c: D.Content, d: D.Content)
    requires PayloadOf(c) == PayloadOf(d)
    ensures c.legResults == d.legResults && c.closedLoop == d.closedLoop && c.selection == d.selection
    ensures |c.controlPoints| == |d.controlPoints|
    ensures D.NormalizeSegmentName(c.name).Ok? && D.NormalizeSegmentName(d.name).Ok? ==>
              D.NormalizeSegmentName(c.name) == D.NormalizeSegmentName(d.name)
  {
  }

  /** Exactly when a request for publication is offered for confirmation; then
      only status, name and a key that was missing change. */
  lemma OfferedIff(w: World, online: bool, newKey: Key, measured: nat, points: nat, save: Save)
    ensures var c, v := w.state.draft.content, RequestPublish(w, online, newKey, measured, points, save);
            && (v.state.draft != w.state.draft
                <==> && online && (w.state.draft.status == D.Editing || w.state.draft.status == D.Ready)
                     && D.NormalizeSegmentName(w.state.nameInput).Ok? && D.Complete(c) && points >= 2
                     && c.invalidatedLegIndexes == {} && |c.controlPoints| >= 2)
            && (v.state.draft != w.state.draft ==>
                  && v.state.publishStatus == Confirming
                  && v.state.draft.status == D.Ready && v.state.draft.content == c.(name := v.state.nameInput)
                  && Ok(v.state.nameInput) == D.NormalizeSegmentName(w.state.nameInput)
                  && v.state.pendingPublishKey
                     == (if w.state.pendingPublishKey.Some? then w.state.pendingPublishKey else Some(newKey))
                  && (save.stored ==>
                        v.saved == Some(Envelope(v.state.draft, v.state.nameInput, v.state.pendingPublishKey))))
            && v.sent == w.sent
  {
    if D.NormalizeSegmentName(w.state.nameInput).Ok? {
      D.NormalizedTwice(w.state.nameInput);
    }
  }

  lemma {:induction false} SentGrows(events: seq<Event>, m: nat, n: nat)
    requires m <= n <= |events|
    ensures SentBefore(events, m) <= SentBefore(events, n)
    decreases n
  {
    if m < n {
      SentGrows(events, m, n - 1);
      NextSent(events, n - 1);
      PrefixChain(SentBefore(events, m), SentBefore(events, n - 1), SentBefore(events, n));
    }
  }

  /** What was sent before event k. */
  function SentBefore(events: seq<Event>, k: nat): seq<Sending>
    requires k <= |events|
  {
    Run(events[..k]).sent
  }

  lemma NextSent(events: seq<Event>, k: nat)
    requires k < |events|
    ensures SentBefore(events, k) <= SentBefore(events, k + 1)
  {
    RunOne(events, k);
    SentOnlyGrows(Run(events[..k]), events[k]);
  }

  lemma PrefixChain(a: seq<Sending>, b: seq<Sending>, c: seq<Sending>)
    requires a <= b <= c
    ensures a <= c
  {
  }

  lemma SentOnlyGrows(w: World, e: Event)
    ensures w.sent <= Step(w, e).sent
  {
  }

  /** What event k sends is the next of all sendings. */
  lemma SendAt(events: seq<Event>, k: nat)
    requires Sends(events, k)
    ensures var i := |SentBefore(events, k)|;
            && i < |SentBefore(events, k + 1)| <= |Run(events).sent|
            && Run(events).sent[i] == SentBefore(events, k + 1)[i]
            && (PendingAfter(events, k).Some? ==> PendingAfter(events, k).value == Run(events).sent[i].key)
            && (KeepsKeyAt(events, k) ==> PendingAfter(events, k + 1) == Some(Run(events).sent[i].key))
  {
    SendsPending(events, k);
    SentGrows(events, k + 1, |events|);
    assert events[..|events|] == events;
  }

  /** In every run: two publications with no edit, new draft, cancellation,
      accepting answer or restart without the key between them go out under one
      key, and are the same, however often the first is offered again. */
  lemma RetrySendsTheSameKey(events: seq<Event>, m: nat, n: nat)
    requires m < n && Sends(events, m) && Sends(events, n) && KeyKeptThrough(events, m, n)
    requires FreshKeys(events)
    ensures var first, second := |SentBefore(events, m)|, |SentBefore(events, n)|;
            && first < second < |Run(events).sent|
            && Run(events).sent[first].key == Run(events).sent[second].key
            && Run(events).sent[first].payload == Run(events).sent[second].payload
  {
    SendAt(events, m);
    SendAt(events, n);
    KeyStays(events, m + 1, n);
    SentGrows(events, m + 1, n);
    RetriesSendTheSame(events, |SentBefore(events, m)|, |SentBefore(events, n)|);
  }

  /** The leg that the controller routes lies between its current control points. */
  lemma RecomputedSound(d: D.Draft, todo: set<int>, i: nat, routes: Routes, measured: nat)
    requires D.Sound(d, true)
    ensures D.Sound(Recomputed(d, todo, i, routes, measured), true)
    decreases D.Legs(d.content) - i
  {
    if i < D.Legs(d.content) {
      if i !in todo {
        RecomputedSound(d, todo, i + 1, routes, measured);
      } else if i in routes {
        var e := D.SetLeg(i, LegFor(d.content, i, routes[i]));
        if D.Perform(d, e, measured).Ok? {
          D.ActSound(d, D.Do(e, measured), true);
          RecomputedSound(D.Perform(d, e, measured).value, todo, i + 1, routes, measured);
        }
      }
    }
  }

  /** When every listed leg has a route, none is left on the list. */
  lemma RecomputedAll(d: D.Draft, todo: set<int>, i: nat, routes: Routes, measured: nat)
    requires d.status == D.Editing
    requires forall k | k in todo :: 0 <= k < D.Legs(d.content) && k in routes && |routes[k]| >= 2
    requires forall k | k in d.content.invalidatedLegIndexes :: k in todo && k >= i
    ensures Recomputed(d, todo, i, routes, measured).content.invalidatedLegIndexes == {}
    decreases D.Legs(d.content) - i
  {
    if i < D.Legs(d.content) {
      if i !in todo {
        RecomputedAll(d, todo, i + 1, routes, measured);
      } else {
        var e := D.SetLeg(i, LegFor(d.content, i, routes[i]));
        RecomputedAll(D.Perform(d, e, measured).value, todo, i + 1, routes, measured);
      }
    } else {
      assert forall k :: k !in d.content.invalidatedLegIndexes;
    }
  }

  /** After an edit whose legs are all routed nothing is left to be computed, not
      even a leg that an opened loop left listed. */
  lemma RoutedEditListsNothing(w: World, draft: D.Draft, routes: Routes, measured: nat, save: Save)
    requires draft.status == D.Editing
    requires forall k | k in draft.content.invalidatedLegIndexes && 0 <= k < D.Legs(draft.content) ::
               k in routes && |routes[k]| >= 2
    requires forall k | k in draft.content.invalidatedLegIndexes :: k >= 0
    ensures FinishEdit(w, draft, routes, measured, save).state.draft.content.invalidatedLegIndexes == {}
  {
    RecomputedAll(Filtered(draft), Filtered(draft).content.invalidatedLegIndexes, 0, routes, measured);
  }

  /** Each routed leg is stored, and no other. */
  lemma {:induction false} RecomputedStores(
    d: D.Draft, todo: set<int>, i: nat, routes: Routes, measured: nat, k: nat
  )
    requires d.status == D.Editing && k < D.Legs(d.content)
    requires forall j | j in todo && 0 <= j < D.Legs(d.content) :: j in routes && |routes[j]| >= 2
    ensures var v := Recomputed(d, todo, i, routes, measured).content;
            && v.controlPoints == d.content.controlPoints && v.closedLoop == d.content.closedLoop
            && (D.Entry(v.legResults, k).Some? <==> D.Entry(d.content.legResults, k).Some? || (k in todo && k >= i))
    decreases D.Legs(d.content) - i
  {
    if i < D.Legs(d.content) {
      if i !in todo {
        RecomputedStores(d, todo, i + 1, routes, measured, k);
      } else {
        var e := D.SetLeg(i, LegFor(d.content, i, routes[i]));
        RecomputedStores(D.Perform(d, e, measured).value, todo, i + 1, routes, measured, k);
      }
    }
  }

  /** When every listed leg has a route, an edit leads to a complete route
      exactly when every missing leg was listed. */
  lemma RoutedEditComplete(w: World, draft: D.Draft, routes: Routes, measured: nat, save: Save)
    requires draft.status == D.Editing
    requires forall k | k in draft.content.invalidatedLegIndexes && 0 <= k < D.Legs(draft.content) ::
               k in routes && |routes[k]| >= 2
    ensures D.Complete(FinishEdit(w, draft, routes, measured, save).state.draft.content)
            <==> D.Legs(draft.content) > 0 && L.ListsMissing(draft.content)
  {
    var todo := Filtered(draft).content.invalidatedLegIndexes;
    var v := FinishEdit(w, draft, routes, measured, save).state.draft.content;
    if D.Legs(draft.content) > 0 {
      RecomputedStores(Filtered(draft), todo, 0, routes, measured, 0);
    }
    forall k: nat | k < D.Legs(draft.content)
      ensures D.Entry(v.legResults, k).Some?
              <==> D.Entry(draft.content.legResults, k).Some? || k in draft.content.invalidatedLegIndexes
      ensures D.Legs(v) == D.Legs(draft.content)
    {
      RecomputedStores(Filtered(draft), todo, 0, routes, measured, k);
    }
  }

  predicate SoundDrafts(w: World) {
    D.Sound(w.state.draft, true) && (w.saved.Some? ==> D.Sound(w.saved.value.draft, true))
  }

  predicate CarefulAction(w: World, a: D.Action) {
    a.Do? ==> D.Careful(w.state.draft.content, a.edit)
  }

  predicate CarefulEvent(w: World, e: Event) {
    match e
    case Tapped(at, _, measured, _) =>
      w.state.moveTargetId.Some? ==> D.Careful(w.state.draft.content, D.Move(w.state.moveTargetId.value, at))
    case Acted(a, _, _, _) => CarefulAction(w, a)
    case _ => true
  }

  ghost predicate CarefulEvents(events: seq<Event>) {
    forall k | 0 <= k < |events| :: CarefulEvent(Run(events[..k]), events[k])
  }

  lemma EditedSound(w: World, a: D.Action, routes: Routes, measured: nat, save: Save)
    requires SoundDrafts(w) && CarefulAction(w, a)
    ensures SoundDrafts(Edited(w, a, routes, measured, save))
  {
    match D.Act(w.state.draft, a) {
      case Ok(draft) =>
        D.ActSound(w.state.draft, a, true);
        RecomputedSound(Filtered(draft), Filtered(draft).content.invalidatedLegIndexes, 0, routes, measured);
      case _ =>
    }
  }

  lemma SelectedSound(w: World, e: D.Edit, measured: nat, save: Save)
    requires SoundDrafts(w) && (e.Trim? || e.ResetTrim?)
    ensures SoundDrafts(Selected(w, e, measured, save))
  {
    match D.Perform(w.state.draft, e, measured) {
      case Ok(draft) => D.ActSound(w.state.draft, D.Do(e, measured), true);
      case _ =>
    }
  }

  lemma RequestSound(w: World, online: bool, newKey: Key, measured: nat, points: nat, save: Save)
    requires SoundDrafts(w)
    ensures SoundDrafts(RequestPublish(w, online, newKey, measured, points, save))
  {
    var d := w.state.draft;
    var editable := if d.status == D.Ready then D.Resume(d).value else d;
    var e := D.SetName(w.state.nameInput);
    if D.Perform(editable, e, measured).Ok? {
      D.ActSound(editable, D.Do(e, measured), true);
    }
  }

  lemma ConfirmSound(w: World, online: bool, newKey: Key, points: nat, before: Save, reply: Reply, after: Save)
    requires SoundDrafts(w)
    ensures SoundDrafts(ConfirmPublish(w, online, newKey, points, before, reply, after))
  {
  }

  lemma ResumeSound(w: World, save: Save)
    requires SoundDrafts(w)
    ensures SoundDrafts(ResumeEditing(w, save)) && SoundDrafts(CancelPublish(w, save))
  {
  }

  lemma BootSound(w: World, corrupt: bool)
    requires SoundDrafts(w)
    ensures SoundDrafts(Boot(w, corrupt))
  {
  }

  lemma RenewedSound(w: World, value: string, save: Save)
    requires SoundDrafts(w)
    ensures SoundDrafts(NewDraft(w, save)) && SoundDrafts(SetName(w, value, save)) && SoundDrafts(w.(state := Fresh()))
  {
  }

  lemma StepSound(w: World, e: Event)
    requires SoundDrafts(w) && CarefulEvent(w, e)
    ensures SoundDrafts(Step(w, e))
  {
    match e
    case Tapped(at, routes, measured, save) =>
      EditedSound(w, D.Do(D.Add(at), measured), routes, measured, save);
      if w.state.moveTargetId.Some? {
        EditedSound(w, D.Do(D.Move(w.state.moveTargetId.value, at), measured), routes, measured, save);
      }
    case Acted(a, routes, measured, save) => EditedSound(w, a, routes, measured, save);
    case RangeSet(startM, endM, measured, save) => SelectedSound(w, D.Trim(startM, endM), measured, save);
    case RangeReset(measured, save) => SelectedSound(w, D.ResetTrim, measured, save);
    case Requested(online, newKey, measured, points, save) => RequestSound(w, online, newKey, measured, points, save);
    case Confirmed(online, newKey, points, before, reply, after) =>
      ConfirmSound(w, online, newKey, points, before, reply, after);
    case Cancelled(save) => ResumeSound(w, save);
    case Resumed(save) => ResumeSound(w, save);
    case Booted(corrupt) => BootSound(w, corrupt);
    case Start => RenewedSound(w, "", Save(false, false));
    case Cleared(save) => RenewedSound(w, "", save);
    case Named(value, save) => RenewedSound(w, value, save);
    case _ =>
  }

  /** In every run of careful edits, through failed routes, restarts and
      publications, each stored leg lies between its control points. */
  lemma {:induction false} LegsFitThroughout(events: seq<Event>)
    requires CarefulEvents(events)
    ensures SoundDrafts(Run(events))
    decreases |events|
  {
    if events != [] {
      var last := |events| - 1;
      assert forall k | 0 <= k <= last :: events[..last][..k] == events[..k];
      LegsFitThroughout(events[..last]);
      StepSound(Run(events[..last]), events[last]);
    }
  }

  /** The controller itself: its variables are reassigned by every call. */
  class App {
    var state: State
    var saved: Option<Envelope>
    var sent: seq<Sending>
    var used: set<Key>

    constructor (stored: Option<Envelope>)
      ensures Now() == World(Fresh(), stored, [], {})
      ensures stored.None? ==> Inv(Now())
    {
      state, saved, sent, used := Fresh(), stored, [], {};
    }

    function Now(): World
      reads this
    {
      World(state, saved, sent, used)
    }

    method Persist(save: Save)
      modifies this
      ensures Now() == Persisted(old(Now()), save)
    {
      if save.stored {
        saved := Some(Envelope(state.draft, state.nameInput, state.pendingPublishKey));
      }
    }

    method MarkAsEdited()
      modifies this
      ensures Now() == old(Now()).(state := MarkEdited(old(state)))
    {
      state := state.(publishStatus := Idle, pendingPublishKey := None, lastPublishedId := None);
    }

    /** Stops at the first leg without a route; what was stored before stays. */
    method RecomputeLegs(routes: Routes, measured: nat)
      modifies this
      ensures var draft := RecomputeInvalidated(old(state).draft, routes, measured);
              Now() == old(Now()).(state := old(state).(draft := draft))
    {
      var before := state;
      var invalidated := set i | i in state.draft.content.invalidatedLegIndexes && i < D.Legs(state.draft.content);
      if invalidated != state.draft.content.invalidatedLegIndexes {
        state := state.(draft := state.draft.(content := state.draft.content.(invalidatedLegIndexes := invalidated)));
      }
      assert state.draft == Filtered(before.draft);
      var legIndex := 0;
      while legIndex < D.Legs(state.draft.content)
        invariant Now() == old(Now()).(state := before.(draft := state.draft))
        invariant Recomputed(state.draft, invalidated, legIndex, routes, measured)
                  == RecomputeInvalidated(before.draft, routes, measured)
        decreases D.Legs(state.draft.content) - legIndex
      {
        if legIndex in invalidated {
          if legIndex !in routes {
            return;
          }
          var leg := LegFor(state.draft.content, legIndex, routes[legIndex]);
          var result := D.Mutate(state.draft, D.SetLeg(legIndex, leg), measured);
          if !result.Ok? {
            return;
          }
          state := state.(draft := result.value);
        }
        legIndex := legIndex + 1;
      }
    }

    method Finish(draft: D.Draft, routes: Routes, measured: nat, save: Save)
      modifies this
      ensures Now() == FinishEdit(old(Now()), draft, routes, measured, save)
    {
      state := state.(draft := draft, moveTargetId := None);
      MarkAsEdited();
      RecomputeLegs(routes, measured);
      Persist(save);
    }

    method Tap(at: D.Position, routes: Routes, measured: nat, save: Save)
      modifies this
      ensures Now() == TapPoint(old(Now()), at, routes, measured, save)
      ensures Inv(old(Now())) ==> Inv(Now())
    {
      if Inv(Now()) {
        StepKeeps(Now(), Tapped(at, routes, measured, save));
      }
      var edit := D.Add(at);
      if state.moveTargetId.Some? {
        edit := D.Move(state.moveTargetId.value, at);
      } else if |state.draft.content.controlPoints| >= MAX_CONTROL_POINTS {
        return;
      }
      var draft := D.Mutate(state.draft, edit, measured);
      if draft.Ok? {
        Finish(draft.value, routes, measured, save);
      }
    }

    method Request(online: bool, newKey: Key, measured: nat, points: nat, save: Save)
      modifies this
      ensures Now() == RequestPublish(old(Now()), online, newKey, measured, points, save)
      ensures Inv(old(Now())) && newKey !in old(used) ==> Inv(Now())
    {
      if Inv(Now()) && newKey !in used {
        RequestKeeps(Now(), online, newKey, measured, points, save);
      }
      if !online {
        state := state.(publishStatus := Offline);
        return;
      }
      var editable := state.draft;
      if state.draft.status == D.Ready {
        editable := D.Resume(state.draft).value;
      }
      var named := D.Mutate(editable, D.SetName(state.nameInput), measured);
      if !named.Ok? {
        return;
      }
      var ready := D.Prepare(named.value, points);
      if !ready.Ok? {
        return;
      }
      state := state.(draft := ready.value, nameInput := ready.value.content.name, publishStatus := Confirming);
      if state.pendingPublishKey.None? {
        state, used := state.(pendingPublishKey := Some(newKey)), used + {newKey};
      }
      Persist(save);
    }

    method Hold(publishing: D.Draft, key: Key, before: Save)
      modifies this
      ensures Now() == Held(old(Now()), publishing, key, before)
    {
      used := used + {key};
      state := state.(draft := publishing, pendingPublishKey := Some(key), publishStatus := Publishing);
      Persist(before);
    }

    method Settle(reply: Reply, after: Save)
      requires state.draft.status == D.Publishing
      modifies this
      ensures Now() == Settled(old(Now()), reply, after)
    {
      match reply {
        case NoReply => return;
        case Accepted(id) =>
          state := state.(draft := D.Transition(state.draft, D.Publishing, D.Published).value,
                          publishStatus := Published, pendingPublishKey := None, lastPublishedId := Some(id));
        case Refused =>
          state := state.(draft := D.Transition(state.draft, D.Publishing, D.Ready).value, publishStatus := Failed);
      }
      Persist(after);
    }

    method Confirm(online: bool, newKey: Key, points: nat, before: Save, reply: Reply, after: Save)
      modifies this
      ensures Now() == ConfirmPublish(old(Now()), online, newKey, points, before, reply, after)
      ensures Inv(old(Now())) ==> Inv(Now())
    {
      if Inv(Now()) {
        ConfirmKeeps(Now(), online, newKey, points, before, reply, after);
      }
      if state.publishStatus != Confirming && state.publishStatus != Failed {
        return;
      }
      if !online {
        state := state.(publishStatus := Offline);
        return;
      }
      var publishing := state.draft;
      if state.draft.status != D.Publishing {
        var begun := D.Transition(state.draft, D.Ready, D.Publishing);
        if !begun.Ok? {
          return;
        }
        publishing := begun.value;
      }
      if !D.Payable(publishing.content, points) {
        return;
      }
      var key := newKey;
      if state.pendingPublishKey.Some? {
        key := state.pendingPublishKey.value;
      }
      Send(publishing, key, before, reply, after);
    }

    method Send(publishing: D.Draft, key: Key, before: Save, reply: Reply, after: Save)
      requires publishing.status == D.Publishing
      modifies this
      ensures Now() == Sent(old(Now()), publishing, key, before, reply, after)
    {
      var payload := PayloadOf(publishing.content);
      Hold(publishing, key, before);
      if !before.reported {
        return;
      }
      sent := sent + [Sending(key, payload)];
      Settle(reply, after);
    }

    method BootApp(corrupt: bool)
      modifies this
      ensures Now() == Boot(old(Now()), corrupt)
      ensures Inv(old(Now())) ==> Inv(Now())
    {
      if Inv(Now()) {
        BootKeeps(Now(), corrupt);
      }
      if saved.Some? && !corrupt {
        var restored := saved.value;
        var draft := restored.draft;
        if draft.status == D.Publishing {
          draft := D.Transition(draft, D.Publishing, D.Ready).value;
        }
        state := state.(draft := draft, nameInput := restored.nameInput,
                        pendingPublishKey := restored.pendingPublishKey);
      }
      state := state.(publishStatus := if state.pendingPublishKey.Some? then Failed else Idle);
    }
  }
}
