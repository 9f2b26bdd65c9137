/** Route drafts: control points with one cached route leg between each two,
    edits that invalidate legs, bounded undo and redo, and the way to
    publication. */
module Draft {
  import opened Common
  import opened Outcomes

  datatype Position = Position(lat: real, lng: real, elevationM: int)

  /** A control point and the number its name is made of. */
  datatype ControlPoint = ControlPoint(id: nat, at: Position)

  /** A routed leg and the two positions that it was computed for. */
  datatype Leg = Leg(origin: Position, destination: Position, geometry: seq<Position>)

  datatype Selection = Selection(startM: real, endM: real)

  /** What undo and redo restore; an absent leg is still to be computed. */
  datatype Content = Content(
    name: string,
    controlPoints: seq<ControlPoint>,
    closedLoop: bool,
    legResults: seq<Option<Leg>>,
    invalidatedLegIndexes: set<int>,
    selection: Option<Selection>,
    nextControlPointNumber: nat)

  function LegCount(points: nat, closedLoop: bool): nat {
    if points < 2 then 0 else points - 1 + if closedLoop then 1 else 0
  }

  function Legs(c: Content): nat {
    LegCount(|c.controlPoints|, c.closedLoop)
  }

  function ImpactedByInsert(index: nat, count: nat, closedLoop: bool): set<int> {
    if count < 2 then {}
    else
      (if index > 0 then {index - 1} else {})
      + (if closedLoop && count > 2 && index == count - 1 then {count - 1} else {})
  }

  function ImpactedByMove(index: nat, count: nat, closedLoop: bool): set<int> {
    (if index > 0 then {index - 1} else {})
    + (if index < count - 1 then {index} else {})
    + (if closedLoop && count > 2 && (index == 0 || index == count - 1) then {count - 1} else {})
  }

  function ClosingLeg(count: nat, closedLoop: bool): Option<int> {
    if !closedLoop || count < 2 then None else Some(count - 1)
  }

  function ImpactedByRemoval(index: nat, after: nat, closedLoop: bool): set<int> {
    if after == 0 then {}
    else
      (if index > 0 then {index - 1} else {})
      + (if index < after then {index} else {})
      + (if closedLoop && after > 1 && (index == 0 || index >= after) then {after - 1} else {})
  }

  function Max(a: int, b: int): int {
    if a > b then a else b
  }

  function Min(a: int, b: int): int {
    if a < b then a else b
  }

  function Range(low: int, high: int): (r: set<int>)
    ensures forall i :: i in r <==> low <= i <= high
    decreases high - low
  {
    if low > high then {} else {low} + Range(low + 1, high)
  }

  function ImpactedByReorder(from: nat, target: nat, count: nat, closedLoop: bool): set<int> {
    Range(Max(0, Min(from, target) - 1), Min(count - 2, Max(from, target)))
    + (if closedLoop && count > 2 && (from == 0 || target == 0 || from == count - 1 || target == count - 1)
       then {count - 1} else {})
  }

  /** An array entry; entries behind the end are absent. */
  function Entry(legs: seq<Option<Leg>>, i: nat): Option<Leg> {
    if i < |legs| then legs[i] else None
  }

  /** The legs that are left of `count` when those listed are dropped. */
  function Kept(legs: seq<Option<Leg>>, count: nat, dropped: set<int>): (r: seq<Option<Leg>>)
    ensures |r| == count
    ensures forall i | 0 <= i < count :: r[i] == if i in dropped then None else Entry(legs, i)
  {
    if count == 0 then []
    else Kept(legs, count - 1, dropped) + [if count - 1 in dropped then None else Entry(legs, count - 1)]
  }

  function Invalidated(c: Content, indexes: set<int>): Content {
    c.(legResults := Kept(c.legResults, Legs(c), indexes),
       invalidatedLegIndexes := set i | i in indexes && i >= 0)
  }

  predicate Complete(c: Content) {
    Legs(c) > 0 && forall i | 0 <= i < Legs(c) :: Entry(c.legResults, i).Some?
  }

  /** The length of the composed route: `measured`, unless a leg is missing. */
  function Total(c: Content, measured: nat): nat {
    if Complete(c) then measured else 0
  }

  function Clamp(value: real, low: real, high: real): real {
    var raised := if value < low then low else value;
    if raised > high then high else raised
  }

  /** Fits the selection to the composed route, or drops it when there is none. */
  function Clamped(c: Content, measured: nat): (r: Content)
    ensures r == c.(selection := r.selection)
  {
    if c.selection.None? then c
    else
      var total := Total(c, measured);
      if total == 0 then c.(selection := None)
      else
        var start := Clamp(c.selection.value.startM, 0.0, total as real);
        var end := Clamp(c.selection.value.endM, 0.0, total as real);
        c.(selection := Some(Selection(start, if end < start then start else end)))
  }

  function FindPoint(points: seq<ControlPoint>, id: nat): (r: Option<nat>)
    ensures r.Some? ==> r.value < |points| && points[r.value].id == id
    ensures r.None? ==> forall i | 0 <= i < |points| :: points[i].id != id
  {
    if points == [] then None
    else if points[0].id == id then Some(0)
    else
      match FindPoint(points[1..], id)
      case None => None
      case Some(i) => Some(i + 1)
  }

  function Added(c: Content, at: Position): Content {
    var count := |c.controlPoints| + 1;
    Invalidated(c.(controlPoints := c.controlPoints + [ControlPoint(c.nextControlPointNumber, at)],
                   nextControlPointNumber := c.nextControlPointNumber + 1),
                ImpactedByInsert(count - 1, count, c.closedLoop))
  }

  function MovedTo(c: Content, index: nat, at: Position, measured: nat): Content
    requires index < |c.controlPoints|
  {
    var moved := c.(controlPoints := c.controlPoints[index := c.controlPoints[index].(at := at)]);
    Clamped(Invalidated(moved, ImpactedByMove(index, |c.controlPoints|, c.closedLoop)), measured)
  }

  function Without(points: seq<ControlPoint>, index: nat): (r: seq<ControlPoint>)
    requires index < |points|
    ensures |r| == |points| - 1
    ensures forall i | 0 <= i < |r| :: r[i] == points[if i < index then i else i + 1]
  {
    points[..index] + points[index + 1..]
  }

  function RemovedAt(c: Content, index: nat, measured: nat): Content
    requires index < |c.controlPoints|
  {
    var points := Without(c.controlPoints, index);
    var closedLoop := c.closedLoop && |points| >= 2;
    var shorter := c.(controlPoints := points, closedLoop := closedLoop);
    Clamped(Invalidated(shorter, ImpactedByRemoval(index, |points|, closedLoop)), measured)
  }

  /** Where the point at position i was before. */
  function OldIndex(from: nat, target: nat, i: nat): nat {
    if i < Min(from, target) || i > Max(from, target) then i
    else if i == target then from
    else if from < target then i + 1 else i - 1
  }

  function Reordered(points: seq<ControlPoint>, from: nat, target: nat): (r: seq<ControlPoint>)
    requires from < |points| && target < |points|
    ensures |r| == |points|
    ensures forall i: nat | i < |r| :: OldIndex(from, target, i) < |points| && r[i] == points[OldIndex(from, target, i)]
  {
    Without(points, from)[..target] + [points[from]] + Without(points, from)[target..]
  }

  function MovedInOrder(c: Content, from: nat, target: nat, measured: nat): Content
    requires from < |c.controlPoints| && target < |c.controlPoints|
  {
    if from == target then c.(invalidatedLegIndexes := {})
    else
      var turned := c.(controlPoints := Reordered(c.controlPoints, from, target));
      Clamped(Invalidated(turned, ImpactedByReorder(from, target, |c.controlPoints|, c.closedLoop)), measured)
  }

  function Listed(i: Option<int>): set<int> {
    if i.Some? then {i.value} else {}
  }

  function Looped(c: Content, closedLoop: bool, measured: nat): Content {
    var count := |c.controlPoints|;
    var enabled := closedLoop && count > 1;
    if c.closedLoop == enabled then c.(invalidatedLegIndexes := {})
    else
      Clamped(Invalidated(c.(closedLoop := enabled),
                          Listed(ClosingLeg(count, c.closedLoop)) + Listed(ClosingLeg(count, enabled))), measured)
  }

  /** An assignment behind the end of an array leaves absent entries in between. */
  function Assigned(legs: seq<Option<Leg>>, i: nat, leg: Option<Leg>): (r: seq<Option<Leg>>)
    ensures |r| == Max(|legs|, i + 1)
    ensures forall j: nat :: Entry(r, j) == if j == i then leg else Entry(legs, j)
  {
    if i < |legs| then legs[i := leg] else Kept(legs, i, {}) + [leg]
  }

  function WithLeg(c: Content, i: nat, leg: Leg, measured: nat): Content {
    Clamped(c.(legResults := Assigned(c.legResults, i, Some(leg)),
               invalidatedLegIndexes := c.invalidatedLegIndexes - {i}), measured)
  }

  predicate IsSpace(c: char) {
    var u := c as int;
    9 <= u <= 13 || u == 32 || u == 0xA0 || u == 0x1680 || 0x2000 <= u <= 0x200A || u == 0x2028 || u == 0x2029
    || u == 0x202F || u == 0x205F || u == 0x3000 || u == 0xFEFF
  }

  predicate IsUnsafe(c: char) {
    var u := c as int;
    u < 32 || 0x7F <= u <= 0x9F || u == 0x61C || u == 0x200E || u == 0x200F || 0x202A <= u <= 0x202E
    || 0x2066 <= u <= 0x2069
  }

  /** One space for each inner run of white space, none at either end; `begun`
      if a character precedes s, `gap` if white space followed it. */
  function Squeezed(s: string, begun: bool, gap: bool): string {
    if s == "" then ""
    else if IsSpace(s[0]) then Squeezed(s[1..], begun, true)
    else (if begun && gap then [' ', s[0]] else [s[0]]) + Squeezed(s[1..], true, false)
  }

  const MAX_NAME := 80

  function NormalizeSegmentName(name: string): Outcome<string> {
    var normalized := Squeezed(name, false, false);
    if normalized == "" || |normalized| > MAX_NAME || exists k | 0 <= k < |normalized| :: IsUnsafe(normalized[k])
    then TypeError else Ok(normalized)
  }

  lemma {:induction false} SqueezedTwice(s: string, begun: bool, gap: bool)
    ensures Squeezed(Squeezed(s, begun, gap), begun, false) == Squeezed(s, begun, gap)
  {
    if s != "" {
      if IsSpace(s[0]) {
        SqueezedTwice(s[1..], begun, true);
      } else {
        var rest := Squeezed(s[1..], true, false);
        SqueezedTwice(s[1..], true, false);
        assert ([s[0]] + rest)[1..] == rest;
        if begun && gap {
          assert ([' ', s[0]] + rest)[1..] == [s[0]] + rest;
        }
      }
    }
  }

  /** A normalized name normalizes to itself. */
  lemma NormalizedTwice(name: string)
    requires NormalizeSegmentName(name).Ok?
    ensures NormalizeSegmentName(NormalizeSegmentName(name).value) == NormalizeSegmentName(name)
  {
    SqueezedTwice(name, false, false);
  }

  datatype Edit =
    | Add(at: Position)
    | Move(id: nat, at: Position)
    | Preview(id: nat, at: Position)
    | Remove(id: nat)
    | Reorder(id: nat, target: int)
    | SetLoop(closedLoop: bool)
    | SetLeg(index: int, leg: Leg)
    | SetName(name: string)
    | Trim(startM: real, endM: real)
    | ResetTrim

  /** Previews and leg results are not put on the undo stack. */
  predicate Commits(e: Edit) {
    !e.Preview? && !e.SetLeg?
  }

  /** The new content; `measured` is the length of the route it composes to. */
  function Apply(c: Content, e: Edit, measured: nat): Outcome<Content> {
    match e
    case Add(at) => Ok(Added(c, at))
    case Move(id, at) =>
      (match FindPoint(c.controlPoints, id)
       case None => RangeError
       case Some(i) => Ok(MovedTo(c, i, at, measured)))
    case Preview(id, at) =>
      (match FindPoint(c.controlPoints, id)
       case None => RangeError
       case Some(i) => Ok(MovedTo(c, i, at, measured)))
    case Remove(id) =>
      (match FindPoint(c.controlPoints, id)
       case None => RangeError
       case Some(i) => Ok(RemovedAt(c, i, measured)))
    case Reorder(id, target) =>
      if !(0 <= target < |c.controlPoints|) then RangeError
      else
        (match FindPoint(c.controlPoints, id)
         case None => RangeError
         case Some(i) => Ok(MovedInOrder(c, i, target, measured)))
    case SetLoop(closedLoop) => Ok(Looped(c, closedLoop, measured))
    case SetLeg(i, leg) =>
      if !(0 <= i < Legs(c)) then RangeError
      else if |leg.geometry| < 2 then TypeError
      else Ok(WithLeg(c, i, leg, measured))
    case SetName(name) =>
      (match NormalizeSegmentName(name)
       case Ok(normalized) => Ok(c.(name := normalized))
       case _ => TypeError)
    case Trim(startM, endM) =>
      if startM > endM || startM < 0.0 || endM > Total(c, measured) as real then RangeError
      else Ok(c.(selection := Some(Selection(startM, endM))))
    case ResetTrim => Ok(c.(selection := None))
  }

  function Next(i: nat, count: nat): nat {
    if i + 1 == count then 0 else i + 1
  }

  /** The leg was computed between the control points it now stands between. */
  predicate Fits(points: seq<ControlPoint>, i: nat, leg: Leg) {
    i < |points| && leg.origin == points[i].at && leg.destination == points[Next(i, |points|)].at
  }

  predicate Coherent(c: Content) {
    forall i | 0 <= i < |c.legResults| && c.legResults[i].Some? :: Fits(c.controlPoints, i, c.legResults[i].value)
  }

  /** Control points keep apart, below the next number. */
  predicate DistinctIds(points: seq<ControlPoint>, next: nat) {
    && (forall i | 0 <= i < |points| :: points[i].id < next)
    && (forall i, j | 0 <= i < j < |points| :: points[i].id != points[j].id)
  }

  predicate WellFormed(c: Content) {
    && |c.legResults| == Legs(c)
    && (c.closedLoop ==> |c.controlPoints| >= 2)
    && DistinctIds(c.controlPoints, c.nextControlPointNumber)
  }

  /** A loop of two points whose way back is stored. */
  predicate StoredWayBack(c: Content) {
    c.closedLoop && |c.controlPoints| == 2 && Entry(c.legResults, 1).Some?
  }

  /** Behind a removed point legs keep their places while points move up: leg
      j misfits, unless the points it joined and is now to join lie together. */
  predicate Misplaced(c: Content, j: nat) {
    var points := c.controlPoints;
    && j + 1 < |points| && Entry(c.legResults, j).Some?
    && !(points[j].at == points[j + 1].at && points[j + 1].at == points[Next(j + 1, |points|)].at)
  }

  predicate LeavesNoneMisplaced(c: Content, index: nat) {
    var after := |c.controlPoints| - 1;
    var closedLoop := c.closedLoop && after >= 2;
    forall j | index < j < LegCount(Max(0, after), closedLoop) && !(closedLoop && index == 0 && j == after - 1) ::
      !Misplaced(c, j)
  }

  /** The edits that keep every stored leg between its own points. */
  predicate Careful(c: Content, e: Edit) {
    match e
    case Move(id, at) => CarefulMove(c, id, at)
    case Preview(id, at) => CarefulMove(c, id, at)
    case Remove(id) =>
      FindPoint(c.controlPoints, id).Some? ==> LeavesNoneMisplaced(c, FindPoint(c.controlPoints, id).value)
    case Reorder(id, target) =>
      FindPoint(c.controlPoints, id) != Some(target) && StoredWayBack(c)
      ==> c.controlPoints[0].at == c.controlPoints[1].at
    case SetLeg(i, leg) => i >= 0 ==> Fits(c.controlPoints, i, leg)
    case _ => true
  }

  predicate CarefulMove(c: Content, id: nat, at: Position) {
    FindPoint(c.controlPoints, id).Some? && StoredWayBack(c)
    ==> c.controlPoints[FindPoint(c.controlPoints, id).value].at == at
  }

  lemma AddedStays(c: Content, at: Position)
    requires WellFormed(c)
    ensures WellFormed(Added(c, at)) && (Coherent(c) ==> Coherent(Added(c, at)))
  {
  }

  lemma MovedStays(c: Content, index: nat, at: Position, measured: nat)
    requires WellFormed(c) && index < |c.controlPoints|
    ensures WellFormed(MovedTo(c, index, at, measured))
    ensures Coherent(c) ==> (Coherent(MovedTo(c, index, at, measured))
                             <==> (StoredWayBack(c) ==> c.controlPoints[index].at == at))
  {
  }

  lemma LoopedStays(c: Content, closedLoop: bool, measured: nat)
    requires WellFormed(c)
    ensures WellFormed(Looped(c, closedLoop, measured))
    ensures Coherent(c) ==> Coherent(Looped(c, closedLoop, measured))
  {
  }

  lemma WithLegStays(c: Content, i: nat, leg: Leg, measured: nat)
    requires WellFormed(c) && i < Legs(c)
    ensures WellFormed(WithLeg(c, i, leg, measured))
    ensures Coherent(c) ==> (Coherent(WithLeg(c, i, leg, measured)) <==> Fits(c.controlPoints, i, leg))
  {
    var legs := Assigned(c.legResults, i, Some(leg));
    assert forall j | 0 <= j < |legs| :: legs[j] == Entry(legs, j);
    assert Entry(legs, i) == Some(leg) && |legs| == Legs(c);
  }

  lemma RemovedWellFormed(c: Content, index: nat, measured: nat)
    requires WellFormed(c) && index < |c.controlPoints|
    ensures WellFormed(RemovedAt(c, index, measured))
  {
  }

  /** A leg that outlives the removal fits iff it is not misplaced. */
  lemma RemovedEntry(c: Content, index: nat, measured: nat, j: nat)
    requires WellFormed(c) && Coherent(c) && index < |c.controlPoints|
    requires j < |RemovedAt(c, index, measured).legResults|
    ensures var v := RemovedAt(c, index, measured);
            v.legResults[j].Some? ==>
              && c.legResults[j] == v.legResults[j]
              && (j < index ==> Fits(v.controlPoints, j, v.legResults[j].value))
              && (j >= index ==> j > index && (Fits(v.controlPoints, j, v.legResults[j].value) <==> !Misplaced(c, j)))
  {
  }

  lemma RemovedStays(c: Content, index: nat, measured: nat)
    requires WellFormed(c) && Coherent(c) && index < |c.controlPoints|
    ensures Coherent(RemovedAt(c, index, measured)) <==> LeavesNoneMisplaced(c, index)
  {
    var v := RemovedAt(c, index, measured);
    forall j: nat | j < |v.legResults|
      ensures v.legResults[j].Some? ==>
                && c.legResults[j] == v.legResults[j]
                && (j < index ==> Fits(v.controlPoints, j, v.legResults[j].value))
                && (j >= index ==> j > index && (Fits(v.controlPoints, j, v.legResults[j].value) <==> !Misplaced(c, j)))
    {
      RemovedEntry(c, index, measured, j);
    }
  }

  lemma OldIndexDistinct(from: nat, target: nat, i: nat, j: nat)
    requires i != j
    ensures OldIndex(from, target, i) != OldIndex(from, target, j)
  {
  }

  lemma ReorderedIds(points: seq<ControlPoint>, from: nat, target: nat, next: nat)
    requires DistinctIds(points, next) && from < |points| && target < |points|
    ensures DistinctIds(Reordered(points, from, target), next)
  {
    var r := Reordered(points, from, target);
    forall i: nat, j: nat | i < j < |r|
      ensures r[i].id != r[j].id
    {
      OldIndexDistinct(from, target, i, j);
      var a, b := OldIndex(from, target, i), OldIndex(from, target, j);
      assert a < b || b < a;
    }
  }

  /** A leg that outlives the reordering still fits, but for a stored way back. */
  lemma ReorderedEntry(c: Content, from: nat, target: nat, measured: nat, j: nat)
    requires WellFormed(c) && Coherent(c) && from != target
    requires from < |c.controlPoints| && target < |c.controlPoints| && j < Legs(c)
    requires MovedInOrder(c, from, target, measured).legResults[j].Some?
    ensures var v := MovedInOrder(c, from, target, measured);
            && c.legResults[j] == v.legResults[j]
            && (StoredWayBack(c) ==> j == 1)
            && (!StoredWayBack(c) ==> Fits(v.controlPoints, j, v.legResults[j].value))
  {
    var count := |c.controlPoints|;
    var dropped := ImpactedByReorder(from, target, count, c.closedLoop);
    assert j !in dropped;
    if !StoredWayBack(c) {
      assert OldIndex(from, target, j) == j;
      assert OldIndex(from, target, Next(j, count)) == Next(j, count);
    }
  }

  lemma WayBackTurned(c: Content, from: nat, target: nat, measured: nat)
    requires WellFormed(c) && Coherent(c) && from != target && StoredWayBack(c) && from < 2 && target < 2
    ensures var v := MovedInOrder(c, from, target, measured);
            && v.legResults[1] == c.legResults[1]
            && (Fits(v.controlPoints, 1, v.legResults[1].value) <==> c.controlPoints[0].at == c.controlPoints[1].at)
  {
    assert OldIndex(from, target, 0) == 1 && OldIndex(from, target, 1) == 0;
  }

  lemma ReorderedStays(c: Content, from: nat, target: nat, measured: nat)
    requires WellFormed(c) && from < |c.controlPoints| && target < |c.controlPoints|
    ensures WellFormed(MovedInOrder(c, from, target, measured))
    ensures Coherent(c) ==>
              (Coherent(MovedInOrder(c, from, target, measured))
               <==> (from != target && StoredWayBack(c) ==> c.controlPoints[0].at == c.controlPoints[1].at))
  {
    ReorderedIds(c.controlPoints, from, target, c.nextControlPointNumber);
    if from != target && Coherent(c) {
      var v := MovedInOrder(c, from, target, measured);
      forall j: nat | j < |v.legResults| && v.legResults[j].Some?
        ensures StoredWayBack(c) ==> j == 1
        ensures !StoredWayBack(c) ==> Fits(v.controlPoints, j, v.legResults[j].value)
      {
        ReorderedEntry(c, from, target, measured, j);
      }
      if StoredWayBack(c) {
        WayBackTurned(c, from, target, measured);
      }
    }
  }

  /** The control point at position i, after a reordering, is another one. */
  predicate Displaced(from: nat, target: nat, i: nat) {
    OldIndex(from, target, i) != i
  }

  /** Incremental invalidation is exact: reordering drops the legs with a new
      control point at either end, and no others. */
  lemma ReorderDropsExactly(c: Content, from: nat, target: nat, measured: nat, j: nat)
    requires WellFormed(c) && from != target && from < |c.controlPoints| && target < |c.controlPoints|
    requires (|c.controlPoints| > 2 || !c.closedLoop) && j < Legs(c)
    ensures MovedInOrder(c, from, target, measured).legResults[j]
            == if Displaced(from, target, j) || Displaced(from, target, Next(j, |c.controlPoints|)) then None
               else c.legResults[j]
  {
    ReorderImpact(from, target, |c.controlPoints|, c.closedLoop, j);
  }

  lemma ReorderImpact(from: nat, target: nat, count: nat, closedLoop: bool, j: nat)
    requires from != target && from < count && target < count
    requires (count > 2 || !closedLoop) && j < LegCount(count, closedLoop)
    ensures j in ImpactedByReorder(from, target, count, closedLoop)
            <==> Displaced(from, target, j) || Displaced(from, target, Next(j, count))
  {
  }

  /** So does moving: the legs that end at the moved point. */
  lemma MoveDropsExactly(c: Content, index: nat, at: Position, measured: nat, j: nat)
    requires WellFormed(c) && index < |c.controlPoints|
    requires (|c.controlPoints| > 2 || !c.closedLoop) && j < Legs(c)
    ensures MovedTo(c, index, at, measured).legResults[j]
            == if j == index || Next(j, |c.controlPoints|) == index then None else c.legResults[j]
  {
  }

  /** A new last point ends the leg to it, and takes the place of the way back. */
  lemma AddDropsExactly(c: Content, at: Position, j: nat)
    requires WellFormed(c) && j < Legs(Added(c, at))
    ensures Added(c, at).legResults[j] == if j + 1 < |c.controlPoints| then c.legResults[j] else None
  {
  }

  /** An edit of a coherent draft leaves it coherent exactly when it is careful. */
  lemma CoherentIffCareful(c: Content, e: Edit, measured: nat)
    requires WellFormed(c) && Coherent(c) && Apply(c, e, measured).Ok?
    ensures Coherent(Apply(c, e, measured).value) <==> Careful(c, e)
  {
    match e
    case Add(at) => AddedStays(c, at);
    case Move(id, at) => MovedStays(c, FindPoint(c.controlPoints, id).value, at, measured);
    case Preview(id, at) => MovedStays(c, FindPoint(c.controlPoints, id).value, at, measured);
    case Remove(id) => RemovedStays(c, FindPoint(c.controlPoints, id).value, measured);
    case Reorder(id, target) => ReorderedStays(c, FindPoint(c.controlPoints, id).value, target, measured);
    case SetLoop(closedLoop) => LoopedStays(c, closedLoop, measured);
    case SetLeg(i, leg) => WithLegStays(c, i, leg, measured);
    case _ =>
  }

  /** On an open route, removing one of the last three points is careful. */
  lemma LastThreeAreCareful(c: Content, id: nat)
    requires WellFormed(c) && !c.closedLoop
    requires FindPoint(c.controlPoints, id).Some? && FindPoint(c.controlPoints, id).value + 3 >= |c.controlPoints|
    ensures Careful(c, Remove(id))
  {
  }

  datatype Status = Editing | Ready | Publishing | Published

  /** A remembered content and its revision number. */
  datatype Snapshot = Snapshot(content: Content, revision: nat)

  datatype Draft = Draft(
    status: Status,
    content: Content,
    revision: nat,
    historyLimit: nat,
    undoStack: seq<Snapshot>,
    redoStack: seq<Snapshot>)

  const EMPTY := Content("", [], false, [], {}, None, 1)

  function CreateDraft(historyLimit: nat): Outcome<Draft> {
    if historyLimit == 0 then TypeError else Ok(Draft(Editing, EMPTY, 0, historyLimit, [], []))
  }

  function Shot(d: Draft): Snapshot {
    Snapshot(d.content, d.revision)
  }

  /** Only the newest `limit` entries are kept. */
  function PushHistory(history: seq<Snapshot>, entry: Snapshot, limit: nat): (r: seq<Snapshot>)
    ensures |r| == Min(|history| + 1, limit)
  {
    var longer := history + [entry];
    if |longer| <= limit then longer else longer[|longer| - limit..]
  }

  function Committed(d: Draft, content: Content): Draft {
    d.(content := content,
       revision := d.revision + 1,
       undoStack := PushHistory(d.undoStack, Shot(d), d.historyLimit),
       redoStack := [])
  }

  function Perform(d: Draft, e: Edit, measured: nat): Outcome<Draft> {
    if d.status != Editing then TypeError
    else
      match Apply(d.content, e, measured)
      case Ok(content) => Ok(if Commits(e) then Committed(d, content) else d.(content := content))
      case TypeError => TypeError
      case RangeError => RangeError
  }

  function UndoDraft(d: Draft): Outcome<Draft> {
    if d.status != Editing then TypeError
    else if d.undoStack == [] then Ok(d)
    else
      var last := |d.undoStack| - 1;
      Ok(d.(content := d.undoStack[last].content,
            revision := d.revision + 1,
            undoStack := d.undoStack[..last],
            redoStack := [Shot(d)] + d.redoStack))
  }

  function RedoDraft(d: Draft): Outcome<Draft> {
    if d.status != Editing then TypeError
    else if d.redoStack == [] then Ok(d)
    else
      Ok(d.(content := d.redoStack[0].content,
            revision := d.revision + 1,
            undoStack := PushHistory(d.undoStack, Shot(d), d.historyLimit),
            redoStack := d.redoStack[1..]))
  }

  /** Whether a payload can be built: there is a legal name and a complete route of
      `points` points. */
  predicate Payable(c: Content, points: nat) {
    NormalizeSegmentName(c.name).Ok? && Complete(c) && points >= 2
  }

  function Transition(d: Draft, from: Status, to: Status): Outcome<Draft> {
    if d.status != from then TypeError else Ok(d.(status := to, revision := d.revision + 1))
  }

  function Prepare(d: Draft, points: nat): Outcome<Draft> {
    if d.status != Editing || |d.content.controlPoints| < 2 || d.content.invalidatedLegIndexes != {}
       || !Payable(d.content, points) then TypeError
    else Transition(d, Editing, Ready)
  }

  function Resume(d: Draft): Outcome<Draft> {
    if d.status != Ready && d.status != Published then TypeError else Transition(d, d.status, Editing)
  }

  datatype Action =
    | Do(edit: Edit, measured: nat)
    | Undo
    | Redo
    | PrepareDraft(points: nat)
    | BeginPublication
    | FailPublication
    | CompletePublication
    | ResumeEditing

  function Act(d: Draft, a: Action): Outcome<Draft> {
    match a
    case Do(e, measured) => Perform(d, e, measured)
    case Undo => UndoDraft(d)
    case Redo => RedoDraft(d)
    case PrepareDraft(points) => Prepare(d, points)
    case BeginPublication => Transition(d, Ready, Publishing)
    case FailPublication => Transition(d, Publishing, Ready)
    case CompletePublication => Transition(d, Publishing, Published)
    case ResumeEditing => Resume(d)
  }

  /** A call that throws leaves the draft as it was. */
  function Run(d: Draft, actions: seq<Action>): Draft {
    if actions == [] then d
    else
      var before := Run(d, actions[..|actions| - 1]);
      match Act(before, actions[|actions| - 1])
      case Ok(after) => after
      case _ => before
  }

  function After(d: Draft, a: Action): Draft {
    match Act(d, a)
    case Ok(after) => after
    case _ => d
  }

  lemma RunOneMore(d: Draft, actions: seq<Action>, a: Action)
    ensures Run(d, actions + [a]) == After(Run(d, actions), a)
  {
    assert (actions + [a])[..|actions|] == actions;
  }

  predicate AllShots(shots: seq<Snapshot>, safe: bool) {
    forall k | 0 <= k < |shots| :: WellFormed(shots[k].content) && (safe ==> Coherent(shots[k].content))
  }

  /** What every reachable draft keeps; `safe` adds the coherence of its legs. */
  predicate Sound(d: Draft, safe: bool) {
    && WellFormed(d.content) && (safe ==> Coherent(d.content))
    && AllShots(d.undoStack, safe) && AllShots(d.redoStack, safe)
    && |d.undoStack| + |d.redoStack| <= d.historyLimit
  }

  lemma ApplyWellFormed(c: Content, e: Edit, measured: nat)
    requires WellFormed(c) && Apply(c, e, measured).Ok?
    ensures WellFormed(Apply(c, e, measured).value)
  {
    match e
    case Add(at) => AddedStays(c, at);
    case Move(id, at) => MovedStays(c, FindPoint(c.controlPoints, id).value, at, measured);
    case Preview(id, at) => MovedStays(c, FindPoint(c.controlPoints, id).value, at, measured);
    case Remove(id) => RemovedWellFormed(c, FindPoint(c.controlPoints, id).value, measured);
    case Reorder(id, target) => ReorderedStays(c, FindPoint(c.controlPoints, id).value, target, measured);
    case SetLoop(closedLoop) => LoopedStays(c, closedLoop, measured);
    case SetLeg(i, leg) => WithLegStays(c, i, leg, measured);
    case _ =>
  }

  lemma ActSound(d: Draft, a: Action, safe: bool)
    requires Sound(d, safe) && Act(d, a).Ok?
    requires safe && a.Do? ==> Careful(d.content, a.edit)
    ensures Sound(Act(d, a).value, safe) && Act(d, a).value.historyLimit == d.historyLimit
  {
    match a
    case Do(e, measured) =>
      ApplyWellFormed(d.content, e, measured);
      if safe {
        CoherentIffCareful(d.content, e, measured);
      }
    case _ =>
  }

  /** Every edit of the run is careful at the time it is made. */
  ghost predicate CarefulRun(d: Draft, actions: seq<Action>) {
    forall k | 0 <= k < |actions| && actions[k].Do? :: Careful(Run(d, actions[..k]).content, actions[k].edit)
  }

  lemma {:induction false} RunSound(d: Draft, actions: seq<Action>, safe: bool)
    requires Sound(d, safe) && (safe ==> CarefulRun(d, actions))
    ensures Sound(Run(d, actions), safe) && Run(d, actions).historyLimit == d.historyLimit
    decreases |actions|
  {
    if actions != [] {
      var last := |actions| - 1;
      assert forall k | 0 <= k <= last :: actions[..last][..k] == actions[..k];
      RunSound(d, actions[..last], safe);
      if Act(Run(d, actions[..last]), actions[last]).Ok? {
        ActSound(Run(d, actions[..last]), actions[last], safe);
      }
    }
  }

  /** In every run from a new draft: the undo and redo stacks together stay
      within the limit, and control points have names of their own, although
      undo turns the counter of names back. */
  lemma ReachableSound(limit: nat, actions: seq<Action>)
    requires limit > 0
    ensures var d := Run(CreateDraft(limit).value, actions);
            && |d.undoStack| + |d.redoStack| <= limit
            && DistinctIds(d.content.controlPoints, d.content.nextControlPointNumber)
            && |d.content.legResults| == Legs(d.content)
  {
    RunSound(CreateDraft(limit).value, actions, false);
  }

  /** In every run of careful edits, with undo and redo anywhere between them,
      each stored leg lies between the control points it was computed for. */
  lemma LegsStayCoherent(limit: nat, actions: seq<Action>)
    requires limit > 0 && CarefulRun(CreateDraft(limit).value, actions)
    ensures Coherent(Run(CreateDraft(limit).value, actions).content)
  {
    RunSound(CreateDraft(limit).value, actions, true);
  }

  /** Stacks alike but for revision numbers. */
  predicate AlikeShots(a: seq<Snapshot>, b: seq<Snapshot>) {
    |a| == |b| && forall k | 0 <= k < |a| :: a[k].content == b[k].content
  }

  predicate Alike(a: Draft, b: Draft) {
    && a.status == b.status && a.content == b.content && a.historyLimit == b.historyLimit
    && AlikeShots(a.undoStack, b.undoStack) && AlikeShots(a.redoStack, b.redoStack)
  }

  function Times(d: Draft, a: Action, k: nat): Draft
    decreases k
  {
    if k == 0 then d
    else if Act(d, a).Ok? then Times(Act(d, a).value, a, k - 1) else d
  }

  /** The last of k actions, split off at the end. */
  lemma {:induction false} TimesLast(d: Draft, a: Action, k: nat)
    requires (a.Undo? || a.Redo?) && d.status == Editing && k > 0
    ensures Times(d, a, k - 1).status == Editing && Times(d, a, k) == Act(Times(d, a, k - 1), a).value
    decreases k
  {
    if k > 1 {
      TimesLast(Act(d, a).value, a, k - 1);
    }
  }

  lemma RedoUndoes(d: Draft)
    requires d.status == Editing && d.undoStack != [] && |d.undoStack| + |d.redoStack| <= d.historyLimit
    ensures Alike(RedoDraft(UndoDraft(d).value).value, d)
  {
    var u := UndoDraft(d).value;
    assert u.redoStack[1..] == d.redoStack;
  }

  lemma UndoUndoes(d: Draft)
    requires d.status == Editing && d.redoStack != [] && |d.undoStack| + |d.redoStack| <= d.historyLimit
    ensures Alike(UndoDraft(RedoDraft(d).value).value, d)
  {
    var r := RedoDraft(d).value;
    assert r.undoStack == d.undoStack + [Shot(d)];
  }

  lemma AlikeActs(a: Draft, b: Draft, action: Action)
    requires Alike(a, b) && a.status == Editing && (action.Undo? || action.Redo?)
    requires |a.undoStack| < a.historyLimit || action.Undo?
    ensures Alike(Act(a, action).value, Act(b, action).value)
  {
    var x, y := Act(a, action).value, Act(b, action).value;
    assert AlikeShots(x.undoStack, y.undoStack);
    assert AlikeShots(x.redoStack, y.redoStack);
  }

  lemma AlikeTransitive(a: Draft, b: Draft, c: Draft)
    requires Alike(a, b) && Alike(b, c)
    ensures Alike(a, c)
  {
  }

  /** k undos and then k redos lead back, up to revision numbers. */
  lemma {:induction false} UndosThenRedos(d: Draft, k: nat)
    requires d.status == Editing && |d.undoStack| + |d.redoStack| <= d.historyLimit && k <= |d.undoStack|
    ensures Alike(Times(Times(d, Undo, k), Redo, k), d)
    decreases k
  {
    if k > 0 {
      var u := UndoDraft(d).value;
      UndosThenRedos(u, k - 1);
      var back := Times(Times(u, Undo, k - 1), Redo, k - 1);
      StaysEditing(u, Undo, k - 1);
      TimesLast(Times(u, Undo, k - 1), Redo, k);
      AlikeActs(back, u, Redo);
      RedoUndoes(d);
      AlikeTransitive(RedoDraft(back).value, RedoDraft(u).value, d);
    }
  }

  /** And k redos and then k undos. */
  lemma {:induction false} RedosThenUndos(d: Draft, k: nat)
    requires d.status == Editing && |d.undoStack| + |d.redoStack| <= d.historyLimit && k <= |d.redoStack|
    ensures Alike(Times(Times(d, Redo, k), Undo, k), d)
    decreases k
  {
    if k > 0 {
      var r := RedoDraft(d).value;
      RedosThenUndos(r, k - 1);
      var back := Times(Times(r, Redo, k - 1), Undo, k - 1);
      StaysEditing(r, Redo, k - 1);
      TimesLast(Times(r, Redo, k - 1), Undo, k);
      AlikeActs(back, r, Undo);
      UndoUndoes(d);
      AlikeTransitive(UndoDraft(back).value, UndoDraft(r).value, d);
    }
  }

  lemma {:induction false} StaysEditing(d: Draft, a: Action, k: nat)
    requires (a.Undo? || a.Redo?) && d.status == Editing
    ensures Times(d, a, k).status == Editing
    decreases k
  {
    if k > 0 {
      StaysEditing(Act(d, a).value, a, k - 1);
    }
  }

  /** Undoing a committed edit restores the content, and the undo stack but for
      an entry that the limit pushed out. */
  lemma UndoneCommit(d: Draft, e: Edit, measured: nat)
    requires Perform(d, e, measured).Ok? && Commits(e)
    requires |d.undoStack| <= d.historyLimit && d.historyLimit > 0
    ensures var edited := Perform(d, e, measured).value;
            var undone := UndoDraft(edited).value;
            && undone.content == d.content
            && undone.undoStack == (if |d.undoStack| < d.historyLimit then d.undoStack else d.undoStack[1..])
            && undone.redoStack == [Shot(edited)]
            && RedoDraft(undone).value.content == edited.content
  {
    PushedLast(d.undoStack, Shot(d), d.historyLimit);
  }

  lemma PushedLast(history: seq<Snapshot>, entry: Snapshot, limit: nat)
    requires |history| <= limit && limit > 0
    ensures var r := PushHistory(history, entry, limit);
            r == (if |history| < limit then history else history[1..]) + [entry]
  {
  }

  /** A draft that has left editing is complete and has a name. */
  predicate PublishableUnlessEditing(d: Draft) {
    d.status != Editing ==>
      Complete(d.content) && NormalizeSegmentName(d.content.name).Ok? && d.content.invalidatedLegIndexes == {}
  }

  /** In every run whatever is ready or published has all its legs. */
  lemma {:induction false} PublishedIsComplete(d: Draft, actions: seq<Action>)
    requires PublishableUnlessEditing(d)
    ensures PublishableUnlessEditing(Run(d, actions))
    decreases |actions|
  {
    if actions != [] {
      PublishedIsComplete(d, actions[..|actions| - 1]);
    }
  }

  /** From ready to published nothing changes but by returning to editing. */
  lemma {:induction false} PublishedAsPrepared(d: Draft, actions: seq<Action>)
    requires d.status != Editing && forall k | 0 <= k < |actions| :: !actions[k].ResumeEditing?
    ensures Run(d, actions).status != Editing && Run(d, actions).content == d.content
    decreases |actions|
  {
    if actions != [] {
      assert actions[|actions| - 1] in actions;
      PublishedAsPrepared(d, actions[..|actions| - 1]);
    }
  }

  /** The copy of a draft's content that an edit works on. */
  class Working {
    var name: string
    var controlPoints: seq<ControlPoint>
    var closedLoop: bool
    var legResults: seq<Option<Leg>>
    var invalidatedLegIndexes: set<int>
    var selection: Option<Selection>
    var nextControlPointNumber: nat

    constructor (c: Content)
      ensures State() == c
    {
      name, controlPoints, closedLoop, legResults := c.name, c.controlPoints, c.closedLoop, c.legResults;
      invalidatedLegIndexes, selection := c.invalidatedLegIndexes, c.selection;
      nextControlPointNumber := c.nextControlPointNumber;
    }

    function State(): Content
      reads this
    {
      Content(name, controlPoints, closedLoop, legResults, invalidatedLegIndexes, selection, nextControlPointNumber)
    }

    method FindControlPointIndex(id: nat) returns (r: Option<nat>)
      ensures r == FindPoint(controlPoints, id)
    {
      for i := 0 to |controlPoints|
        invariant FindPoint(controlPoints, id)
                  == match FindPoint(controlPoints[i..], id) { case None => None case Some(k) => Some(i + k) }
      {
        if controlPoints[i].id == id {
          return Some(i);
        }
        assert controlPoints[i..][1..] == controlPoints[i + 1..];
      }
      return None;
    }

    method InvalidateLegs(indexes: set<int>)
      modifies this
      ensures State() == Invalidated(old(State()), indexes)
    {
      var sorted := set i | i in indexes && i >= 0;
      var count := LegCount(|controlPoints|, closedLoop);
      var todo := sorted;
      while todo != {}
        invariant todo <= sorted && State() == old(State()).(legResults := legResults)
        invariant forall j: nat :: Entry(legResults, j)
                    == if j in sorted - todo && j < count then None else Entry(old(legResults), j)
        decreases todo
      {
        var i :| i in todo;
        if i < count {
          legResults := Assigned(legResults, i, None);
        }
        todo := todo - {i};
      }
      legResults := Kept(legResults, count, {});
      assert legResults == Kept(old(legResults), count, indexes);
      invalidatedLegIndexes := sorted;
    }

    method ClampSelection(measured: nat)
      modifies this
      ensures State() == Clamped(old(State()), measured)
    {
      if selection.None? {
        return;
      }
      var total := Total(State(), measured);
      if total == 0 {
        selection := None;
        return;
      }
      selection := Some(Selection(Clamp(selection.value.startM, 0.0, total as real),
                                  Clamp(selection.value.endM, 0.0, total as real)));
      if selection.value.endM < selection.value.startM {
        selection := Some(selection.value.(endM := selection.value.startM));
      }
    }

    method AddControlPoint(at: Position)
      modifies this
      ensures State() == Added(old(State()), at)
    {
      var insertIndex := |controlPoints|;
      controlPoints := controlPoints + [ControlPoint(nextControlPointNumber, at)];
      nextControlPointNumber := nextControlPointNumber + 1;
      InvalidateLegs(ImpactedByInsert(insertIndex, |controlPoints|, closedLoop));
    }

    method MoveControlPointInPlace(id: nat, at: Position, measured: nat) returns (found: bool)
      modifies this
      ensures found <==> FindPoint(old(controlPoints), id).Some?
      ensures State() == if found then MovedTo(old(State()), FindPoint(old(controlPoints), id).value, at, measured)
                         else old(State())
    {
      var index := FindControlPointIndex(id);
      if index.None? {
        return false;
      }
      controlPoints := controlPoints[index.value := controlPoints[index.value].(at := at)];
      InvalidateLegs(ImpactedByMove(index.value, |controlPoints|, closedLoop));
      ClampSelection(measured);
      return true;
    }

    method RemoveControlPoint(id: nat, measured: nat) returns (found: bool)
      modifies this
      ensures found <==> FindPoint(old(controlPoints), id).Some?
      ensures State() == if found then RemovedAt(old(State()), FindPoint(old(controlPoints), id).value, measured)
                         else old(State())
    {
      var index := FindControlPointIndex(id);
      if index.None? {
        return false;
      }
      controlPoints := controlPoints[..index.value] + controlPoints[index.value + 1..];
      if |controlPoints| < 2 {
        closedLoop := false;
      }
      InvalidateLegs(ImpactedByRemoval(index.value, |controlPoints|, closedLoop));
      ClampSelection(measured);
      return true;
    }

    method ReorderControlPoints(id: nat, target: int, measured: nat) returns (found: bool)
      modifies this
      ensures found <==> 0 <= target < |old(controlPoints)| && FindPoint(old(controlPoints), id).Some?
      ensures State() == if found
                         then MovedInOrder(old(State()), FindPoint(old(controlPoints), id).value, target, measured)
                         else old(State())
    {
      if !(0 <= target < |controlPoints|) {
        return false;
      }
      var from := FindControlPointIndex(id);
      if from.None? {
        return false;
      }
      if from.value == target {
        invalidatedLegIndexes := {};
        return true;
      }
      var controlPoint := controlPoints[from.value];
      controlPoints := controlPoints[..from.value] + controlPoints[from.value + 1..];
      controlPoints := controlPoints[..target] + [controlPoint] + controlPoints[target..];
      InvalidateLegs(ImpactedByReorder(from.value, target, |controlPoints|, closedLoop));
      ClampSelection(measured);
      return true;
    }

    method SetClosedLoop(closed: bool, measured: nat)
      modifies this
      ensures State() == Looped(old(State()), closed, measured)
    {
      var previousClosing := ClosingLeg(|controlPoints|, closedLoop);
      var enabled := closed && |controlPoints| > 1;
      if closedLoop == enabled {
        invalidatedLegIndexes := {};
        return;
      }
      closedLoop := enabled;
      var nextClosing := ClosingLeg(|controlPoints|, enabled);
      InvalidateLegs(Listed(previousClosing) + Listed(nextClosing));
      ClampSelection(measured);
    }

    method SetLegResult(legIndex: int, leg: Leg, measured: nat) returns (error: Outcome<bool>)
      modifies this
      ensures match Apply(old(State()), SetLeg(legIndex, leg), measured)
              case Ok(c) => error.Ok? && State() == c
              case TypeError => error == TypeError
              case RangeError => error == RangeError
    {
      if !(0 <= legIndex < LegCount(|controlPoints|, closedLoop)) {
        return RangeError;
      }
      if |leg.geometry| < 2 {
        return TypeError;
      }
      legResults := Assigned(legResults, legIndex, Some(leg));
      invalidatedLegIndexes := invalidatedLegIndexes - {legIndex};
      ClampSelection(measured);
      return Ok(true);
    }
  }

  /** Edits a copy of the draft's content and remembers the content before. */
  method Mutate(d: Draft, e: Edit, measured: nat) returns (r: Outcome<Draft>)
    ensures r == Perform(d, e, measured)
  {
    if d.status != Editing {
      return TypeError;
    }
    var working := new Working(d.content);
    var found := true;
    match e {
      case Add(at) => working.AddControlPoint(at);
      case Move(id, at) => found := working.MoveControlPointInPlace(id, at, measured);
      case Preview(id, at) => found := working.MoveControlPointInPlace(id, at, measured);
      case Remove(id) => found := working.RemoveControlPoint(id, measured);
      case Reorder(id, target) => found := working.ReorderControlPoints(id, target, measured);
      case SetLoop(closedLoop) => working.SetClosedLoop(closedLoop, measured);
      case SetLeg(legIndex, leg) =>
        var error := working.SetLegResult(legIndex, leg, measured);
        if error.TypeError? {
          return TypeError;
        }
        found := error.Ok?;
      case SetName(name) =>
        var normalized := NormalizeSegmentName(name);
        if !normalized.Ok? {
          return TypeError;
        }
        working.name := normalized.value;
      case Trim(startM, endM) =>
        if startM > endM || startM < 0.0 || endM > Total(working.State(), measured) as real {
          return RangeError;
        }
        working.selection := Some(Selection(startM, endM));
      case ResetTrim => working.selection := None;
    }
    if !found {
      return RangeError;
    }
    if !Commits(e) {
      return Ok(d.(content := working.State()));
    }
    return Ok(Committed(d, working.State()));
  }
}
