/** The publication payload: the composed route, the indexes of its control
    points, and whether the server takes them. */
module Payloads {
  import opened Common
  import opened Outcomes
  import opened Draft

  type Legs = seq<Option<Leg>>

  datatype PublishPayload = PublishPayload(name: string, geometry: seq<Position>, controlPoints: seq<nat>)

  /** All of the first `count` legs are there. */
  predicate Stored(legs: Legs, count: nat) {
    forall i: nat | i < count :: Entry(legs, i).Some?
  }

  /** The points of leg i; there are none when it is missing. */
  function PointsOf(legs: Legs, i: nat): seq<Position> {
    match Entry(legs, i)
    case None => []
    case Some(leg) => leg.geometry
  }

  /** Each of the first `count` legs has two points at least. */
  predicate Routed(legs: Legs, count: nat) {
    forall i: nat | i < count :: |PointsOf(legs, i)| >= 2
  }

  /** The leg begins where the route ends. */
  predicate Meets(route: seq<Position>, leg: seq<Position>) {
    route != [] && leg != [] && route[|route| - 1] == leg[0]
  }

  /** A point that route and leg share is kept once. */
  function Joined(route: seq<Position>, leg: seq<Position>): seq<Position> {
    route + if Meets(route, leg) then leg[1..] else leg
  }

  function Composed(legs: Legs, count: nat): seq<Position> {
    if count == 0 then [] else Joined(Composed(legs, count - 1), PointsOf(legs, count - 1))
  }

  function ComposedGeometry(legs: Legs, count: nat): seq<Position> {
    if Stored(legs, count) then Composed(legs, count) else []
  }

  method ComposeGeometry(legs: Legs, count: nat) returns (geometry: seq<Position>)
    ensures geometry == ComposedGeometry(legs, count)
  {
    geometry := [];
    if |legs| < count || exists i | 0 <= i < count :: legs[i].None? {
      assert !Stored(legs, count) by {
        if |legs| < count {
          assert Entry(legs, count - 1).None?;
        } else {
          var i: nat :| i < count && legs[i].None?;
          assert Entry(legs, i).None?;
        }
      }
      return;
    }
    for index := 0 to count
      invariant geometry == Composed(legs, index)
    {
      geometry := AppendLeg(geometry, legs[index].value.geometry);
    }
  }

  method AppendLeg(route: seq<Position>, leg: seq<Position>) returns (geometry: seq<Position>)
    ensures geometry == Joined(route, leg)
  {
    geometry := route;
    for pointIndex := 0 to |leg|
      invariant geometry == Joined(route, leg[..pointIndex])
    {
      var point := leg[pointIndex];
      JoinedNext(route, leg, pointIndex);
      if !(geometry != [] && pointIndex == 0 && geometry[|geometry| - 1] == point) {
        geometry := geometry + [point];
      }
    }
    assert leg[..|leg|] == leg;
  }

  lemma JoinedNext(before: seq<Position>, leg: seq<Position>, k: nat)
    requires k < |leg|
    ensures Joined(before, leg[..k + 1])
            == if k == 0 && before != [] && before[|before| - 1] == leg[0] then Joined(before, leg[..0])
               else Joined(before, leg[..k]) + [leg[k]]
  {
    assert leg[..k + 1] == leg[..k] + [leg[k]];
    if k > 0 {
      assert leg[..k + 1][1..] == leg[..k][1..] + [leg[k]];
    }
  }

  predicate Below(s: seq<nat>, n: nat) {
    forall i | 0 <= i < |s| :: s[i] < n
  }

  /** How far the first `count` legs lead when they share their ends. */
  function Cursor(legs: Legs, count: nat): nat {
    if count == 0 then 0
    else Cursor(legs, count - 1) + Advance(PointsOf(legs, count - 1))
  }

  function Advance(leg: seq<Position>): nat {
    if |leg| < 2 then 0 else |leg| - 1
  }

  /** The index of the start and of the end of each routed leg, by the lengths of the legs. */
  function Anchors(legs: Legs, count: nat, length: nat): (r: seq<nat>)
    requires length > 0
    ensures r != [] && Below(r, length)
  {
    if count == 0 then [0]
    else
      Anchors(legs, count - 1, length)
      + if Advance(PointsOf(legs, count - 1)) == 0 then [] else [Min(Cursor(legs, count), length - 1)]
  }

  method ControlAnchorIndexes(legs: Legs, count: nat, length: nat) returns (anchors: seq<nat>)
    requires length > 0
    ensures anchors == Anchors(legs, count, length)
  {
    anchors := [0];
    var cursor := 0;
    var legCount := if count < |legs| then count else |legs|;
    for index := 0 to legCount
      invariant cursor == Cursor(legs, index) && anchors == Anchors(legs, index, length)
    {
      var leg := legs[index];
      if leg.Some? && |leg.value.geometry| >= 2 {
        cursor := cursor + |leg.value.geometry| - 1;
        anchors := anchors + [Min(cursor, length - 1)];
      }
    }
    AnchorsBeyond(legs, legCount, count, length);
  }

  lemma {:induction false} AnchorsBeyond(legs: Legs, low: nat, count: nat, length: nat)
    requires low <= count && length > 0 && (low == count || low == |legs|)
    ensures Anchors(legs, count, length) == Anchors(legs, low, length)
  {
    if low < count {
      AnchorsBeyond(legs, low, count - 1, length);
    }
  }

  /** All but the first and the last. */
  function Inner<T>(s: seq<T>): seq<T> {
    if |s| <= 2 then [] else s[1..|s| - 1]
  }

  /** The positions of the anchors between the first and the last. */
  function InnerStops(legs: Legs, count: nat): seq<Position> {
    var route := ComposedGeometry(legs, count);
    if route == [] then [] else PositionsAt(route, Inner(Anchors(legs, count, |route|)))
  }

  function PositionsAt(route: seq<Position>, indexes: seq<nat>): (r: seq<Position>)
    requires Below(indexes, |route|)
    ensures |r| == |indexes| && forall i | 0 <= i < |r| :: r[i] == route[indexes[i]]
  {
    if indexes == [] then [] else PositionsAt(route, indexes[..|indexes| - 1]) + [route[indexes[|indexes| - 1]]]
  }

  /** No earlier position is the same. */
  predicate FirstOf(geometry: seq<Position>, k: nat)
    requires k < |geometry|
  {
    forall j | 0 <= j < k :: geometry[j] != geometry[k]
  }

  /** The first index of a position. */
  function FindIndex(geometry: seq<Position>, p: Position): (r: Option<nat>)
    ensures r.None? ==> p !in geometry
    ensures r.Some? ==> r.value < |geometry| && geometry[r.value] == p && FirstOf(geometry, r.value)
  {
    if geometry == [] then None
    else
      match FindIndex(geometry[..|geometry| - 1], p)
      case Some(k) => Some(k)
      case None => if geometry[|geometry| - 1] == p then Some(|geometry| - 1) else None
  }

  predicate FoundInside(geometry: seq<Position>, p: Position) {
    var found := FindIndex(geometry, p);
    found.Some? && 0 < found.value < |geometry| - 1
  }

  /** Where the stops are first met, apart from the ends. */
  function Selected(geometry: seq<Position>, stops: seq<Position>): set<nat> {
    if stops == [] then {}
    else
      var stop := stops[|stops| - 1];
      Selected(geometry, stops[..|stops| - 1])
      + if FoundInside(geometry, stop) then {FindIndex(geometry, stop).value} else {}
  }

  /** The members below n in ascending order. */
  function Ascending(s: set<nat>, n: nat): (r: seq<nat>)
    ensures Below(r, n) && StrictlyUp(r) && (forall k :: k in r <==> k in s && k < n)
  {
    if n == 0 then [] else Ascending(s, n - 1) + if n - 1 in s then [n - 1] else []
  }

  function ControlPoints(geometry: seq<Position>, stops: seq<Position>): seq<nat>
    requires |geometry| >= 2
  {
    Ascending(Selected(geometry, stops) + {0, |geometry| - 1}, |geometry|)
  }

  /** `geometry` is the trimmed route; without all legs there is none. */
  method BuildPublishPayload(name: string, legs: Legs, count: nat, geometry: seq<Position>)
      returns (r: Outcome<PublishPayload>)
    ensures r.Ok? <==> NormalizeSegmentName(name).Ok? && |geometry| >= 2
    ensures r.Ok? ==> r.value == PublishPayload(NormalizeSegmentName(name).value, geometry,
                                                ControlPoints(geometry, InnerStops(legs, count)))
    ensures !r.Ok? ==> r == TypeError
  {
    var normalized := NormalizeSegmentName(name);
    if !normalized.Ok? || |geometry| < 2 {
      return TypeError;
    }
    var fullGeometry := ComposeGeometry(legs, count);
    var anchors: seq<nat> := [];
    if fullGeometry != [] {
      anchors := ControlAnchorIndexes(legs, count, |fullGeometry|);
    }
    var controlPoints := SelectControlPoints(geometry, fullGeometry, Inner(anchors));
    r := Ok(PublishPayload(normalized.value, geometry, controlPoints));
  }

  method SelectControlPoints(geometry: seq<Position>, route: seq<Position>, inner: seq<nat>) returns (r: seq<nat>)
    requires |geometry| >= 2 && Below(inner, |route|)
    ensures r == ControlPoints(geometry, PositionsAt(route, inner))
  {
    var selected: set<nat> := {0};
    ghost var stops := PositionsAt(route, inner);
    for i := 0 to |inner|
      invariant selected == Selected(geometry, stops[..i]) + {0}
    {
      assert stops[..i + 1][..i] == stops[..i];
      var place := FindIndex(geometry, route[inner[i]]);
      if place.Some? && place.value > 0 && place.value < |geometry| - 1 {
        selected := selected + {place.value};
      }
    }
    assert stops[..|inner|] == stops;
    assert selected + {|geometry| - 1} == Selected(geometry, stops) + {0, |geometry| - 1};
    r := Ascending(selected + {|geometry| - 1}, |geometry|);
  }

  /** The selected indexes: where an inner stop is first met, ends excluded. */
  lemma {:induction false} SelectedIff(geometry: seq<Position>, stops: seq<Position>, k: nat)
    ensures k in Selected(geometry, stops)
            <==> 0 < k < |geometry| - 1 && geometry[k] in stops && FirstOf(geometry, k)
  {
    if stops != [] {
      var front, stop := stops[..|stops| - 1], stops[|stops| - 1];
      SelectedIff(geometry, front, k);
      assert stops == front + [stop];
      if k < |geometry| && geometry[k] == stop && FirstOf(geometry, k) {
        FirstPlace(geometry, k);
      }
    }
  }

  lemma FirstPlace(geometry: seq<Position>, k: nat)
    requires k < |geometry| && FirstOf(geometry, k)
    ensures FindIndex(geometry, geometry[k]) == Some(k)
  {
    var i := FindIndex(geometry, geometry[k]).value;
    assert i == k || i < k || k < i;
  }

  /** The stops are met at different places, none of them an end. */
  predicate Apart(geometry: seq<Position>, stops: seq<Position>) {
    && (forall i | 0 <= i < |stops| :: FoundInside(geometry, stops[i]))
    && (forall i, j | 0 <= i < j < |stops| :: stops[i] != stops[j])
  }

  lemma {:induction false} SelectedCount(geometry: seq<Position>, stops: seq<Position>)
    ensures |Selected(geometry, stops)| <= |stops|
    ensures |Selected(geometry, stops)| == |stops| <==> Apart(geometry, stops)
  {
    if stops != [] {
      var front, stop := stops[..|stops| - 1], stops[|stops| - 1];
      SelectedCount(geometry, front);
      assert stops == front + [stop];
      if FoundInside(geometry, stop) {
        var k := FindIndex(geometry, stop).value;
        SelectedIff(geometry, front, k);
        assert k in Selected(geometry, front) <==> stop in front;
        ApartNext(geometry, front, stop);
      }
    }
  }

  lemma ApartNext(geometry: seq<Position>, front: seq<Position>, stop: Position)
    requires FoundInside(geometry, stop)
    ensures Apart(geometry, front + [stop]) <==> Apart(geometry, front) && stop !in front
  {
    var all := front + [stop];
    if Apart(geometry, all) {
      assert forall i | 0 <= i < |front| :: all[i] == front[i] && all[i] != all[|front|];
    }
  }

  predicate StrictlyUp(r: seq<nat>) {
    forall i, j | 0 <= i < j < |r| :: r[i] < r[j]
  }

  lemma {:induction false} AscendingSize(r: seq<nat>, s: set<nat>)
    requires StrictlyUp(r) && forall k: nat :: k in r <==> k in s
    ensures |r| == |s|
  {
    if r != [] {
      var last := r[|r| - 1];
      var front := r[..|r| - 1];
      assert r == front + [last];
      AscendingSize(front, s - {last});
    } else {
      assert s == {};
    }
  }

  /** The list starts at 0, ascends strictly and ends at the last point; between
      them lie exactly the first places of the inner stops. */
  lemma ControlPointsMarkStops(geometry: seq<Position>, stops: seq<Position>)
    requires |geometry| >= 2
    ensures var r := ControlPoints(geometry, stops);
            && |r| == |Selected(geometry, stops)| + 2 && StrictlyUp(r) && Below(r, |geometry|)
            && r[0] == 0 && r[|r| - 1] == |geometry| - 1
            && forall k: nat | 0 < k < |geometry| - 1 ::
                 k in r <==> geometry[k] in stops && FirstOf(geometry, k)
  {
    SelectedSize(geometry, stops);
    Ends(ControlPoints(geometry, stops), |geometry|);
    forall k: nat | 0 < k < |geometry| - 1
      ensures k in ControlPoints(geometry, stops) <==> geometry[k] in stops && FirstOf(geometry, k)
    {
      SelectedIff(geometry, stops, k);
    }
  }

  lemma SelectedSize(geometry: seq<Position>, stops: seq<Position>)
    requires |geometry| >= 2
    ensures |ControlPoints(geometry, stops)| == |Selected(geometry, stops)| + 2
  {
    var s, n := Selected(geometry, stops), |geometry|;
    forall k: nat | k in s
      ensures 0 < k < n - 1
    {
      SelectedIff(geometry, stops, k);
    }
    AscendingSize(ControlPoints(geometry, stops), s + {0, n - 1});
    assert s + {0, n - 1} == s + {0} + {n - 1};
  }

  lemma Ends(r: seq<nat>, n: nat)
    requires n > 0 && 0 in r && n - 1 in r && Below(r, n) && StrictlyUp(r)
    ensures r[0] == 0 && r[|r| - 1] == n - 1
  {
    var i :| 0 <= i < |r| && r[i] == 0;
    var j :| 0 <= j < |r| && r[j] == n - 1;
  }

  // The server.

  const V2_CONTROL_POINTS := 16

  datatype Verdict = Taken | RefusedWith(status: nat)

  /** What the server makes of a list of control points. */
  function NormalizeControlPoints(value: seq<int>, pointCount: nat): Verdict {
    if |value| < 2 then RefusedWith(400)
    else if |value| > V2_CONTROL_POINTS then RefusedWith(413)
    else if exists i | 0 <= i < |value| :: value[i] < 0 || value[i] >= pointCount then RefusedWith(400)
    else if value[0] != 0 || value[|value| - 1] != pointCount - 1 then RefusedWith(400)
    else if exists i | 0 < i < |value| :: value[i] <= value[i - 1] then RefusedWith(400)
    else Taken
  }

  /** The server's test, said at once: 2 to 16 indexes, from the first point
      to the last, each above the one before. */
  lemma VerdictIff(value: seq<int>, pointCount: nat)
    ensures NormalizeControlPoints(value, pointCount) == Taken <==>
            && 2 <= |value| <= 16 && value[0] == 0 && value[|value| - 1] == pointCount - 1
            && forall i, j | 0 <= i < j < |value| :: value[i] < value[j]
    ensures NormalizeControlPoints(value, pointCount) == RefusedWith(413) <==> |value| > 16
    ensures NormalizeControlPoints(value, pointCount) in {Taken, RefusedWith(413), RefusedWith(400)}
  {
    if NormalizeControlPoints(value, pointCount) == Taken {
      forall i, j | 0 <= i < j < |value|
        ensures value[i] < value[j]
      {
        StepsUp(value, i, j);
      }
    }
  }

  lemma {:induction false} StepsUp(value: seq<int>, i: nat, j: nat)
    requires i < j < |value| && forall k | 0 < k < |value| :: value[k - 1] < value[k]
    ensures value[i] < value[j]
  {
    if i + 1 < j {
      StepsUp(value, i, j - 1);
    }
    assert value[j - 1] < value[j];
  }

  /** The server takes the app's list unless it is too long, which takes as many
      inner stops as it allows entries, less one, all at different places. */
  lemma VerdictOnStops(geometry: seq<Position>, stops: seq<Position>)
    requires |geometry| >= 2 && |stops| < V2_CONTROL_POINTS
    ensures NormalizeControlPoints(ControlPoints(geometry, stops), |geometry|)
            == if |stops| == V2_CONTROL_POINTS - 1 && Apart(geometry, stops) then RefusedWith(413) else Taken
  {
    ControlPointsMarkStops(geometry, stops);
    SelectedCount(geometry, stops);
    var r := ControlPoints(geometry, stops);
    assert Below(r, |geometry|);
  }

  lemma {:induction false} AnchorsAre(legs: Legs, count: nat, length: nat)
    requires Routed(legs, count) && length > 0
    ensures |Anchors(legs, count, length)| == count + 1
    ensures forall i: nat | i <= count :: Anchors(legs, count, length)[i] == Min(Cursor(legs, i), length - 1)
  {
    if count > 0 {
      AnchorsAre(legs, count - 1, length);
      assert |PointsOf(legs, count - 1)| >= 2;
    }
  }

  /** A leg makes the route longer and ends it. */
  lemma JoinedLength(route: seq<Position>, leg: seq<Position>)
    requires |leg| >= 2
    ensures |Joined(route, leg)| == |route| + |leg| - if Meets(route, leg) then 1 else 0
    ensures |Joined(route, leg)| >= |leg| && |Joined(route, leg)| > |route|
  {
  }

  predicate Holds(route: seq<Position>, k: nat, p: Position) {
    k < |route| && route[k] == p
  }

  lemma JoinedHolds(route: seq<Position>, leg: seq<Position>, k: nat, p: Position)
    requires Holds(route, k, p) && |leg| >= 2
    ensures Holds(Joined(route, leg), k, p) && k + 1 < |Joined(route, leg)|
  {
  }

  lemma JoinedLast(route: seq<Position>, leg: seq<Position>)
    requires |leg| >= 2
    ensures Joined(route, leg) != [] && Joined(route, leg)[|Joined(route, leg)| - 1] == leg[|leg| - 1]
  {
  }

  lemma ComposedLong(legs: Legs, count: nat)
    requires Routed(legs, count) && count > 0
    ensures Stored(legs, count) && |ComposedGeometry(legs, count)| >= 2
    ensures ComposedGeometry(legs, count) == Composed(legs, count)
  {
    assert forall i: nat | i < count :: |PointsOf(legs, i)| >= 2;
    JoinedLength(Composed(legs, count - 1), PointsOf(legs, count - 1));
  }

  function Clipped(route: seq<Position>, k: nat): Position
    requires route != []
  {
    route[Min(k, |route| - 1)]
  }

  /** One inner stop between each two legs, where the cursor stands. */
  predicate StopsAtCursors(legs: Legs, count: nat, route: seq<Position>, stops: seq<Position>)
    requires route != []
  {
    |stops| == count - 1 && forall i: nat | 0 < i < count :: stops[i - 1] == Clipped(route, Cursor(legs, i))
  }

  lemma InnerStopsAre(legs: Legs, count: nat)
    requires Routed(legs, count) && count > 0
    ensures ComposedGeometry(legs, count) != []
    ensures StopsAtCursors(legs, count, ComposedGeometry(legs, count), InnerStops(legs, count))
  {
    ComposedLong(legs, count);
    var route := ComposedGeometry(legs, count);
    AnchorsAre(legs, count, |route|);
    StopsOfAnchors(legs, count, route, Anchors(legs, count, |route|));
  }

  lemma StopsOfAnchors(legs: Legs, count: nat, route: seq<Position>, anchors: seq<nat>)
    requires count > 0 && route != [] && Below(anchors, |route|) && |anchors| == count + 1
    requires forall i: nat | i <= count :: anchors[i] == Min(Cursor(legs, i), |route| - 1)
    ensures StopsAtCursors(legs, count, route, PositionsAt(route, Inner(anchors)))
  {
    var stops := PositionsAt(route, Inner(anchors));
    forall i: nat | 0 < i < count
      ensures stops[i - 1] == Clipped(route, Cursor(legs, i))
    {
      assert Inner(anchors)[i - 1] == anchors[i];
    }
  }

  /** So the server takes every payload of a draft of up to sixteen points,
      except that of a loop of sixteen whose stops all lie apart. */
  lemma VerdictOnDraft(legs: Legs, points: nat, closedLoop: bool, geometry: seq<Position>)
    requires 2 <= points <= V2_CONTROL_POINTS && Routed(legs, LegCount(points, closedLoop)) && |geometry| >= 2
    ensures var stops := InnerStops(legs, LegCount(points, closedLoop));
            NormalizeControlPoints(ControlPoints(geometry, stops), |geometry|)
            == if closedLoop && points == V2_CONTROL_POINTS && Apart(geometry, stops) then RefusedWith(413) else Taken
  {
    InnerStopsAre(legs, LegCount(points, closedLoop));
    VerdictOnStops(geometry, InnerStops(legs, LegCount(points, closedLoop)));
  }

  /** Leg i ends where the next begins. */
  predicate MeetsNext(legs: Legs, i: nat) {
    Meets(PointsOf(legs, i), PointsOf(legs, i + 1))
  }

  /** How many legs do not begin where the one before ends. */
  function Breaks(legs: Legs, count: nat): nat {
    if count < 2 then 0
    else Breaks(legs, count - 1) + if MeetsNext(legs, count - 2) then 0 else 1
  }

  lemma {:induction false} RouteLast(legs: Legs, count: nat)
    requires Routed(legs, count) && count > 0
    ensures var route, last := Composed(legs, count), PointsOf(legs, count - 1);
            route != [] && last != [] && route[|route| - 1] == last[|last| - 1]
  {
    JoinedLast(Composed(legs, count - 1), PointsOf(legs, count - 1));
  }

  /** The first `count` legs end as many points behind their anchor as legs among them break off. */
  lemma {:induction false} AnchorDrift(legs: Legs, count: nat)
    requires Routed(legs, count) && count > 0
    ensures |Composed(legs, count)| == Cursor(legs, count) + Breaks(legs, count) + 1
  {
    if count > 1 {
      AnchorDrift(legs, count - 1);
      ComposedGrows(legs, count);
    } else {
      ComposedFirst(legs);
      assert Cursor(legs, 0) == 0;
    }
  }

  lemma ComposedGrows(legs: Legs, count: nat)
    requires Routed(legs, count) && count > 1
    ensures var before, last := PointsOf(legs, count - 2), PointsOf(legs, count - 1);
            |Composed(legs, count)| == |Composed(legs, count - 1)| + |last| - if Meets(before, last) then 1 else 0
  {
    RouteLast(legs, count - 1);
    JoinedLength(Composed(legs, count - 1), PointsOf(legs, count - 1));
  }

  lemma ComposedFirst(legs: Legs)
    ensures Composed(legs, 1) == PointsOf(legs, 0)
  {
    assert Composed(legs, 0) == [];
  }

  /** More legs leave what there is, and let the route go on. */
  lemma {:induction false} ComposedHolds(legs: Legs, i: nat, count: nat, k: nat, p: Position)
    requires Routed(legs, count) && i <= count && Holds(Composed(legs, i), k, p)
    ensures Holds(Composed(legs, count), k, p) && (i < count ==> k + 1 < |Composed(legs, count)|)
    decreases count
  {
    if i < count {
      ComposedHolds(legs, i, count - 1, k, p);
      JoinedHolds(Composed(legs, count - 1), PointsOf(legs, count - 1), k, p);
    }
  }

  /** No leg breaks off: each begins where the one before ends. */
  predicate Unbroken(legs: Legs, count: nat) {
    Routed(legs, count) && forall i: nat | i + 1 < count :: MeetsNext(legs, i)
  }

  lemma {:induction false} UnbrokenBreaks(legs: Legs, count: nat)
    requires Unbroken(legs, count)
    ensures Breaks(legs, count) == 0
  {
    if count >= 2 {
      UnbrokenBreaks(legs, count - 1);
      assert MeetsNext(legs, count - 2);
    }
  }

  function StartOf(legs: Legs, i: nat): Position
    requires PointsOf(legs, i) != []
  {
    PointsOf(legs, i)[0]
  }

  lemma AnchorOnRoute(legs: Legs, count: nat, i: nat)
    requires Unbroken(legs, count) && 0 < i < count
    ensures 0 < Cursor(legs, i) < |Composed(legs, count)| - 1
    ensures Composed(legs, count)[Cursor(legs, i)] == StartOf(legs, i)
  {
    AnchorEndsPart(legs, i);
    PartEnds(legs, count, i);
    LegsMeet(legs, count, i);
  }

  lemma AnchorEndsPart(legs: Legs, i: nat)
    requires Unbroken(legs, i) && i > 0
    ensures 0 < Cursor(legs, i) == |Composed(legs, i)| - 1
  {
    UnbrokenBreaks(legs, i);
    AnchorDrift(legs, i);
    ComposedLong(legs, i);
  }

  /** What the first i legs end with stays where it is. */
  lemma PartEnds(legs: Legs, count: nat, i: nat)
    requires Routed(legs, count) && 0 < i < count
    ensures 0 < |Composed(legs, i)| < |Composed(legs, count)|
    ensures var before := PointsOf(legs, i - 1);
            before != [] && Composed(legs, count)[|Composed(legs, i)| - 1] == before[|before| - 1]
  {
    RouteLast(legs, i);
    var before := PointsOf(legs, i - 1);
    ComposedHolds(legs, i, count, |Composed(legs, i)| - 1, before[|before| - 1]);
  }

  lemma LegsMeet(legs: Legs, count: nat, i: nat)
    requires Unbroken(legs, count) && 0 < i < count
    ensures Meets(PointsOf(legs, i - 1), PointsOf(legs, i))
  {
    assert MeetsNext(legs, i - 1);
  }

  lemma RouteStart(legs: Legs, count: nat)
    requires Routed(legs, count) && count > 0
    ensures PointsOf(legs, 0) != [] && Holds(Composed(legs, count), 0, StartOf(legs, 0))
  {
    ComposedFirst(legs);
    ComposedHolds(legs, 1, count, 0, StartOf(legs, 0));
  }

  /** On an unbroken route the inner stops are where the legs behind the first begin. */
  lemma StopsAreStarts(legs: Legs, count: nat)
    requires Unbroken(legs, count) && count > 0
    ensures |InnerStops(legs, count)| == count - 1
    ensures forall i: nat | 0 < i < count :: InnerStops(legs, count)[i - 1] == StartOf(legs, i)
  {
    InnerStopsAre(legs, count);
    ComposedLong(legs, count);
    forall i: nat | 0 < i < count
      ensures InnerStops(legs, count)[i - 1] == StartOf(legs, i)
    {
      AnchorOnRoute(legs, count, i);
    }
  }

  predicate DifferentStarts(legs: Legs, count: nat)
    requires Routed(legs, count)
  {
    forall i: nat, j: nat | i < j < count :: StartOf(legs, i) != StartOf(legs, j)
  }

  lemma InsideIff(legs: Legs, count: nat, i: nat)
    requires Unbroken(legs, count) && 0 < i < count
    ensures FoundInside(ComposedGeometry(legs, count), StartOf(legs, i)) <==> StartOf(legs, i) != StartOf(legs, 0)
  {
    AnchorOnRoute(legs, count, i);
    RouteStart(legs, count);
    ComposedLong(legs, count);
    FoundBefore(Composed(legs, count), Cursor(legs, i));
  }

  lemma FoundBefore(route: seq<Position>, k: nat)
    requires 0 < k < |route| - 1
    ensures FoundInside(route, route[k]) <==> route[k] != route[0]
  {
    var first := FindIndex(route, route[k]).value;
    assert first <= k;
  }

  /** Untrimmed, the stops lie apart exactly when the legs begin at different positions. */
  lemma ApartIff(legs: Legs, count: nat)
    requires Unbroken(legs, count) && count > 0
    ensures Apart(ComposedGeometry(legs, count), InnerStops(legs, count)) <==> DifferentStarts(legs, count)
  {
    StopsAreStarts(legs, count);
    forall i: nat | 0 < i < count
      ensures FoundInside(ComposedGeometry(legs, count), StartOf(legs, i)) <==> StartOf(legs, i) != StartOf(legs, 0)
    {
      InsideIff(legs, count, i);
    }
    ApartWhenStarts(legs, count, ComposedGeometry(legs, count), InnerStops(legs, count));
  }

  lemma ApartWhenStarts(legs: Legs, count: nat, route: seq<Position>, stops: seq<Position>)
    requires Routed(legs, count) && count > 0 && |stops| == count - 1
    requires forall i: nat | 0 < i < count :: stops[i - 1] == StartOf(legs, i)
    requires forall i: nat | 0 < i < count ::
               FoundInside(route, StartOf(legs, i)) <==> StartOf(legs, i) != StartOf(legs, 0)
    ensures Apart(route, stops) <==> DifferentStarts(legs, count)
  {
    assert forall i | 0 <= i < |stops| :: stops[i] == StartOf(legs, i + 1);
    if Apart(route, stops) {
      forall i: nat, j: nat | i < j < count
        ensures StartOf(legs, i) != StartOf(legs, j)
      {
        assert FoundInside(route, stops[j - 1]) && (i > 0 ==> stops[i - 1] != stops[j - 1]);
      }
    }
  }

  /** The untrimmed payload of a loop of sixteen points is refused exactly when
      its legs begin at different positions. */
  lemma LoopOfSixteen(legs: Legs)
    requires Unbroken(legs, V2_CONTROL_POINTS)
    ensures var geometry := ComposedGeometry(legs, V2_CONTROL_POINTS);
            && |geometry| >= 2
            && NormalizeControlPoints(ControlPoints(geometry, InnerStops(legs, V2_CONTROL_POINTS)), |geometry|)
               == if DifferentStarts(legs, V2_CONTROL_POINTS) then RefusedWith(413) else Taken
  {
    ApartIff(legs, V2_CONTROL_POINTS);
    StopsAreStarts(legs, V2_CONTROL_POINTS);
    ComposedLong(legs, V2_CONTROL_POINTS);
    VerdictOnDraft(legs, V2_CONTROL_POINTS, true, ComposedGeometry(legs, V2_CONTROL_POINTS));
  }
}
