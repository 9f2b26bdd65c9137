/** Which texts the two polyline decoders accept, for every text: where numbers
    end, how many there are, and what the viewer asks for besides. */
module PolylineText {
  import opened Common
  import opened Outcomes
  import opened Polyline

  /** A code unit below 95 ends a number. */
  predicate EndsAt(codes: seq<int>, e: nat) {
    e < |codes| && codes[e] < 95
  }

  /** From i on there is no end of a number before e. */
  predicate GoesOn(codes: seq<int>, i: nat, e: nat)
    requires e <= |codes|
  {
    forall k | i <= k < e :: codes[k] >= 95
  }

  /** The viewer takes the code units from 63 to 126. */
  predicate InAlphabet(codes: seq<int>, i: nat, end: nat)
    requires end <= |codes|
  {
    forall k | i <= k < end :: 63 <= codes[k] <= 126
  }

  /** Both decoders read up to the first end of a number. The viewer refuses
      code units outside the alphabet and more than seven groups. */
  lemma {:induction false} NumberEnds(codes: seq<int>, i: nat, e: nat, shift: nat, bits: nat)
    requires i <= e && EndsAt(codes, e) && GoesOn(codes, i, e)
    ensures DecodeFrom(codes, i, shift, bits).Value? && DecodeFrom(codes, i, shift, bits).next == e + 1
    ensures ViewFrom(codes, i, shift, bits).Value? <==>
            InAlphabet(codes, i, e + 1) && (e == i || shift + 5 * (e - i) <= 30)
    decreases e - i
  {
    if i < e {
      NumberEnds(codes, i + 1, e, shift + 5, Collected(bits, codes[i] - 63, shift));
    }
  }

  /** A number without an end is read by neither. */
  lemma {:induction false} NumberRunsOut(codes: seq<int>, i: nat, shift: nat, bits: nat)
    requires i <= |codes| && GoesOn(codes, i, |codes|)
    ensures DecodeFrom(codes, i, shift, bits) == Truncated && ViewFrom(codes, i, shift, bits) == Truncated
    decreases |codes| - i
  {
    if i < |codes| {
      NumberRunsOut(codes, i + 1, shift + 5, Collected(bits, codes[i] - 63, shift));
    }
  }

  lemma {:induction false} FirstEnd(codes: seq<int>, i: nat) returns (e: nat)
    requires i <= |codes|
    ensures i <= e <= |codes| && GoesOn(codes, i, e) && (e < |codes| ==> EndsAt(codes, e))
    decreases |codes| - i
  {
    if i == |codes| || codes[i] < 95 {
      e := i;
    } else {
      e := FirstEnd(codes, i + 1);
    }
  }

  /** How many numbers end from i on. */
  function Ends(codes: seq<int>, i: nat): nat
    decreases |codes| - i
  {
    if i >= |codes| then 0 else (if codes[i] < 95 then 1 else 0) + Ends(codes, i + 1)
  }

  lemma {:induction false} EndsAfter(codes: seq<int>, i: nat, e: nat)
    requires i <= e <= |codes| && GoesOn(codes, i, e)
    ensures Ends(codes, i) == Ends(codes, e)
    decreases e - i
  {
    if i < e {
      EndsAfter(codes, i + 1, e);
    }
  }

  /** The number from i on, read by either decoder, ends at e; none does if e
      is the length of the text. */
  predicate ReadTo(codes: seq<int>, i: nat, e: nat)
    requires i <= |codes|
  {
    && i <= e <= |codes| && GoesOn(codes, i, e) && (e < |codes| ==> EndsAt(codes, e))
    && (DecodeFrom(codes, i, 0, 0).Value? <==> e < |codes|)
    && (e < |codes| ==> DecodeFrom(codes, i, 0, 0).next == e + 1)
    && (ViewFrom(codes, i, 0, 0).Value? <==> e < |codes| && InAlphabet(codes, i, e + 1) && e - i <= 6)
  }

  lemma NumberRead(codes: seq<int>, i: nat) returns (e: nat)
    requires i <= |codes|
    ensures ReadTo(codes, i, e)
  {
    e := FirstEnd(codes, i);
    if e == |codes| {
      NumberRunsOut(codes, i, 0, 0);
    } else {
      NumberEnds(codes, i, e, 0, 0);
    }
  }

  /** The two numbers from i on. */
  predicate PairTo(codes: seq<int>, i: nat, e: nat, f: nat) {
    && i <= e && EndsAt(codes, e) && GoesOn(codes, i, e)
    && e < f && EndsAt(codes, f) && GoesOn(codes, e + 1, f)
  }

  lemma PairRead(codes: seq<int>, i: nat, prev: Micro) returns (e: nat, f: nat)
    requires i < |codes| && SharedStep(codes, i, prev).Reached?
    ensures PairTo(codes, i, e, f) && SharedStep(codes, i, prev).next == f + 1
    ensures ViewStep(codes, i, prev).Reached? <==> InAlphabet(codes, i, f + 1) && e - i <= 6 && f - (e + 1) <= 6
  {
    e := NumberRead(codes, i);
    f := NumberRead(codes, e + 1);
    ViewedTwice(codes, i, e, f, prev);
  }

  lemma ViewedTwice(codes: seq<int>, i: nat, e: nat, f: nat, prev: Micro)
    requires PairTo(codes, i, e, f) && ReadTo(codes, i, e) && ReadTo(codes, e + 1, f)
    ensures ViewStep(codes, i, prev).Reached? <==> InAlphabet(codes, i, f + 1) && e - i <= 6 && f - (e + 1) <= 6
  {
    if ViewFrom(codes, i, 0, 0).Value? {
      ViewAgrees(codes, i, 0, 0);
    }
  }

  /** A step that gets stuck has run out of numbers. */
  lemma StuckIsRagged(codes: seq<int>, i: nat, prev: Micro)
    requires i < |codes| && SharedStep(codes, i, prev).Stuck?
    ensures !WholePairs(codes, i)
  {
    var e := NumberRead(codes, i);
    EndsAfter(codes, i, e);
    if e < |codes| {
      var f := NumberRead(codes, e + 1);
      EndsAfter(codes, e + 1, f);
    }
  }

  /** Nothing is left over behind the last number, and numbers come in pairs. */
  predicate WholePairs(codes: seq<int>, i: nat) {
    (i < |codes| ==> codes[|codes| - 1] < 95) && Ends(codes, i) % 2 == 0
  }

  lemma PairsNext(codes: seq<int>, i: nat, e: nat, f: nat)
    requires PairTo(codes, i, e, f)
    ensures Ends(codes, i) == 2 + Ends(codes, f + 1) && (WholePairs(codes, i) <==> WholePairs(codes, f + 1))
  {
    EndsAfter(codes, i, e);
    EndsAfter(codes, e + 1, f);
  }

  lemma {:induction false} RestPairs(codes: seq<int>, i: nat, prev: Micro)
    requires i <= |codes|
    ensures var r := SharedRest(codes, i, prev);
            && (r.Ok? ==> WholePairs(codes, i) && Ends(codes, i) == 2 * |r.value|)
            && (r.TypeError? ==> !WholePairs(codes, i))
    decreases |codes| - i
  {
    if i < |codes| {
      var step := SharedStep(codes, i, prev);
      if step.Stuck? {
        StuckIsRagged(codes, i, prev);
      } else {
        var e, f := PairRead(codes, i, prev);
        PairsNext(codes, i, e, f);
        RestPairs(codes, f + 1, step.point);
      }
    }
  }

  /** The shared decoder returns one point for two numbers, all of them inside
      its bounds, and calls a text malformed only if it is. */
  lemma SharedAccepts(codes: seq<int>)
    ensures var r := SharedDecoding(codes);
            && (r.Ok? ==> codes != [] && WholePairs(codes, 0) && Ends(codes, 0) == 2 * |r.value|
                          && forall k | 0 <= k < |r.value| ::
                               -85.05112878 <= r.value[k].lat <= 85.05112878 && -180.0 <= r.value[k].lng <= 180.0)
            && (r.TypeError? ==> codes == [] || !WholePairs(codes, 0))
  {
    if codes != [] {
      RestPairs(codes, 0, START);
      if SharedDecoding(codes).Ok? {
        SharedInside(codes, 0, START);
      }
    }
  }

  lemma {:induction false} SharedInside(codes: seq<int>, i: nat, prev: Micro)
    requires SharedRest(codes, i, prev).Ok?
    ensures var points := SharedRest(codes, i, prev).value;
            forall k | 0 <= k < |points| ::
              -85.05112878 <= points[k].lat <= 85.05112878 && -180.0 <= points[k].lng <= 180.0
    decreases |codes| - i
  {
    if i < |codes| {
      var step := SharedStep(codes, i, prev);
      SharedInside(codes, step.next, step.point);
    }
  }

  /** What the viewer accepts has two points at least, none beyond a pole or
      the antimeridian. */
  lemma ViewedInside(codes: seq<int>)
    requires ViewDecoding(codes).Ok?
    ensures var seen := ViewDecoding(codes).value;
            && codes != [] && |seen| >= 2
            && forall k | 0 <= k < |seen| :: -180.0 <= seen[k].lng <= 180.0 && -90.0 <= seen[k].lat <= 90.0
  {
    ViewedFrom(codes, 0, START);
  }

  lemma {:induction false} ViewedFrom(codes: seq<int>, i: nat, prev: Micro)
    requires ViewRest(codes, i, prev).Ok?
    ensures var seen := ViewRest(codes, i, prev).value;
            forall k | 0 <= k < |seen| :: -180.0 <= seen[k].lng <= 180.0 && -90.0 <= seen[k].lat <= 90.0
    decreases |codes| - i
  {
    if i < |codes| {
      var step := ViewStep(codes, i, prev);
      ViewedFrom(codes, step.next, step.point);
    }
  }

  /** A number stands from s to e. */
  predicate NumberAt(codes: seq<int>, s: nat, e: nat) {
    s <= e && EndsAt(codes, e) && GoesOn(codes, s, e) && StartsAt(codes, s)
  }

  predicate StartsAt(codes: seq<int>, s: nat) {
    s <= |codes| && (s > 0 ==> codes[s - 1] < 95)
  }

  /** Only code units of the alphabet, and no number of more than seven groups. */
  ghost predicate Legible(codes: seq<int>, i: nat)
    requires i <= |codes|
  {
    InAlphabet(codes, i, |codes|) && forall s: nat, e: nat | i <= s && NumberAt(codes, s, e) :: e - s <= 6
  }

  lemma LegibleNext(codes: seq<int>, i: nat, e: nat, f: nat)
    requires StartsAt(codes, i) && PairTo(codes, i, e, f)
    ensures Legible(codes, i) <==>
            InAlphabet(codes, i, f + 1) && e - i <= 6 && f - (e + 1) <= 6 && Legible(codes, f + 1)
  {
    assert NumberAt(codes, i, e) && NumberAt(codes, e + 1, f);
    forall s: nat, g | i <= s <= f && NumberAt(codes, s, g)
      ensures (s == i && g == e) || (s == e + 1 && g == f)
    {
      assert s > 0 ==> codes[s - 1] < 95;
    }
  }

  lemma {:induction false} RestViewedIff(codes: seq<int>, i: nat, prev: Micro)
    requires StartsAt(codes, i) && SharedRest(codes, i, prev).Ok?
    ensures ViewRest(codes, i, prev).Ok? <==> Legible(codes, i)
    decreases |codes| - i
  {
    if i < |codes| {
      var e, f := PairRead(codes, i, prev);
      var step := SharedStep(codes, i, prev);
      LegibleNext(codes, i, e, f);
      if ViewStep(codes, i, prev).Reached? {
        StepAgrees(codes, i, prev);
        InsideIsOnGlobe(step.point);
      }
      RestViewedIff(codes, f + 1, step.point);
    }
  }

  lemma InsideIsOnGlobe(p: Micro)
    requires InMercator(ToDegrees(p))
    ensures OnGlobe(ToLngLat(p))
  {
  }

  /** Of what the shared decoder reads, the viewer reads exactly the legible
      texts of two points or more, and reads the same points. */
  lemma ViewerReadsIff(codes: seq<int>, points: seq<Degrees>)
    requires SharedDecoding(codes) == Ok(points)
    ensures ViewDecoding(codes).Ok? <==> |points| >= 2 && Legible(codes, 0)
    ensures ViewDecoding(codes).Ok? ==> AllTurned(ViewDecoding(codes).value) == points
  {
    RestViewedIff(codes, 0, START);
    if ViewRest(codes, 0, START).Ok? {
      RestAgrees(codes, 0, START);
    }
  }
}
