/** Polylines at a precision of a millionth of a degree: the encoder, the
    shared decoder and the viewer's own decoder. Coordinates are counted in
    millionths of a degree, code units are numbers. */
module Polyline {
  import opened Outcomes
  import opened Hilbert

  /** A position in degrees, and one in millionths of a degree. */
  datatype Degrees = Degrees(lat: real, lng: real)
  datatype Micro = Micro(lat: int, lng: int)

  const WORD32: nat := 0x1_0000_0000
  const SIGN32: nat := 0x8000_0000

  /** A number in 32-bit two's complement, and back. */
  function Bits(value: int): nat {
    value % WORD32
  }

  function Signed(bits: nat): int {
    if bits < SIGN32 then bits else bits - WORD32
  }

  function ToInt32(value: int): int {
    Signed(Bits(value))
  }

  /** Inclusive or, digit by binary digit. */
  function Or(a: nat, b: nat): nat {
    if a == 0 && b == 0 then 0 else 2 * Or(a / 2, b / 2) + if a % 2 == 1 || b % 2 == 1 then 1 else 0
  }

  /** A number with k zero digits put behind it. */
  function Shifted(n: nat, k: nat): nat {
    if k == 0 then n else 2 * Shifted(n, k - 1)
  }

  /** A shift to the left; only the low five bits of the amount count. */
  function ShiftLeft(bits: nat, amount: nat): nat {
    Shifted(bits, amount % 32) % WORD32
  }

  /** Disjoint numbers are combined by adding them up. */
  lemma {:induction false} OrIsSum(low: nat, high: nat, k: nat)
    requires low < Pow2(k)
    ensures Or(low, Shifted(high, k)) == low + Shifted(high, k)
  {
    if k == 0 {
      OrZero(high);
    } else {
      var half := Shifted(high, k - 1);
      OrIsSum(low / 2, high, k - 1);
      if low != 0 || half != 0 {
        assert Or(low, 2 * half) == 2 * Or(low / 2, half) + low % 2;
      }
    }
  }

  lemma {:induction false} OrZero(b: nat)
    ensures Or(0, b) == b
  {
    if b != 0 {
      OrZero(b / 2);
    }
  }

  /** The sign moves into the lowest bit. */
  function Fold(value: int): int {
    if value < 0 then ToInt32(-ToInt32(2 * value) - 1) else ToInt32(2 * value)
  }

  /** The sign comes back out of the lowest bit of a 32-bit word. */
  function Unfold(bits: nat): int {
    if bits % 2 == 1 then -(Signed(bits) / 2) - 1 else Signed(bits) / 2
  }

  lemma UnfoldFold(value: int)
    requires -0x4000_0000 <= value < 0x4000_0000
    ensures 0 <= Fold(value) < SIGN32 && Unfold(Fold(value)) == value
    ensures Fold(value) == if value < 0 then -2 * value - 1 else 2 * value
  {
  }

  /** The code unit a string keeps for a number. */
  function CodeUnit(n: int): int {
    n % 0x1_0000
  }

  /** The code unit of five bits that are not the last. */
  function Marked(digit: nat): int {
    CodeUnit(Or(0x20, digit) + 63)
  }

  /** Groups of five bits, lowest first, each but the last marked. */
  function Groups(n: int): (r: seq<int>)
    ensures |r| >= 1
  {
    if n >= 0x20 then [Marked(n % 0x20)] + Groups(n / 0x20) else [CodeUnit(n + 63)]
  }

  /** A number by its digits to the base 32, least first. */
  function FromDigits(digits: seq<nat>): nat {
    if digits == [] then 0 else digits[0] + 32 * FromDigits(digits[1..])
  }

  /** Each digit is printed as one character: 63 is added to the last, 95 to the others. */
  function Characters(digits: seq<nat>): (r: seq<int>)
    ensures |r| == |digits|
    ensures forall i | 0 <= i < |r| :: r[i] == digits[i] + if i == |digits| - 1 then 63 else 95
  {
    if digits == [] then []
    else [digits[0] + if |digits| == 1 then 63 else 95] + Characters(digits[1..])
  }

  lemma {:induction false} GroupsAreDigits(digits: seq<nat>)
    requires digits != [] && (forall i | 0 <= i < |digits| :: digits[i] < 32)
    requires |digits| > 1 ==> digits[|digits| - 1] > 0
    ensures Groups(FromDigits(digits)) == Characters(digits)
    ensures digits[|digits| - 1] > 0 ==> FromDigits(digits) > 0
  {
    var rest := digits[1..];
    if rest != [] {
      GroupsAreDigits(rest);
      MarkedGroup(digits[0]);
      DigitOff(digits[0], FromDigits(rest));
    } else {
      assert FromDigits(digits) == digits[0];
    }
  }

  lemma DigitOff(digit: nat, rest: nat)
    requires digit < 32 && rest > 0
    ensures digit + 32 * rest >= 0x20 && (digit + 32 * rest) % 0x20 == digit && (digit + 32 * rest) / 0x20 == rest
  {
  }

  method EncodeCoordinate(value: int) returns (output: seq<int>)
    ensures output == Groups(Fold(value))
  {
    var current := Fold(value);
    output := [];
    while current >= 0x20
      invariant output + Groups(current) == Groups(Fold(value))
    {
      output := output + [Marked(current % 0x20)];
      current := current / 0x20;
    }
    output := output + [CodeUnit(current + 63)];
  }

  /** Five more bits are put above those collected. */
  function Collected(bits: nat, byte: int, shift: nat): nat {
    Or(bits, ShiftLeft(byte % 0x20, shift))
  }

  /** A decoded number and the position behind it. */
  datatype Decoded = Truncated | Value(value: int, next: nat)

  /** The shared decoder's loop: groups from index i on, `bits` collected. */
  function DecodeFrom(codes: seq<int>, i: nat, shift: nat, bits: nat): (r: Decoded)
    ensures r.Value? ==> i < r.next <= |codes|
    decreases |codes| - i
  {
    if i >= |codes| then Truncated
    else
      var byte := codes[i] - 63;
      var collected := Collected(bits, byte, shift);
      if byte < 0x20 then Value(Unfold(collected), i + 1) else DecodeFrom(codes, i + 1, shift + 5, collected)
  }

  /** The viewer's loop: it also refuses code units out of range and numbers of
      more than seven groups. */
  function ViewFrom(codes: seq<int>, i: nat, shift: nat, bits: nat): (r: Decoded)
    ensures r.Value? ==> i < r.next <= |codes|
    decreases |codes| - i
  {
    if i >= |codes| then Truncated
    else
      var byte := codes[i] - 63;
      if byte < 0 || byte > 63 then Truncated
      else
        var collected := Collected(bits, byte, shift);
        if byte < 0x20 then Value(Unfold(collected), i + 1)
        else if shift + 5 > 30 then Truncated
        else ViewFrom(codes, i + 1, shift + 5, collected)
  }

  /** Whatever number the viewer accepts, the shared decoder reads alike. */
  lemma {:induction false} ViewAgrees(codes: seq<int>, i: nat, shift: nat, bits: nat)
    requires ViewFrom(codes, i, shift, bits).Value?
    ensures DecodeFrom(codes, i, shift, bits) == ViewFrom(codes, i, shift, bits)
    decreases |codes| - i
  {
    var byte := codes[i] - 63;
    if byte >= 0x20 {
      ViewAgrees(codes, i + 1, shift + 5, Collected(bits, byte, shift));
    }
  }

  /** The code units p stand at position i. */
  predicate At(codes: seq<int>, i: nat, p: seq<int>) {
    i + |p| <= |codes| && forall k {:trigger p[k]} | 0 <= k < |p| :: codes[i + k] == p[k]
  }

  lemma AtSplit(codes: seq<int>, i: nat, p: seq<int>, q: seq<int>)
    requires At(codes, i, p + q)
    ensures At(codes, i, p) && At(codes, i + |p|, q)
  {
    forall k | 0 <= k < |p|
      ensures codes[i + k] == p[k]
    {
      assert (p + q)[k] == p[k];
    }
    forall k | 0 <= k < |q|
      ensures codes[i + |p| + k] == q[k]
    {
      assert (p + q)[|p| + k] == q[k];
    }
  }

  lemma FiveDoublings(k: nat, n: nat)
    ensures Pow2(k + 5) == 0x20 * Pow2(k) && Shifted(n, k + 5) == 0x20 * Shifted(n, k)
  {
    assert Pow2(k + 5) == 2 * Pow2(k + 4) && Pow2(k + 3) == 2 * Pow2(k + 2);
    assert Pow2(k + 4) == 2 * Pow2(k + 3) && Pow2(k + 2) == 2 * Pow2(k + 1);
    assert Shifted(n, k + 5) == 2 * Shifted(n, k + 4) && Shifted(n, k + 3) == 2 * Shifted(n, k + 2);
    assert Shifted(n, k + 4) == 2 * Shifted(n, k + 3) && Shifted(n, k + 2) == 2 * Shifted(n, k + 1);
  }

  lemma {:induction false} ShiftedSum(a: nat, b: nat, k: nat)
    ensures Shifted(a + b, k) == Shifted(a, k) + Shifted(b, k)
  {
    if k > 0 {
      ShiftedSum(a, b, k - 1);
    }
  }

  lemma {:induction false} ShiftedTimes32(n: nat, k: nat)
    ensures Shifted(0x20 * n, k) == 0x20 * Shifted(n, k)
  {
    if k > 0 {
      ShiftedTimes32(n, k - 1);
    }
  }

  lemma {:induction false} ShiftedBelow(n: nat, a: nat, k: nat)
    requires n < Pow2(a)
    ensures Shifted(n, k) + Pow2(k) <= Pow2(a + k)
  {
    if k > 0 {
      ShiftedBelow(n, a, k - 1);
      assert Pow2(a + k) == 2 * Pow2(a + (k - 1));
    }
  }

  /** A marked group carries its five bits above the mark. */
  lemma MarkedGroup(digit: nat)
    requires digit < 0x20
    ensures Marked(digit) == digit + 95
  {
    Words();
    assert Shifted(1, 5) == 0x20;
    OrBelow(0x20, 5, digit);
  }

  lemma OrBelow(mark: nat, k: nat, low: nat)
    requires mark == Pow2(k) == Shifted(1, k) && low < mark
    ensures Or(mark, low) == mark + low
  {
    OrCommutes(mark, low);
    OrIsSum(low, 1, k);
  }

  lemma {:induction false} OrCommutes(a: nat, b: nat)
    ensures Or(a, b) == Or(b, a)
  {
    if a != 0 || b != 0 {
      OrCommutes(a / 2, b / 2);
    }
  }

  lemma Words()
    ensures Pow2(31) == SIGN32 && Pow2(30) == 0x4000_0000 && Pow2(5) == 0x20 && Pow2(1) == 2
  {
    assert Pow2(8) == 256;
    assert Pow2(16) == 65536;
    assert Pow2(24) == 16777216;
    assert Pow2(28) == 268435456;
  }

  /** Five more bits collected above `shift` bits. */
  lemma Collect(bits: nat, byte: int, n: nat, shift: nat)
    requires shift <= 30 && bits < Pow2(shift) && byte % 0x20 <= n < Pow2(31 - shift)
    ensures Collected(bits, byte, shift) == bits + Shifted(byte % 0x20, shift)
  {
    ShiftFits(byte % 0x20, n, shift);
    OrIsSum(bits, byte % 0x20, shift);
  }

  lemma ShiftFits(digit: nat, n: nat, shift: nat)
    requires shift <= 30 && digit <= n < Pow2(31 - shift)
    ensures ShiftLeft(digit, shift) == Shifted(digit, shift)
  {
    var word := Shifted(digit, shift);
    assert word < SIGN32 by {
      ShiftedBelow(digit, 31 - shift, shift);
      Words();
    }
    WordStays(word);
    assert shift % 32 == shift;
  }

  lemma WordStays(word: nat)
    requires word < SIGN32
    ensures word % WORD32 == word
  {
  }

  lemma FiveMoreBits(bits: nat, n: nat, shift: nat)
    requires shift <= 25 && bits < Pow2(shift) && n < Pow2(31 - shift)
    ensures bits + Shifted(n % 0x20, shift) < Pow2(shift + 5)
    ensures n / 0x20 < Pow2(31 - (shift + 5))
    ensures Shifted(n % 0x20, shift) + Shifted(n / 0x20, shift + 5) == Shifted(n, shift)
  {
    Words();
    FiveDoublings(26 - shift, 0);
    ShiftedBelow(n % 0x20, 5, shift);
    FiveDoublings(shift, n / 0x20);
    ShiftedTimes32(n / 0x20, shift);
    ShiftedSum(n % 0x20, 0x20 * (n / 0x20), shift);
  }

  lemma LastGroup(codes: seq<int>, i: nat, n: nat, shift: nat, bits: nat)
    requires shift <= 30 && bits < Pow2(shift) && n < 0x20 && n < Pow2(31 - shift)
    requires i < |codes| && codes[i] == n + 63
    ensures ViewFrom(codes, i, shift, bits) == Value(Unfold(bits + Shifted(n, shift)), i + 1)
  {
    Collect(bits, n, n, shift);
    LastRead(codes, i, n, shift, bits);
  }

  lemma LastRead(codes: seq<int>, i: nat, n: nat, shift: nat, bits: nat)
    requires n < 0x20 && i < |codes| && codes[i] == n + 63
    ensures ViewFrom(codes, i, shift, bits) == Value(Unfold(Collected(bits, n, shift)), i + 1)
  {
  }

  /** Takes the five low bits of n, leaving n / 0x20 to be read. */
  lemma MoreGroups(codes: seq<int>, i: nat, n: nat, shift: nat, bits: nat) returns (more: nat)
    requires shift <= 25 && bits < Pow2(shift) && n < Pow2(31 - shift)
    requires i < |codes| && codes[i] == n % 0x20 + 95
    ensures more < Pow2(shift + 5) && n / 0x20 < Pow2(31 - (shift + 5))
    ensures more + Shifted(n / 0x20, shift + 5) == bits + Shifted(n, shift)
    ensures ViewFrom(codes, i, shift, bits) == ViewFrom(codes, i + 1, shift + 5, more)
  {
    more := Collected(bits, codes[i] - 63, shift);
    MarkDropped(n % 0x20);
    Collect(bits, n % 0x20 + 0x20, n, shift);
    FiveMoreBits(bits, n, shift);
  }

  lemma MarkDropped(digit: nat)
    requires digit < 0x20
    ensures (digit + 0x20) % 0x20 == digit
  {
  }

  lemma RoomForMore(n: nat, shift: nat)
    requires shift <= 30 && shift % 5 == 0 && 0x20 <= n < Pow2(31 - shift)
    ensures shift <= 25
  {
    Words();
  }

  lemma FirstGroup(codes: seq<int>, i: nat, n: nat)
    requires At(codes, i, Groups(n))
    ensures i < |codes| && codes[i] == if n < 0x20 then n + 63 else n % 0x20 + 95
    ensures n >= 0x20 ==> At(codes, i + 1, Groups(n / 0x20)) && |Groups(n)| == 1 + |Groups(n / 0x20)|
  {
    assert codes[i + 0] == Groups(n)[0];
    if n >= 0x20 {
      MarkedGroup(n % 0x20);
      AtSplit(codes, i, [Marked(n % 0x20)], Groups(n / 0x20));
    }
  }

  lemma OnlyGroup(codes: seq<int>, i: nat, n: nat, shift: nat, bits: nat, total: nat)
    requires shift <= 30 && bits < Pow2(shift) && n < Pow2(31 - shift) && n < 0x20
    requires total == bits + Shifted(n, shift) && At(codes, i, Groups(n))
    ensures ViewFrom(codes, i, shift, bits) == Value(Unfold(total), i + |Groups(n)|)
  {
    FirstGroup(codes, i, n);
    LastGroup(codes, i, n, shift, bits);
  }

  /** Reads one marked group: `rest` is still to be read, above `more`. */
  lemma MarkedGroupRead(codes: seq<int>, i: nat, n: nat, shift: nat, bits: nat) returns (rest: nat, more: nat)
    requires shift <= 30 && shift % 5 == 0 && bits < Pow2(shift) && 0x20 <= n < Pow2(31 - shift)
    requires At(codes, i, Groups(n))
    ensures rest < n && shift <= 25 && more < Pow2(shift + 5) && rest < Pow2(31 - (shift + 5))
    ensures more + Shifted(rest, shift + 5) == bits + Shifted(n, shift)
    ensures At(codes, i + 1, Groups(rest)) && |Groups(n)| == 1 + |Groups(rest)|
    ensures ViewFrom(codes, i, shift, bits) == ViewFrom(codes, i + 1, shift + 5, more)
  {
    FirstGroup(codes, i, n);
    RoomForMore(n, shift);
    rest := n / 0x20;
    more := MoreGroups(codes, i, n, shift, bits);
  }

  /** The viewer's decoder reads printed groups back. */
  lemma {:induction false} GroupsReadBack(codes: seq<int>, i: nat, n: nat, shift: nat, bits: nat, total: nat)
    requires shift <= 30 && shift % 5 == 0 && bits < Pow2(shift) && n < Pow2(31 - shift)
    requires total == bits + Shifted(n, shift)
    requires At(codes, i, Groups(n))
    ensures ViewFrom(codes, i, shift, bits) == Value(Unfold(total), i + |Groups(n)|)
    decreases n
  {
    if n < 0x20 {
      OnlyGroup(codes, i, n, shift, bits, total);
    } else {
      var rest, more := MarkedGroupRead(codes, i, n, shift, bits);
      GroupsReadBack(codes, i + 1, rest, shift + 5, more, total);
    }
  }

  /** The viewer's decoder undoes the encoder on every 31-bit number. */
  lemma CoordinateReadsBack(codes: seq<int>, i: nat, value: int, text: seq<int>)
    requires -0x4000_0000 <= value < 0x4000_0000 && text == Groups(Fold(value))
    requires At(codes, i, text)
    ensures ViewFrom(codes, i, 0, 0) == Value(value, i + |text|)
  {
    UnfoldFold(value);
    Words();
    GroupsReadBack(codes, i, Fold(value), 0, 0, Fold(value));
  }

  const MAX_LATITUDE := 85.05112878
  const MILLION := 1000000.0

  predicate InMercator(p: Degrees) {
    -MAX_LATITUDE <= p.lat <= MAX_LATITUDE && -180.0 <= p.lng <= 180.0
  }

  function Round(x: real): int {
    (x + 0.5).Floor
  }

  function ToMicro(p: Degrees): Micro {
    Micro(Round(p.lat * MILLION), Round(p.lng * MILLION))
  }

  function ToDegrees(m: Micro): Degrees {
    Degrees(m.lat as real / MILLION, m.lng as real / MILLION)
  }

  /** The differences of the points from prev on, printed one after another. */
  function Printed(points: seq<Micro>, prev: Micro): seq<int> {
    if points == [] then []
    else
      Groups(Fold(points[0].lat - prev.lat)) + Groups(Fold(points[0].lng - prev.lng))
      + Printed(points[1..], points[0])
  }

  function AllMicro(points: seq<Degrees>): (r: seq<Micro>)
    ensures |r| == |points| && forall k | 0 <= k < |r| :: r[k] == ToMicro(points[k])
  {
    if points == [] then [] else [ToMicro(points[0])] + AllMicro(points[1..])
  }

  predicate AllInMercator(points: seq<Degrees>) {
    forall k | 0 <= k < |points| :: InMercator(points[k])
  }

  const START := Micro(0, 0)

  /** What a list of points is printed as. */
  function Encoding(points: seq<Degrees>): Outcome<seq<int>> {
    if points == [] then TypeError
    else if !AllInMercator(points) then RangeError
    else Ok(Printed(AllMicro(points), START))
  }

  /** The number that is printed for a difference: twice its amount, less one if
      it is negative. */
  function ZigZag(value: int): nat {
    if value < 0 then -2 * value - 1 else 2 * value
  }

  /** A point's text by digits: latitude, then longitude, each as its difference
      to the point before. */
  ghost predicate Spells(latDigits: seq<nat>, lngDigits: seq<nat>, p: Micro, prev: Micro) {
    SpellsNumber(latDigits, p.lat - prev.lat) && SpellsNumber(lngDigits, p.lng - prev.lng)
  }

  predicate SpellsNumber(digits: seq<nat>, value: int) {
    Proper(digits) && FromDigits(digits) == ZigZag(value)
  }

  predicate Proper(digits: seq<nat>) {
    && digits != [] && (forall i | 0 <= i < |digits| :: digits[i] < 32)
    && (|digits| > 1 ==> digits[|digits| - 1] > 0)
  }

  lemma PointSpelled(latDigits: seq<nat>, lngDigits: seq<nat>, p: Micro, prev: Micro)
    requires Spells(latDigits, lngDigits, p, prev)
    requires -0x4000_0000 <= p.lat - prev.lat < 0x4000_0000 && -0x4000_0000 <= p.lng - prev.lng < 0x4000_0000
    ensures Groups(Fold(p.lat - prev.lat)) == Characters(latDigits)
    ensures Groups(Fold(p.lng - prev.lng)) == Characters(lngDigits)
  {
    NumberSpelled(latDigits, p.lat - prev.lat);
    NumberSpelled(lngDigits, p.lng - prev.lng);
  }

  lemma NumberSpelled(digits: seq<nat>, value: int)
    requires SpellsNumber(digits, value) && -0x4000_0000 <= value < 0x4000_0000
    ensures Groups(Fold(value)) == Characters(digits)
  {
    UnfoldFold(value);
    GroupsAreDigits(digits);
  }

  /** The text of one point spells its latitude and its longitude in millionths
      of a degree. */
  lemma OnePointText(p: Degrees, latDigits: seq<nat>, lngDigits: seq<nat>)
    requires InMercator(p)
    requires Spells(latDigits, lngDigits, Micro(Round(p.lat * 1000000.0), Round(p.lng * 1000000.0)), Micro(0, 0))
    ensures Encoding([p]) == Ok(Characters(latDigits) + Characters(lngDigits))
  {
    var m := ToMicro(p);
    PointSpelled(latDigits, lngDigits, m, START);
    OnePrinted(m, START);
    assert AllMicro([p]) == [m];
  }

  lemma TwoPointText(a: Degrees, b: Degrees, m: Micro, n: Micro, latDigits: seq<nat>, lngDigits: seq<nat>,
                     latDigits2: seq<nat>, lngDigits2: seq<nat>)
    requires InMercator(a) && InMercator(b) && ToMicro(a) == m && ToMicro(b) == n
    requires Spells(latDigits, lngDigits, m, START) && Spells(latDigits2, lngDigits2, n, m)
    requires Small(m) && Small(n)
    ensures Encoding([a, b]) == Ok(Characters(latDigits) + Characters(lngDigits) + Characters(latDigits2)
                                   + Characters(lngDigits2))
  {
    NumberSpelled(latDigits, m.lat - START.lat);
    NumberSpelled(lngDigits, m.lng - START.lng);
    NumberSpelled(latDigits2, n.lat - m.lat);
    NumberSpelled(lngDigits2, n.lng - m.lng);
    TwoPrinted(m, n, Characters(latDigits), Characters(lngDigits), Characters(latDigits2), Characters(lngDigits2));
    TwoEncoded(a, b, m, n);
  }

  /** The polyline that the database is seeded with. */
  lemma SeedText(a: Degrees, b: Degrees)
    requires a == Degrees(-33.8687, 151.2091) && b == Degrees(-33.8696, 151.21)
    ensures Encoding([a, b]) == Ok([118, 120, 100, 114, 95, 65, 119, 103, 97, 108, 95, 72, 102, 119, 64, 103, 119, 64])
  {
    var m, n := Micro(-33868700, 151209100), Micro(-33869600, 151210000);
    SeedSpelled(m, n);
    SeedPoints(a, b, m, n);
    TwoPointText(a, b, m, n, [23, 25, 5, 19, 0, 2], [24, 8, 2, 13, 0, 9], [7, 24, 1], [8, 24, 1]);
    SeedCharacters();
  }

  lemma SeedPoints(a: Degrees, b: Degrees, m: Micro, n: Micro)
    requires a == Degrees(-33.8687, 151.2091) && b == Degrees(-33.8696, 151.21)
    requires m == Micro(-33868700, 151209100) && n == Micro(-33869600, 151210000)
    ensures InMercator(a) && InMercator(b) && ToMicro(a) == m && ToMicro(b) == n && Small(m) && Small(n)
  {
  }

  lemma SeedSpelled(m: Micro, n: Micro)
    requires m == Micro(-33868700, 151209100) && n == Micro(-33869600, 151210000)
    ensures Spells([23, 25, 5, 19, 0, 2], [24, 8, 2, 13, 0, 9], m, START) && Spells([7, 24, 1], [8, 24, 1], n, m)
  {
    FirstSpelled();
    SecondSpelled();
  }

  lemma FirstSpelled()
    ensures SpellsNumber([23, 25, 5, 19, 0, 2], -33868700) && SpellsNumber([24, 8, 2, 13, 0, 9], 151209100)
  {
    SixSpell(-33868700, 23, 25, 5, 19, 0, 2);
    SixSpell(151209100, 24, 8, 2, 13, 0, 9);
  }

  lemma SecondSpelled()
    ensures SpellsNumber([7, 24, 1], -900) && SpellsNumber([8, 24, 1], 900)
  {
    ThreeSpell(-900, 7, 24, 1);
    ThreeSpell(900, 8, 24, 1);
  }

  lemma SixSpell(value: int, a: nat, b: nat, c: nat, d: nat, e: nat, f: nat)
    requires a < 32 && b < 32 && c < 32 && d < 32 && e < 32 && 0 < f < 32
    requires ZigZag(value) == a + 32 * (b + 32 * (c + 32 * (d + 32 * (e + 32 * f))))
    ensures SpellsNumber([a, b, c, d, e, f], value)
  {
    SixDigits(a, b, c, d, e, f);
  }

  lemma ThreeSpell(value: int, a: nat, b: nat, c: nat)
    requires a < 32 && b < 32 && 0 < c < 32 && ZigZag(value) == a + 32 * (b + 32 * c)
    ensures SpellsNumber([a, b, c], value)
  {
    ThreeDigits(a, b, c);
  }

  lemma SeedCharacters()
    ensures Characters([23, 25, 5, 19, 0, 2]) + Characters([24, 8, 2, 13, 0, 9]) + Characters([7, 24, 1])
            + Characters([8, 24, 1])
            == [118, 120, 100, 114, 95, 65, 119, 103, 97, 108, 95, 72, 102, 119, 64, 103, 119, 64]
  {
    var a, b: seq<int> := [118, 120, 100, 114, 95, 65], [119, 103, 97, 108, 95, 72];
    var c, d: seq<int> := [102, 119, 64], [103, 119, 64];
    assert Characters([23, 25, 5, 19, 0, 2]) == a by {
      SixDigits(23, 25, 5, 19, 0, 2);
    }
    assert Characters([24, 8, 2, 13, 0, 9]) == b by {
      SixDigits(24, 8, 2, 13, 0, 9);
    }
    assert Characters([7, 24, 1]) == c by {
      ThreeDigits(7, 24, 1);
    }
    assert Characters([8, 24, 1]) == d by {
      ThreeDigits(8, 24, 1);
    }
    SeedParts(a, b, c, d);
  }

  lemma SeedParts(a: seq<int>, b: seq<int>, c: seq<int>, d: seq<int>)
    requires a == [118, 120, 100, 114, 95, 65] && b == [119, 103, 97, 108, 95, 72]
    requires c == [102, 119, 64] && d == [103, 119, 64]
    ensures a + b + c + d == [118, 120, 100, 114, 95, 65, 119, 103, 97, 108, 95, 72, 102, 119, 64, 103, 119, 64]
  {
  }

  lemma SixDigits(a: nat, b: nat, c: nat, d: nat, e: nat, f: nat)
    ensures FromDigits([a, b, c, d, e, f]) == a + 32 * (b + 32 * (c + 32 * (d + 32 * (e + 32 * f))))
    ensures Characters([a, b, c, d, e, f]) == [a + 95, b + 95, c + 95, d + 95, e + 95, f + 63]
  {
    ThreeDigits(d, e, f);
    assert [a, b, c, d, e, f][1..] == [b, c, d, e, f] && [b, c, d, e, f][1..] == [c, d, e, f];
    assert [c, d, e, f][1..] == [d, e, f];
    assert FromDigits([c, d, e, f]) == c + 32 * FromDigits([d, e, f]);
    assert FromDigits([b, c, d, e, f]) == b + 32 * FromDigits([c, d, e, f]);
  }

  lemma ThreeDigits(a: nat, b: nat, c: nat)
    ensures FromDigits([a, b, c]) == a + 32 * (b + 32 * c)
    ensures Characters([a, b, c]) == [a + 95, b + 95, c + 63]
  {
    assert [a, b, c][1..] == [b, c] && [b, c][1..] == [c];
    assert FromDigits([c]) == c;
    assert FromDigits([b, c]) == b + 32 * c;
  }

  lemma TwoEncoded(a: Degrees, b: Degrees, m: Micro, n: Micro)
    requires InMercator(a) && InMercator(b) && ToMicro(a) == m && ToMicro(b) == n
    ensures Encoding([a, b]) == Ok(Printed([m, n], START))
  {
    assert AllMicro([a, b]) == [m, n];
  }

  lemma OnePrinted(m: Micro, prev: Micro)
    ensures Printed([m], prev) == Groups(Fold(m.lat - prev.lat)) + Groups(Fold(m.lng - prev.lng))
  {
    assert [m][1..] == [];
    assert Printed([], m) == [];
  }

  lemma TwoPrinted(m: Micro, n: Micro, p: seq<int>, q: seq<int>, r: seq<int>, s: seq<int>)
    requires p == Groups(Fold(m.lat - START.lat)) && q == Groups(Fold(m.lng - START.lng))
    requires r == Groups(Fold(n.lat - m.lat)) && s == Groups(Fold(n.lng - m.lng))
    ensures Printed([m, n], START) == p + q + r + s
  {
    OnePrinted(n, m);
    assert [m, n][1..] == [n];
    assert Printed([m, n], START) == p + q + (r + s);
    assert p + q + (r + s) == p + q + r + s;
  }

  method EncodePolyline6(points: seq<Degrees>) returns (r: Outcome<seq<int>>)
    ensures r == Encoding(points)
    ensures r.TypeError? <==> points == []
    ensures r.RangeError? <==>
            exists k | 0 <= k < |points| ::
              !(-85.05112878 <= points[k].lat <= 85.05112878 && -180.0 <= points[k].lng <= 180.0)
  {
    if |points| == 0 {
      return TypeError;
    }
    var previousLat, previousLng := 0, 0;
    var encoded := [];
    EncodedNone(points);
    for i := 0 to |points|
      invariant EncodedUpTo(points, i, Micro(previousLat, previousLng), encoded)
    {
      if !InMercator(points[i]) {
        assert !AllInMercator(points);
        return RangeError;
      }
      var nextLat := Round(points[i].lat * MILLION);
      var nextLng := Round(points[i].lng * MILLION);
      encoded := AppendPoint(points, i, nextLat, nextLng, previousLat, previousLng, encoded);
      previousLat := nextLat;
      previousLng := nextLng;
    }
    EncodedAll(points, Micro(previousLat, previousLng), encoded);
    return Ok(encoded);
  }

  /** Appends the differences to the previous point. */
  method AppendPoint(
    ghost points: seq<Degrees>, ghost i: nat,
    nextLat: int, nextLng: int, previousLat: int, previousLng: int, encoded: seq<int>
  ) returns (r: seq<int>)
    requires EncodedUpTo(points, i, Micro(previousLat, previousLng), encoded)
    requires i < |points| && InMercator(points[i]) && ToMicro(points[i]) == Micro(nextLat, nextLng)
    ensures r == encoded + Groups(Fold(nextLat - previousLat)) + Groups(Fold(nextLng - previousLng))
    ensures EncodedUpTo(points, i + 1, Micro(nextLat, nextLng), r)
  {
    EncodedNext(points, i, Micro(previousLat, previousLng), encoded, Micro(nextLat, nextLng));
    r := AppendDeltas(nextLat - previousLat, nextLng - previousLng, encoded);
  }

  method AppendDeltas(dLat: int, dLng: int, encoded: seq<int>) returns (r: seq<int>)
    ensures r == encoded + Groups(Fold(dLat)) + Groups(Fold(dLng))
  {
    var lat := EncodeCoordinate(dLat);
    r := encoded + lat;
    var lng := EncodeCoordinate(dLng);
    r := r + lng;
  }

  ghost predicate EncodedUpTo(points: seq<Degrees>, i: nat, prev: Micro, encoded: seq<int>) {
    && i <= |points|
    && (forall k | 0 <= k < i :: InMercator(points[k]))
    && encoded + Printed(AllMicro(points)[i..], prev) == Printed(AllMicro(points), START)
  }

  lemma EncodedNone(points: seq<Degrees>)
    ensures EncodedUpTo(points, 0, START, [])
  {
    assert AllMicro(points)[0..] == AllMicro(points);
  }

  lemma EncodedNext(points: seq<Degrees>, i: nat, prev: Micro, encoded: seq<int>, next: Micro)
    requires EncodedUpTo(points, i, prev, encoded) && i < |points| && InMercator(points[i])
    requires next == ToMicro(points[i])
    ensures EncodedUpTo(points, i + 1, next,
                        encoded + Groups(Fold(next.lat - prev.lat)) + Groups(Fold(next.lng - prev.lng)))
  {
    PrintedNext(AllMicro(points), i, prev, encoded);
  }

  lemma EncodedAll(points: seq<Degrees>, prev: Micro, encoded: seq<int>)
    requires EncodedUpTo(points, |points|, prev, encoded) && points != []
    ensures Encoding(points) == Ok(encoded)
  {
    assert AllMicro(points)[|points|..] == [];
    assert encoded + [] == encoded;
  }

  lemma PrintedNext(points: seq<Micro>, i: nat, prev: Micro, done: seq<int>)
    requires i < |points|
    ensures done + Printed(points[i..], prev)
            == done + Groups(Fold(points[i].lat - prev.lat)) + Groups(Fold(points[i].lng - prev.lng))
               + Printed(points[i + 1..], points[i])
  {
    assert points[i..][1..] == points[i + 1..];
    Regroup(done, Groups(Fold(points[i].lat - prev.lat)), Groups(Fold(points[i].lng - prev.lng)),
            Printed(points[i + 1..], points[i]));
  }

  lemma Regroup(a: seq<int>, b: seq<int>, c: seq<int>, d: seq<int>)
    ensures a + (b + c + d) == a + b + c + d
  {
  }

  /** The decoders' answers for the code units from i on, prev reached so far. */
  datatype Step = Stuck | Reached(point: Micro, next: nat)

  function SharedStep(codes: seq<int>, i: nat, prev: Micro): (r: Step)
    ensures r.Reached? ==> i < r.next <= |codes|
  {
    match DecodeFrom(codes, i, 0, 0)
    case Truncated => Stuck
    case Value(dLat, j) =>
      match DecodeFrom(codes, j, 0, 0)
      case Truncated => Stuck
      case Value(dLng, next) => Reached(Micro(prev.lat + dLat, prev.lng + dLng), next)
  }

  function ViewStep(codes: seq<int>, i: nat, prev: Micro): (r: Step)
    ensures r.Reached? ==> i < r.next <= |codes|
  {
    match ViewFrom(codes, i, 0, 0)
    case Truncated => Stuck
    case Value(dLat, j) =>
      match ViewFrom(codes, j, 0, 0)
      case Truncated => Stuck
      case Value(dLng, next) => Reached(Micro(prev.lat + dLat, prev.lng + dLng), next)
  }

  /** The shared decoder's result for the code units from i on. */
  function SharedRest(codes: seq<int>, i: nat, prev: Micro): Outcome<seq<Degrees>>
    decreases |codes| - i
  {
    if i >= |codes| then Ok([])
    else
      match SharedStep(codes, i, prev)
      case Stuck => TypeError
      case Reached(p, next) =>
        if !InMercator(ToDegrees(p)) then RangeError
        else Prepend(ToDegrees(p), SharedRest(codes, next, p))
  }

  function Prepend<T>(first: T, rest: Outcome<seq<T>>): Outcome<seq<T>> {
    match rest
    case Ok(s) => Ok([first] + s)
    case TypeError => TypeError
    case RangeError => RangeError
  }

  function SharedDecoding(codes: seq<int>): Outcome<seq<Degrees>> {
    if codes == [] then TypeError else SharedRest(codes, 0, START)
  }

  /** The viewer keeps the longitude first and allows latitudes to the poles. */
  datatype LngLat = LngLat(lng: real, lat: real)

  predicate OnGlobe(c: LngLat) {
    -180.0 <= c.lng <= 180.0 && -90.0 <= c.lat <= 90.0
  }

  function ToLngLat(m: Micro): LngLat {
    LngLat(m.lng as real / MILLION, m.lat as real / MILLION)
  }

  function ViewRest(codes: seq<int>, i: nat, prev: Micro): Outcome<seq<LngLat>>
    decreases |codes| - i
  {
    if i >= |codes| then Ok([])
    else
      match ViewStep(codes, i, prev)
      case Stuck => TypeError
      case Reached(p, next) =>
        if !OnGlobe(ToLngLat(p)) then TypeError else Prepend(ToLngLat(p), ViewRest(codes, next, p))
  }

  function ViewDecoding(codes: seq<int>): Outcome<seq<LngLat>> {
    if codes == [] then TypeError
    else
      match ViewRest(codes, 0, START)
      case Ok(coordinates) => if |coordinates| < 2 then TypeError else Ok(coordinates)
      case other => other
  }

  method DecodeCoordinate(encoded: seq<int>, start: nat) returns (r: Decoded)
    ensures r == DecodeFrom(encoded, start, 0, 0)
  {
    var index, shift, result := start, 0, 0;
    while index < |encoded|
      invariant DecodeFrom(encoded, index, shift, result) == DecodeFrom(encoded, start, 0, 0)
    {
      var byte := encoded[index] - 63;
      index := index + 1;
      result := Collected(result, byte, shift);
      shift := shift + 5;
      if byte < 0x20 {
        return Value(Unfold(result), index);
      }
    }
    return Truncated;
  }

  /** Both coordinates of the next point, added to those reached so far. */
  method DecodePair(encoded: seq<int>, index: nat, lat: int, lng: int) returns (step: Step)
    ensures step == SharedStep(encoded, index, Micro(lat, lng))
  {
    var dLat := DecodeCoordinate(encoded, index);
    if dLat.Truncated? {
      return Stuck;
    }
    var dLng := DecodeCoordinate(encoded, dLat.next);
    if dLng.Truncated? {
      return Stuck;
    }
    return Reached(Micro(lat + dLat.value, lng + dLng.value), dLng.next);
  }

  method DecodePolyline6(encoded: seq<int>) returns (r: Outcome<seq<Degrees>>)
    ensures r == SharedDecoding(encoded)
  {
    if |encoded| == 0 {
      return TypeError;
    }
    var points: seq<Degrees> := [];
    var index, lat, lng := 0, 0, 0;
    SharedBegins(encoded);
    while index < |encoded|
      invariant SharedUpTo(encoded, index, Micro(lat, lng), points)
      decreases |encoded| - index
    {
      SharedNext(encoded, index, Micro(lat, lng), points);
      var step := DecodePair(encoded, index, lat, lng);
      if step.Stuck? {
        return TypeError;
      }
      lat, lng, index := step.point.lat, step.point.lng, step.next;
      var point := ToDegrees(Micro(lat, lng));
      if !InMercator(point) {
        return RangeError;
      }
      points := points + [point];
    }
    SharedEnds(encoded, Micro(lat, lng), points);
    return Ok(points);
  }

  /** The points decoded in front of index i, and what is still to come. */
  ghost predicate SharedUpTo(codes: seq<int>, i: nat, prev: Micro, done: seq<Degrees>) {
    i <= |codes| && Joined(done, SharedRest(codes, i, prev)) == SharedDecoding(codes)
  }

  lemma SharedBegins(codes: seq<int>)
    requires codes != []
    ensures SharedUpTo(codes, 0, START, [])
  {
    JoinedNothing(SharedRest(codes, 0, START));
  }

  lemma SharedNext(codes: seq<int>, i: nat, prev: Micro, done: seq<Degrees>)
    requires SharedUpTo(codes, i, prev, done) && i < |codes|
    ensures var step := SharedStep(codes, i, prev);
            if step.Stuck? then SharedDecoding(codes) == TypeError
            else if !InMercator(ToDegrees(step.point)) then SharedDecoding(codes) == RangeError
            else SharedUpTo(codes, step.next, step.point, done + [ToDegrees(step.point)])
  {
    var step := SharedStep(codes, i, prev);
    if step.Reached? {
      JoinedStep(done, ToDegrees(step.point), SharedRest(codes, step.next, step.point));
    }
  }

  lemma SharedEnds(codes: seq<int>, prev: Micro, done: seq<Degrees>)
    requires SharedUpTo(codes, |codes|, prev, done)
    ensures SharedDecoding(codes) == Ok(done)
  {
    assert done + [] == done;
  }

  /** Points decoded so far, followed by a result for the rest. */
  function Joined<T>(done: seq<T>, rest: Outcome<seq<T>>): Outcome<seq<T>> {
    match rest
    case Ok(s) => Ok(done + s)
    case TypeError => TypeError
    case RangeError => RangeError
  }

  lemma JoinedNothing<T>(rest: Outcome<seq<T>>)
    ensures Joined([], rest) == rest
  {
    if rest.Ok? {
      assert [] + rest.value == rest.value;
    }
  }

  lemma JoinedStep<T>(done: seq<T>, next: T, rest: Outcome<seq<T>>)
    ensures Joined(done, Prepend(next, rest)) == Joined(done + [next], rest)
  {
    if rest.Ok? {
      assert done + ([next] + rest.value) == done + [next] + rest.value;
    }
  }

  method DecodeValue(encoded: seq<int>, start: nat) returns (r: Decoded)
    ensures r == ViewFrom(encoded, start, 0, 0)
  {
    var cursor, shift, value := start, 0, 0;
    while cursor < |encoded|
      invariant ViewFrom(encoded, cursor, shift, value) == ViewFrom(encoded, start, 0, 0)
    {
      var byte := encoded[cursor] - 63;
      if byte < 0 || byte > 63 {
        return Truncated;
      }
      cursor := cursor + 1;
      value := Collected(value, byte, shift);
      shift := shift + 5;
      if byte < 0x20 {
        return Value(Unfold(value), cursor);
      }
      if shift > 30 {
        return Truncated;
      }
    }
    return Truncated;
  }

  method DecodeValues(encoded: seq<int>, cursor: nat, lat: int, lng: int) returns (step: Step)
    ensures step == ViewStep(encoded, cursor, Micro(lat, lng))
  {
    var latitude := DecodeValue(encoded, cursor);
    if latitude.Truncated? {
      return Stuck;
    }
    var longitude := DecodeValue(encoded, latitude.next);
    if longitude.Truncated? {
      return Stuck;
    }
    return Reached(Micro(lat + latitude.value, lng + longitude.value), longitude.next);
  }

  method ViewerDecodePolyline6(encoded: seq<int>) returns (r: Outcome<seq<LngLat>>)
    ensures r == ViewDecoding(encoded)
  {
    if |encoded| == 0 {
      return TypeError;
    }
    var coordinates: seq<LngLat> := [];
    var lat, lng, cursor := 0, 0, 0;
    ViewedBegins(encoded);
    while cursor < |encoded|
      invariant ViewedUpTo(encoded, cursor, Micro(lat, lng), coordinates)
      decreases |encoded| - cursor
    {
      ViewedNext(encoded, cursor, Micro(lat, lng), coordinates);
      var step := DecodeValues(encoded, cursor, lat, lng);
      if step.Stuck? {
        return TypeError;
      }
      lat, lng, cursor := step.point.lat, step.point.lng, step.next;
      var point := ToLngLat(Micro(lat, lng));
      if !OnGlobe(point) {
        return TypeError;
      }
      coordinates := coordinates + [point];
    }
    ViewedEnds(encoded, Micro(lat, lng), coordinates);
    if |coordinates| < 2 {
      return TypeError;
    }
    return Ok(coordinates);
  }

  ghost predicate ViewedUpTo(codes: seq<int>, i: nat, prev: Micro, done: seq<LngLat>) {
    i <= |codes| && Joined(done, ViewRest(codes, i, prev)) == ViewRest(codes, 0, START)
  }

  lemma ViewedBegins(codes: seq<int>)
    ensures ViewedUpTo(codes, 0, START, [])
  {
    JoinedNothing(ViewRest(codes, 0, START));
  }

  lemma ViewedNext(codes: seq<int>, i: nat, prev: Micro, done: seq<LngLat>)
    requires ViewedUpTo(codes, i, prev, done) && i < |codes|
    ensures var step := ViewStep(codes, i, prev);
            if step.Stuck? || !OnGlobe(ToLngLat(step.point)) then ViewRest(codes, 0, START) == TypeError
            else ViewedUpTo(codes, step.next, step.point, done + [ToLngLat(step.point)])
  {
    var step := ViewStep(codes, i, prev);
    if step.Reached? {
      JoinedStep(done, ToLngLat(step.point), ViewRest(codes, step.next, step.point));
    }
  }

  lemma ViewedEnds(codes: seq<int>, prev: Micro, done: seq<LngLat>)
    requires ViewedUpTo(codes, |codes|, prev, done)
    ensures ViewRest(codes, 0, START) == Ok(done)
  {
    assert done + [] == done;
  }

  /** Micro-degrees that a point in range rounds to. */
  predicate Small(m: Micro) {
    -85051129 <= m.lat <= 85051129 && -180000000 <= m.lng <= 180000000
  }

  predicate AllSmall(points: seq<Micro>) {
    forall k | 0 <= k < |points| :: Small(points[k])
  }

  lemma InMercatorIsSmall(p: Degrees)
    requires InMercator(p)
    ensures Small(ToMicro(p))
  {
  }

  /** Rounding may carry a point over the latitude limit: the decoder's test,
      in micro-degrees. */
  predicate Readable(m: Micro) {
    -85051128 <= m.lat <= 85051128
  }

  lemma ReadableIff(m: Micro)
    requires Small(m)
    ensures InMercator(ToDegrees(m)) <==> Readable(m)
    ensures OnGlobe(ToLngLat(m))
  {
  }

  /** The viewer reads the value at position i, from the text there. */
  ghost predicate Reads(codes: seq<int>, i: nat, text: seq<int>, value: int) {
    ViewFrom(codes, i, 0, 0) == Value(value, i + |text|)
  }

  lemma PairReadsBack(codes: seq<int>, i: nat, dLat: int, dLng: int, a: seq<int>, b: seq<int>, prev: Micro)
    requires Reads(codes, i, a, dLat) && Reads(codes, i + |a|, b, dLng)
    ensures ViewStep(codes, i, prev) == Reached(Micro(prev.lat + dLat, prev.lng + dLng), i + |a| + |b|)
    ensures SharedStep(codes, i, prev) == ViewStep(codes, i, prev)
  {
    ViewedPair(codes, i, dLat, dLng, a, b, prev);
    StepAgrees(codes, i, prev);
  }

  lemma ViewedPair(codes: seq<int>, i: nat, dLat: int, dLng: int, a: seq<int>, b: seq<int>, prev: Micro)
    requires Reads(codes, i, a, dLat) && Reads(codes, i + |a|, b, dLng)
    ensures ViewStep(codes, i, prev) == Reached(Micro(prev.lat + dLat, prev.lng + dLng), i + |a| + |b|)
  {
  }

  /** A printed point is reached in one step by either decoder. */
  lemma PrintedStep(codes: seq<int>, i: nat, p: Micro, prev: Micro, rest: seq<int>) returns (next: nat)
    requires Small(p) && Small(prev)
    requires At(codes, i, Groups(Fold(p.lat - prev.lat)) + Groups(Fold(p.lng - prev.lng)) + rest)
    ensures i < next && At(codes, next, rest)
    ensures next + |rest| == i + |Groups(Fold(p.lat - prev.lat)) + Groups(Fold(p.lng - prev.lng)) + rest|
    ensures SharedStep(codes, i, prev) == Reached(p, next) && ViewStep(codes, i, prev) == Reached(p, next)
  {
    var a, b := Groups(Fold(p.lat - prev.lat)), Groups(Fold(p.lng - prev.lng));
    next := i + |a| + |b|;
    AtParts(codes, i, a, b, rest);
    PrintedMeans(p.lat - prev.lat);
    PrintedMeans(p.lng - prev.lng);
    PrintedPair(codes, i, p.lat - prev.lat, p.lng - prev.lng, a, b, prev);
  }

  lemma PrintedPair(codes: seq<int>, i: nat, dLat: int, dLng: int, a: seq<int>, b: seq<int>, prev: Micro)
    requires Means(a, dLat) && Means(b, dLng) && At(codes, i, a) && At(codes, i + |a|, b)
    ensures ViewStep(codes, i, prev) == Reached(Micro(prev.lat + dLat, prev.lng + dLng), i + |a| + |b|)
    ensures SharedStep(codes, i, prev) == ViewStep(codes, i, prev)
  {
    assert Reads(codes, i, a, dLat) && Reads(codes, i + |a|, b, dLng);
    PairReadsBack(codes, i, dLat, dLng, a, b, prev);
  }

  /** Wherever the text stands it is read as the value. */
  ghost predicate Means(text: seq<int>, value: int) {
    forall codes, i: nat | At(codes, i, text) :: Reads(codes, i, text, value)
  }

  lemma PrintedMeans(value: int)
    requires -0x4000_0000 <= value < 0x4000_0000
    ensures Means(Groups(Fold(value)), value)
  {
    var text := Groups(Fold(value));
    forall codes, i: nat | At(codes, i, text)
      ensures Reads(codes, i, text, value)
    {
      CoordinateReadsBack(codes, i, value, text);
    }
  }

  lemma AtParts(codes: seq<int>, i: nat, a: seq<int>, b: seq<int>, rest: seq<int>)
    requires At(codes, i, a + b + rest)
    ensures At(codes, i, a) && At(codes, i + |a|, b) && At(codes, i + |a| + |b|, rest)
  {
    AtSplit(codes, i, a + b, rest);
    AtSplit(codes, i, a, b);
  }

  predicate AllReadable(points: seq<Micro>) {
    forall k | 0 <= k < |points| :: Readable(points[k])
  }

  function AllDegrees(points: seq<Micro>): (r: seq<Degrees>)
    ensures |r| == |points| && forall k | 0 <= k < |r| :: r[k] == ToDegrees(points[k])
  {
    if points == [] then [] else [ToDegrees(points[0])] + AllDegrees(points[1..])
  }

  function AllLngLat(points: seq<Micro>): (r: seq<LngLat>)
    ensures |r| == |points| && forall k | 0 <= k < |r| :: r[k] == ToLngLat(points[k])
  {
    if points == [] then [] else [ToLngLat(points[0])] + AllLngLat(points[1..])
  }

  lemma ReadableSplit(points: seq<Micro>)
    requires points != []
    ensures AllReadable(points) <==> Readable(points[0]) && AllReadable(points[1..])
  {
  }

  lemma {:induction false} SharedReadsBack(codes: seq<int>, i: nat, points: seq<Micro>, prev: Micro)
    requires AllSmall(points) && Small(prev)
    requires At(codes, i, Printed(points, prev)) && i + |Printed(points, prev)| == |codes|
    ensures SharedRest(codes, i, prev) == if AllReadable(points) then Ok(AllDegrees(points)) else RangeError
    decreases |points|
  {
    if points != [] {
      var p := points[0];
      var next := PrintedStep(codes, i, p, prev, Printed(points[1..], p));
      ReadableIff(p);
      ReadableSplit(points);
      SharedReadsBack(codes, next, points[1..], p);
    }
  }

  lemma {:induction false} ViewReadsBack(codes: seq<int>, i: nat, points: seq<Micro>, prev: Micro)
    requires AllSmall(points) && Small(prev)
    requires At(codes, i, Printed(points, prev)) && i + |Printed(points, prev)| == |codes|
    ensures ViewRest(codes, i, prev) == Ok(AllLngLat(points))
    decreases |points|
  {
    if points != [] {
      var p := points[0];
      var next := PrintedStep(codes, i, p, prev, Printed(points[1..], p));
      ReadableIff(p);
      ViewReadsBack(codes, next, points[1..], p);
    }
  }

  /** The shared decoder undoes the encoder, up to rounding to millionths of a
      degree, exactly when no latitude is rounded over the limit. */
  lemma SharedRoundTrip(points: seq<Degrees>, codes: seq<int>)
    requires Encoding(points) == Ok(codes)
    ensures SharedDecoding(codes)
            == if forall k | 0 <= k < |points| :: Readable(ToMicro(points[k]))
               then Ok(AllDegrees(AllMicro(points))) else RangeError
  {
    PrintedWhole(points, codes);
    assert AllReadable(AllMicro(points)) <==> forall k | 0 <= k < |points| :: Readable(ToMicro(points[k])) by {
      assert forall k | 0 <= k < |points| :: AllMicro(points)[k] == ToMicro(points[k]);
    }
  }

  lemma PrintedWhole(points: seq<Degrees>, codes: seq<int>)
    requires Encoding(points) == Ok(codes)
    ensures codes != []
    ensures SharedDecoding(codes)
            == if AllReadable(AllMicro(points)) then Ok(AllDegrees(AllMicro(points))) else RangeError
    ensures ViewRest(codes, 0, START) == Ok(AllLngLat(AllMicro(points)))
  {
    var micros := AllMicro(points);
    forall k | 0 <= k < |micros|
      ensures Small(micros[k])
    {
      InMercatorIsSmall(points[k]);
    }
    SharedReadsBack(codes, 0, micros, START);
    ViewReadsBack(codes, 0, micros, START);
  }

  /** The viewer's decoder undoes the encoder on every list of at least two
      points, and refuses the encoding of a single point. */
  lemma ViewerRoundTrip(points: seq<Degrees>, codes: seq<int>)
    requires Encoding(points) == Ok(codes)
    ensures ViewDecoding(codes) == if |points| < 2 then TypeError else Ok(AllLngLat(AllMicro(points)))
  {
    PrintedWhole(points, codes);
  }

  /** A decoded point is within half a millionth of a degree of the original;
      between two millionths the upper one is taken. */
  lemma RoundedClose(p: Degrees)
    ensures var q := ToDegrees(ToMicro(p));
            -0.0000005 < q.lat - p.lat <= 0.0000005 && -0.0000005 < q.lng - p.lng <= 0.0000005
  {
  }

  /** A point that the encoder accepts and whose encoding the shared decoder
      refuses: the limit itself, rounded to the nearest millionth, exceeds it. */
  lemma LimitNotReadBack()
    ensures exists codes :: Encoding([Degrees(MAX_LATITUDE, 0.0)]) == Ok(codes) && SharedDecoding(codes) == RangeError
  {
    var points := [Degrees(MAX_LATITUDE, 0.0)];
    var codes := Printed(AllMicro(points), START);
    assert Encoding(points) == Ok(codes);
    assert ToMicro(points[0]) == Micro(85051129, 0);
    SharedRoundTrip(points, codes);
  }

  /** Whatever the viewer accepts, the shared decoder reads as the same points,
      unless a latitude lies between the limit and a pole. */
  lemma ViewerAgreesWithShared(codes: seq<int>)
    requires ViewDecoding(codes).Ok?
    ensures var seen := ViewDecoding(codes).value;
            SharedDecoding(codes)
            == if forall k | 0 <= k < |seen| :: InMercator(Turned(seen[k])) then Ok(AllTurned(seen)) else RangeError
  {
    RestAgrees(codes, 0, START);
  }

  function Turned(c: LngLat): Degrees {
    Degrees(c.lat, c.lng)
  }

  function AllTurned(seen: seq<LngLat>): (r: seq<Degrees>)
    ensures |r| == |seen| && forall k | 0 <= k < |r| :: r[k] == Turned(seen[k])
  {
    if seen == [] then [] else [Turned(seen[0])] + AllTurned(seen[1..])
  }

  predicate AllTurnedInside(seen: seq<LngLat>) {
    forall k | 0 <= k < |seen| :: InMercator(Turned(seen[k]))
  }

  lemma {:induction false} RestAgrees(codes: seq<int>, i: nat, prev: Micro)
    requires ViewRest(codes, i, prev).Ok?
    ensures var seen := ViewRest(codes, i, prev).value;
            SharedRest(codes, i, prev) == if AllTurnedInside(seen) then Ok(AllTurned(seen)) else RangeError
    decreases |codes| - i
  {
    if i < |codes| {
      var step := ViewStep(codes, i, prev);
      StepAgrees(codes, i, prev);
      RestAgrees(codes, step.next, step.point);
      var seen, rest := ViewRest(codes, i, prev).value, ViewRest(codes, step.next, step.point).value;
      assert seen == [ToLngLat(step.point)] + rest;
      assert seen[1..] == rest;
      assert AllTurnedInside(seen) <==> InMercator(Turned(seen[0])) && AllTurnedInside(rest) by {
        assert forall k | 0 <= k < |rest| :: rest[k] == seen[k + 1];
      }
    }
  }

  lemma StepAgrees(codes: seq<int>, i: nat, prev: Micro)
    requires ViewStep(codes, i, prev).Reached?
    ensures SharedStep(codes, i, prev) == ViewStep(codes, i, prev)
  {
    ViewAgrees(codes, i, 0, 0);
    ViewAgrees(codes, ViewFrom(codes, i, 0, 0).next, 0, 0);
  }
}
