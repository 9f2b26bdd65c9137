/** PMTiles tile ids: zoom levels one after the other, and within a zoom level
    the Hilbert curve of the PMTiles Version 3 Specification, section 4.1. */
module Hilbert {
  import opened Common

  const WORD := 0x1_0000_0000

  /** The largest zoom whose ids are computed. */
  const MAX_ZOOM: nat := 31

  datatype Tile = Tile(z: nat, x: nat, y: nat)

  function Pow2(k: nat): (r: nat)
    ensures r > 0
  {
    if k == 0 then 1 else 2 * Pow2(k - 1)
  }

  function Pow4(k: nat): (r: nat)
    ensures r > 0
  {
    if k == 0 then 1 else 4 * Pow4(k - 1)
  }

  lemma {:induction false} Pow2Square(k: nat)
    ensures Pow2(k) * Pow2(k) == Pow4(k)
  {
    if k > 0 {
      Pow2Square(k - 1);
    }
  }

  /** Which quarter of a curve a position is in, and where in it. */
  function Quarter(quarter: int, d: int): int {
    if d < quarter then 0 else if d < 2 * quarter then 1 else if d < 3 * quarter then 2 else 3
  }

  function Rest(quarter: int, d: int): int {
    if d < quarter then d else if d < 2 * quarter then d - quarter
    else if d < 3 * quarter then d - 2 * quarter else d - 3 * quarter
  }

  /** A cell of quadrant q, given in the quadrant's own frame: quadrants run up
      the left side and down the right, the two lower ones are transposed, the
      lower right one is turned around as well. */
  function JoinX(s: int, q: int, x: int, y: int): int {
    if q == 0 then y else if q == 1 then x else if q == 2 then x + s else 2 * s - 1 - y
  }

  function JoinY(s: int, q: int, x: int, y: int): int {
    if q == 0 then x else if q == 1 then y + s else if q == 2 then y + s else s - 1 - x
  }

  /** The cell at position d of the curve through the square of side 2^k. */
  function X(k: nat, d: int): int {
    if k == 0 then 0
    else
      var quarter := Pow4(k - 1);
      JoinX(Pow2(k - 1), Quarter(quarter, d), X(k - 1, Rest(quarter, d)), Y(k - 1, Rest(quarter, d)))
  }

  function Y(k: nat, d: int): int {
    if k == 0 then 0
    else
      var quarter := Pow4(k - 1);
      JoinY(Pow2(k - 1), Quarter(quarter, d), X(k - 1, Rest(quarter, d)), Y(k - 1, Rest(quarter, d)))
  }

  /** The quadrant of a cell, and the cell in the quadrant's own frame. */
  function Quadrant(s: int, x: int, y: int): int {
    if x < s then if y < s then 0 else 1 else if y < s then 3 else 2
  }

  function FrameX(s: int, x: int, y: int): int {
    if x < s then if y < s then y else x else if y < s then s - 1 - y else x - s
  }

  function FrameY(s: int, x: int, y: int): int {
    if x < s then if y < s then x else y - s else if y < s then 2 * s - 1 - x else y - s
  }

  function Offset(q: int, quarter: int): int {
    if q == 0 then 0 else if q == 1 then quarter else if q == 2 then 2 * quarter else 3 * quarter
  }

  /** The position of a cell on the curve. */
  function Index(k: nat, x: int, y: int): int {
    if k == 0 then 0
    else
      var s := Pow2(k - 1);
      Offset(Quadrant(s, x, y), Pow4(k - 1)) + Index(k - 1, FrameX(s, x, y), FrameY(s, x, y))
  }

  predicate InSquare(k: nat, x: int, y: int) {
    0 <= x < Pow2(k) && 0 <= y < Pow2(k)
  }

  /** Splitting a cell into quadrant and frame, and joining it again. */
  lemma FrameJoins(s: nat, x: int, y: int)
    requires 0 <= x < 2 * s && 0 <= y < 2 * s
    ensures 0 <= FrameX(s, x, y) < s && 0 <= FrameY(s, x, y) < s
    ensures JoinX(s, Quadrant(s, x, y), FrameX(s, x, y), FrameY(s, x, y)) == x
    ensures JoinY(s, Quadrant(s, x, y), FrameX(s, x, y), FrameY(s, x, y)) == y
  {
  }

  lemma JoinFrames(s: nat, q: int, x: int, y: int)
    requires 0 <= x < s && 0 <= y < s && 0 <= q < 4
    ensures 0 <= JoinX(s, q, x, y) < 2 * s && 0 <= JoinY(s, q, x, y) < 2 * s
    ensures Quadrant(s, JoinX(s, q, x, y), JoinY(s, q, x, y)) == q
    ensures FrameX(s, JoinX(s, q, x, y), JoinY(s, q, x, y)) == x
    ensures FrameY(s, JoinX(s, q, x, y), JoinY(s, q, x, y)) == y
  {
  }

  lemma QuarterOf(quarter: nat, q: int, i: int)
    requires 0 <= i < quarter && 0 <= q < 4
    ensures 0 <= Offset(q, quarter) + i < 4 * quarter
    ensures Quarter(quarter, Offset(q, quarter) + i) == q && Rest(quarter, Offset(q, quarter) + i) == i
  {
  }

  lemma QuarterSplits(quarter: nat, d: int)
    requires 0 <= d < 4 * quarter
    ensures 0 <= Quarter(quarter, d) < 4 && 0 <= Rest(quarter, d) < quarter
    ensures Offset(Quarter(quarter, d), quarter) + Rest(quarter, d) == d
  {
  }

  /** Every cell of the square has a position, and the curve is there then. */
  lemma {:induction false} CellOfIndex(k: nat, x: int, y: int)
    requires InSquare(k, x, y)
    ensures 0 <= Index(k, x, y) < Pow4(k)
    ensures X(k, Index(k, x, y)) == x && Y(k, Index(k, x, y)) == y
  {
    if k > 0 {
      var s := Pow2(k - 1);
      var u, v := FrameX(s, x, y), FrameY(s, x, y);
      FrameJoins(s, x, y);
      CellOfIndex(k - 1, u, v);
      QuarterOf(Pow4(k - 1), Quadrant(s, x, y), Index(k - 1, u, v));
    }
  }

  /** Every position holds a cell of the square, and that cell's position is it. */
  lemma {:induction false} IndexOfCell(k: nat, d: int)
    requires 0 <= d < Pow4(k)
    ensures InSquare(k, X(k, d), Y(k, d)) && Index(k, X(k, d), Y(k, d)) == d
  {
    if k > 0 {
      var quarter := Pow4(k - 1);
      var i, q := Rest(quarter, d), Quarter(quarter, d);
      QuarterSplits(quarter, d);
      IndexOfCell(k - 1, i);
      JoinFrames(Pow2(k - 1), q, X(k - 1, i), Y(k - 1, i));
    }
  }

  /** The curve enters at the lower left corner and leaves at the lower right. */
  lemma {:induction false} CurveEnds(k: nat)
    ensures X(k, 0) == 0 && Y(k, 0) == 0
    ensures X(k, Pow4(k) - 1) == Pow2(k) - 1 && Y(k, Pow4(k) - 1) == 0
  {
    if k > 0 {
      CurveEnds(k - 1);
      assert Rest(Pow4(k - 1), Pow4(k) - 1) == Pow4(k - 1) - 1;
    }
  }

  /** Two cells that share an edge. */
  predicate Adjacent(x: int, y: int, u: int, v: int) {
    (x == u && (y == v + 1 || v == y + 1)) || (y == v && (x == u + 1 || u == x + 1))
  }

  lemma JoinAdjacent(s: int, q: int, x: int, y: int, u: int, v: int)
    requires Adjacent(x, y, u, v)
    ensures Adjacent(JoinX(s, q, x, y), JoinY(s, q, x, y), JoinX(s, q, u, v), JoinY(s, q, u, v))
  {
  }

  /** Consecutive positions are edge-adjacent cells: within a quarter by
      induction, between quarters because one ends where the next begins. */
  lemma {:induction false} CurveConnected(k: nat, d: int)
    requires 0 <= d && d + 1 < Pow4(k)
    ensures Adjacent(X(k, d), Y(k, d), X(k, d + 1), Y(k, d + 1))
    decreases k
  {
    if k > 0 {
      var quarter := Pow4(k - 1);
      var i, q := Rest(quarter, d), Quarter(quarter, d);
      if i + 1 < quarter {
        CurveConnected(k - 1, i);
        assert Quarter(quarter, d + 1) == q && Rest(quarter, d + 1) == i + 1;
        JoinAdjacent(Pow2(k - 1), q, X(k - 1, i), Y(k - 1, i), X(k - 1, i + 1), Y(k - 1, i + 1));
      } else {
        CurveEnds(k - 1);
        assert Quarter(quarter, d + 1) == q + 1 && Rest(quarter, d + 1) == 0;
      }
    }
  }

  /** The first id of zoom level z. */
  function Base(z: nat): nat {
    if z == 0 then 0 else Base(z - 1) + Pow4(z - 1)
  }

  lemma {:induction false} BaseClosedForm(z: nat)
    ensures 3 * Base(z) == Pow4(z) - 1
  {
    if z > 0 {
      BaseClosedForm(z - 1);
    }
  }

  predicate ValidTile(t: Tile) {
    t.z <= MAX_ZOOM && t.x < Pow2(t.z) && t.y < Pow2(t.z)
  }

  function TileId(t: Tile): int {
    Base(t.z) + Index(t.z, t.x, t.y)
  }

  /** The first zooms, tile by tile. */
  lemma ZoomZero(z: nat)
    requires z == 0
    ensures TileId(Tile(z, 0, 0)) == 0
  {
  }

  lemma ZoomOne(z: nat, x: nat, y: nat)
    requires z == 1 && x < 2 && y < 2
    ensures TileId(Tile(z, x, y)) == if x == 0 then 1 + y else 4 - y
  {
    FirstBases(z);
    OneLevel(z, x, y);
  }

  lemma FirstBases(z: nat)
    requires z <= 2
    ensures Base(z) == if z == 0 then 0 else if z == 1 then 1 else 5
  {
    if z == 2 {
      FirstBases(z - 1);
    }
  }

  lemma OneLevel(k: nat, x: nat, y: nat)
    requires k == 1 && x < 2 && y < 2
    ensures Index(k, x, y) == if x == 0 then y else 3 - y
  {
    assert Pow2(k - 1) == 1 && Pow4(k - 1) == 1;
  }

  /** Up the left half and down the right one, the upper quarters transposed. */
  lemma TwoLevels(k: nat, x: nat, y: nat)
    requires k == 2 && x < 4 && y < 4
    ensures Index(k, x, y)
            == if x < 2 && y < 2 then Index(k - 1, y, x)
               else if x < 2 then 4 + Index(k - 1, x, y - 2)
               else if y >= 2 then 8 + Index(k - 1, x - 2, y - 2)
               else 12 + Index(k - 1, 1 - y, 3 - x)
  {
    assert Pow2(k - 1) == 2 && Pow4(k - 1) == 4;
  }

  /** The curve of each zoom begins at its north-west tile and ends at its
      north-east one. */
  lemma ZoomEnds(z: nat)
    ensures TileId(Tile(z, 0, 0)) == Base(z) && TileId(Tile(z, Pow2(z) - 1, 0)) == Base(z + 1) - 1
  {
    CurveEnds(z);
    IndexOfCell(z, 0);
    IndexOfCell(z, Pow4(z) - 1);
  }

  lemma {:induction false} BaseMonotone(a: nat, b: nat)
    requires a <= b
    ensures Base(a) <= Base(b)
    decreases b
  {
    if a < b {
      BaseMonotone(a, b - 1);
    }
  }

  /** Zoom level z holds the ids from Base(z) up to Base(z + 1). */
  lemma {:induction false} ZoomBlock(t: Tile)
    requires ValidTile(t)
    ensures Base(t.z) <= TileId(t) < Base(t.z + 1)
  {
    CellOfIndex(t.z, t.x, t.y);
  }

  lemma ZoomOfId(z: nat, u: nat, id: int)
    requires Base(z) <= id < Base(z + 1) && Base(u) <= id < Base(u + 1)
    ensures z == u
  {
    if z < u {
      BaseMonotone(z + 1, u);
    } else if u < z {
      BaseMonotone(u + 1, z);
    }
  }

  lemma SameIndex(k: nat, x: int, y: int, u: int, v: int)
    requires InSquare(k, x, y) && InSquare(k, u, v) && Index(k, x, y) == Index(k, u, v)
    ensures x == u && y == v
  {
    CellOfIndex(k, x, y);
    CellOfIndex(k, u, v);
  }

  /** Different tiles have different ids. */
  lemma TileIdInjective(t: Tile, u: Tile)
    requires ValidTile(t) && ValidTile(u) && TileId(t) == TileId(u)
    ensures t == u
  {
    ZoomBlock(t);
    ZoomBlock(u);
    ZoomOfId(t.z, u.z, TileId(t));
    SameIndex(t.z, t.x, t.y, u.x, u.y);
  }

  /** Every id below the first id of level z + 1 belongs to a tile. */
  lemma {:induction false} TileIdSurjective(z: nat, id: int) returns (t: Tile)
    requires z <= MAX_ZOOM && 0 <= id < Base(z + 1)
    ensures ValidTile(t) && t.z <= z && TileId(t) == id
    decreases z
  {
    if id < Base(z) {
      t := TileIdSurjective(z - 1, id);
    } else {
      IndexOfCell(z, id - Base(z));
      t := Tile(z, X(z, id - Base(z)), Y(z, id - Base(z)));
    }
  }

  ghost predicate HasTile(id: int) {
    exists t :: ValidTile(t) && TileId(t) == id
  }

  /** Tiles of one zoom level with consecutive ids share an edge. */
  lemma {:induction false} TileIdsConnected(t: Tile, u: Tile)
    requires ValidTile(t) && ValidTile(u) && t.z == u.z && TileId(u) == TileId(t) + 1
    ensures Adjacent(t.x, t.y, u.x, u.y)
  {
    CellOfIndex(t.z, t.x, t.y);
    CellOfIndex(u.z, u.x, u.y);
    CurveConnected(t.z, Index(t.z, t.x, t.y));
  }

  /** 32-bit subtraction that wraps around. */
  function WrappingSub(a: int, b: int): nat {
    (a - b) % WORD
  }

  function Bit(x: nat, scale: nat): nat
    requires scale > 0
  {
    (x / scale) % 2
  }

  lemma MulSize(s: nat, k: int)
    requires s > 0
    ensures k >= 1 ==> s * k >= s
    ensures k <= -1 ==> s * k <= -(s as int)
  {
  }

  lemma ModShift(a: nat, s: nat, b: int)
    requires a < s
    ensures (a + s * b) % s == a
    ensures (a + s * b) / s == b
  {
    var m := a + s * b;
    var q, r := m / s, m % s;
    assert m == s * q + r;
    assert s * (q - b) == a - r;
    MulSize(s, q - b);
  }

  /** x shows w in its window of the low bits; h is whatever lies above. */
  predicate Shows(x: nat, side: nat, w: nat, h: int) {
    x < WORD && w < side && x == w + side * h
  }

  /** The leading bit of a window of side 2 s. */
  lemma LeadingBit(x: nat, s: nat, w: nat, h: int)
    requires s > 0 && Shows(x, 2 * s, w, h)
    ensures Bit(x, s) == if w < s then 0 else 1
  {
    Regroup(s, h);
    if w < s {
      ModShift(w, s, 2 * h);
    } else {
      MulPlusOne(s, 2 * h);
      ModShift(w - s, s, 2 * h + 1);
    }
  }

  lemma Regroup(s: nat, h: int)
    ensures (2 * s) * h == s * (2 * h)
  {
  }

  lemma MulPlusOne(s: nat, h: int)
    ensures s * (h + 1) == s * h + s
  {
  }

  /** Dropping the leading bit from the window. */
  lemma Narrow(x: nat, s: nat, w: nat, h: int) returns (h': int)
    requires s > 0 && Shows(x, 2 * s, w, h)
    ensures Shows(x, s, if w < s then w else w - s, h')
  {
    Regroup(s, h);
    MulPlusOne(s, 2 * h);
    h' := if w < s then 2 * h else 2 * h + 1;
  }

  /** Wrapping past zero changes only the bits above the window. */
  lemma Flip(x: nat, s: nat, t: nat, w: nat, h: int) returns (h': int)
    requires s > 0 && s * t == WORD && Shows(x, s, w, h)
    ensures Shows(WrappingSub(WrappingSub(s, 1), x), s, s - 1 - w, h')
  {
    var d := s - 1 - x;
    var j := d / WORD;
    MulSize(s, t);
    assert WrappingSub(s, 1) == s - 1;
    h' := -h - t * j;
    FlipProduct(s, t, h, j);
  }

  lemma FlipProduct(s: nat, t: nat, h: int, j: int)
    ensures s * (-h - t * j) == -(s * h) - (s * t) * j
  {
  }

  /** The exclusive or that turns the two leading bits into a curve position. */
  function CurveDigit(rx: nat, ry: nat): (q: nat)
    requires rx < 2 && ry < 2
    ensures q == if rx == 0 then ry else 3 - ry
  {
    XorTable();
    Xor(3 * rx, ry)
  }

  lemma XorTable()
    ensures Xor(0, 0) == 0 && Xor(0, 1) == 1 && Xor(3, 0) == 3 && Xor(3, 1) == 2
  {
    assert Xor(1, 0) == 1;
  }

  /** What the bits at one scale add to the id. */
  function Contribution(rx: nat, ry: nat, scale: nat): int
    requires rx < 2 && ry < 2
  {
    CurveDigit(rx, ry) * (scale * scale)
  }

  /** Exclusive or, digit by binary digit. */
  function Xor(a: nat, b: nat): nat {
    if a == 0 && b == 0 then 0 else 2 * Xor(a / 2, b / 2) + (a + b) % 2
  }

  lemma {:induction false} DividesWord(k: nat) returns (t: nat)
    requires k <= 32
    ensures Pow2(k) * t == WORD
    decreases 32 - k
  {
    if k == 32 {
      t := 1;
      PowConstants();
    } else {
      var u := DividesWord(k + 1);
      t := 2 * u;
      Regroup(Pow2(k), u);
    }
  }

  lemma {:induction false} PowConstants()
    ensures Pow2(32) == WORD && Pow4(32) == 0x1_0000_0000_0000_0000
  {
    assert Pow2(8) == 256;
    assert Pow2(16) == 65536;
    assert Pow2(24) == 16777216;
    Pow2Square(32);
  }

  /** The first id of zoom level 32. */
  lemma {:induction false} IdsEnd()
    ensures Base(MAX_ZOOM + 1) == 0x5555_5555_5555_5555
  {
    BaseClosedForm(MAX_ZOOM + 1);
    PowConstants();
  }

  /** Every id fits a 64-bit word, with two bits to spare. */
  lemma {:induction false} IdsFit(t: Tile)
    requires ValidTile(t)
    ensures 0 <= TileId(t) < 0x5555_5555_5555_5555
  {
    ZoomBlock(t);
    BaseMonotone(0, t.z);
    BaseMonotone(t.z + 1, MAX_ZOOM + 1);
    IdsEnd();
  }

  /** Tile ids are a bijection from the valid tiles onto the ids below
      (4^32 - 1) / 3, the first id of zoom level 32. */
  lemma TileIdBijective()
    ensures forall t | ValidTile(t) :: 0 <= TileId(t) < 0x5555_5555_5555_5555
    ensures forall t, u | ValidTile(t) && ValidTile(u) && TileId(t) == TileId(u) :: t == u
    ensures forall id | 0 <= id < 0x5555_5555_5555_5555 :: HasTile(id)
  {
    forall t | ValidTile(t)
      ensures 0 <= TileId(t) < 0x5555_5555_5555_5555
    {
      IdsFit(t);
    }
    forall t, u | ValidTile(t) && ValidTile(u) && TileId(t) == TileId(u)
      ensures t == u
    {
      TileIdInjective(t, u);
    }
    IdsEnd();
    forall id | 0 <= id < 0x5555_5555_5555_5555
      ensures HasTile(id)
    {
      var t := TileIdSurjective(MAX_ZOOM, id);
    }
  }

  /** The coordinates after one round at scale s. */
  function ReframeX(s: nat, rx: nat, ry: nat, x: nat, y: nat): nat {
    if ry != 0 then x else if rx != 0 then WrappingSub(WrappingSub(s, 1), y) else y
  }

  function ReframeY(s: nat, rx: nat, ry: nat, x: nat, y: nat): nat {
    if ry != 0 then y else if rx != 0 then WrappingSub(WrappingSub(s, 1), x) else x
  }

  /** One round of the conversion: the windows' two leading bits name the
      quadrant, and the new coordinates show the quadrant's own frame in the
      next window, whatever the bits above it. */
  lemma Round(s: nat, t: nat, x: nat, y: nat, wx: nat, wy: nat, hx: int, hy: int)
      returns (tx: nat, ty: nat, hx': int, hy': int)
    requires s > 0 && s * t == WORD && Shows(x, 2 * s, wx, hx) && Shows(y, 2 * s, wy, hy)
    ensures Bit(x, s) < 2 && Bit(y, s) < 2
    ensures Shows(ReframeX(s, Bit(x, s), Bit(y, s), x, y), s, tx, hx')
    ensures Shows(ReframeY(s, Bit(x, s), Bit(y, s), x, y), s, ty, hy')
    ensures Quadrant(s, wx, wy) == CurveDigit(Bit(x, s), Bit(y, s))
    ensures tx == FrameX(s, wx, wy) && ty == FrameY(s, wx, wy)
  {
    LeadingBit(x, s, wx, hx);
    LeadingBit(y, s, wy, hy);
    hx' := Narrow(x, s, wx, hx);
    hy' := Narrow(y, s, wy, hy);
    tx, ty := if wx < s then wx else wx - s, if wy < s then wy else wy - s;
    if wy < s {
      if wx >= s {
        hx' := Flip(x, s, t, tx, hx');
        hy' := Flip(y, s, t, ty, hy');
        tx, ty := s - 1 - tx, s - 1 - ty;
      }
      tx, ty, hx', hy' := ty, tx, hy', hx';
    }
  }

  /** The conversion between two rounds: the windows of side 2^k show the cell
      that is left. */
  ghost predicate Converting(t: Tile, k: nat, x: nat, y: nat, wx: nat, wy: nat, hx: int, hy: int, id: int) {
    && ValidTile(t) && k <= t.z && Shows(x, Pow2(k), wx, hx) && Shows(y, Pow2(k), wy, hy)
    && id + Index(k, wx, wy) == TileId(t)
  }

  lemma {:induction false} ConvertingNext(t: Tile, k: nat, s: nat, x: nat, y: nat, wx: nat, wy: nat, hx: int, hy: int,
                                          id: int)
      returns (tx: nat, ty: nat, hx': int, hy': int)
    requires k > 0 && s == Pow2(k - 1) && Converting(t, k, x, y, wx, wy, hx, hy, id)
    ensures s / 2 == if k == 1 then 0 else Pow2(k - 2)
    ensures var rx, ry := Bit(x, s), Bit(y, s);
            && rx < 2 && ry < 2
            && Converting(t, k - 1, ReframeX(s, rx, ry, x, y), ReframeY(s, rx, ry, x, y), tx, ty, hx', hy',
                          id + Contribution(rx, ry, s))
  {
    var u := DividesWord(k - 1);
    tx, ty, hx', hy' := Round(s, u, x, y, wx, wy, hx, hy);
    Pow2Square(k - 1);
    OffsetIs(CurveDigit(Bit(x, s), Bit(y, s)), s * s);
  }

  lemma OffsetIs(q: nat, quarter: int)
    requires q < 4
    ensures Offset(q, quarter) == q * quarter
  {
  }

  lemma {:induction false} StartsConverting(t: Tile)
    requires ValidTile(t)
    ensures Converting(t, t.z, t.x, t.y, t.x, t.y, 0, 0, (Pow4(t.z) - 1) / 3)
  {
    BaseClosedForm(t.z);
    var u := DividesWord(t.z);
    MulSize(Pow2(t.z), u);
  }

  /** The id of a tile, computed in place over 32-bit coordinates. */
  method ZxyToId(z: nat, x: u32, y: u32) returns (id: Option<int>)
    ensures id == if ValidTile(Tile(z, x, y)) then Some(TileId(Tile(z, x, y))) else None
  {
    if z > 31 || (z == 0 && (x != 0 || y != 0)) {
      return None;
    }
    if z > 0 {
      var dimension := Pow2(z);
      if x >= dimension || y >= dimension {
        return None;
      }
    }
    if z == 0 {
      return Some(0);
    }
    var result := Convert(z, x, y);
    return Some(result);
  }

  /** The rounds from the highest bit down. */
  method Convert(z: nat, x: nat, y: nat) returns (id: int)
    requires z > 0 && ValidTile(Tile(z, x, y))
    ensures id == TileId(Tile(z, x, y))
  {
    id := (Pow4(z) - 1) / 3;
    var cx: nat, cy: nat := x, y;
    var scale := Pow2(z - 1);
    ghost var k: nat, wx: nat, wy: nat, hx, hy := z, x, y, 0, 0;
    StartsConverting(Tile(z, x, y));
    while scale > 0
      invariant scale == if k == 0 then 0 else Pow2(k - 1)
      invariant Converting(Tile(z, x, y), k, cx, cy, wx, wy, hx, hy, id)
      decreases k
    {
      wx, wy, hx, hy := ConvertingNext(Tile(z, x, y), k, scale, cx, cy, wx, wy, hx, hy, id);
      id, cx, cy := Advance(id, scale, cx, cy);
      scale := scale / 2;
      k := k - 1;
    }
  }

  /** One round: the id grows, the coordinates turn into the quadrant's frame. */
  method Advance(id: int, scale: nat, x: nat, y: nat) returns (next: int, cx: nat, cy: nat)
    requires scale > 0 && Bit(x, scale) < 2 && Bit(y, scale) < 2
    ensures next == id + Contribution(Bit(x, scale), Bit(y, scale), scale)
    ensures cx == ReframeX(scale, Bit(x, scale), Bit(y, scale), x, y)
    ensures cy == ReframeY(scale, Bit(x, scale), Bit(y, scale), x, y)
  {
    var rx, ry := Bit(x, scale), Bit(y, scale);
    next := id + Contribution(rx, ry, scale);
    cx, cy := x, y;
    if ry == 0 {
      if rx != 0 {
        cx, cy := WrappingSub(WrappingSub(scale, 1), cx), WrappingSub(WrappingSub(scale, 1), cy);
      }
      cx, cy := cy, cx;
    }
  }
}
