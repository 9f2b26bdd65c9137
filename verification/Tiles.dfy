/** The spatial cell index in tile space: which closed tiles a polyline
    touches, and which cells a query rectangle asks for. Coordinates are exact
    reals; one tile is one unit wide. */
module Tiles {
  import opened Common
  import Hilbert

  datatype Point = Point(x: real, y: real)

  datatype TileXY = TileXY(x: int, y: int)

  /** The tolerance within which a coordinate counts as lying on a grid line. */
  const GRID_EPSILON := 0.000000001

  function MaxIndex(zoom: nat): int {
    Hilbert.Pow2(zoom) - 1
  }

  predicate InGrid(t: TileXY, zoom: nat) {
    0 <= t.x <= MaxIndex(zoom) && 0 <= t.y <= MaxIndex(zoom)
  }

  function ClampTileIndex(value: int, zoom: nat): (r: int)
    ensures 0 <= r <= MaxIndex(zoom)
    ensures 0 <= value <= MaxIndex(zoom) ==> r == value
  {
    var lifted := if value < 0 then 0 else value;
    if lifted > MaxIndex(zoom) then MaxIndex(zoom) else lifted
  }

  function AbsReal(v: real): real {
    if v < 0.0 then -v else v
  }

  predicate IsGridBoundary(v: real) {
    AbsReal(v - (v + 0.5).Floor as real) <= GRID_EPSILON
  }

  predicate InClosedTile(x: real, y: real, t: TileXY) {
    t.x as real <= x <= t.x as real + 1.0 && t.y as real <= y <= t.y as real + 1.0
  }

  function AtX(start: Point, end: Point, t: real): real {
    start.x + t * (end.x - start.x)
  }

  function AtY(start: Point, end: Point, t: real): real {
    start.y + t * (end.y - start.y)
  }

  /** The point of the segment at parameter t lies in the closed tile. */
  predicate TouchesAt(start: Point, end: Point, tile: TileXY, t: real) {
    0.0 <= t <= 1.0 && InClosedTile(AtX(start, end, t), AtY(start, end, t), tile)
  }

  ghost predicate Touches(start: Point, end: Point, tile: TileXY) {
    exists t :: TouchesAt(start, end, tile, t)
  }

  predicate Within(lo: real, hi: real, t: real) {
    lo <= t <= hi
  }

  predicate HalfLine(p: real, q: real, t: real) {
    p * t <= q
  }

  /** The interval of parameters that is left while a segment is clipped. */
  class Window {
    var t0: real
    var t1: real

    constructor ()
      ensures t0 == 0.0 && t1 == 1.0
    {
      t0, t1 := 0.0, 1.0;
    }

    /** Keeps exactly the parameters t with p * t <= q; fails when none is left. */
    method Clip(p: real, q: real) returns (ok: bool)
      requires t0 <= t1
      modifies this
      ensures t0 <= t1
      ensures forall t :: Within(old(t0), old(t1), t) && HalfLine(p, q, t) <==> ok && Within(t0, t1, t)
    {
      if p == 0.0 {
        ok := q >= 0.0;
        return;
      }
      var ratio := q / p;
      RatioSplits(p, q, ratio);
      if p < 0.0 {
        if ratio > t1 {
          return false;
        }
        if ratio > t0 {
          t0 := ratio;
        }
        return true;
      }
      if ratio < t0 {
        return false;
      }
      if ratio < t1 {
        t1 := ratio;
      }
      return true;
    }
  }

  lemma RatioSplits(p: real, q: real, r: real)
    requires p != 0.0 && r == q / p
    ensures forall t :: HalfLine(p, q, t) <==> if p < 0.0 then t >= r else t <= r
  {
    assert r * p == q;
    forall t
      ensures HalfLine(p, q, t) <==> if p < 0.0 then t >= r else t <= r
    {
      assert p * t - q == p * (t - r);
      SignOfProduct(p, t - r);
    }
  }

  lemma SignOfProduct(p: real, d: real)
    requires p != 0.0
    ensures p < 0.0 ==> (p * d <= 0.0 <==> d >= 0.0)
    ensures p > 0.0 ==> (p * d <= 0.0 <==> d <= 0.0)
  {
  }

  lemma AxisClips(s: real, d: real, t: real, low: real, high: real)
    ensures low <= s + t * d <==> HalfLine(-d, s - low, t)
    ensures s + t * d <= high <==> HalfLine(d, high - s, t)
  {
    assert -d * t == -(t * d);
  }

  lemma TouchIsFourClips(start: Point, end: Point, tile: TileXY, t: real)
    ensures var dx, dy := end.x - start.x, end.y - start.y;
            TouchesAt(start, end, tile, t) <==>
            && Within(0.0, 1.0, t)
            && HalfLine(-dx, start.x - tile.x as real, t) && HalfLine(dx, tile.x as real + 1.0 - start.x, t)
            && HalfLine(-dy, start.y - tile.y as real, t) && HalfLine(dy, tile.y as real + 1.0 - start.y, t)
  {
    AxisClips(start.x, end.x - start.x, t, tile.x as real, tile.x as real + 1.0);
    AxisClips(start.y, end.y - start.y, t, tile.y as real, tile.y as real + 1.0);
  }

  /** The clipping test decides whether the segment touches the closed tile. */
  method SegmentIntersectsClosedTile(start: Point, end: Point, tile: TileXY) returns (hit: bool)
    ensures hit <==> Touches(start, end, tile)
  {
    var minX, maxX := tile.x as real, tile.x as real + 1.0;
    var minY, maxY := tile.y as real, tile.y as real + 1.0;
    var dx, dy := end.x - start.x, end.y - start.y;
    var w := new Window();
    forall t
      ensures TouchesAt(start, end, tile, t) <==>
              Within(0.0, 1.0, t) && HalfLine(-dx, start.x - minX, t) && HalfLine(dx, maxX - start.x, t)
              && HalfLine(-dy, start.y - minY, t) && HalfLine(dy, maxY - start.y, t)
    {
      TouchIsFourClips(start, end, tile, t);
    }
    hit := w.Clip(-dx, start.x - minX);
    if hit {
      hit := w.Clip(dx, maxX - start.x);
    }
    if hit {
      hit := w.Clip(-dy, start.y - minY);
    }
    if hit {
      hit := w.Clip(dy, maxY - start.y);
    }
    if hit {
      assert Within(w.t0, w.t1, w.t0);
      assert TouchesAt(start, end, tile, w.t0);
    }
  }

  function Low(a: real, b: real): real {
    if a < b then a else b
  }

  function High(a: real, b: real): real {
    if a < b then b else a
  }

  /** The first and last candidate index between two coordinates. */
  function FirstCandidate(a: real, b: real): int {
    Low(a, b).Floor - if IsGridBoundary(Low(a, b)) then 1 else 0
  }

  function LastCandidate(a: real, b: real): int {
    High(a, b).Floor
  }

  lemma NonNegativeProduct(x: real, y: real)
    requires x >= 0.0 && y >= 0.0
    ensures x * y >= 0.0
  {
  }

  /** A coordinate between two others stays between them. */
  lemma Between(a: real, b: real, t: real)
    requires 0.0 <= t <= 1.0
    ensures Low(a, b) <= a + t * (b - a) <= High(a, b)
  {
    if a <= b {
      NonNegativeProduct(t, b - a);
      NonNegativeProduct(1.0 - t, b - a);
      assert a + t * (b - a) == b - (1.0 - t) * (b - a);
    } else {
      NonNegativeProduct(t, a - b);
      NonNegativeProduct(1.0 - t, a - b);
      assert a + t * (b - a) == a - t * (a - b);
      assert a + t * (b - a) == b + (1.0 - t) * (a - b);
    }
  }

  /** Every tile column that closes around such a coordinate is a candidate:
      a coordinate on a grid line also belongs to the tile before it. */
  lemma ColumnIsCandidate(a: real, b: real, v: real, k: int)
    requires Low(a, b) <= v <= High(a, b) && k as real <= v <= k as real + 1.0
    ensures FirstCandidate(a, b) <= k <= LastCandidate(a, b)
  {
    var low := Low(a, b);
    FloorAbove(k, High(a, b));
    if k < low.Floor {
      NextLine(k, low);
      GridLineIsBoundary(k + 1);
    }
  }

  lemma FloorAbove(k: int, v: real)
    requires k as real <= v
    ensures k <= v.Floor
  {
  }

  lemma NextLine(k: int, v: real)
    requires k < v.Floor && v <= k as real + 1.0
    ensures v == (k + 1) as real && v.Floor == k + 1
  {
  }

  lemma GridLineIsBoundary(n: int)
    ensures IsGridBoundary(n as real)
  {
    assert (n as real + 0.5).Floor == n;
  }

  lemma AxisCandidate(a: real, b: real, t: real, k: int)
    requires 0.0 <= t <= 1.0 && k as real <= a + t * (b - a) <= k as real + 1.0
    ensures FirstCandidate(a, b) <= k <= LastCandidate(a, b)
  {
    Between(a, b, t);
    ColumnIsCandidate(a, b, a + t * (b - a), k);
  }

  lemma TouchedIsCandidate(start: Point, end: Point, tile: TileXY)
    requires Touches(start, end, tile)
    ensures FirstCandidate(start.x, end.x) <= tile.x <= LastCandidate(start.x, end.x)
    ensures FirstCandidate(start.y, end.y) <= tile.y <= LastCandidate(start.y, end.y)
  {
    var t :| TouchesAt(start, end, tile, t);
    AxisCandidate(start.x, end.x, t, tile.x);
    AxisCandidate(start.y, end.y, t, tile.y);
  }

  /** The polyline's first k segments touch the tile. */
  ghost predicate PolylineTouches(points: seq<Point>, k: int, tile: TileXY) {
    exists i, j :: 0 <= i < k && j == i + 1 < |points| && Touches(points[i], points[j], tile)
  }

  /** The cells of one segment, added to those found before. */
  method AddSegment(start: Point, end: Point, zoom: nat, before: set<TileXY>) returns (cells: set<TileXY>)
    ensures forall tile :: tile in cells <==> tile in before || (InGrid(tile, zoom) && Touches(start, end, tile))
  {
    cells := before;
    var minX, maxX := FirstCandidate(start.x, end.x), LastCandidate(start.x, end.x);
    var minY, maxY := FirstCandidate(start.y, end.y), LastCandidate(start.y, end.y);
    var x := minX;
    while x <= maxX
      invariant minX <= x
      invariant forall tile | tile in cells :: tile in before || (InGrid(tile, zoom) && Touches(start, end, tile))
      invariant before <= cells
      invariant forall tile | InGrid(tile, zoom) && Touches(start, end, tile) && minX <= tile.x < x ::
                  minY <= tile.y <= maxY ==> tile in cells
    {
      var y := minY;
      while y <= maxY
        invariant minY <= y
        invariant forall tile | tile in cells :: tile in before || (InGrid(tile, zoom) && Touches(start, end, tile))
        invariant before <= cells
        invariant forall tile | InGrid(tile, zoom) && Touches(start, end, tile) && minX <= tile.x < x ::
                    minY <= tile.y <= maxY ==> tile in cells
        invariant forall tile | InGrid(tile, zoom) && Touches(start, end, tile) && tile.x == x ::
                    minY <= tile.y < y ==> tile in cells
      {
        var tile := TileXY(ClampTileIndex(x, zoom), ClampTileIndex(y, zoom));
        var hit := SegmentIntersectsClosedTile(start, end, tile);
        if hit {
          cells := cells + {tile};
        }
        y := y + 1;
      }
      x := x + 1;
    }
    forall tile | InGrid(tile, zoom) && Touches(start, end, tile)
      ensures tile in cells
    {
      TouchedIsCandidate(start, end, tile);
    }
  }

  /** The cells of a polyline: exactly the tiles of the grid whose closed area
      the polyline touches. */
  method SegmentCells(points: seq<Point>, zoom: nat) returns (cells: Option<set<TileXY>>)
    ensures cells.None? <==> |points| < 2
    ensures cells.Some? ==>
              forall tile :: tile in cells.value <==> InGrid(tile, zoom) && PolylineTouches(points, |points| - 1, tile)
  {
    if |points| < 2 {
      return None;
    }
    var found: set<TileXY> := {};
    for index := 0 to |points| - 1
      invariant forall tile :: tile in found <==> InGrid(tile, zoom) && PolylineTouches(points, index, tile)
    {
      var next := index + 1;
      ghost var earlier := found;
      found := AddSegment(points[index], points[next], zoom, found);
      forall tile
        ensures PolylineTouches(points, next, tile) <==>
                PolylineTouches(points, index, tile) || Touches(points[index], points[next], tile)
      {
        OneMoreSegment(points, index, tile);
      }
    }
    return Some(found);
  }

  lemma OneMoreSegment(points: seq<Point>, k: nat, tile: TileXY)
    requires k + 1 < |points|
    ensures PolylineTouches(points, k + 1, tile) <==>
            PolylineTouches(points, k, tile) || Touches(points[k], points[k + 1], tile)
  {
    var next := k + 1;
    if PolylineTouches(points, next, tile) {
      var i, j :| 0 <= i < next && j == i + 1 < |points| && Touches(points[i], points[j], tile);
    }
    if PolylineTouches(points, k, tile) {
      var i, j :| 0 <= i < k && j == i + 1 < |points| && Touches(points[i], points[j], tile);
    } else if Touches(points[k], points[next], tile) {
      assert 0 <= k < next && next == k + 1 < |points| && Touches(points[k], points[next], tile);
    }
  }

  /** Column by column, and down each column. */
  predicate Precedes(s: TileXY, t: TileXY) {
    s.x < t.x || (s.x == t.x && s.y < t.y)
  }

  /** The cells of a query rectangle with two opposite corners, each of them
      once, column by column. */
  method BboxCells(a: Point, b: Point, zoom: nat) returns (cells: seq<TileXY>)
    ensures forall tile :: tile in cells <==> InBboxCells(a, b, zoom, tile)
    ensures forall i, j | 0 <= i < j < |cells| :: Precedes(cells[i], cells[j])
  {
    var minX, maxX := ClampTileIndex(Low(a.x, b.x).Floor, zoom), ClampTileIndex(High(a.x, b.x).Floor, zoom);
    var minY, maxY := ClampTileIndex(Low(a.y, b.y).Floor, zoom), ClampTileIndex(High(a.y, b.y).Floor, zoom);
    cells := [];
    for x := minX to maxX + 1
      invariant forall tile :: tile in cells <==> minX <= tile.x < x && minY <= tile.y <= maxY
      invariant forall i, j | 0 <= i < j < |cells| :: Precedes(cells[i], cells[j])
    {
      for y := minY to maxY + 1
        invariant forall tile :: tile in cells <==>
                                 (minX <= tile.x < x && minY <= tile.y <= maxY) || (tile.x == x && minY <= tile.y < y)
        invariant forall i, j | 0 <= i < j < |cells| :: Precedes(cells[i], cells[j])
      {
        cells := cells + [TileXY(x, y)];
      }
    }
  }

  predicate InBboxCells(a: Point, b: Point, zoom: nat, tile: TileXY) {
    && ClampTileIndex(Low(a.x, b.x).Floor, zoom) <= tile.x <= ClampTileIndex(High(a.x, b.x).Floor, zoom)
    && ClampTileIndex(Low(a.y, b.y).Floor, zoom) <= tile.y <= ClampTileIndex(High(a.y, b.y).Floor, zoom)
  }

  /** The cells of a rectangle are the tiles of the grid that hold a point of
      it, the last row or column also for what lies behind the grid, and the
      first for what lies before it. */
  lemma BboxCellsAre(a: Point, b: Point, zoom: nat, tile: TileXY)
    ensures InBboxCells(a, b, zoom, tile) <==>
            var last := Hilbert.Pow2(zoom) - 1;
            && 0 <= tile.x <= last && 0 <= tile.y <= last
            && (tile.x == 0 || tile.x as real <= a.x || tile.x as real <= b.x)
            && (tile.x == last || a.x < tile.x as real + 1.0 || b.x < tile.x as real + 1.0)
            && (tile.y == 0 || tile.y as real <= a.y || tile.y as real <= b.y)
            && (tile.y == last || a.y < tile.y as real + 1.0 || b.y < tile.y as real + 1.0)
  {
    ClampedBounds(a.x, b.x, zoom, tile.x);
    ClampedBounds(a.y, b.y, zoom, tile.y);
  }

  lemma ClampedBounds(a: real, b: real, zoom: nat, k: int)
    ensures ClampTileIndex(Low(a, b).Floor, zoom) <= k <= ClampTileIndex(High(a, b).Floor, zoom) <==>
            var last := Hilbert.Pow2(zoom) - 1;
            && 0 <= k <= last
            && (k == 0 || k as real <= a || k as real <= b)
            && (k == last || a < k as real + 1.0 || b < k as real + 1.0)
  {
    assert k <= High(a, b).Floor <==> k as real <= High(a, b);
    assert Low(a, b).Floor <= k <==> Low(a, b) < k as real + 1.0;
  }

  predicate InRectangle(a: Point, b: Point, x: real, y: real) {
    Low(a.x, b.x) <= x <= High(a.x, b.x) && Low(a.y, b.y) <= y <= High(a.y, b.y)
  }

  /** A coordinate of the grid, its last line included. */
  predicate OnGrid(v: real, zoom: nat) {
    0.0 <= v <= MaxIndex(zoom) as real + 1.0
  }

  /** The clamped floor is a tile that closes around a grid coordinate, and
      between the clamped floors of its bounds. */
  lemma ClampedFloor(low: real, v: real, high: real, zoom: nat)
    requires low <= v <= high && OnGrid(v, zoom)
    ensures var k := ClampTileIndex(v.Floor, zoom);
            && ClampTileIndex(low.Floor, zoom) <= k <= ClampTileIndex(high.Floor, zoom)
            && k as real <= v <= k as real + 1.0
  {
  }

  /** The prefilter loses nothing: a polyline that meets a query rectangle
      inside the grid shares a cell with it. */
  lemma PrefilterComplete(points: seq<Point>, zoom: nat, a: Point, b: Point, i: nat, t: real)
    requires i + 1 < |points| && 0.0 <= t <= 1.0
    requires var x, y := AtX(points[i], points[i + 1], t), AtY(points[i], points[i + 1], t);
             OnGrid(x, zoom) && OnGrid(y, zoom) && InRectangle(a, b, x, y)
    ensures exists tile :: InBboxCells(a, b, zoom, tile) && InGrid(tile, zoom)
                           && PolylineTouches(points, |points| - 1, tile)
  {
    var j := i + 1;
    var x, y := AtX(points[i], points[j], t), AtY(points[i], points[j], t);
    ClampedFloor(Low(a.x, b.x), x, High(a.x, b.x), zoom);
    ClampedFloor(Low(a.y, b.y), y, High(a.y, b.y), zoom);
    var tile := TileXY(ClampTileIndex(x.Floor, zoom), ClampTileIndex(y.Floor, zoom));
    assert TouchesAt(points[i], points[j], tile, t);
    assert Touches(points[i], points[j], tile);
    assert InBboxCells(a, b, zoom, tile);
  }

  ghost predicate PassesThrough(points: seq<Point>, x: real, y: real) {
    exists i, j, t {:trigger AtX(points[i], points[j], t)} ::
      0 <= i && j == i + 1 < |points| && 0.0 <= t <= 1.0
      && AtX(points[i], points[j], t) == x && AtY(points[i], points[j], t) == y
  }

  /** A tile is touched exactly where the polyline passes through it. */
  lemma TouchesIffPasses(points: seq<Point>, tile: TileXY)
    ensures PolylineTouches(points, |points| - 1, tile)
            <==> exists x, y :: PassesThrough(points, x, y) && InClosedTile(x, y, tile)
  {
    if PolylineTouches(points, |points| - 1, tile) {
      var i, j :| 0 <= i < |points| - 1 && j == i + 1 < |points| && Touches(points[i], points[j], tile);
      var t :| TouchesAt(points[i], points[j], tile, t);
      assert PassesThrough(points, AtX(points[i], points[j], t), AtY(points[i], points[j], t));
    }
    if x, y :| PassesThrough(points, x, y) && InClosedTile(x, y, tile) {
      var i, j, t :| 0 <= i && j == i + 1 < |points| && 0.0 <= t <= 1.0
                     && AtX(points[i], points[j], t) == x && AtY(points[i], points[j], t) == y;
      assert TouchesAt(points[i], points[j], tile, t);
    }
  }

  /** Some index between two lies at a coordinate, exactly when the closed tiles
      of all of them cover it. */
  predicate Covers(first: int, last: int, v: real) {
    first as real <= v <= last as real + 1.0
  }

  lemma CoveringIndex(first: int, last: int, v: real) returns (k: int)
    requires first <= last && Covers(first, last, v)
    ensures first <= k <= last && k as real <= v <= k as real + 1.0
  {
    k := if v.Floor > last then last else v.Floor;
  }

  /** The polyline gets no cells at all exactly when it never meets the grid. */
  lemma NoCellsIffOffGrid(points: seq<Point>, zoom: nat)
    ensures (forall tile | InGrid(tile, zoom) :: !PolylineTouches(points, |points| - 1, tile))
            <==> forall x, y | PassesThrough(points, x, y) :: !(OnGrid(x, zoom) && OnGrid(y, zoom))
  {
    forall tile {:trigger PolylineTouches(points, |points| - 1, tile)}
      ensures PolylineTouches(points, |points| - 1, tile)
              <==> exists x, y :: PassesThrough(points, x, y) && InClosedTile(x, y, tile)
    {
      TouchesIffPasses(points, tile);
    }
    forall x, y | PassesThrough(points, x, y) && OnGrid(x, zoom) && OnGrid(y, zoom)
      ensures exists tile :: InGrid(tile, zoom) && InClosedTile(x, y, tile)
    {
      var i := CoveringIndex(0, MaxIndex(zoom), x);
      var j := CoveringIndex(0, MaxIndex(zoom), y);
      assert InGrid(TileXY(i, j), zoom) && InClosedTile(x, y, TileXY(i, j));
    }
  }

  /** The region that the cells of a query rectangle cover. */
  predicate InCoveredRegion(a: Point, b: Point, zoom: nat, x: real, y: real) {
    && Covers(ClampTileIndex(Low(a.x, b.x).Floor, zoom), ClampTileIndex(High(a.x, b.x).Floor, zoom), x)
    && Covers(ClampTileIndex(Low(a.y, b.y).Floor, zoom), ClampTileIndex(High(a.y, b.y).Floor, zoom), y)
  }

  /** Polyline and rectangle share a cell exactly when the polyline passes
      through the region that the rectangle's cells cover. */
  lemma SharesCellIff(points: seq<Point>, zoom: nat, a: Point, b: Point)
    ensures (exists tile :: InBboxCells(a, b, zoom, tile) && PolylineTouches(points, |points| - 1, tile))
            <==> exists x, y :: PassesThrough(points, x, y) && InCoveredRegion(a, b, zoom, x, y)
  {
    if tile :| InBboxCells(a, b, zoom, tile) && PolylineTouches(points, |points| - 1, tile) {
      TouchesIffPasses(points, tile);
      var x, y :| PassesThrough(points, x, y) && InClosedTile(x, y, tile);
      assert InCoveredRegion(a, b, zoom, x, y);
    }
    if x, y :| PassesThrough(points, x, y) && InCoveredRegion(a, b, zoom, x, y) {
      var i := CoveringIndex(
        ClampTileIndex(Low(a.x, b.x).Floor, zoom), ClampTileIndex(High(a.x, b.x).Floor, zoom), x);
      var j := CoveringIndex(
        ClampTileIndex(Low(a.y, b.y).Floor, zoom), ClampTileIndex(High(a.y, b.y).Floor, zoom), y);
      assert InBboxCells(a, b, zoom, TileXY(i, j)) && InClosedTile(x, y, TileXY(i, j));
      TouchesIffPasses(points, TileXY(i, j));
    }
  }

  const DEFAULT_ZOOM: nat := 14

  /** At zoom 14 the highest accepted latitude, 85.05112878 degrees, lies about
      1.02e-7 tiles above the grid. */
  const NORTH_LIMIT := -0.000000102

  /** A polyline along a latitude between the grid's edge and the accepted limit
      has no cells, though a rectangle around it has cells of the first row. */
  lemma NorthEdgeMissed(west: real, east: real, y: real, south: real)
    requires NORTH_LIMIT <= y < 0.0 && 0.0 <= west < east && y <= south < 1.0
    ensures var points := [Point(west, y), Point(east, y)];
            && (forall tile | InGrid(tile, DEFAULT_ZOOM) :: !PolylineTouches(points, 1, tile))
            && PassesThrough(points, west, y)
            && InRectangle(Point(west, y), Point(east, south), west, y)
            && InBboxCells(Point(west, y), Point(east, south), DEFAULT_ZOOM,
                           TileXY(ClampTileIndex(west.Floor, DEFAULT_ZOOM), 0))
  {
    var points := [Point(west, y), Point(east, y)];
    assert AtX(points[0], points[1], 0.0) == west && AtY(points[0], points[1], 0.0) == y;
    forall u, v | PassesThrough(points, u, v)
      ensures v == y
    {
    }
    NoCellsIffOffGrid(points, DEFAULT_ZOOM);
  }
}
