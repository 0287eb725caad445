/** The visible-tile computation of `TileManager.get_tile_coordinates`
    (wsi_viewer.py): the view rectangle, in level-local pixels, is floor-divided by
    the tile edge, clipped to the level's tile grid and enumerated row by row. */
module TileGrid {
  import opened Seqs

  /** `TileManager.__init__` default tile edge. */
  const DefaultTileSize: int := 512

  /** A view rectangle in level-local pixel coordinates (a `QRectF`: real coordinates). */
  datatype ViewRect = ViewRect(x: real, y: real, width: real, height: real)

  /** A tile index (column, row). */
  type Tile = (int, int)

  function Max(a: int, b: int): int { if a < b then b else a }
  function Min(a: int, b: int): int { if a < b then a else b }

  /** Python `int(v // tile_size)` on a float: the floor of the quotient. */
  function FloorDiv(v: real, tileSize: int): (q: int)
    requires tileSize > 0
    ensures (q * tileSize) as real <= v < ((q + 1) * tileSize) as real
  {
    var d := tileSize as real;
    var q := (v / d).Floor;
    assert q as real <= v / d < q as real + 1.0;
    FloorBounds(v, d, q);
    q
  }

  /** The index of a coordinate's tile: `q <= v / d < q + 1` scaled by the edge. */
  lemma FloorBounds(v: real, d: real, q: int)
    requires d > 0.0 && q as real <= v / d < q as real + 1.0
    ensures q as real * d <= v < (q as real + 1.0) * d
  {
    var x := v / d;
    var lo, hi := q as real, q as real + 1.0;
    assert v == x * d;
    PositiveProduct(x - lo, d);
    PositiveProduct(hi - x, d);
    assert (x - lo) * d == x * d - lo * d;
    assert (hi - x) * d == hi * d - x * d;
    assert hi - x > 0.0;
    assert (hi - x) * d > 0.0;
    assert hi * d > x * d;
    assert hi * d > v;
  }

  lemma PositiveProduct(a: real, d: real)
    requires d > 0.0
    ensures a >= 0.0 ==> a * d >= 0.0
    ensures a > 0.0 ==> a * d > 0.0
  {
  }

  /** First tile index along one axis: `max(0, int(v // tile_size))`. */
  function StartIndex(v: real, tileSize: int): int
    requires tileSize > 0
  {
    Max(0, FloorDiv(v, tileSize))
  }

  /** One past the last tile index along one axis:
      `min(level_extent // tile_size, int((v + extent) // tile_size) + 1)`.
      Only whole tiles of the level count, so a partial tile at the far edge is left out. */
  function EndIndex(levelExtent: int, v: real, extent: real, tileSize: int): int
    requires tileSize > 0
  {
    Min(levelExtent / tileSize, FloorDiv(v + extent, tileSize) + 1)
  }

  /** Tile `a` is enumerated before tile `b`: rows outer, columns inner. */
  predicate RowMajorBefore(a: Tile, b: Tile) {
    a.1 < b.1 || (a.1 == b.1 && a.0 < b.0)
  }

  /** Number of indices in `[lo, hi)`. */
  function Span(lo: int, hi: int): nat { if lo < hi then hi - lo else 0 }

  /** The tiles of level `levelSize` that `view` shows: exactly the indices in
      `[StartIndex, EndIndex)` on both axes, each once, in row-major order. */
  method TileCoordinates(levelSize: (int, int), view: ViewRect, tileSize: int) returns (tiles: seq<Tile>)
    requires tileSize > 0
    ensures forall t :: t in tiles <==>
      && StartIndex(view.x, tileSize) <= t.0 < EndIndex(levelSize.0, view.x, view.width, tileSize)
      && StartIndex(view.y, tileSize) <= t.1 < EndIndex(levelSize.1, view.y, view.height, tileSize)
    ensures forall i, j :: 0 <= i < j < |tiles| ==> RowMajorBefore(tiles[i], tiles[j])
    ensures Distinct(tiles)
    ensures |tiles| == Span(StartIndex(view.x, tileSize), EndIndex(levelSize.0, view.x, view.width, tileSize))
                     * Span(StartIndex(view.y, tileSize), EndIndex(levelSize.1, view.y, view.height, tileSize))
    ensures tiles == [] <==>
      || EndIndex(levelSize.0, view.x, view.width, tileSize) <= StartIndex(view.x, tileSize)
      || EndIndex(levelSize.1, view.y, view.height, tileSize) <= StartIndex(view.y, tileSize)
  {
    var startX := StartIndex(view.x, tileSize);
    var startY := StartIndex(view.y, tileSize);
    var endX := EndIndex(levelSize.0, view.x, view.width, tileSize);
    var endY := EndIndex(levelSize.1, view.y, view.height, tileSize);
    tiles := Enumerate(startX, endX, startY, endY);
  }

  /** The two nested `for` loops over `range(start_y, end_y)` and `range(start_x, end_x)`. */
  method Enumerate(startX: int, endX: int, startY: int, endY: int) returns (tiles: seq<Tile>)
    ensures forall t :: t in tiles <==> startX <= t.0 < endX && startY <= t.1 < endY
    ensures forall i, j :: 0 <= i < j < |tiles| ==> RowMajorBefore(tiles[i], tiles[j])
    ensures Distinct(tiles)
    ensures |tiles| == Span(startX, endX) * Span(startY, endY)
    ensures tiles == [] <==> endX <= startX || endY <= startY
  {
    tiles := [];
    var y := startY;
    while y < endY
      invariant startY <= y <= Max(startY, endY)
      invariant forall t :: t in tiles <==> startX <= t.0 < endX && startY <= t.1 < y
      invariant forall i, j :: 0 <= i < j < |tiles| ==> RowMajorBefore(tiles[i], tiles[j])
      invariant forall i :: 0 <= i < |tiles| ==> tiles[i].1 < y
      invariant |tiles| == Span(startX, endX) * (y - startY)
    {
      tiles := AppendRow(tiles, startX, endX, y);
      NextRowCount(Span(startX, endX), y - startY);
      y := y + 1;
    }
    forall i, j | 0 <= i < j < |tiles| ensures tiles[i] != tiles[j] {
      assert RowMajorBefore(tiles[i], tiles[j]);
    }
    if startX < endX && startY < endY {
      assert (startX, startY) in tiles;
    }
  }

  /** One more row of `w` tiles. */
  lemma NextRowCount(w: int, rows: int)
    ensures w * rows + w == w * (rows + 1)
  {
  }

  /** The inner loop: appends row `y`, columns `startX` up to `endX`, in order, behind
      the rows already listed. */
  method AppendRow(tiles: seq<Tile>, startX: int, endX: int, y: int) returns (r: seq<Tile>)
    requires forall i, j :: 0 <= i < j < |tiles| ==> RowMajorBefore(tiles[i], tiles[j])
    requires forall i :: 0 <= i < |tiles| ==> tiles[i].1 < y
    ensures forall t :: t in r <==> t in tiles || (t.1 == y && startX <= t.0 < endX)
    ensures forall i, j :: 0 <= i < j < |r| ==> RowMajorBefore(r[i], r[j])
    ensures forall i :: 0 <= i < |r| ==> r[i].1 <= y
    ensures |r| == |tiles| + Span(startX, endX)
  {
    r := tiles;
    var x := startX;
    while x < endX
      invariant startX <= x <= Max(startX, endX)
      invariant forall t :: t in r <==> t in tiles || (t.1 == y && startX <= t.0 < x)
      invariant forall i, j :: 0 <= i < j < |r| ==> RowMajorBefore(r[i], r[j])
      invariant forall i :: 0 <= i < |r| ==> RowMajorBefore(r[i], (x, y))
      invariant |r| == |tiles| + (x - startX)
    {
      r := r + [(x, y)];
      x := x + 1;
    }
  }

  /** Dividing by a positive edge preserves the order of coordinates. */
  lemma QuotientMonotone(a: real, b: real, d: real)
    requires d > 0.0 && a <= b
    ensures a / d <= b / d
  {
    assert b / d - a / d == (b - a) / d;
  }

  /** Flooring the quotient by a positive edge is monotone. */
  lemma FloorDivMonotone(a: real, b: real, tileSize: int)
    requires tileSize > 0 && a <= b
    ensures FloorDiv(a, tileSize) <= FloorDiv(b, tileSize)
  {
    QuotientMonotone(a, b, tileSize as real);
  }

  /** A coordinate below `q` whole edges has a tile index below `q`. */
  lemma FloorDivBelowMultiple(p: real, q: int, tileSize: int)
    requires tileSize > 0 && p < (q * tileSize) as real
    ensures FloorDiv(p, tileSize) < q
  {
    var d := tileSize as real;
    assert (q * tileSize) as real == q as real * d;
    assert p / d < q as real by {
      assert (q as real * d) / d == q as real;
      QuotientMonotone(p, q as real * d, d);
      assert p / d != q as real;
    }
  }

  /** Coverage inside the whole-tile part of the level: a point that the view spans and
      that lies in a complete tile of the level belongs to an enumerated tile. */
  lemma PixelCovered(levelExtent: int, v: real, extent: real, tileSize: int, p: real)
    requires tileSize > 0
    requires v <= p <= v + extent
    requires 0.0 <= p < ((levelExtent / tileSize) * tileSize) as real
    ensures StartIndex(v, tileSize) <= FloorDiv(p, tileSize) < EndIndex(levelExtent, v, extent, tileSize)
  {
    FloorDivMonotone(v, p, tileSize);
    FloorDivMonotone(p, v + extent, tileSize);
    FloorDivMonotone(0.0, p, tileSize);
    FloorDivBelowMultiple(p, levelExtent / tileSize, tileSize);
  }

  /** The clip keeps only whole tiles: on a 1000-pixel-wide level with 512-pixel tiles a
      view of the full width lists column 0 alone, so pixel 600, which the level has,
      lies in no listed tile. */
  lemma PartialEdgeTileDropped()
    ensures EndIndex(1000, 0.0, 1000.0, DefaultTileSize) == 1
    ensures FloorDiv(600.0, DefaultTileSize) == 1 && 600 < 1000
  {
  }
}
