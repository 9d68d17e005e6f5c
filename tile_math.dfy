/** The isometric arithmetic of the tile map (MapManager.cpp): the map
    position of a tile's anchor, and the tile subscript of a map position.
    Map positions are in the tile map's node space. */
module TileMath {
  import opened Common
  import opened Geometry

  /** Map size in tiles and tile size in map units. */
  datatype MapShape = MapShape(width: int, height: int, tileWidth: real, tileHeight: real)

  predicate ValidShape(s: MapShape) {
    s.width >= 1 && s.height >= 1 && s.tileWidth > 0.0 && s.tileHeight > 0.0
  }

  predicate InMap(s: MapShape, c: Cell) {
    0 <= c.col < s.width && 0 <= c.row < s.height
  }

  /** std::min(hi, std::max(lo, x)) */
  function ClampReal(lo: real, hi: real, x: real): real {
    var y := if lo >= x then lo else x;
    if hi <= y then hi else y
  }

  /** Column coordinate of a map position before clamping and flooring. */
  function RawColumn(s: MapShape, p: Vec2): real
    requires ValidShape(s)
  {
    (s.height as real - p.y / s.tileHeight) + (p.x / s.tileWidth - s.width as real / 2.0)
  }

  /** Row coordinate of a map position before clamping and flooring. */
  function RawRow(s: MapShape, p: Vec2): real
    requires ValidShape(s)
  {
    (s.height as real - p.y / s.tileHeight) - (p.x / s.tileWidth - s.width as real / 2.0)
  }

  /** getTileSubscript: clamp each raw coordinate to the table, then floor.
      Every map position, on the map or not, gets a cell of the table;
      inside the table the raw coordinate is only floored, outside it is
      pulled to the nearest edge. */
  function TileSubscript(s: MapShape, p: Vec2): (c: Cell)
    requires ValidShape(s)
    ensures InMap(s, c)
    ensures 0.0 <= RawColumn(s, p) <= (s.width - 1) as real ==> c.col == RawColumn(s, p).Floor
    ensures RawColumn(s, p) < 0.0 ==> c.col == 0
    ensures RawColumn(s, p) > (s.width - 1) as real ==> c.col == s.width - 1
    ensures 0.0 <= RawRow(s, p) <= (s.height - 1) as real ==> c.row == RawRow(s, p).Floor
    ensures RawRow(s, p) < 0.0 ==> c.row == 0
    ensures RawRow(s, p) > (s.height - 1) as real ==> c.row == s.height - 1
  {
    var x := ClampReal(0.0, (s.width - 1) as real, RawColumn(s, p));
    var y := ClampReal(0.0, (s.height - 1) as real, RawRow(s, p));
    Cell(x.Floor, y.Floor)
  }

  /** The anchor (leftTopPosition) that initTileNodeTable stores for a cell. */
  function LeftTopPosition(s: MapShape, c: Cell): Vec2 {
    Vec2(((c.col - c.row) as real / 2.0 + s.width as real / 2.0) * s.tileWidth,
         (s.height as real - (c.col + c.row) as real / 2.0) * s.tileHeight)
  }

  /** The raw coordinates of a cell's anchor are the cell's own subscripts. */
  lemma RawOfLeftTop(s: MapShape, c: Cell)
    requires ValidShape(s)
    ensures RawColumn(s, LeftTopPosition(s, c)) == c.col as real
    ensures RawRow(s, LeftTopPosition(s, c)) == c.row as real
  {
    var p := LeftTopPosition(s, c);
    var a := (c.col - c.row) as real / 2.0 + s.width as real / 2.0;
    var b := s.height as real - (c.col + c.row) as real / 2.0;
    assert p.x / s.tileWidth == a;
    assert p.y / s.tileHeight == b;
  }

  /** Round trip: the subscript of a cell's anchor is the cell. */
  lemma RoundTrip(s: MapShape, c: Cell)
    requires ValidShape(s) && InMap(s, c)
    ensures TileSubscript(s, LeftTopPosition(s, c)) == c
  {
    RawOfLeftTop(s, c);
  }

  /** Distinct cells of the table have distinct anchors. */
  lemma LeftTopInjective(s: MapShape, c: Cell, d: Cell)
    requires ValidShape(s) && InMap(s, c) && InMap(s, d)
    requires LeftTopPosition(s, c) == LeftTopPosition(s, d)
    ensures c == d
  {
    RoundTrip(s, c);
    RoundTrip(s, d);
  }

  /** The offset of grid (i, j) from the first grid of a footprint block:
      i steps of half a tile down-left and j steps of half a tile down-right
      (Building.cpp, initBottomGridSprites). */
  function GridOffset(s: MapShape, i: int, j: int): Vec2 {
    Vec2((j - i) as real * s.tileWidth / 2.0, -((i + j) as real) * s.tileHeight / 2.0)
  }

  /** Moving by GridOffset(i, j) moves the raw subscript by j columns and
      i rows. */
  lemma GridOffsetShiftsRaw(s: MapShape, p: Vec2, i: int, j: int)
    requires ValidShape(s)
    ensures RawColumn(s, Add(p, GridOffset(s, i, j))) == RawColumn(s, p) + j as real
    ensures RawRow(s, Add(p, GridOffset(s, i, j))) == RawRow(s, p) + i as real
  {
    var o := GridOffset(s, i, j);
    assert o.x / s.tileWidth == (j - i) as real / 2.0;
    assert o.y / s.tileHeight == -((i + j) as real) / 2.0;
    assert (p.x + o.x) / s.tileWidth == p.x / s.tileWidth + o.x / s.tileWidth;
    assert (p.y + o.y) / s.tileHeight == p.y / s.tileHeight + o.y / s.tileHeight;
  }

  /** When a whole block lies inside the table, grid (i, j) of it falls in
      the tile j columns right of and i rows below the tile of grid (0, 0),
      so the nine grids of a 3x3 footprint cover nine different tiles. */
  lemma GridOffsetShiftsTile(s: MapShape, p: Vec2, i: int, j: int)
    requires ValidShape(s) && 0 <= i && 0 <= j
    requires 0.0 <= RawColumn(s, p) && RawColumn(s, p) + j as real <= (s.width - 1) as real
    requires 0.0 <= RawRow(s, p) && RawRow(s, p) + i as real <= (s.height - 1) as real
    ensures TileSubscript(s, Add(p, GridOffset(s, i, j)))
         == Cell(TileSubscript(s, p).col + j, TileSubscript(s, p).row + i)
  {
    GridOffsetShiftsRaw(s, p, i, j);
    var x := RawColumn(s, p);
    var y := RawRow(s, p);
    assert (x + j as real).Floor == x.Floor + j;
    assert (y + i as real).Floor == y.Floor + i;
  }
}
