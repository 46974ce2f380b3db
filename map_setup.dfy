/**
 * Room construction on the later map: `create_room` runs a fill pass over the
 * rectangle and then overwrites its four edges; `set_krill_theater_lineup`
 * retags the zone of one Ground tile.
 */
module MapSetup {
  import opened World
  import Physics

  predicate InRect(bottomLeft: Position, topRight: Position, x: int, y: int)
  {
    bottomLeft.x <= x <= topRight.x && bottomLeft.y <= y <= topRight.y
  }

  /**
   * The cells the border loops write: the columns x = bottomLeft.x and
   * x = topRight.x over the y range, and the rows y = bottomLeft.y and
   * y = topRight.y over the x range. For an inverted rectangle one of the two
   * ranges is empty while the other loop still writes its two lines.
   */
  predicate OnBorder(bottomLeft: Position, topRight: Position, x: int, y: int)
  {
    || (bottomLeft.y <= y <= topRight.y && (x == bottomLeft.x || x == topRight.x))
    || (bottomLeft.x <= x <= topRight.x && (y == bottomLeft.y || y == topRight.y))
  }

  /** A cell after the fill pass. */
  function Filled(bottomLeft: Position, topRight: Position, place: Tile -> Tile, t: Tile, x: int, y: int): Tile
  {
    if InRect(bottomLeft, topRight, x, y) then place(t) else t
  }

  /** A cell after `create_room`. */
  function RoomCell(bottomLeft: Position, topRight: Position, border: Tile, place: Tile -> Tile, t: Tile, x: int, y: int): Tile
  {
    if OnBorder(bottomLeft, topRight, x, y) then border else Filled(bottomLeft, topRight, place, t, x, y)
  }

  /** For an upright rectangle the four edges lie inside it and nothing outside changes. */
  lemma {:induction false} UprightRoomStaysInside(bottomLeft: Position, topRight: Position, border: Tile,
                                                  place: Tile -> Tile, t: Tile, x: int, y: int)
    requires bottomLeft.x <= topRight.x && bottomLeft.y <= topRight.y
    ensures OnBorder(bottomLeft, topRight, x, y) ==> InRect(bottomLeft, topRight, x, y)
    ensures !InRect(bottomLeft, topRight, x, y) ==> RoomCell(bottomLeft, topRight, border, place, t, x, y) == t
    ensures InRect(bottomLeft, topRight, x, y) ==>
      RoomCell(bottomLeft, topRight, border, place, t, x, y) ==
        if x == bottomLeft.x || x == topRight.x || y == bottomLeft.y || y == topRight.y then border else place(t)
  {
  }

  /** An inverted rectangle (left of right, but rows upright) still gets its two columns written. */
  lemma InvertedRoomWritesColumns(place: Tile -> Tile, t: Tile)
    ensures RoomCell(Physics.Position(5, 0), Physics.Position(3, 2), Wall, place, t, 5, 1) == Wall
    ensures !InRect(Physics.Position(5, 0), Physics.Position(3, 2), 5, 1)
  {
  }

  /** The fill pass: `place_tile` on every in-map cell of the rectangle, row by row. */
  method FillRect(grid: Map, bottomLeft: Position, topRight: Position, place: Tile -> Tile)
    modifies grid.cells
    ensures forall i, j :: 0 <= i < grid.cells.Length0 && 0 <= j < grid.cells.Length1 ==>
      grid.cells[i, j] == Filled(bottomLeft, topRight, place, old(grid.cells[i, j]), i, j)
  {
    var cells := grid.cells;
    var y := bottomLeft.y;
    while y <= topRight.y
      invariant bottomLeft.y <= y && (y <= topRight.y + 1 || y == bottomLeft.y)
      invariant forall i, j :: 0 <= i < cells.Length0 && 0 <= j < cells.Length1 ==>
        cells[i, j] == if bottomLeft.x <= i <= topRight.x && bottomLeft.y <= j < y then place(old(cells[i, j])) else old(cells[i, j])
    {
      var x := bottomLeft.x;
      while x <= topRight.x
        invariant bottomLeft.x <= x && (x <= topRight.x + 1 || x == bottomLeft.x)
        invariant forall i, j :: 0 <= i < cells.Length0 && 0 <= j < cells.Length1 ==>
          cells[i, j] == if (bottomLeft.x <= i <= topRight.x && bottomLeft.y <= j < y) || (bottomLeft.x <= i < x && j == y)
                         then place(old(cells[i, j])) else old(cells[i, j])
      {
        if 0 <= x < cells.Length0 && 0 <= y < cells.Length1 {
          cells[x, y] := place(cells[x, y]);
        }
        x := x + 1;
      }
      y := y + 1;
    }
  }

  /** The first border loop: the two columns over the y range. */
  method BorderColumns(grid: Map, bottomLeft: Position, topRight: Position, border: Tile)
    modifies grid.cells
    ensures forall i, j :: 0 <= i < grid.cells.Length0 && 0 <= j < grid.cells.Length1 ==>
      grid.cells[i, j] == if bottomLeft.y <= j <= topRight.y && (i == bottomLeft.x || i == topRight.x) then border else old(grid.cells[i, j])
  {
    var cells := grid.cells;
    var y := bottomLeft.y;
    while y <= topRight.y
      invariant bottomLeft.y <= y && (y <= topRight.y + 1 || y == bottomLeft.y)
      invariant forall i, j :: 0 <= i < cells.Length0 && 0 <= j < cells.Length1 ==>
        cells[i, j] == if bottomLeft.y <= j < y && (i == bottomLeft.x || i == topRight.x) then border else old(cells[i, j])
    {
      if 0 <= bottomLeft.x < cells.Length0 && 0 <= y < cells.Length1 {
        cells[bottomLeft.x, y] := border;
      }
      if 0 <= topRight.x < cells.Length0 && 0 <= y < cells.Length1 {
        cells[topRight.x, y] := border;
      }
      y := y + 1;
    }
  }

  /** The second border loop: the two rows over the x range. */
  method BorderRows(grid: Map, bottomLeft: Position, topRight: Position, border: Tile)
    modifies grid.cells
    ensures forall i, j :: 0 <= i < grid.cells.Length0 && 0 <= j < grid.cells.Length1 ==>
      grid.cells[i, j] == if bottomLeft.x <= i <= topRight.x && (j == bottomLeft.y || j == topRight.y) then border else old(grid.cells[i, j])
  {
    var cells := grid.cells;
    var x := bottomLeft.x;
    while x <= topRight.x
      invariant bottomLeft.x <= x && (x <= topRight.x + 1 || x == bottomLeft.x)
      invariant forall i, j :: 0 <= i < cells.Length0 && 0 <= j < cells.Length1 ==>
        cells[i, j] == if bottomLeft.x <= i < x && (j == bottomLeft.y || j == topRight.y) then border else old(cells[i, j])
    {
      if 0 <= x < cells.Length0 && 0 <= bottomLeft.y < cells.Length1 {
        cells[x, bottomLeft.y] := border;
      }
      if 0 <= x < cells.Length0 && 0 <= topRight.y < cells.Length1 {
        cells[x, topRight.y] := border;
      }
      x := x + 1;
    }
  }

  /**
   * `create_room`: fill, then borders. Cells off the map are skipped; every
   * in-map cell ends as RoomCell of its old tile.
   */
  method CreateRoom(grid: Map, bottomLeft: Position, topRight: Position, border: Tile, place: Tile -> Tile)
    modifies grid.cells
    ensures forall i, j :: 0 <= i < grid.cells.Length0 && 0 <= j < grid.cells.Length1 ==>
      grid.cells[i, j] == RoomCell(bottomLeft, topRight, border, place, old(grid.cells[i, j]), i, j)
  {
    FillRect(grid, bottomLeft, topRight, place);
    BorderColumns(grid, bottomLeft, topRight, border);
    BorderRows(grid, bottomLeft, topRight, border);
  }

  /** The zone `set_krill_theater_lineup` writes at (x, y). */
  function LineUpZone(x: int, y: int, queueTarget: Position, isKrillExit: Position -> bool): (z: Zone)
    ensures z.KrillTheater?
    ensures z.zone.Exit? <==> isKrillExit(Physics.Position(x, y))
    ensures !z.zone.Exit? ==> z.zone == LineUp(queueTarget)
  {
    KrillTheater(if isKrillExit(Physics.Position(x, y)) then Exit else LineUp(queueTarget))
  }

  /**
   * `set_krill_theater_lineup`: a Ground tile at (x, y) gets the exit or
   * line-up zone and keeps its occupier; any other tile, and every other
   * cell, is left as it was. `is_krill_exit` is a parameter.
   */
  method SetKrillTheaterLineup(grid: Map, x: nat, y: nat, queueTarget: Position, isKrillExit: Position -> bool)
    modifies grid.cells
    ensures forall i, j :: 0 <= i < grid.cells.Length0 && 0 <= j < grid.cells.Length1 && (i != x || j != y) ==>
      grid.cells[i, j] == old(grid.cells[i, j])
    ensures grid.Get(x, y).Some? ==>
      (grid.cells[x, y] ==
         if old(grid.cells[x, y]).Ground?
         then Ground(old(grid.cells[x, y]).occupier, LineUpZone(x, y, queueTarget, isKrillExit))
         else old(grid.cells[x, y]))
  {
    if x < grid.cells.Length0 && y < grid.cells.Length1 {
      var tile := grid.cells[x, y];
      if tile.Ground? {
        grid.cells[x, y] := Ground(tile.occupier, LineUpZone(x, y, queueTarget, isKrillExit));
      }
    }
  }
}
