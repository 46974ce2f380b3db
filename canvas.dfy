/**
 * The map canvas of the terminal client: where the camera starts on each
 * axis, and the rows of characters it draws from that start. Screen row 0
 * is the top row of the map (y grows upward on the map). The two cells the
 * camera keeps in reserve (`OFFSET`) are the widget's border.
 */
module Canvas {
  import opened Wrappers
  import opened World

  const Offset: nat := 2

  function Min(a: int, b: int): int
  {
    if a <= b then a else b
  }

  /**
   * `get_center_coordinate` on `usize`: the first map index the camera shows.
   * The callers pass a map strictly larger than the screen; `map - target`
   * underflows (a panic) when the target is past the map's end and the
   * camera is clamped, which the second requires excludes.
   */
  function GetCenterCoordinate(mapSize: nat, screenSize: nat, target: nat): (r: nat)
    requires screenSize <= mapSize
    requires target >= mapSize - screenSize + Offset ==> target <= mapSize
    ensures r <= mapSize - screenSize + Offset
    ensures target >= mapSize - screenSize + Offset ==>
      r == Min(if mapSize - target <= screenSize / 2 then 0 else mapSize - target - screenSize / 2,
               mapSize - screenSize + Offset)
    ensures target < mapSize - screenSize + Offset ==>
      r == Min(mapSize - screenSize + Offset - target + (if screenSize / 2 != 0 then screenSize / 2 - 1 else 0),
               mapSize - screenSize + Offset)
  {
    var diff := mapSize - screenSize + Offset;
    var clampToBottom := diff - Min(target, diff);
    var halfway :=
      if clampToBottom == 0 then
        var d := mapSize - target;
        d - Min(screenSize / 2, d)
      else
        var value := screenSize / 2;
        if value != 0 then value - 1 else value;
    Min(clampToBottom + halfway, diff)
  }

  /** A target further along its axis never moves the camera's start forward. */
  lemma CenterNonIncreasing(mapSize: nat, screenSize: nat, target: nat)
    requires screenSize < mapSize
    requires target + 1 <= mapSize
    ensures GetCenterCoordinate(mapSize, screenSize, target + 1) <= GetCenterCoordinate(mapSize, screenSize, target)
  {
  }

  /**
   * The camera start on both axes, as `render` picks it: an axis whose map
   * fits on the screen starts at 0; x measures the target from the right
   * end of the map, y from the bottom. The requires are the `as usize`
   * casts and subtractions that must not wrap or underflow.
   */
  function StartOffset(sizeX: nat, sizeY: nat, width: nat, height: nat, center: Position): (r: (nat, nat))
    requires sizeX > width ==> 0 <= center.x <= sizeX
    requires sizeY > height ==> 0 <= center.y && (center.y >= sizeY - height + Offset ==> center.y <= sizeY)
    ensures sizeX <= width ==> r.0 == 0
    ensures sizeY <= height ==> r.1 == 0
    ensures sizeX > width ==> r.0 <= sizeX - width + Offset
    ensures sizeY > height ==> r.1 <= sizeY - height + Offset
  {
    if sizeX > width then
      (GetCenterCoordinate(sizeX, width, sizeX - center.x),
       if sizeY > height then GetCenterCoordinate(sizeY, height, center.y) else 0)
    else if sizeY > height then
      (0, GetCenterCoordinate(sizeY, height, center.y))
    else
      (0, 0)
  }

  /**
   * On a map wider than a screen of at least five columns, the target's
   * column is among the first `width - 2` columns drawn.
   */
  lemma TargetColumnInView(size: nat, width: nat, cx: nat)
    requires 5 <= width < size
    requires cx < size
    ensures var start := GetCenterCoordinate(size, width, size - cx);
      start <= cx < start + width - Offset
  {
  }

  /**
   * On a map taller than a screen of at least three rows, the target's row
   * is among the first `height - 2` rows drawn (row k shows map row
   * `size - 1 - (start + k)`).
   */
  lemma TargetRowInView(size: nat, height: nat, cy: nat)
    requires 3 <= height < size
    requires cy < size
    ensures var start := GetCenterCoordinate(size, height, cy);
      start <= size - 1 - cy < start + height - Offset
  {
  }

  /** The camera keeps the target in view on every axis the map overflows. */
  lemma {:induction false} CameraFollowsTarget(sizeX: nat, sizeY: nat, width: nat, height: nat, center: Position)
    requires 0 <= center.x < sizeX && 0 <= center.y < sizeY
    ensures var s := StartOffset(sizeX, sizeY, width, height, center);
      && (sizeX > width >= 5 ==> s.0 <= center.x < s.0 + width - Offset)
      && (sizeY > height >= 3 ==> s.1 <= sizeY - 1 - center.y < s.1 + height - Offset)
  {
    if sizeX > width >= 5 {
      TargetColumnInView(sizeX, width, center.x);
    }
    if sizeY > height >= 3 {
      TargetRowInView(sizeY, height, center.y);
    }
  }

  /** The character a tile is drawn as: its occupier's sprite, else ' ' for ground, '#' for wall, '%' for obstacle. */
  function Glyph(t: Tile): (c: char)
    ensures OccupierOf(t).Some? ==> c == OccupierOf(t).value.sprite
    ensures t.Wall? ==> c == '#'
    ensures t.Ground? && t.occupier.None? ==> c == ' '
    ensures t.Obstacle? && t.occupier.None? ==> c == '%'
  {
    match t
    case Ground(occupier, _) => if occupier.Some? then occupier.value.sprite else ' '
    case Wall => '#'
    case Obstacle(occupier) => if occupier.Some? then occupier.value.sprite else '%'
  }

  /**
   * The text lines of `render`: one line per map row from `startY` on,
   * top of the map first, each holding the glyphs of the columns from
   * `startX` on.
   */
  method Render(grid: Map, startX: nat, startY: nat) returns (rows: seq<seq<char>>)
    ensures |rows| == if startY < grid.SizeY() then grid.SizeY() - startY else 0
    ensures forall k :: 0 <= k < |rows| ==> |rows[k]| == if startX < grid.SizeX() then grid.SizeX() - startX else 0
    ensures forall k, j :: 0 <= k < |rows| && 0 <= j < |rows[k]| && startX + j < grid.SizeX() ==>
      rows[k][j] == Glyph(grid.cells[startX + j, grid.SizeY() - 1 - (startY + k)])
  {
    var sizeX := grid.SizeX();
    var sizeY := grid.SizeY();
    var width := if startX < sizeX then sizeX - startX else 0;
    rows := [];
    var y := startY;
    while y < sizeY
      invariant y == startY + |rows|
      invariant startY < sizeY ==> y <= sizeY
      invariant startY >= sizeY ==> rows == []
      invariant forall k :: 0 <= k < |rows| ==> |rows[k]| == width
      invariant forall k, j :: 0 <= k < |rows| && 0 <= j < |rows[k]| ==>
        rows[k][j] == Glyph(grid.cells[startX + j, sizeY - 1 - (startY + k)])
    {
      var line: seq<char> := [];
      var x := startX;
      while x < sizeX
        invariant x == startX + |line|
        invariant startX < sizeX ==> x <= sizeX
        invariant startX >= sizeX ==> line == []
        invariant forall j :: 0 <= j < |line| ==> line[j] == Glyph(grid.cells[startX + j, sizeY - 1 - y])
      {
        var tile := grid.Get(x, sizeY - 1 - y);
        if tile.Some? {
          line := line + [Glyph(tile.value)];
        }
        x := x + 1;
      }
      rows := rows + [line];
      y := y + 1;
    }
  }
}
