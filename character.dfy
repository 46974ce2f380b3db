/**
 * Occupancy bookkeeping of the middle revision: a Ground tile remembers the
 * sprite standing on it, a move claims the destination tile and frees the
 * source tile, and a move onto a Wall or an occupied tile is refused.
 */
module Character {
  import opened Wrappers
  import Physics

  type Position = Physics.Position

  datatype MovementInput = Idle | North | East | South | West

  /** The tile of this revision: Ground carries the occupying sprite, if any. */
  datatype CharTile = Ground(occupant: Option<char>) | Wall

  /** The sprite stored for an entity without a Sprite component. */
  const NoSprite: char := 'N'

  /** The offset each input adds to the position. */
  function Offset(input: MovementInput): (d: Position)
    ensures input == Idle <==> d == Physics.Position(0, 0)
    ensures input != Idle ==> Physics.Distance(Physics.Position(0, 0), d) == 1
    ensures input == North ==> d.y > 0
    ensures input == South ==> d.y < 0
    ensures input == East ==> d.x > 0
    ensures input == West ==> d.x < 0
  {
    match input
    case North => Physics.Position(0, 1)
    case East => Physics.Position(1, 0)
    case South => Physics.Position(0, -1)
    case West => Physics.Position(-1, 0)
    case Idle => Physics.Position(0, 0)
  }

  /** The sprite written into a claimed tile. */
  function SpriteOr(sprite: Option<char>): char
  {
    if sprite.Some? then sprite.value else NoSprite
  }

  // ---------------------------------------------------------------------------
  // Specification on the tile vector (row stride `stride`, as Physics.Get)

  /**
   * The flat index of a position, when the map has a tile there. The helper
   * that does this lookup is not part of this model; it is taken to reject a
   * negative coordinate, unlike `Physics.Get`, whose wrapped index can land
   * on a real slot (Physics.WestOfColumnZeroWraps).
   */
  function Slot(stride: nat, len: nat, p: Position): (r: Option<nat>)
    ensures r.Some? ==> r.value < len
    ensures r.Some? <==> 0 <= p.x && 0 <= p.y && p.x + stride * p.y < len
  {
    if 0 <= p.x && 0 <= p.y && p.x + stride * p.y < len then Some(p.x + stride * p.y) else None
  }

  /** The position names an existing, unoccupied Ground tile. */
  predicate Vacant(stride: nat, ts: seq<CharTile>, p: Position)
  {
    var s := Slot(stride, |ts|, p);
    s.Some? && ts[s.value] == Ground(None)
  }

  predicate Occupied(t: CharTile)
  {
    t.Ground? && t.occupant.Some?
  }

  /** The tiles after a successful placement: claim `next`, then free `current`. */
  function Placed(stride: nat, ts: seq<CharTile>, current: Position, next: Position, s: char): (r: seq<CharTile>)
    requires Vacant(stride, ts, next)
    ensures |r| == |ts|
  {
    var claimed := ts[Slot(stride, |ts|, next).value := Ground(Some(s))];
    var from := Slot(stride, |ts|, current);
    if from.Some? && claimed[from.value].Ground? then claimed[from.value := Ground(None)] else claimed
  }

  /** `check_collision` as a function: (collided, tiles after). */
  function Collide(stride: nat, ts: seq<CharTile>, current: Position, next: Position, sprite: Option<char>): (r: (bool, seq<CharTile>))
    ensures |r.1| == |ts|
    ensures r.0 <==> !Vacant(stride, ts, next)
    ensures r.0 ==> r.1 == ts
  {
    if Vacant(stride, ts, next) then (false, Placed(stride, ts, current, next, SpriteOr(sprite))) else (true, ts)
  }

  /** One entity of `movement_update`: (tiles after, position after). */
  function MoveStep(stride: nat, ts: seq<CharTile>, input: MovementInput, p: Position, sprite: Option<char>): (r: (seq<CharTile>, Position))
    ensures |r.0| == |ts|
    ensures r.1 == p || r.1 == Physics.Add(p, Offset(input))
    ensures input == Idle ==> r == (ts, p)
    ensures input != Idle ==> (r.1 == Physics.Add(p, Offset(input)) <==> Vacant(stride, ts, Physics.Add(p, Offset(input))))
  {
    if input == Idle then (ts, p)
    else
      var next := Physics.Add(p, Offset(input));
      var c := Collide(stride, ts, p, next, sprite);
      (c.1, if c.0 then p else next)
  }

  /** The first `n` entities of `movement_update`, in query order. */
  function MoveAll(stride: nat, ts: seq<CharTile>, inputs: seq<MovementInput>, ps: seq<Position>,
                   sprites: seq<Option<char>>, n: nat): (r: (seq<CharTile>, seq<Position>))
    requires |inputs| == |ps| == |sprites| && n <= |ps|
    ensures |r.0| == |ts| && |r.1| == |ps|
    ensures forall k :: n <= k < |ps| ==> r.1[k] == ps[k]
    ensures forall k :: 0 <= k < n ==> r.1[k] == ps[k] || r.1[k] == Physics.Add(ps[k], Offset(inputs[k]))
    ensures forall k :: 0 <= k < n && inputs[k] == Idle ==> r.1[k] == ps[k]
  {
    if n == 0 then (ts, ps)
    else
      var prev := MoveAll(stride, ts, inputs, ps, sprites, n - 1);
      var step := MoveStep(stride, prev.0, inputs[n - 1], prev.1[n - 1], sprites[n - 1]);
      (step.0, prev.1[n - 1 := step.1])
  }

  // ---------------------------------------------------------------------------
  // Properties of a move

  /**
   * A successful placement changes only the destination (now holding the
   * sprite) and the source (now free); no occupant elsewhere is touched.
   */
  lemma PlacedChangesOnlyEndpoints(stride: nat, ts: seq<CharTile>, current: Position, next: Position, s: char)
    requires Vacant(stride, ts, next)
    requires Slot(stride, |ts|, current) != Slot(stride, |ts|, next)
    ensures var r := Placed(stride, ts, current, next, s);
      && r[Slot(stride, |ts|, next).value] == Ground(Some(s))
      && (Slot(stride, |ts|, current).Some? && ts[Slot(stride, |ts|, current).value].Ground? ==>
            r[Slot(stride, |ts|, current).value] == Ground(None))
      && forall k :: 0 <= k < |ts| && Some(k) != Slot(stride, |ts|, current) && Some(k) != Slot(stride, |ts|, next) ==>
            r[k] == ts[k]
  {
  }

  /** An occupied tile is never overwritten by a move: it keeps its sprite or is the one vacated. */
  lemma MoveNeverOverwrites(stride: nat, ts: seq<CharTile>, input: MovementInput, p: Position, sprite: Option<char>, k: nat)
    requires k < |ts| && Occupied(ts[k])
    ensures var r := MoveStep(stride, ts, input, p, sprite).0;
      r[k] == ts[k] || (Some(k) == Slot(stride, |ts|, p) && r[k] == Ground(None))
  {
  }

  /** The number of occupied tiles. */
  function OccupiedCount(ts: seq<CharTile>): nat
  {
    if ts == [] then 0 else OccupiedCount(ts[..|ts| - 1]) + (if Occupied(ts[|ts| - 1]) then 1 else 0)
  }

  lemma {:induction false} OccupiedCountUpdate(ts: seq<CharTile>, i: nat, t: CharTile)
    requires i < |ts|
    ensures OccupiedCount(ts[i := t]) + (if Occupied(ts[i]) then 1 else 0)
         == OccupiedCount(ts) + (if Occupied(t) then 1 else 0)
  {
    var last := |ts| - 1;
    assert ts[i := t][..last] == if i == last then ts[..last] else ts[..last][i := t];
    if i < last {
      OccupiedCountUpdate(ts[..last], i, t);
    }
  }

  /**
   * A move by an entity that stands on its own occupied tile conserves the
   * number of occupied tiles: one tile is claimed, one is freed.
   */
  lemma MoveConservesOccupants(stride: nat, ts: seq<CharTile>, input: MovementInput, p: Position, sprite: Option<char>)
    requires Slot(stride, |ts|, p).Some? && Occupied(ts[Slot(stride, |ts|, p).value])
    requires Slot(stride, |ts|, Physics.Add(p, Offset(input))) != Slot(stride, |ts|, p)
    ensures OccupiedCount(MoveStep(stride, ts, input, p, sprite).0) == OccupiedCount(ts)
  {
    var next := Physics.Add(p, Offset(input));
    if input != Idle && Vacant(stride, ts, next) {
      var d := Slot(stride, |ts|, next).value;
      var c := Slot(stride, |ts|, p).value;
      var claimed := ts[d := Ground(Some(SpriteOr(sprite)))];
      OccupiedCountUpdate(ts, d, Ground(Some(SpriteOr(sprite))));
      OccupiedCountUpdate(claimed, c, Ground(None));
    }
  }

  // ---------------------------------------------------------------------------
  // The map of this revision and the systems that mutate it

  /** `Map<X, Y>` of this revision: the tile vector, indexed with row stride Y. */
  class OccupancyMap {
    const stride: nat
    const tiles: array<CharTile>

    constructor (stride: nat, tiles: array<CharTile>)
      ensures this.stride == stride && this.tiles == tiles
    {
      this.stride := stride;
      this.tiles := tiles;
    }

    /** `check_collision`: true if refused; otherwise the sprite is placed and the source freed. */
    method CheckCollision(current: Position, next: Position, sprite: Option<char>) returns (collided: bool)
      modifies tiles
      ensures (collided, tiles[..]) == Collide(stride, old(tiles[..]), current, next, sprite)
    {
      var to := Slot(stride, tiles.Length, next);
      if to.Some? && tiles[to.value] == Ground(None) {
        tiles[to.value] := Ground(Some(SpriteOr(sprite)));
        var from := Slot(stride, tiles.Length, current);
        if from.Some? && tiles[from.value].Ground? {
          tiles[from.value] := Ground(None);
        }
        collided := false;
      } else {
        collided := true;
      }
    }

    /** One entity's turn of `movement_update`. */
    method MoveEntity(input: MovementInput, position: Position, sprite: Option<char>) returns (moved: Position)
      modifies tiles
      ensures (tiles[..], moved) == MoveStep(stride, old(tiles[..]), input, position, sprite)
    {
      moved := position;
      if input != Idle {
        var next := Physics.Add(position, Offset(input));
        var collided := CheckCollision(position, next, sprite);
        if !collided {
          moved := next;
        }
      }
    }

    /** `movement_update`: every entity moves in turn, each seeing the tiles its predecessors left. */
    method MovementUpdate(inputs: seq<MovementInput>, positions: array<Position>, sprites: seq<Option<char>>)
      requires |inputs| == positions.Length == |sprites|
      modifies tiles, positions
      ensures (tiles[..], positions[..]) == MoveAll(stride, old(tiles[..]), inputs, old(positions[..]), sprites, |inputs|)
      ensures forall i :: 0 <= i < positions.Length ==>
        positions[i] == old(positions[i]) || positions[i] == Physics.Add(old(positions[i]), Offset(inputs[i]))
    {
      ghost var ts0, ps0 := tiles[..], positions[..];
      var i := 0;
      while i < positions.Length
        invariant 0 <= i <= positions.Length
        invariant (tiles[..], positions[..]) == MoveAll(stride, ts0, inputs, ps0, sprites, i)
        invariant forall k :: 0 <= k < i ==> positions[k] == ps0[k] || positions[k] == Physics.Add(ps0[k], Offset(inputs[k]))
      {
        var moved := MoveEntity(inputs[i], positions[i], sprites[i]);
        positions[i] := moved;
        i := i + 1;
      }
    }
  }

  /** `player_update`: every PlayerTag entity takes the player's input; others keep theirs. */
  method PlayerUpdate(playerInput: MovementInput, inputs: array<MovementInput>, isPlayer: seq<bool>)
    requires inputs.Length == |isPlayer|
    modifies inputs
    ensures forall i :: 0 <= i < inputs.Length ==> inputs[i] == if isPlayer[i] then playerInput else old(inputs[i])
  {
    var i := 0;
    while i < inputs.Length
      invariant 0 <= i <= inputs.Length
      invariant forall k :: 0 <= k < i ==> inputs[k] == if isPlayer[k] then playerInput else old(inputs[k])
      invariant forall k :: i <= k < inputs.Length ==> inputs[k] == old(inputs[k])
    {
      if isPlayer[i] {
        inputs[i] := playerInput;
      }
      i := i + 1;
    }
  }
}
