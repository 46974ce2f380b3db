/**
 * The pathfinder of the later revision: the skip-turn cadence counter, the
 * path bookkeeping around the A* search, the goal methods of the behaviour
 * and the successor generator the search expands.
 */
module Pathfinder {
  import opened Wrappers
  import Physics
  import opened World
  import Character

  type MovementInput = Character.MovementInput

  // ---------------------------------------------------------------------------
  // SkipTurn

  /** One `check`: (turn taken, count after). A false result zeroes the count. */
  function CheckStep(count: nat, skipAt: nat): (r: (bool, nat))
    ensures !r.0 <==> count == skipAt
    ensures !r.0 ==> r.1 == 0
    ensures r.0 ==> r.1 == count + 1
    ensures count <= skipAt ==> r.1 <= skipAt
  {
    if count == skipAt then (false, 0) else (true, count + 1)
  }

  /** The number of skipped turns among `n` consecutive checks starting at `count`. */
  function Skips(count: nat, skipAt: nat, n: nat): nat
    decreases n
  {
    if n == 0 then 0
    else (if count == skipAt then 1 else 0) + Skips(CheckStep(count, skipAt).1, skipAt, n - 1)
  }

  /** No skip happens while the count stays below `skipAt`. */
  lemma {:induction false} NoSkipBelow(count: nat, skipAt: nat, n: nat)
    requires count + n <= skipAt
    ensures Skips(count, skipAt, n) == 0
    decreases n
  {
    if n > 0 {
      NoSkipBelow(count + 1, skipAt, n - 1);
    }
  }

  /**
   * From any reachable count, a window that covers the next skip and stops
   * before the one after it holds exactly one skip.
   */
  lemma {:induction false} OneSkipPerWindow(count: nat, skipAt: nat, n: nat)
    requires count <= skipAt
    requires skipAt - count < n <= skipAt - count + 1 + skipAt
    ensures Skips(count, skipAt, n) == 1
    decreases n
  {
    if count == skipAt {
      NoSkipBelow(0, skipAt, n - 1);
    } else {
      OneSkipPerWindow(count + 1, skipAt, n - 1);
    }
  }

  /** Exactly one of every `skipAt + 1` consecutive checks returns false. */
  lemma Cadence(count: nat, skipAt: nat)
    requires count <= skipAt
    ensures Skips(count, skipAt, skipAt + 1) == 1
  {
    OneSkipPerWindow(count, skipAt, skipAt + 1);
  }

  /** After a reset the first `skipAt` checks take their turn and the next one skips. */
  lemma FreshCounterSkipsLast(skipAt: nat)
    ensures Skips(0, skipAt, skipAt) == 0
    ensures Skips(0, skipAt, skipAt + 1) == 1
  {
    NoSkipBelow(0, skipAt, skipAt);
    Cadence(0, skipAt);
  }

  class SkipTurn {
    var count: nat
    var skipAt: nat

    /** The counter never passes `skipAt`, so `count += 1` cannot overflow u32. */
    predicate Valid()
      reads this
    {
      count <= skipAt
    }

    constructor (skipAt: nat)
      ensures Valid() && count == 0 && this.skipAt == skipAt
    {
      count := 0;
      this.skipAt := skipAt;
    }

    /** `check`: false to skip this turn. */
    method Check() returns (proceed: bool)
      requires Valid()
      modifies this
      ensures Valid() && skipAt == old(skipAt)
      ensures (proceed, count) == CheckStep(old(count), skipAt)
    {
      if count == skipAt {
        count := 0;
        proceed := false;
      } else {
        count := count + 1;
        proceed := true;
      }
    }

    method ResetCount()
      modifies this
      ensures Valid() && count == 0 && skipAt == old(skipAt)
    {
      count := 0;
    }
  }

  // ---------------------------------------------------------------------------
  // Choosing the move toward the next waypoint

  /** The first of North, East, South, West that approaches `target`, else Idle. */
  function Direction(target: Position, position: Position): (m: MovementInput)
    ensures m == Character.North <==> target.y > position.y
    ensures m == Character.East <==> target.y <= position.y && target.x > position.x
    ensures m == Character.South <==> target.y < position.y && target.x <= position.x
    ensures m == Character.West <==> target.y == position.y && target.x < position.x
    ensures m == Character.Idle <==> target == position
  {
    if target.y > position.y then Character.North
    else if target.x > position.x then Character.East
    else if target.y < position.y then Character.South
    else if target.x < position.x then Character.West
    else Character.Idle
  }

  lemma SquareDrops(d: int)
    requires d != 0
    ensures (if d > 0 then d - 1 else d + 1) * (if d > 0 then d - 1 else d + 1) < d * d
  {
    var e := if d > 0 then d - 1 else d + 1;
    if d > 0 {
      assert e * e == d * d - 2 * d + 1;
    } else {
      assert e * e == d * d + 2 * d + 1;
    }
  }

  /** Every non-Idle direction strictly lowers the search heuristic toward the waypoint. */
  lemma {:induction false} DirectionApproaches(target: Position, position: Position)
    requires target != position
    ensures Physics.Distance(Physics.Add(position, Character.Offset(Direction(target, position))), target)
          < Physics.Distance(position, target)
  {
    var next := Physics.Add(position, Character.Offset(Direction(target, position)));
    var dx, dy := target.x - position.x, target.y - position.y;
    if dy != 0 && (dy > 0 || dx <= 0) {
      SquareDrops(dy);
      assert next.x == position.x;
    } else {
      SquareDrops(dx);
      assert next.y == position.y;
    }
  }

  /** A waypoint one cardinal step away is reached by exactly the chosen move. */
  lemma DirectionReachesNeighbor(target: Position, position: Position)
    requires target in Physics.Cardinals(position)
    ensures Physics.Add(position, Character.Offset(Direction(target, position))) == target
  {
  }

  /** A path the search may return: from start to goal in cardinal steps. */
  predicate IsPath(path: seq<Position>, start: Position, goal: Position)
  {
    && |path| >= 1
    && path[0] == start
    && path[|path| - 1] == goal
    && forall i :: 0 < i < |path| ==> path[i] in Physics.Cardinals(path[i - 1])
  }

  /** Reading waypoint `index`: (index after, move). */
  function Follow(path: seq<Position>, index: nat, position: Position): (r: (nat, MovementInput))
    ensures index < |path| ==> r == (index + 1, Direction(path[index], position))
    ensures index >= |path| ==> r == (index, Character.Idle)
  {
    if index < |path| then (index + 1, Direction(path[index], position)) else (index, Character.Idle)
  }

  /**
   * Right after a successful search the actor moves onto the path's second
   * cell, or stays Idle when it already stands on the goal.
   */
  lemma FreshPathFirstStep(path: seq<Position>, position: Position, goal: Position)
    requires IsPath(path, position, goal)
    ensures Follow(path, 1, position).0 == if |path| >= 2 then 2 else 1
    ensures |path| >= 2 ==> Physics.Add(position, Character.Offset(Follow(path, 1, position).1)) == path[1]
    ensures |path| == 1 ==> Follow(path, 1, position).1 == Character.Idle && position == goal
  {
    if |path| >= 2 {
      DirectionReachesNeighbor(path[1], position);
    }
  }

  // ---------------------------------------------------------------------------
  // The path state

  class Pathfinder {
    var currentGoal: Position
    var lastGoal: Position
    var lastPath: seq<Position>
    var pathIndex: nat

    /** `Pathfinder::default()`. */
    constructor ()
      ensures currentGoal == Physics.Position(0, 0) && lastGoal == Physics.Position(0, 0)
      ensures lastPath == [] && pathIndex == 0
    {
      currentGoal := Physics.Position(0, 0);
      lastGoal := Physics.Position(0, 0);
      lastPath := [];
      pathIndex := 0;
    }

    /**
     * The bookkeeping after the search: a found path replaces the old one,
     * restarts at index 1 and records the goal; a failed search keeps all
     * three. Then the waypoint at the index, if any, is consumed.
     */
    method FollowPath(position: Position, found: Option<seq<Position>>) returns (input: MovementInput)
      modifies this
      ensures currentGoal == old(currentGoal)
      ensures found.Some? ==> lastPath == found.value && lastGoal == old(currentGoal)
      ensures found.None? ==> lastPath == old(lastPath) && lastGoal == old(lastGoal)
      ensures (pathIndex, input) == Follow(lastPath, if found.Some? then 1 else old(pathIndex), position)
    {
      if found.Some? {
        lastPath := found.value;
        pathIndex := 1;
        lastGoal := currentGoal;
      }
      if pathIndex < |lastPath| {
        var target := lastPath[pathIndex];
        pathIndex := pathIndex + 1;
        input := Direction(target, position);
      } else {
        input := Character.Idle;
      }
    }
  }

  // ---------------------------------------------------------------------------
  // Successors for the search

  /** The collision class used for a tile: its occupier's, else Solid. */
  function CollisionFor(t: Tile, collisionOf: nat -> Option<CollisionType>): CollisionType
  {
    var o := OccupierOf(t);
    if o.Some? && collisionOf(o.value.entity).Some? then collisionOf(o.value.entity).value else Solid
  }

  /**
   * `is_neighbor`: a cell with a tile that is not occupied for the collision
   * class of its occupier (Solid when it has none or it is unknown). A cell
   * with no tile is never a neighbour. `Tile::is_occupied` is a parameter.
   */
  function IsNeighbor(grid: Map, q: Position, collisionOf: nat -> Option<CollisionType>,
                      isOccupied: (Tile, CollisionType) -> bool): (r: bool)
    reads grid.cells
    ensures grid.At(q).None? ==> !r
    ensures grid.At(q).Some? ==> (r <==> !isOccupied(grid.At(q).value, CollisionFor(grid.At(q).value, collisionOf)))
  {
    match grid.At(q)
    case None => false
    case Some(t) => !isOccupied(t, CollisionFor(t, collisionOf))
  }

  /** The place of a cardinal cell in the order North, East, South, West. */
  function CardinalRank(p: Position, q: Position): (k: nat)
    requires q in Physics.Cardinals(p)
    ensures k < 4 && Physics.Cardinals(p)[k] == q
  {
    var c := Physics.Cardinals(p);
    if q == c[0] then 0 else if q == c[1] then 1 else if q == c[2] then 2 else 3
  }

  function KeepIf(b: bool, q: Position): seq<Position>
  {
    if b then [q] else []
  }

  /**
   * `neighbors`: the cardinal cells, in the order North, East, South, West,
   * that are neighbours or are the search target itself.
   */
  function Neighbors(grid: Map, p: Position, target: Position, collisionOf: nat -> Option<CollisionType>,
                     isOccupied: (Tile, CollisionType) -> bool): (r: seq<Position>)
    reads grid.cells
    ensures |r| <= 4
    ensures forall q :: q in r <==>
      q in Physics.Cardinals(p) && (IsNeighbor(grid, q, collisionOf, isOccupied) || q == target)
    ensures forall i, j :: 0 <= i < j < |r| ==> CardinalRank(p, r[i]) < CardinalRank(p, r[j])
  {
    var c := Physics.Cardinals(p);
    var keep := (q: Position) reads grid.cells => IsNeighbor(grid, q, collisionOf, isOccupied) || q == target;
    KeepIf(keep(c[0]), c[0]) + KeepIf(keep(c[1]), c[1]) + KeepIf(keep(c[2]), c[2]) + KeepIf(keep(c[3]), c[3])
  }

  /** `successors`: each neighbour at step cost 1. */
  function Successors(grid: Map, p: Position, target: Position, collisionOf: nat -> Option<CollisionType>,
                      isOccupied: (Tile, CollisionType) -> bool): (r: seq<(Position, nat)>)
    reads grid.cells
    ensures |r| == |Neighbors(grid, p, target, collisionOf, isOccupied)|
    ensures forall i :: 0 <= i < |r| ==> r[i] == (Neighbors(grid, p, target, collisionOf, isOccupied)[i], 1)
  {
    var n := Neighbors(grid, p, target, collisionOf, isOccupied);
    seq(|n|, i requires 0 <= i < |n| => (n[i], 1))
  }

  // ---------------------------------------------------------------------------
  // The behaviour

  /**
   * A continuation run once the actor stands on its goal. The only one the
   * shown code registers is the wander continuation of the civilian
   * `set_goal` helper; its effect is defined with the civilian director.
   */
  datatype ReachedGoal = WanderAfterMoving

  class PathfinderBehavior {
    const pathfinder: Pathfinder
    const skipTurn: SkipTurn
    var reachedGoal: Option<ReachedGoal>

    predicate Valid()
      reads skipTurn
    {
      skipTurn.Valid()
    }

    /** `PathfinderBehavior::new(skip, ..)`. */
    constructor (skip: nat)
      ensures Valid() && fresh(pathfinder) && fresh(skipTurn)
      ensures pathfinder.currentGoal == Physics.Position(0, 0) && pathfinder.lastPath == [] && pathfinder.pathIndex == 0
      ensures skipTurn.count == 0 && skipTurn.skipAt == skip && reachedGoal == None
    {
      pathfinder := new Pathfinder();
      skipTurn := new SkipTurn(skip);
      reachedGoal := None;
    }

    method SetSkipTurn(skipAt: nat)
      modifies skipTurn
      ensures Valid() && skipTurn.skipAt == skipAt && skipTurn.count == 0
    {
      skipTurn.skipAt := skipAt;
      skipTurn.count := 0;
    }

    /**
     * `set_goal`: ignored while a continuation is pending. The priority
     * argument the callers pass is accepted and has no effect.
     */
    method SetGoal(goal: Position, priority: Priority)
      modifies pathfinder
      ensures pathfinder.currentGoal == if reachedGoal.Some? then old(pathfinder.currentGoal) else goal
      ensures pathfinder.lastGoal == old(pathfinder.lastGoal) && pathfinder.lastPath == old(pathfinder.lastPath)
      ensures pathfinder.pathIndex == old(pathfinder.pathIndex)
    {
      if reachedGoal.None? {
        pathfinder.currentGoal := goal;
      }
    }

    /** `force_goal`: drops any pending continuation and sets the goal. */
    method ForceGoal(goal: Position)
      modifies this, pathfinder
      ensures reachedGoal == None && pathfinder.currentGoal == goal
      ensures pathfinder.lastGoal == old(pathfinder.lastGoal) && pathfinder.lastPath == old(pathfinder.lastPath)
      ensures pathfinder.pathIndex == old(pathfinder.pathIndex)
    {
      reachedGoal := None;
      pathfinder.currentGoal := goal;
    }

    /** `reach_goal`: registers the continuation. */
    method ReachGoal(cb: ReachedGoal)
      modifies this
      ensures reachedGoal == Some(cb)
    {
      reachedGoal := Some(cb);
    }

    /** `is_at`: the goal is the given position. */
    function IsAt(position: Position): (r: bool)
      reads pathfinder
      ensures r <==> Physics.PosEq(pathfinder.currentGoal, position)
    {
      pathfinder.currentGoal == position
    }

    /**
     * The start of a tick of `pathfinder_update`: a pending continuation is
     * taken (and cleared) when the actor stands on its goal; then the run
     * conditions gate the skip-turn counter. A false `proceed` means the
     * tick outputs Idle without calling the goal director.
     */
    method BeginTick(position: Position, conditionsHold: bool) returns (fired: Option<ReachedGoal>, proceed: bool)
      requires Valid()
      modifies this, skipTurn
      ensures Valid() && skipTurn.skipAt == old(skipTurn.skipAt)
      ensures fired == if IsAt(position) then old(reachedGoal) else None
      ensures reachedGoal == if IsAt(position) then None else old(reachedGoal)
      ensures conditionsHold ==> (proceed, skipTurn.count) == CheckStep(old(skipTurn.count), skipTurn.skipAt)
      ensures !conditionsHold ==> !proceed && skipTurn.count == 0
    {
      fired := None;
      if IsAt(position) && reachedGoal.Some? {
        fired := reachedGoal;
        reachedGoal := None;
      }
      if conditionsHold {
        proceed := skipTurn.Check();
      } else {
        skipTurn.ResetCount();
        proceed := false;
      }
    }

    /**
     * The end of a tick: search from the position to the current goal
     * (`search` stands for the A* call) and take the next waypoint.
     */
    method Navigate(position: Position, search: (Position, Position) -> Option<seq<Position>>) returns (input: MovementInput)
      modifies pathfinder
      ensures pathfinder.currentGoal == old(pathfinder.currentGoal)
      ensures var found := search(position, old(pathfinder.currentGoal));
        && (found.Some? ==> pathfinder.lastPath == found.value && pathfinder.lastGoal == old(pathfinder.currentGoal))
        && (found.None? ==> pathfinder.lastPath == old(pathfinder.lastPath) && pathfinder.lastGoal == old(pathfinder.lastGoal))
        && (pathfinder.pathIndex, input) == Follow(pathfinder.lastPath, if found.Some? then 1 else old(pathfinder.pathIndex), position)
    {
      var found := search(position, pathfinder.currentGoal);
      input := pathfinder.FollowPath(position, found);
    }
  }
}
