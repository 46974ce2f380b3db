/**
 * Helpers of the civilian behaviours: the search for a Werewolf among the
 * visible cells, and switching a civilian to panic.
 */
module BehaviorUtil {
  import opened Wrappers
  import Physics
  import opened World
  import Pathfinder

  /** The entity of a Werewolf-typed occupier on the tile, if there is one. */
  function WerewolfOn(t: Tile): (r: Option<nat>)
    ensures t.Wall? || OccupierOf(t).None? ==> r.None?
    ensures r.Some? <==> OccupierOf(t).Some? && OccupierOf(t).value.characterType == Some(CharacterType.Werewolf)
    ensures r.Some? ==> r.value == OccupierOf(t).value.entity
  {
    match OccupierOf(t)
    case Some(o) => if o.characterType == Some(CharacterType.Werewolf) then Some(o.entity) else None
    case None => None
  }

  /** A Werewolf stands on the map cell at `p`. */
  predicate WerewolfAt(grid: Map, p: Position)
    reads grid.cells
  {
    grid.At(p).Some? && WerewolfOn(grid.At(p).value).Some?
  }

  /**
   * `human_panic`: some visible Werewolf with its entity and cell, or None
   * when no visible cell holds one. The vision set is a parameter, and its
   * iteration order is left open: any visible Werewolf may be reported.
   */
  method HumanPanic(grid: Map, vision: set<Position>) returns (r: Option<(nat, Position)>)
    ensures r.Some? ==> r.value.1 in vision && WerewolfAt(grid, r.value.1)
    ensures r.Some? ==> Some(r.value.0) == WerewolfOn(grid.At(r.value.1).value)
    ensures r.None? <==> forall p :: p in vision ==> !WerewolfAt(grid, p)
  {
    var rest := vision;
    while rest != {}
      invariant rest <= vision
      invariant forall p :: p in vision - rest ==> !WerewolfAt(grid, p)
      decreases |rest|
    {
      var p :| p in rest;
      var tile := grid.At(p);
      if tile.Some? {
        var entity := WerewolfOn(tile.value);
        if entity.Some? {
          return Some((entity.value, p));
        }
      }
      rest := rest - {p};
    }
    return None;
  }

  /**
   * `set_human_panic`: requests the hiding point chosen for the friendly
   * actor away from the enemy (at High priority) and switches to
   * `Panic(cluster)`. `humanPanic` stands for `data.human.panic(..)
   * .enemy(..).get()`.
   */
  method SetHumanPanic(behavior: Pathfinder.PathfinderBehavior,
                       humanPanic: (CharacterType, Position, Position) -> (Position, nat),
                       friendly: (CharacterType, Position), enemyPosition: Position) returns (state: HumanState)
    modifies behavior.pathfinder
    ensures var choice := humanPanic(friendly.0, friendly.1, enemyPosition);
      && state == HumanState.Panic(choice.1)
      && behavior.pathfinder.currentGoal == if behavior.reachedGoal.Some? then old(behavior.pathfinder.currentGoal) else choice.0
    ensures behavior.pathfinder.lastPath == old(behavior.pathfinder.lastPath)
    ensures behavior.pathfinder.pathIndex == old(behavior.pathfinder.pathIndex)
    ensures behavior.pathfinder.lastGoal == old(behavior.pathfinder.lastGoal)
  {
    var choice := humanPanic(friendly.0, friendly.1, enemyPosition);
    behavior.SetGoal(choice.0, High);
    state := HumanState.Panic(choice.1);
  }
}
