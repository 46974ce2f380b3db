/**
 * The middle revision of the pathfinder: the same skip-turn counter, path
 * state and successor generator as the later one, but no reached-goal
 * continuation. The goal director it calls only retargets the current goal.
 */
module PathfinderOld {
  import opened Wrappers
  import Physics
  import Character
  import Pathfinder

  type Position = Physics.Position

  class PathfinderBehavior {
    const pathfinder: Pathfinder.Pathfinder
    const skipTurn: Pathfinder.SkipTurn

    predicate Valid()
      reads skipTurn
    {
      skipTurn.Valid()
    }

    constructor (skip: nat)
      ensures Valid() && fresh(pathfinder) && fresh(skipTurn)
      ensures skipTurn.count == 0 && skipTurn.skipAt == skip
      ensures pathfinder.currentGoal == Physics.Position(0, 0) && pathfinder.lastPath == [] && pathfinder.pathIndex == 0
    {
      pathfinder := new Pathfinder.Pathfinder();
      skipTurn := new Pathfinder.SkipTurn(skip);
    }

    /**
     * One entity's tick of `pathfinder_update`. Failed run conditions reset
     * the counter; a skipped turn calls neither the director (`retarget`,
     * applied to the current goal) nor the search; both output Idle.
     */
    method Update(position: Position, conditionsHold: bool, retarget: Position -> Position,
                  search: (Position, Position) -> Option<seq<Position>>) returns (input: Character.MovementInput)
      requires Valid()
      modifies skipTurn, pathfinder
      ensures Valid() && skipTurn.skipAt == old(skipTurn.skipAt)
      ensures var proceed := conditionsHold && old(skipTurn.count) != skipTurn.skipAt;
        && (!conditionsHold ==> skipTurn.count == 0)
        && (conditionsHold ==> skipTurn.count == Pathfinder.CheckStep(old(skipTurn.count), skipTurn.skipAt).1)
        && (!proceed ==>
              && input == Character.Idle
              && pathfinder.currentGoal == old(pathfinder.currentGoal)
              && pathfinder.lastGoal == old(pathfinder.lastGoal)
              && pathfinder.lastPath == old(pathfinder.lastPath)
              && pathfinder.pathIndex == old(pathfinder.pathIndex))
        && (proceed ==>
              var goal := retarget(old(pathfinder.currentGoal));
              var found := search(position, goal);
              && pathfinder.currentGoal == goal
              && (found.Some? ==> pathfinder.lastPath == found.value && pathfinder.lastGoal == goal)
              && (found.None? ==> pathfinder.lastPath == old(pathfinder.lastPath) && pathfinder.lastGoal == old(pathfinder.lastGoal))
              && (pathfinder.pathIndex, input) ==
                   Pathfinder.Follow(pathfinder.lastPath, if found.Some? then 1 else old(pathfinder.pathIndex), position))
    {
      if conditionsHold {
        var proceed := skipTurn.Check();
        if proceed {
          pathfinder.currentGoal := retarget(pathfinder.currentGoal);
          var found := search(position, pathfinder.currentGoal);
          input := pathfinder.FollowPath(position, found);
        } else {
          input := Character.Idle;
        }
      } else {
        skipTurn.ResetCount();
        input := Character.Idle;
      }
    }
  }
}
