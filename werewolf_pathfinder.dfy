/**
 * The werewolf goal director: in Human form it runs the civilian machine
 * hunting the Player; in Beast form it hunts its target or flees, and calms
 * back into Human form when the calm cooldown stops running.
 */
module WerewolfPathfinder {
  import opened Wrappers
  import Physics
  import opened World
  import Pathfinder
  import PathfinderData
  import PathfinderUtil
  import Lerain

  /** What a Beast-form tick decides: the new werewolf state, the goal to request, and whether to turn Human. */
  datatype BeastOutcome = BeastOutcome(state: WerewolfState, goal: Option<Position>, revert: bool)

  /**
   * The Beast branch. `execute` stands for `Cooldown::execute` (whether it is
   * still running, and the cooldown after the call); `panic` stands for
   * `data.werewolf.panic(..)` followed by `.enemy(e)` when an enemy is given
   * and `.get_except(i)` when an index is given, else `.get()`.
   */
  function BeastStep(ws: WerewolfState, characterType: CharacterType, position: Position,
                     execute: nat -> (bool, nat),
                     panic: (CharacterType, Position, Option<Position>, Option<nat>) -> (Position, nat)): (r: BeastOutcome)
    ensures ws.Hunt? ==>
      r == BeastOutcome(ws, Some(if ws.target.Some? then ws.target.value else position), false)
    ensures ws.Panic? && ws.target.Some? ==>
      && r.state == ws.(calmCooldown := execute(ws.calmCooldown).1)
      && (r.revert <==> !execute(ws.calmCooldown).0)
      && r.goal == (if r.revert then None else ws.target)
    ensures ws.Panic? && ws.target.None? ==>
      var choice := panic(characterType, position, if |ws.enemies| == 0 then None else Some(ws.enemies[0]), ws.excludeTargetIndex);
      && r.state == WerewolfState.Panic(Some(choice.0), ws.enemies, Some(choice.1), 0)
      && r.goal == Some(choice.0)
      && !r.revert
  {
    match ws
    case Hunt(target) =>
      BeastOutcome(ws, Some(if target.Some? then target.value else position), false)
    case Panic(target, enemies, exclude, calm) =>
      if target.Some? then
        var e := execute(calm);
        BeastOutcome(WerewolfState.Panic(target, enemies, exclude, e.1), if e.0 then target else None, !e.0)
      else
        var enemy := if |enemies| == 0 then None else Some(enemies[0]);
        var choice := panic(characterType, position, enemy, exclude);
        // The cooldown is measured from the chosen point to itself.
        var p := choice.0;
        BeastOutcome(WerewolfState.Panic(Some(choice.0), enemies, Some(choice.1), Physics.Distance(p, choice.0)), Some(p), false)
  }

  /**
   * A fresh flight starts with a zero cooldown, so on the very next tick the
   * werewolf keeps fleeing toward the same point exactly when the cooldown
   * still runs at 0, and otherwise turns Human.
   */
  lemma {:induction false} FreshFlightNextTick(enemies: seq<Position>, exclude: Option<nat>, characterType: CharacterType, position: Position,
                                               execute: nat -> (bool, nat),
                                               panic: (CharacterType, Position, Option<Position>, Option<nat>) -> (Position, nat))
    ensures var first := BeastStep(WerewolfState.Panic(None, enemies, exclude, 0), characterType, position, execute, panic);
      var second := BeastStep(first.state, characterType, position, execute, panic);
      && first.state.calmCooldown == 0
      && (second.revert <==> !execute(0).0)
      && (!second.revert ==> second.goal == first.goal)
      && second.state.enemies == enemies
      && second.state.excludeTargetIndex == first.state.excludeTargetIndex
  {
    var first := BeastStep(WerewolfState.Panic(None, enemies, exclude, 0), characterType, position, execute, panic);
    assert first.state.target.Some?;
  }

  /**
   * `werewolf_pathfinder`. Non-werewolf data, and data without werewolf
   * behaviour state, leave everything unchanged.
   */
  method WerewolfPathfinder(characterType: CharacterType, characterData: CharacterData, behaviorData: CharacterBehaviorData,
                            data: PathfinderData.GlobalData, behavior: Pathfinder.PathfinderBehavior, grid: Map,
                            position: Position, entries: seq<PathfinderUtil.Entry>, vision: set<Position>,
                            draw0: nat, draw1: nat, execute: nat -> (bool, nat),
                            panic: (CharacterType, Position, Option<Position>, Option<nat>) -> (Position, nat))
    returns (newData: CharacterData, newBehaviorData: CharacterBehaviorData)
    requires PathfinderData.WellFormed(data)
    modifies behavior, behavior.pathfinder
    ensures behavior.pathfinder.lastPath == old(behavior.pathfinder.lastPath)
    ensures behavior.pathfinder.pathIndex == old(behavior.pathfinder.pathIndex)
    ensures behavior.pathfinder.lastGoal == old(behavior.pathfinder.lastGoal)
    ensures characterData.Other? || behaviorData.Human? ==>
      && newData == characterData && newBehaviorData == behaviorData
      && behavior.pathfinder.currentGoal == old(behavior.pathfinder.currentGoal)
      && behavior.reachedGoal == old(behavior.reachedGoal)
    ensures characterData == CharacterData.Werewolf(WereForm.Human) && behaviorData.Werewolf? ==>
      var o := Lerain.HumanOutcome(characterType, behaviorData.humanState, old(behavior.pathfinder.currentGoal),
                                   old(behavior.reachedGoal), data, grid, position, entries, vision, Player, draw0, draw1);
      && newData == characterData
      && newBehaviorData == CharacterBehaviorData.Werewolf(o.0, behaviorData.werewolfState)
      && behavior.pathfinder.currentGoal == o.1
      && behavior.reachedGoal == o.2
    ensures characterData == CharacterData.Werewolf(WereForm.Beast) && behaviorData.Werewolf? ==>
      var o := BeastStep(behaviorData.werewolfState, characterType, position, execute, panic);
      && newBehaviorData == CharacterBehaviorData.Werewolf(behaviorData.humanState, o.state)
      && newData == (if o.revert then CharacterData.Werewolf(WereForm.Human) else characterData)
      && behavior.reachedGoal == old(behavior.reachedGoal)
      && behavior.pathfinder.currentGoal ==
           if o.goal.Some? && behavior.reachedGoal.None? then o.goal.value else old(behavior.pathfinder.currentGoal)
  {
    newData, newBehaviorData := characterData, behaviorData;
    if characterData.Werewolf? && behaviorData.Werewolf? {
      match characterData.form
      case Human =>
        var hs := Lerain.HumanPathfinder(characterType, behaviorData.humanState, data, behavior, grid, position,
                                         entries, vision, Player, draw0, draw1);
        newBehaviorData := CharacterBehaviorData.Werewolf(hs, behaviorData.werewolfState);
      case Beast =>
        var o := BeastStep(behaviorData.werewolfState, characterType, position, execute, panic);
        newBehaviorData := CharacterBehaviorData.Werewolf(behaviorData.humanState, o.state);
        if o.revert {
          newData := CharacterData.Werewolf(WereForm.Human);
        }
        if o.goal.Some? {
          behavior.SetGoal(o.goal.value, Medium);
        }
    }
  }
}
