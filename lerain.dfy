/**
 * The civilian goal director: the `set_goal` helper with its wander
 * continuation, the Idle/Moving/Panic state machine of `human_pathfinder`,
 * and `lerain_pathfinder`, which runs it for plain civilians.
 */
module Lerain {
  import opened Wrappers
  import Physics
  import opened World
  import Pathfinder
  import PathfinderData
  import PathfinderUtil
  import BehaviorUtil

  // ---------------------------------------------------------------------------
  // The wander continuation

  /** The continuation on a human state: `Moving(i)` becomes `Idle(Some(WanderButExclude(i)))`. */
  function ContinueWander(s: HumanState): (r: HumanState)
    ensures s.Moving? ==> r == HumanState.Idle(Some(WanderButExclude(s.index)))
    ensures !s.Moving? ==> r == s
  {
    if s.Moving? then HumanState.Idle(Some(WanderButExclude(s.index))) else s
  }

  /** The continuation on the behaviour data: it touches only the human state. */
  function RunReachedGoal(cb: Pathfinder.ReachedGoal, d: CharacterBehaviorData): (r: CharacterBehaviorData)
    ensures r.Human? <==> d.Human?
    ensures r.humanState == ContinueWander(d.humanState)
    ensures r.Werewolf? ==> r.werewolfState == d.werewolfState
  {
    match d
    case Human(s) => CharacterBehaviorData.Human(ContinueWander(s))
    case Werewolf(s, w) => CharacterBehaviorData.Werewolf(ContinueWander(s), w)
  }

  /** Running the continuation twice is the same as running it once. */
  lemma RunReachedGoalIdempotent(cb: Pathfinder.ReachedGoal, d: CharacterBehaviorData)
    ensures RunReachedGoal(cb, RunReachedGoal(cb, d)) == RunReachedGoal(cb, d)
  {
  }

  /**
   * The `set_goal` helper: the state becomes `Moving(cluster)`, the goal is
   * requested (ignored while a continuation is pending) and the wander
   * continuation is registered.
   */
  method SetGoal(behavior: Pathfinder.PathfinderBehavior, goal: (Position, nat), priority: Priority) returns (state: HumanState)
    modifies behavior, behavior.pathfinder
    ensures state == HumanState.Moving(goal.1)
    ensures behavior.reachedGoal == Some(Pathfinder.WanderAfterMoving)
    ensures behavior.pathfinder.currentGoal == if old(behavior.reachedGoal).Some? then old(behavior.pathfinder.currentGoal) else goal.0
    ensures behavior.pathfinder.lastPath == old(behavior.pathfinder.lastPath)
    ensures behavior.pathfinder.pathIndex == old(behavior.pathfinder.pathIndex)
    ensures behavior.pathfinder.lastGoal == old(behavior.pathfinder.lastGoal)
  {
    state := HumanState.Moving(goal.1);
    behavior.SetGoal(goal.0, priority);
    behavior.ReachGoal(Pathfinder.WanderAfterMoving);
  }

  // ---------------------------------------------------------------------------
  // The Idle decision

  /** What an Idle civilian standing on its goal does. */
  datatype Decision =
    | Stay
    | Retarget(goal: Position, priority: Priority)
    | Wander(goal: Position, cluster: nat, priority: Priority)

  /**
   * The decision from the tile under the actor and its objective. The two
   * draws feed `get_target` / `get_target_except`.
   */
  function Decide(tile: Option<Tile>, objective: Option<NewObjective>, data: PathfinderData.GlobalData,
                  draw0: nat, draw1: nat): (r: Decision)
    requires PathfinderData.WellFormed(data)
    ensures tile.None? ==> r == Stay
    ensures r.Wander? ==> r.cluster < |data.points| && r.goal in data.points[r.cluster]
    ensures tile.Some? && KrillTheaterOf(tile.value) == Some(Free) ==>
      r == Wander(PathfinderData.GetTarget(data, draw0, draw1).0, PathfinderData.GetTarget(data, draw0, draw1).1, Low)
    ensures tile.Some? && KrillTheaterOf(tile.value).Some? && KrillTheaterOf(tile.value).value.LineUp? ==>
      r == Retarget(KrillTheaterOf(tile.value).value.target, Low)
    ensures tile.Some? && KrillTheaterOf(tile.value) != Some(Free) && !(KrillTheaterOf(tile.value).Some? && KrillTheaterOf(tile.value).value.LineUp?) ==>
      && r.Wander?
      && r.priority == (if KrillTheaterOf(tile.value) == Some(Exit) then Medium else Low)
      && (objective.Some? ==> (r.goal, r.cluster) == PathfinderData.GetTargetExcept(data, draw0, draw1, objective.value.index))
      && (objective.None? ==> (r.goal, r.cluster) == PathfinderData.GetTarget(data, draw0, draw1))
  {
    match tile
    case None => Stay
    case Some(t) =>
      var zone := KrillTheaterOf(t);
      var priority := if zone == Some(Exit) then Medium else Low;
      if zone == Some(Free) then
        var g := PathfinderData.GetTarget(data, draw0, draw1);
        Wander(g.0, g.1, Low)
      else if zone.Some? && zone.value.LineUp? then
        Retarget(zone.value.target, Low)
      else if objective.Some? then
        var g := PathfinderData.GetTargetExcept(data, draw0, draw1, objective.value.index);
        Wander(g.0, g.1, priority)
      else
        var g := PathfinderData.GetTarget(data, draw0, draw1);
        Wander(g.0, g.1, priority)
  }

  /**
   * A civilian that arrives at its wander goal, off the Free and LineUp
   * zones, next heads to a different cluster whenever there is another.
   */
  lemma {:induction false} NextWanderAvoidsLastCluster(cluster: nat, tile: Tile, data: PathfinderData.GlobalData, draw0: nat, draw1: nat)
    requires PathfinderData.WellFormed(data) && |data.points| >= 2
    requires KrillTheaterOf(tile) != Some(Free)
    requires !(KrillTheaterOf(tile).Some? && KrillTheaterOf(tile).value.LineUp?)
    ensures var s := ContinueWander(HumanState.Moving(cluster));
      && s.Idle?
      && var r := Decide(Some(tile), s.objective, data, draw0, draw1);
         r.Wander? && r.cluster != cluster
  {
    var s := ContinueWander(HumanState.Moving(cluster));
    assert s.objective == Some(WanderButExclude(cluster));
    var g := PathfinderData.GetTargetExcept(data, draw0, draw1, cluster);
    assert g.1 != cluster;
  }

  /** The state after a decision: Wander starts Moving, anything else keeps the state. */
  function AfterDecision(state: HumanState, d: Decision): (r: HumanState)
    ensures d.Wander? ==> r == HumanState.Moving(d.cluster)
    ensures !d.Wander? ==> r == state
  {
    if d.Wander? then HumanState.Moving(d.cluster) else state
  }

  /** Carries out a decision on the behaviour. */
  method Apply(behavior: Pathfinder.PathfinderBehavior, state: HumanState, d: Decision) returns (next: HumanState)
    modifies behavior, behavior.pathfinder
    ensures next == AfterDecision(state, d)
    ensures behavior.reachedGoal == if d.Wander? then Some(Pathfinder.WanderAfterMoving) else old(behavior.reachedGoal)
    ensures behavior.pathfinder.currentGoal ==
      if d.Stay? || old(behavior.reachedGoal).Some? then old(behavior.pathfinder.currentGoal) else d.goal
    ensures behavior.pathfinder.lastPath == old(behavior.pathfinder.lastPath)
    ensures behavior.pathfinder.pathIndex == old(behavior.pathfinder.pathIndex)
    ensures behavior.pathfinder.lastGoal == old(behavior.pathfinder.lastGoal)
  {
    match d
    case Stay =>
      next := state;
    case Retarget(goal, priority) =>
      behavior.SetGoal(goal, priority);
      next := state;
    case Wander(goal, cluster, priority) =>
      next := SetGoal(behavior, (goal, cluster), priority);
  }

  // ---------------------------------------------------------------------------
  // Moving and Panic

  /** The Moving and Panic transitions; only Lerain and Rumdare change state. */
  function ReactStep(characterType: CharacterType, state: HumanState, werewolfSeen: bool): (r: HumanState)
    requires !state.Idle?
    ensures characterType == Player || characterType == CharacterType.Werewolf ==> r == state
    ensures (characterType == Lerain || characterType == Rumdare) && state.Moving? ==>
      r == (if werewolfSeen then HumanState.Panic(state.index) else state)
    ensures (characterType == Lerain || characterType == Rumdare) && state.Panic? ==>
      r == HumanState.Idle(Some(WanderButExclude(state.index)))
  {
    if characterType == Player || characterType == CharacterType.Werewolf then state
    else if state.Moving? then (if werewolfSeen then HumanState.Panic(state.index) else state)
    else HumanState.Idle(Some(WanderButExclude(state.index)))
  }

  /** A civilian that panics keeps its cluster and on the next evaluation wanders away from it. */
  lemma PanicThenWanderAway(characterType: CharacterType, index: nat)
    requires characterType == Lerain || characterType == Rumdare
    ensures ReactStep(characterType, ReactStep(characterType, HumanState.Moving(index), true), false)
         == HumanState.Idle(Some(WanderButExclude(index)))
  {
  }

  /**
   * One tick of the civilian machine: the new state, the new goal and the
   * new pending continuation, from the state, goal and continuation before.
   * An Idle actor first runs the target search; only when it found nothing
   * and stands on its goal does it consult the tile under it. Moving and
   * Panic change the state only.
   */
  function HumanOutcome(characterType: CharacterType, state: HumanState, goal: Position, pending: Option<Pathfinder.ReachedGoal>,
                        data: PathfinderData.GlobalData, grid: Map, position: Position,
                        entries: seq<PathfinderUtil.Entry>, vision: set<Position>, target: CharacterType,
                        draw0: nat, draw1: nat): (r: (HumanState, Position, Option<Pathfinder.ReachedGoal>))
    requires PathfinderData.WellFormed(data)
    reads grid.cells
    ensures !state.Idle? ==> r.1 == goal && r.2 == pending
    ensures pending.Some? ==> r.2 == pending
    ensures r.2 != pending ==> r.2 == Some(Pathfinder.WanderAfterMoving) && r.0.Moving?
    ensures state.Idle? && !r.0.Idle? ==> r.0.Moving? && r.0.index < |data.points|
    ensures state.Idle? && pending.None? && r.0.Moving? ==> r.1 in data.points[r.0.index]
  {
    if !state.Idle? then
      (ReactStep(characterType, state, exists p :: p in vision && BehaviorUtil.WerewolfAt(grid, p)), goal, pending)
    else
      var search := PathfinderUtil.SearchOutcome(goal, pending.Some?, position, entries, target, vision);
      var acts := !search.1 && search.0 == position;
      var d := if acts then Decide(grid.At(position), state.objective, data, draw0, draw1) else Stay;
      // The wander continuation is the only one there is.
      assert pending.Some? ==> pending == Some(Pathfinder.WanderAfterMoving) by {
        if pending.Some? { assert pending.value.WanderAfterMoving?; }
      }
      (AfterDecision(state, d),
       if d.Stay? || pending.Some? then search.0 else d.goal,
       if d.Wander? then Some(Pathfinder.WanderAfterMoving) else pending)
  }

  /**
   * `human_pathfinder`: one tick of the civilian machine on the behaviour.
   * `entries` is the search query, `vision` the visible cells (a parameter).
   */
  method HumanPathfinder(characterType: CharacterType, state: HumanState, data: PathfinderData.GlobalData,
                         behavior: Pathfinder.PathfinderBehavior, grid: Map, position: Position,
                         entries: seq<PathfinderUtil.Entry>, vision: set<Position>, target: CharacterType,
                         draw0: nat, draw1: nat) returns (next: HumanState)
    requires PathfinderData.WellFormed(data)
    modifies behavior, behavior.pathfinder
    ensures behavior.pathfinder.lastPath == old(behavior.pathfinder.lastPath)
    ensures behavior.pathfinder.pathIndex == old(behavior.pathfinder.pathIndex)
    ensures behavior.pathfinder.lastGoal == old(behavior.pathfinder.lastGoal)
    ensures (next, behavior.pathfinder.currentGoal, behavior.reachedGoal) ==
      HumanOutcome(characterType, state, old(behavior.pathfinder.currentGoal), old(behavior.reachedGoal),
                   data, grid, position, entries, vision, target, draw0, draw1)
  {
    match state
    case Idle(objective) =>
      var found := PathfinderUtil.GetPathfinderTarget(behavior, position, entries, target, vision);
      if !found && behavior.IsAt(position) {
        next := Apply(behavior, state, Decide(grid.At(position), objective, data, draw0, draw1));
      } else {
        next := state;
      }
    case Moving(index) =>
      if characterType == Lerain || characterType == Rumdare {
        var seen := BehaviorUtil.HumanPanic(grid, vision);
        next := if seen.Some? then HumanState.Panic(index) else state;
      } else {
        next := state;
      }
    case Panic(index) =>
      next := ReactStep(characterType, state, false);
  }

  /** `lerain_pathfinder`: runs the civilian machine, looking for Werewolves, when the data is Human. */
  method LerainPathfinder(characterType: CharacterType, behaviorData: CharacterBehaviorData, data: PathfinderData.GlobalData,
                          behavior: Pathfinder.PathfinderBehavior, grid: Map, position: Position,
                          entries: seq<PathfinderUtil.Entry>, vision: set<Position>,
                          draw0: nat, draw1: nat) returns (next: CharacterBehaviorData)
    requires PathfinderData.WellFormed(data)
    modifies behavior, behavior.pathfinder
    ensures behaviorData.Werewolf? ==>
      (&& next == behaviorData
       && behavior.pathfinder.currentGoal == old(behavior.pathfinder.currentGoal)
       && behavior.reachedGoal == old(behavior.reachedGoal))
    ensures behaviorData.Human? ==>
      (&& next.Human?
       && (next.humanState, behavior.pathfinder.currentGoal, behavior.reachedGoal) ==
            HumanOutcome(characterType, behaviorData.humanState, old(behavior.pathfinder.currentGoal), old(behavior.reachedGoal),
                         data, grid, position, entries, vision, CharacterType.Werewolf, draw0, draw1))
    ensures behavior.pathfinder.lastPath == old(behavior.pathfinder.lastPath)
    ensures behavior.pathfinder.pathIndex == old(behavior.pathfinder.pathIndex)
    ensures behavior.pathfinder.lastGoal == old(behavior.pathfinder.lastGoal)
  {
    if behaviorData.Human? {
      var s := HumanPathfinder(characterType, behaviorData.humanState, data, behavior, grid, position,
                               entries, vision, CharacterType.Werewolf, draw0, draw1);
      next := CharacterBehaviorData.Human(s);
    } else {
      next := behaviorData;
    }
  }
}
