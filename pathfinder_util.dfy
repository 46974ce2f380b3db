/**
 * Target selection shared by the civilian and Rumdare directors: the
 * nearest entity of a given type, found by a `min_by` whose comparator also
 * records whether a Werewolf was seen, and a random goal on the map.
 */
module PathfinderUtil {
  import opened Wrappers
  import Physics
  import opened World
  import Pathfinder

  /** One row of the search query: the entity's type and position. */
  type Entry = (CharacterType, Position)

  datatype Ordering = Less | Equal | Greater

  /**
   * The comparator: entities of the target type come first, ordered by
   * squared distance to `self`; two other entities compare equal.
   */
  function Compare(a: Entry, b: Entry, target: CharacterType, self: Position): (o: Ordering)
    ensures a.0 == target && b.0 != target ==> o == Less
    ensures a.0 != target && b.0 == target ==> o == Greater
    ensures a.0 != target && b.0 != target ==> o == Equal
    ensures a.0 == target && b.0 == target ==>
      (o == Less <==> Physics.Distance(self, a.1) < Physics.Distance(self, b.1)) &&
      (o == Greater <==> Physics.Distance(self, a.1) > Physics.Distance(self, b.1))
  {
    if a.0 == target then
      if b.0 == target then
        var da, db := Physics.Distance(self, a.1), Physics.Distance(self, b.1);
        if da < db then Less else if da == db then Equal else Greater
      else Less
    else if b.0 == target then Greater
    else Equal
  }

  /**
   * The comparator's side effect on `found_target`: when it inspects an
   * entity of the target type it records whether that entity is a visible
   * Werewolf; otherwise the flag keeps its value.
   */
  function Probe(a: Entry, b: Entry, target: CharacterType, vision: set<Position>, found: bool): (r: bool)
    ensures a.0 != target && b.0 != target ==> r == found
    ensures a.0 == target || b.0 == target ==>
      (r <==> target == CharacterType.Werewolf && (if a.0 == target then a.1 else b.1) in vision)
  {
    if a.0 == target then a.1 in vision && a.0 == CharacterType.Werewolf
    else if b.0 == target then b.1 in vision && b.0 == CharacterType.Werewolf
    else found
  }

  /**
   * `min_by` over the first `n` entries: (index of the kept minimum, flag).
   * The accumulator is the left operand and is kept unless it compares
   * Greater.
   */
  function Fold(entries: seq<Entry>, n: nat, target: CharacterType, self: Position, vision: set<Position>): (r: (nat, bool))
    requires 1 <= n <= |entries|
    ensures r.0 < n
  {
    if n == 1 then (0, false)
    else
      var prev := Fold(entries, n - 1, target, self, vision);
      var next := entries[n - 1];
      var keep := Compare(entries[prev.0], next, target, self) != Greater;
      (if keep then prev.0 else n - 1, Probe(entries[prev.0], next, target, vision, prev.1))
  }

  /**
   * The kept entry is of the target type whenever one exists, no entry of
   * that type is nearer to `self`, and every earlier entry compares Greater
   * than it: among equally near targets the earliest wins.
   */
  lemma {:induction false} FoldSelectsNearest(entries: seq<Entry>, n: nat, target: CharacterType, self: Position, vision: set<Position>)
    requires 1 <= n <= |entries|
    ensures var k := Fold(entries, n, target, self, vision).0;
      && ((exists i :: 0 <= i < n && entries[i].0 == target) ==> entries[k].0 == target)
      && (entries[k].0 == target ==>
            forall j :: 0 <= j < n && entries[j].0 == target ==>
              Physics.Distance(self, entries[k].1) <= Physics.Distance(self, entries[j].1))
      && (forall j :: 0 <= j < k ==> Compare(entries[j], entries[k], target, self) == Greater)
  {
    if n > 1 {
      FoldSelectsNearest(entries, n - 1, target, self, vision);
      var k := Fold(entries, n, target, self, vision).0;
      var p := Fold(entries, n - 1, target, self, vision).0;
      if (exists i :: 0 <= i < n && entries[i].0 == target) && entries[p].0 != target {
        assert entries[n - 1].0 == target;
      }
      if k == n - 1 {
        // The new entry replaced the accumulator, so it is a target strictly
        // nearer than every earlier target.
        assert Compare(entries[p], entries[n - 1], target, self) == Greater;
        assert entries[n - 1].0 == target;
        forall j | 0 <= j < n - 1
          ensures Compare(entries[j], entries[n - 1], target, self) == Greater
        {
          if entries[j].0 == target {
            assert entries[p].0 == target;
          }
        }
      }
    }
  }

  /** A raised flag always stems from an entity of the target type that is a visible Werewolf. */
  lemma {:induction false} FoundMeansVisibleWerewolf(entries: seq<Entry>, n: nat, target: CharacterType, self: Position, vision: set<Position>)
    requires 1 <= n <= |entries|
    requires Fold(entries, n, target, self, vision).1
    ensures target == CharacterType.Werewolf
    ensures exists i :: 0 <= i < n && entries[i].0 == CharacterType.Werewolf && entries[i].1 in vision
  {
    if n > 1 {
      var prev := Fold(entries, n - 1, target, self, vision);
      var a, b := entries[prev.0], entries[n - 1];
      if a.0 == target {
        assert entries[prev.0].1 in vision;
      } else if b.0 == target {
        assert entries[n - 1].1 in vision;
      } else {
        FoundMeansVisibleWerewolf(entries, n - 1, target, self, vision);
      }
    }
  }

  /** With a target type other than Werewolf the flag is never raised. */
  lemma NonWerewolfTargetNeverFound(entries: seq<Entry>, target: CharacterType, self: Position, vision: set<Position>)
    requires 1 <= |entries|
    requires target != CharacterType.Werewolf
    ensures !Fold(entries, |entries|, target, self, vision).1
  {
    if Fold(entries, |entries|, target, self, vision).1 {
      FoundMeansVisibleWerewolf(entries, |entries|, target, self, vision);
    }
  }

  /** A lone candidate is never compared, so it is never reported as found. */
  lemma LoneCandidateNeverFound(e: Entry, target: CharacterType, self: Position, vision: set<Position>)
    ensures Fold([e], 1, target, self, vision) == (0, false)
  {
  }

  /**
   * The flag describes the last entity the comparator inspected, which need
   * not be the one kept: here a visible far Werewolf raises it while the
   * nearer, invisible one is selected.
   */
  lemma FlagMayDescribeAnotherEntity()
    ensures var entries := [(CharacterType.Werewolf, Physics.Position(5, 0)), (CharacterType.Werewolf, Physics.Position(1, 0))];
      var r := Fold(entries, 2, CharacterType.Werewolf, Physics.Position(0, 0), {Physics.Position(5, 0)});
      r == (1, true) && entries[r.0].1 !in {Physics.Position(5, 0)}
  {
    assert Physics.Distance(Physics.Position(0, 0), Physics.Position(5, 0)) == 25;
    assert Physics.Distance(Physics.Position(0, 0), Physics.Position(1, 0)) == 1;
  }

  /** What a raised flag tells about the query and the kept entry. */
  lemma FoldFacts(entries: seq<Entry>, target: CharacterType, self: Position, vision: set<Position>)
    requires 1 <= |entries|
    ensures var f := Fold(entries, |entries|, target, self, vision);
      f.1 ==> && target == CharacterType.Werewolf
              && (exists i :: 0 <= i < |entries| && entries[i].0 == CharacterType.Werewolf && entries[i].1 in vision)
              && entries[f.0].0 == target
  {
    var f := Fold(entries, |entries|, target, self, vision);
    if f.1 {
      FoundMeansVisibleWerewolf(entries, |entries|, target, self, vision);
      FoldSelectsNearest(entries, |entries|, target, self, vision);
    }
  }

  /**
   * The (goal, result) `get_pathfinder_target` leaves: with a pending
   * continuation the goal request is ignored.
   */
  function SearchOutcome(goal: Position, pending: bool, position: Position, entries: seq<Entry>,
                         target: CharacterType, vision: set<Position>): (r: (Position, bool))
    ensures |entries| == 0 ==> r == (goal, false)
    ensures pending ==> r.0 == goal
    ensures !pending && |entries| > 0 && !r.1 ==> r.0 == position
    ensures r.1 ==>
      && target == CharacterType.Werewolf
      && exists i :: 0 <= i < |entries| && entries[i].0 == CharacterType.Werewolf && entries[i].1 in vision
    ensures !pending && r.1 ==> exists i :: 0 <= i < |entries| && entries[i].0 == target && r.0 == entries[i].1
  {
    if |entries| == 0 then (goal, false)
    else
      var f := Fold(entries, |entries|, target, position, vision);
      FoldFacts(entries, target, position, vision);
      (if pending then goal else if f.1 then entries[f.0].1 else position, f.1)
  }

  /**
   * `get_pathfinder_target`: an empty query returns false and sets nothing.
   * Otherwise a raised flag requests the kept entity's position, a lowered
   * one requests the actor's own position, both at Low priority.
   */
  method GetPathfinderTarget(behavior: Pathfinder.PathfinderBehavior, position: Position, entries: seq<Entry>,
                             target: CharacterType, vision: set<Position>) returns (found: bool)
    modifies behavior.pathfinder
    ensures (behavior.pathfinder.currentGoal, found) ==
      SearchOutcome(old(behavior.pathfinder.currentGoal), behavior.reachedGoal.Some?, position, entries, target, vision)
    ensures |entries| == 0 ==> !found && behavior.pathfinder.currentGoal == old(behavior.pathfinder.currentGoal)
    ensures |entries| > 0 ==> var f := Fold(entries, |entries|, target, position, vision);
      && found == f.1
      && behavior.pathfinder.currentGoal ==
           if behavior.reachedGoal.Some? then old(behavior.pathfinder.currentGoal)
           else if f.1 then entries[f.0].1 else position
    ensures behavior.pathfinder.lastPath == old(behavior.pathfinder.lastPath)
    ensures behavior.pathfinder.pathIndex == old(behavior.pathfinder.pathIndex)
    ensures behavior.pathfinder.lastGoal == old(behavior.pathfinder.lastGoal)
  {
    if |entries| == 0 {
      return false;
    }
    var best := 0;
    found := false;
    var i := 1;
    while i < |entries|
      invariant 1 <= i <= |entries|
      invariant (best, found) == Fold(entries, i, target, position, vision)
    {
      var keep := Compare(entries[best], entries[i], target, position) != Greater;
      found := Probe(entries[best], entries[i], target, vision, found);
      if !keep {
        best := i;
      }
      i := i + 1;
    }
    if found {
      behavior.SetGoal(entries[best].1, Low);
    } else {
      behavior.SetGoal(position, Low);
    }
  }

  /** The goal `get_random_target` draws: a cell inside the map's bounds. */
  function RandomCell(sizeX: nat, sizeY: nat, drawX: nat, drawY: nat): (p: Position)
    requires sizeX > 0 && sizeY > 0
    ensures 0 <= p.x < sizeX && 0 <= p.y < sizeY
  {
    Physics.Position(drawX % sizeX, drawY % sizeY)
  }

  /** Every cell of the map can be drawn. */
  lemma RandomCellReachesEveryCell(sizeX: nat, sizeY: nat, x: nat, y: nat)
    requires x < sizeX && y < sizeY
    ensures RandomCell(sizeX, sizeY, x, y) == Physics.Position(x, y)
  {
    assert x % sizeX == x && y % sizeY == y;
  }

  /** `get_random_target`: requests a random in-map cell at Low priority. */
  method GetRandomTarget(grid: Map, behavior: Pathfinder.PathfinderBehavior, drawX: nat, drawY: nat)
    requires grid.SizeX() > 0 && grid.SizeY() > 0
    modifies behavior.pathfinder
    ensures behavior.pathfinder.currentGoal ==
      if behavior.reachedGoal.Some? then old(behavior.pathfinder.currentGoal)
      else RandomCell(grid.SizeX(), grid.SizeY(), drawX, drawY)
    ensures behavior.pathfinder.lastPath == old(behavior.pathfinder.lastPath)
    ensures behavior.pathfinder.pathIndex == old(behavior.pathfinder.pathIndex)
    ensures behavior.pathfinder.lastGoal == old(behavior.pathfinder.lastGoal)
  {
    behavior.SetGoal(RandomCell(grid.SizeX(), grid.SizeY(), drawX, drawY), Low);
  }
}
