/**
 * The earliest pathfinder: a brain behaviour that re-searches only when it
 * detects a goal change, and detects it with the overridden `!=` of
 * Physics, which holds only when both coordinates differ.
 */
module MapBrain {
  import opened Wrappers
  import Physics

  type Position = Physics.Position

  /** The fields of `Behavior::Pathfinder` as a value. */
  datatype BrainState = BrainState(currentGoal: Position, lastGoal: Position, lastPath: seq<Position>, pathIndex: nat)

  /** The goal-change test of `execute`. */
  function GoalChanged(s: BrainState): (r: bool)
    ensures r ==> s.currentGoal != s.lastGoal
    ensures r <==> s.currentGoal.x != s.lastGoal.x && s.currentGoal.y != s.lastGoal.y
  {
    Physics.PosNe(s.currentGoal, s.lastGoal)
  }

  /**
   * `execute` on the state, given what the search returns for the goal it
   * would search toward (used only when a change is detected).
   */
  function Step(s: BrainState, found: Option<seq<Position>>): (r: BrainState)
    ensures r.lastGoal == s.lastGoal
    ensures GoalChanged(s) ==> r.currentGoal == s.lastGoal
    ensures !GoalChanged(s) ==> r.currentGoal == s.currentGoal && r.lastPath == s.lastPath
    ensures r.lastPath == s.lastPath || (GoalChanged(s) && found.Some? && r.lastPath == found.value)
    ensures GoalChanged(s) && found.Some? ==> r.lastPath == found.value
    ensures var i := if GoalChanged(s) then 0 else s.pathIndex;
      (i < |r.lastPath| ==> r.pathIndex == i + 1) && (i >= |r.lastPath| ==> r.pathIndex == i)
  {
    var changed := GoalChanged(s);
    var goal := if changed then s.lastGoal else s.currentGoal;
    var index := if changed then 0 else s.pathIndex;
    var path := if changed && found.Some? then found.value else s.lastPath;
    BrainState(goal, s.lastGoal, path, if index < |path| then index + 1 else index)
  }

  /** After a detected change the two goals agree, so the next tick does not search again. */
  lemma ChangeIsConsumed(s: BrainState, found: Option<seq<Position>>, again: Option<seq<Position>>)
    requires GoalChanged(s)
    ensures var r := Step(s, found);
      && Physics.PosEq(r.currentGoal, r.lastGoal)
      && !GoalChanged(r)
      && Step(r, again).lastPath == r.lastPath
  {
  }

  /**
   * A new goal that shares a coordinate with the old one goes unnoticed:
   * the brain keeps its goal and path and only walks on along the old path.
   */
  lemma SharedCoordinateChangeIgnored(s: BrainState, found: Option<seq<Position>>)
    requires s.currentGoal != s.lastGoal
    requires s.currentGoal.x == s.lastGoal.x || s.currentGoal.y == s.lastGoal.y
    ensures var r := Step(s, found);
      && r.currentGoal == s.currentGoal && r.currentGoal != r.lastGoal
      && r.lastPath == s.lastPath
      && r.pathIndex == if s.pathIndex < |s.lastPath| then s.pathIndex + 1 else s.pathIndex
  {
    Physics.NeMissesSharedCoordinate(s.currentGoal, s.lastGoal);
  }

  /** `successors`: the four cardinal cells, each at cost 1, nothing blocked. */
  function Successors(p: Position): (r: seq<(Position, nat)>)
    ensures |r| == 4
    ensures forall i :: 0 <= i < 4 ==> r[i].1 == 1 && Physics.Distance(p, r[i].0) == 1
    ensures forall i :: 0 <= i < 4 ==> r[i].0 == Physics.Cardinals(p)[i]
  {
    var c := Physics.Cardinals(p);
    [(c[0], 1), (c[1], 1), (c[2], 1), (c[3], 1)]
  }

  /** The successors are exactly the cells at squared distance 1. */
  lemma {:induction false} SuccessorsAreUnitCells(p: Position, q: Position)
    ensures Physics.Distance(p, q) == 1 <==> exists i :: 0 <= i < 4 && Successors(p)[i].0 == q
  {
    if Physics.Distance(p, q) == 1 {
      UnitDistanceIsCardinal(p, q);
      var c := Physics.Cardinals(p);
      var i :| 0 <= i < 4 && c[i] == q;
      assert Successors(p)[i].0 == q;
    }
  }

  /** The cells at squared distance 1 are exactly the four cardinal cells. */
  lemma UnitDistanceIsCardinal(p: Position, q: Position)
    requires Physics.Distance(p, q) == 1
    ensures q in Physics.Cardinals(p)
  {
    var dx, dy := q.x - p.x, q.y - p.y;
    SquareAtLeastAbs(dx);
    SquareAtLeastAbs(dy);
    assert dx * dx + dy * dy == 1;
  }

  lemma SquareAtLeastAbs(d: int)
    ensures d * d >= (if d >= 0 then d else -d)
  {
    if d >= 1 {
      assert d * d >= 1 * d;
    } else if d <= -1 {
      assert d * d == (-d) * (-d);
      assert (-d) * (-d) >= 1 * (-d);
    }
  }

  /** `Behavior::Pathfinder`: the brain's mutable fields. */
  class Brain {
    var currentGoal: Position
    var lastGoal: Position
    var lastPath: seq<Position>
    var pathIndex: nat

    function State(): BrainState
      reads this
    {
      BrainState(currentGoal, lastGoal, lastPath, pathIndex)
    }

    /**
     * `execute`: the position and velocity it receives are left as they are,
     * so they are plain value parameters here. `search` stands for A* over
     * Successors with the squared-distance heuristic.
     */
    method Execute(position: Position, search: (Position, Position) -> Option<seq<Position>>)
      modifies this
      ensures State() == Step(old(State()), search(position, old(lastGoal)))
    {
      if Physics.PosNe(currentGoal, lastGoal) {
        pathIndex := 0;
        currentGoal := lastGoal;
        var found := search(position, currentGoal);
        if found.Some? {
          lastPath := found.value;
        }
      }
      if pathIndex < |lastPath| {
        pathIndex := pathIndex + 1;
      }
    }
  }
}
