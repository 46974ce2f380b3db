/**
 * The shared wander data: clusters of wander points and the exit points of
 * the krill theater. A random draw `gen_range(0..n)` is an arbitrary natural
 * number reduced modulo n.
 */
module PathfinderData {
  import opened Wrappers
  import Physics

  type Position = Physics.Position

  /** `PathfinderGlobalData`: `points` are the wander clusters; each exit maps an inner cell to an outer one. */
  datatype GlobalData = GlobalData(points: seq<seq<Position>>, exitPoints: seq<(Position, Position)>)

  /** `gen_range(0..len)` panics on an empty range, so every range drawn from must be non-empty. */
  predicate WellFormed(d: GlobalData)
  {
    |d.points| >= 1 && forall i :: 0 <= i < |d.points| ==> |d.points[i]| >= 1
  }

  /** `get_target`: a random point of a random cluster, with the cluster's index. */
  function GetTarget(d: GlobalData, draw0: nat, draw1: nat): (r: (Position, nat))
    requires WellFormed(d)
    ensures r.1 < |d.points|
    ensures r.0 in d.points[r.1]
  {
    var i0 := draw0 % |d.points|;
    var i1 := draw1 % |d.points[i0]|;
    (d.points[i0][i1], i0)
  }

  /** Every point of every cluster is a possible result of `get_target`. */
  lemma GetTargetReachesEveryPoint(d: GlobalData, i0: nat, i1: nat)
    requires WellFormed(d)
    requires i0 < |d.points| && i1 < |d.points[i0]|
    ensures GetTarget(d, i0, i1) == (d.points[i0][i1], i0)
  {
    ModOfSmaller(i0, |d.points|);
    ModOfSmaller(i1, |d.points[i0]|);
  }

  lemma ModOfSmaller(a: nat, n: nat)
    requires a < n
    ensures a % n == a
  {
  }

  /** The cluster index `get_target_except` settles on: a hit on the excluded index moves to the next one, wrapping to 0. */
  function ExceptIndex(length: nat, draw: nat, exclude: nat): (i: nat)
    requires length >= 1
    ensures i < length
    ensures length >= 2 ==> i != exclude
    ensures draw % length != exclude ==> i == draw % length
  {
    var i0 := draw % length;
    if i0 == exclude then (if i0 == length - 1 then 0 else i0 + 1) else i0
  }

  /** Every cluster other than the excluded one can be drawn. */
  lemma ExceptIndexReachesOthers(length: nat, exclude: nat, i: nat)
    requires i < length && i != exclude
    ensures ExceptIndex(length, i, exclude) == i
  {
    ModOfSmaller(i, length);
  }

  /** With a single cluster the exclusion cannot be honoured: cluster 0 is returned. */
  lemma ExceptIndexSingleCluster(draw: nat, exclude: nat)
    ensures ExceptIndex(1, draw, exclude) == 0
  {
  }

  /** `get_target_except`: like `get_target`, avoiding cluster `exclude` whenever there is another. */
  function GetTargetExcept(d: GlobalData, draw0: nat, draw1: nat, exclude: nat): (r: (Position, nat))
    requires WellFormed(d)
    ensures r.1 < |d.points|
    ensures |d.points| >= 2 ==> r.1 != exclude
    ensures r.0 in d.points[r.1]
  {
    var i0 := ExceptIndex(|d.points|, draw0, exclude);
    var i1 := draw1 % |d.points[i0]|;
    (d.points[i0][i1], i0)
  }

  /** The first exit whose inner cell is `position`, from index `from` on. */
  function FirstExit(exits: seq<(Position, Position)>, position: Position, from: nat): (r: Option<nat>)
    requires from <= |exits|
    ensures r.Some? ==> from <= r.value < |exits| && exits[r.value].0 == position
    ensures r.Some? ==> forall j :: from <= j < r.value ==> exits[j].0 != position
    ensures r.None? ==> forall j :: from <= j < |exits| ==> exits[j].0 != position
    decreases |exits| - from
  {
    if from == |exits| then None
    else if exits[from].0 == position then Some(from)
    else FirstExit(exits, position, from + 1)
  }

  /** `is_exit_point`: the outer cell and index of the first exit at `position`, if any. */
  function IsExitPoint(d: GlobalData, position: Position): (r: Option<(Position, nat)>)
    ensures r.None? <==> forall i :: 0 <= i < |d.exitPoints| ==> d.exitPoints[i].0 != position
    ensures r.Some? ==> var i := r.value.1;
      && i < |d.exitPoints|
      && d.exitPoints[i].0 == position
      && r.value.0 == d.exitPoints[i].1
      && forall j :: 0 <= j < i ==> d.exitPoints[j].0 != position
  {
    var index := FirstExit(d.exitPoints, position, 0);
    if index.Some? then Some((d.exitPoints[index.value].1, index.value)) else None
  }

  /** The inner loop of `contains_point`: the cluster holds `position` at or after `from`. */
  function ClusterHas(v: seq<Position>, position: Position, from: nat): (r: bool)
    requires from <= |v|
    ensures r <==> exists j :: from <= j < |v| && v[j] == position
    decreases |v| - from
  {
    if from == |v| then false
    else if v[from] == position then true
    else ClusterHas(v, position, from + 1)
  }

  /** The outer `find` of `contains_point`, from cluster `from` on. */
  function FindCluster(points: seq<seq<Position>>, position: Position, from: nat): (r: bool)
    requires from <= |points|
    ensures r <==> exists i, j :: from <= i < |points| && 0 <= j < |points[i]| && points[i][j] == position
    decreases |points| - from
  {
    if from == |points| then false
    else if ClusterHas(points[from], position, 0) then true
    else FindCluster(points, position, from + 1)
  }

  /** `contains_point`: the position is a wander point of some cluster. */
  function ContainsPoint(d: GlobalData, position: Position): (r: bool)
    ensures r <==> exists i, j :: 0 <= i < |d.points| && 0 <= j < |d.points[i]| && d.points[i][j] == position
  {
    FindCluster(d.points, position, 0)
  }

  /** The data built by `from_world`: two clusters, and one exit per point of the first. */
  function DefaultData(): (d: GlobalData)
    ensures WellFormed(d) && |d.points| == 2 && |d.points[0]| == 3 && |d.exitPoints| == 3
    ensures forall i :: 0 <= i < 3 ==> d.exitPoints[i].0 == d.points[0][i]
  {
    var points := [
      [Physics.Position(110, 42), Physics.Position(69, 10), Physics.Position(151, 10)],
      [Physics.Position(3, 3)]
    ];
    GlobalData(points, [
      (points[0][0], Physics.Position(110, 45)),
      (points[0][1], Physics.Position(69, 7)),
      (points[0][2], Physics.Position(151, 7))
    ])
  }

  /** In the default data each point of the first cluster is an exit, found at its own index. */
  lemma DefaultExitsMatchFirstCluster(i: nat)
    requires i < 3
    ensures var d := DefaultData();
      IsExitPoint(d, d.points[0][i]) == Some((d.exitPoints[i].1, i))
  {
  }
}
