# rust-like: a verified model of the grid simulation

This project models, in Dafny, the simulation core of the turn-based
roguelike `rust-like`. The core has these parts:

- the grid and its `Position` arithmetic;
- actors moving over occupied tiles;
- room construction on the map;
- the pathfinder bookkeeping that turns an A* path into one movement per turn;
- the goal directors of civilians (Lerain, Rumdare) and werewolves;
- the dialogue cursor, the inventory, and the camera and text rendering of the terminal canvas.

The modelled files come from several revisions of the program, and the
revisions do not agree on the tile type. Each module uses the shapes of
its own file:

- `physics.rs` has a payload-free `Tile` in a flat vector indexed `x + Y*y`.
- `character.rs` has `Tile::Ground(Option<Sprite>)` in the same kind of flat vector.
- The later files use `Tile::Ground{occupier, zone}`, `Wall` and `Obstacle{occupier}` on a
  two-dimensional map. The module `World` declares those shared types (the
  map, occupiers, zones, character types and the behaviour states). The
  later `physics.rs` that declares them is not part of this model.

Modules follow the source files:

| module | source |
|---|---|
| `Physics` | `common/src/physics.rs` |
| `Character` | `common/src/character.rs` |
| `MapSetup` | `common/src/map_setup.rs` |
| `Pathfinder` | `common/src/behaviors/pathfinder/mod.rs` |
| `PathfinderOld` | `common/src/behaviors/pathfinder.rs` (an earlier revision) |
| `MapBrain` | `common/src/map_brain.rs` (the earliest revision) |
| `PathfinderData` | `common/src/behaviors/pathfinder/data.rs` |
| `PathfinderUtil` | `common/src/behaviors/pathfinder/util.rs` |
| `Lerain` | `common/src/behaviors/pathfinder/lerain.rs` |
| `WerewolfPathfinder` | `common/src/behaviors/pathfinder/werewolf.rs` |
| `BehaviorUtil` | `common/src/behaviors/util.rs` |
| `Werewolf` | `common/src/behaviors/werewolf.rs` |
| `Dialogue` | `common/src/dialogue.rs` |
| `Inventory` | `common/src/inventory.rs` |
| `Canvas` | `client/src/canvas.rs` |

Code that changes things in place is modelled as classes and methods:

- the occupancy map, the skip-turn counter, the pathfinder and its behaviour;
- the earliest brain, the dialogue and the inventory;
- the arrays that `physics_update`, `movement_update`, `player_update` and
  `werewolf_update` rewrite;
- the two-dimensional map that `create_room` fills.

Each such method is specified by a function of the old state. The
properties of that function are then proved as lemmas.

Inputs the simulation gets from outside are parameters:

- The A* search is `search: (start, goal) -> Option<seq<Position>>`.
- The set of visible cells is a `set<Position>`.
- Every random draw is an arbitrary `nat` reduced modulo the range, as `gen_range(0..n)` does.
- The helpers that are referenced but not shown are function parameters:
  - `Cooldown::execute`;
  - `data.werewolf.panic(..)` and `data.human.panic(..)`;
  - `Tile::is_occupied`;
  - the collision query;
  - `is_krill_exit`.

Some observations about the code as written are proved as lemmas:

- `Position`'s overridden `ne` holds only when both coordinates differ, so
  it is not the negation of `eq` (`Physics.NeIsNotNegationOfEq`). The
  earliest pathfinder therefore ignores a goal change along one axis
  (`MapBrain.SharedCoordinateChangeIgnored`).
- The flat map of `physics.rs` uses the height `Y` as its row stride. On a
  map wider than tall, two cells share one slot
  (`Physics.StrideAliasesWhenWide`). On a map taller than wide, real cells
  fall outside the vector (`Physics.StrideMissesWhenTall`). A negative
  coordinate is cast to a huge `usize`, and the index `x + Y*y` wraps onto
  a real slot: an entity in column 0 stepping West onto Ground walks off
  the grid (`Physics.PhysicsStepLeavesGrid`).
- The `found_target` flag of `get_pathfinder_target` records the last
  entity the comparator looked at, not the one `min_by` selects. So it can
  report a visible werewolf while the goal is set to a different, invisible
  one (`PathfinderUtil.FlagMayDescribeAnotherEntity`).
- The calm cooldown of a freshly fleeing werewolf is the distance from the
  chosen point to itself, so it is always 0
  (`WerewolfPathfinder.FreshFlightNextTick`).
- `create_room` with an inverted rectangle fills nothing, but it still writes
  its border columns and rows (`MapSetup.InvertedRoomWritesColumns`).

## Model

| member | source | states |
|---|---|---|
| Physics.PosEq | common/src/physics.rs:46-48 | `eq` holds exactly when both coordinates are equal |
| Physics.PosNe | common/src/physics.rs:49-51 | `ne` holds exactly when both coordinates differ, and it implies not-`eq` |
| Physics.NeIsNotNegationOfEq | common/src/physics.rs:46-51 | (1,2) and (1,3) are neither `eq` nor `ne` |
| Physics.NeMissesSharedCoordinate | common/src/physics.rs:49-51 | two distinct positions that share a coordinate are not `ne` |
| Physics.Add | common/src/physics.rs:59-64 | `+` is componentwise: subtracting the right operand gives back the left |
| Physics.Sub | common/src/physics.rs:77-88 | `-` is componentwise: adding the right operand back gives the left |
| Physics.MulLaws | common/src/physics.rs:89-94 | `*` is commutative, has (1,1) as its unit, sends everything to the origin with (0,0), and distributes over `+` |
| Physics.AddVelocity | common/src/physics.rs:65-76 | adding a velocity is undone by subtracting it |
| Physics.AddSubRoundTrip | common/src/physics.rs:59-88 | `(p + q) - q == p` and `(p - q) + q == p` |
| Physics.AddCommutesAndAssociates | common/src/physics.rs:59-64 | `+` is commutative and associative |
| Physics.Distance | common/src/behaviors/pathfinder/mod.rs:141-144 | the squared distance is 0 exactly when the positions are equal |
| Physics.DistanceSymmetric | common/src/behaviors/pathfinder/mod.rs:141-144 | the squared distance is symmetric |
| Physics.Cardinals | common/src/behaviors/pathfinder/mod.rs:135-138 | the four cardinal cells N, E, S, W are distinct and each at distance 1 |
| Physics.AsUsize | common/src/physics.rs:110 | an `i32` cast to `usize` keeps non-negative values and sends negative ones to the top of the range |
| Physics.NewMap | common/src/physics.rs:15-19 | `Map::new` holds exactly X*Y tiles, all Ground |
| Physics.FlatIndexNoOverflow | common/src/physics.rs:20-22 | when `x + Y*y` fits in `usize`, the wrapped index is that sum |
| Physics.Get | common/src/physics.rs:20-22 | `get(x, y)` is the tile at flat index `x + Y*y`, computed with `usize` wrap-around, or None past the end; without overflow it is the slot `x + Y*y` |
| Physics.NewMapIsGround | common/src/physics.rs:15-22 | on a new map, `get` yields Ground exactly when the (wrapped) flat index is in range |
| Physics.StrideAliasesWhenWide | common/src/physics.rs:20-22 | when X > Y >= 2, cells (Y,0) and (0,1) read the same slot |
| Physics.StrideMissesWhenTall | common/src/physics.rs:20-22 | when Y > X >= 1 (and Y*Y fits in `usize`), the in-range cell (X-1, Y-1) reads None |
| Physics.WestOfColumnZeroWraps | common/src/physics.rs:20-22 | `get(-1 as usize, y)` overflows `usize::MAX + Y*y`; wrapped, it reads slot `Y*y - 1`, the tile just before row y |
| Physics.PhysicsStep | common/src/physics.rs:109-113 | the position moves by the velocity exactly when the destination is Ground, else it stays |
| Physics.PhysicsStepLeavesGrid | common/src/physics.rs:107-115 | on an all-Ground map an entity at (0, y) with velocity (-1, 0) moves to (-1, y), off the grid |
| Physics.PhysicsStepStaysOnGround | common/src/physics.rs:107-115 | an entity on Ground is still on Ground after its step |
| Physics.PhysicsUpdate | common/src/physics.rs:107-115 | every entity's position becomes its step |
| Character.Offset | common/src/character.rs:88-94 | Idle moves nothing; each direction moves one cell the right way |
| Character.Slot | common/src/character.rs:59-61 | a position has a slot exactly when both coordinates are non-negative and the flat index is in range |
| Character.Placed | common/src/character.rs:60-77 | a placement keeps the number of tiles |
| Character.Collide | common/src/character.rs:59-81 | `check_collision` is true exactly when the destination is not vacant Ground, and then no tile changes |
| Character.PlacedChangesOnlyEndpoints | common/src/character.rs:60-77 | a placement puts the sprite on the destination, frees the source, and changes nothing else |
| Character.MoveStep | common/src/character.rs:84-94 | the position changes by the offset exactly when the destination was vacant; Idle changes nothing |
| Character.MoveNeverOverwrites | common/src/character.rs:62 | an occupied tile keeps its sprite unless it is the mover's own tile being vacated |
| Character.OccupiedCountUpdate | common/src/character.rs:60-77 | writing one tile changes the occupied count by that tile alone |
| Character.MoveConservesOccupants | common/src/character.rs:73-87 | a move from an occupied tile keeps the number of occupied tiles |
| Character.MoveAll | common/src/character.rs:82-96 | each processed entity ends at its old position or one offset away, an Idle one stays put, and entities not yet processed keep their positions |
| Character.OccupancyMap.CheckCollision | common/src/character.rs:59-81 | the array is updated as `Collide` says, and the result is returned |
| Character.OccupancyMap.MoveEntity | common/src/character.rs:84-94 | one entity's move updates the tiles and position as `MoveStep` says |
| Character.OccupancyMap.MovementUpdate | common/src/character.rs:82-96 | all entities move in turn; each ends where it was or one offset away |
| Character.PlayerUpdate | common/src/character.rs:97-101 | PlayerTag entities take the player's input; the others keep theirs |
| World.OccupierOf | common/src/behaviors/pathfinder/mod.rs:114 | Ground and Obstacle give their own occupier; Wall has none |
| World.KrillTheaterOf | common/src/behaviors/pathfinder/lerain.rs:67-69 | a tile has a krill-theater zone exactly when it is Ground in a KrillTheater zone |
| World.Map.Get | common/src/behaviors/util.rs:9 | `map.get(x as usize, y as usize)` has a tile exactly on the grid, and it is that cell |
| World.Map.At | common/src/behaviors/pathfinder/lerain.rs:67 | the tile at a position exists exactly on the grid, and it is that cell |
| MapSetup.UprightRoomStaysInside | common/src/map_setup.rs:6-31 | border cells lie in the rectangle; cells outside are unchanged; inside, border cells become the border tile and the rest are placed |
| MapSetup.InvertedRoomWritesColumns | common/src/map_setup.rs:15-22 | an inverted rectangle still gets border tiles, outside the empty fill range |
| MapSetup.FillRect | common/src/map_setup.rs:7-13 | in-grid cells of the rectangle are passed through `place_tile`; others are unchanged |
| MapSetup.BorderColumns | common/src/map_setup.rs:15-22 | in-grid cells of the two border columns, within the row range, become the border tile |
| MapSetup.BorderRows | common/src/map_setup.rs:23-30 | in-grid cells of the two border rows, within the column range, become the border tile |
| MapSetup.CreateRoom | common/src/map_setup.rs:6-31 | every in-grid cell ends as the room description says; off-grid coordinates are skipped |
| MapSetup.LineUpZone | common/src/map_setup.rs:37-42 | the zone is KrillTheater Exit exactly when the cell is an exit, else LineUp of the given position |
| MapSetup.SetKrillTheaterLineup | common/src/map_setup.rs:35-49 | only the Ground tile at (x,y) gets the new zone and keeps its occupier; every other cell is unchanged |
| Pathfinder.CheckStep | common/src/behaviors/pathfinder/mod.rs:31-39 | `check` is false exactly at `count == skip_at`, resetting to 0, else it increments; the count stays within `skip_at` |
| Pathfinder.NoSkipBelow | common/src/behaviors/pathfinder/mod.rs:31-39 | no check skips while the count has not reached `skip_at` |
| Pathfinder.OneSkipPerWindow | common/src/behaviors/pathfinder/mod.rs:31-39 | a run of checks that crosses `skip_at` once skips exactly once |
| Pathfinder.Cadence | common/src/behaviors/pathfinder/mod.rs:31-39 | every `skip_at + 1` consecutive checks skip exactly once |
| Pathfinder.FreshCounterSkipsLast | common/src/behaviors/pathfinder/mod.rs:76 | from count 0, the first `skip_at` checks proceed and the next one skips |
| Pathfinder.SkipTurn.Check | common/src/behaviors/pathfinder/mod.rs:31-39 | the counter steps as `CheckStep` says and keeps its bound |
| Pathfinder.SkipTurn.ResetCount | common/src/behaviors/pathfinder/mod.rs:40-42 | the count becomes 0 |
| Pathfinder.Direction | common/src/behaviors/pathfinder/mod.rs:205-219 | North when the waypoint is above, else East, South or West in that order, and Idle exactly on the waypoint |
| Pathfinder.DirectionApproaches | common/src/behaviors/pathfinder/mod.rs:205-219 | the chosen direction strictly reduces the squared distance to a different waypoint |
| Pathfinder.DirectionReachesNeighbor | common/src/behaviors/pathfinder/mod.rs:205-219 | for a cardinal neighbour waypoint, the chosen step lands on it |
| Pathfinder.Follow | common/src/behaviors/pathfinder/mod.rs:203-222 | a waypoint at the index advances it and gives its direction; otherwise Idle and the index stays |
| Pathfinder.FreshPathFirstStep | common/src/behaviors/pathfinder/mod.rs:198-219 | after a fresh path, the first step heads to the path's second cell, or is Idle when the path is only the start |
| Pathfinder.Pathfinder.FollowPath | common/src/behaviors/pathfinder/mod.rs:192-222 | a found path replaces `last_path`, resets the index to 1 and records the goal; a failed search leaves all three; then `Follow` |
| Pathfinder.IsNeighbor | common/src/behaviors/pathfinder/mod.rs:111-127 | a cell with no tile is not enterable; otherwise it is enterable exactly when `is_occupied` is false for its collision |
| Pathfinder.CardinalRank | common/src/behaviors/pathfinder/mod.rs:135-138 | the position of a cardinal cell in the N, E, S, W order |
| Pathfinder.Neighbors | common/src/behaviors/pathfinder/mod.rs:128-140 | exactly the cardinal cells that are enterable or equal the target, in N, E, S, W order |
| Pathfinder.Successors | common/src/behaviors/pathfinder/mod.rs:108-110 | the neighbours, each at cost 1 |
| Pathfinder.PathfinderBehavior.SetSkipTurn | common/src/behaviors/pathfinder/mod.rs:81-84 | `skip_at` is set and the count reset |
| Pathfinder.PathfinderBehavior.SetGoal | common/src/behaviors/pathfinder/mod.rs:86-90 | the goal changes only when no continuation is pending |
| Pathfinder.PathfinderBehavior.ForceGoal | common/src/behaviors/pathfinder/mod.rs:92-96 | the goal is overwritten and the continuation cleared |
| Pathfinder.PathfinderBehavior.ReachGoal | common/src/behaviors/pathfinder/mod.rs:98-100 | the continuation is registered |
| Pathfinder.PathfinderBehavior.IsAt | common/src/behaviors/pathfinder/mod.rs:102-104 | the actor is at its goal exactly when the positions are `eq` |
| Pathfinder.PathfinderBehavior.BeginTick | common/src/behaviors/pathfinder/mod.rs:163-178 | a pending continuation fires once on the goal and is cleared; failed conditions reset the count and skip; else the counter steps |
| Pathfinder.PathfinderBehavior.Navigate | common/src/behaviors/pathfinder/mod.rs:190-222 | the search runs to the current goal and the path bookkeeping follows `FollowPath` |
| PathfinderOld.PathfinderBehavior.Update | common/src/behaviors/pathfinder.rs:116-166 | failed conditions reset the count to Idle; a skipped turn gives Idle without retargeting; otherwise retarget, search and follow the path |
| MapBrain.GoalChanged | common/src/map_brain.rs:34 | a change is detected exactly when both coordinates of the goal differ, and it implies the goals differ |
| MapBrain.Step | common/src/map_brain.rs:33-49 | a change (overridden `!=`) resets the index to 0 and copies `last_goal`; only then can a found path replace `last_path`; the index advances exactly when a waypoint exists |
| MapBrain.ChangeIsConsumed | common/src/map_brain.rs:34-36 | after a detected change the goals agree, so the next execute starts no search |
| MapBrain.SharedCoordinateChangeIgnored | common/src/map_brain.rs:34 | a goal change along one axis is not detected and nothing is searched |
| MapBrain.Successors | common/src/map_brain.rs:56-60 | exactly the four cardinal cells, each at cost 1, with no blocking check |
| MapBrain.SuccessorsAreUnitCells | common/src/map_brain.rs:56-64 | a cell is a successor exactly when its squared distance is 1 |
| MapBrain.UnitDistanceIsCardinal | common/src/map_brain.rs:61-64 | squared distance 1 means a cardinal neighbour |
| MapBrain.Brain.Execute | common/src/map_brain.rs:25-52 | the state becomes `Step` of the old state and the search result; position and velocity are not touched |
| PathfinderData.GetTarget | common/src/behaviors/pathfinder/data.rs:16-24 | the point lies in the cluster whose index is returned, and that index is in range |
| PathfinderData.GetTargetReachesEveryPoint | common/src/behaviors/pathfinder/data.rs:19-21 | every point of every cluster can be drawn |
| PathfinderData.ExceptIndex | common/src/behaviors/pathfinder/data.rs:28-36 | the index is in range, differs from the excluded one when there are two clusters or more, and is the draw when the draw is not excluded |
| PathfinderData.ExceptIndexReachesOthers | common/src/behaviors/pathfinder/data.rs:28-36 | every index other than the excluded one can be drawn |
| PathfinderData.ExceptIndexSingleCluster | common/src/behaviors/pathfinder/data.rs:28-36 | with one cluster the excluded index is returned anyway |
| PathfinderData.GetTargetExcept | common/src/behaviors/pathfinder/data.rs:25-41 | the index is in range and not excluded when there are two clusters or more, and the point lies in that cluster |
| PathfinderData.FirstExit | common/src/behaviors/pathfinder/data.rs:43 | the first exit entry whose first position matches, or None when there is none |
| PathfinderData.IsExitPoint | common/src/behaviors/pathfinder/data.rs:42-48 | None exactly when no exit matches, else the first match's destination and index |
| PathfinderData.ClusterHas | common/src/behaviors/pathfinder/data.rs:52-58 | the inner loop finds the position exactly when it occurs in the cluster |
| PathfinderData.FindCluster | common/src/behaviors/pathfinder/data.rs:52-59 | some remaining cluster contains the position |
| PathfinderData.ContainsPoint | common/src/behaviors/pathfinder/data.rs:51-60 | true exactly when the position occurs in some cluster |
| PathfinderData.DefaultData | common/src/behaviors/pathfinder/data.rs:63-84 | two clusters of 3 and 1 points, and each exit starts at the matching point of the first cluster |
| PathfinderData.DefaultExitsMatchFirstCluster | common/src/behaviors/pathfinder/data.rs:75-79 | default exit i leaves from `points[0][i]` to the listed destination |
| PathfinderUtil.Compare | common/src/behaviors/pathfinder/util.rs:20-36 | target-type entities come before others, and among them the nearer one wins |
| PathfinderUtil.Fold | common/src/behaviors/pathfinder/util.rs:17-36 | `min_by` selects an index in range |
| PathfinderUtil.Probe | common/src/behaviors/pathfinder/util.rs:17-31 | the comparator leaves `found_target` alone when neither entity has the target type; otherwise the flag says whether the inspected target-type entity is a visible Werewolf |
| PathfinderUtil.FoldSelectsNearest | common/src/behaviors/pathfinder/util.rs:20-36 | the selection has the target type when any entity has it, no target is nearer, and every earlier entity compares Greater, so the earliest minimum wins |
| PathfinderUtil.FoundMeansVisibleWerewolf | common/src/behaviors/pathfinder/util.rs:17-19 | a raised flag means the target type is Werewolf and some visible werewolf was compared |
| PathfinderUtil.NonWerewolfTargetNeverFound | common/src/behaviors/pathfinder/util.rs:17-31 | with any other target type the flag is never raised |
| PathfinderUtil.LoneCandidateNeverFound | common/src/behaviors/pathfinder/util.rs:20 | a single entity is never compared, so the flag stays false |
| PathfinderUtil.FlagMayDescribeAnotherEntity | common/src/behaviors/pathfinder/util.rs:17-39 | the flag can be raised by a visible werewolf other than the one selected |
| PathfinderUtil.SearchOutcome | common/src/behaviors/pathfinder/util.rs:20-46 | no candidates: false and the goal kept; not found: own position; found: a target-type entity's position, the target type is Werewolf and some Werewolf entry is visible |
| PathfinderUtil.GetPathfinderTarget | common/src/behaviors/pathfinder/util.rs:7-47 | the goal and the result are `SearchOutcome`; path state is untouched |
| PathfinderUtil.RandomCell | common/src/behaviors/pathfinder/util.rs:50-52 | the random cell lies in `[0,size_x) × [0,size_y)` |
| PathfinderUtil.RandomCellReachesEveryCell | common/src/behaviors/pathfinder/util.rs:50-52 | every cell of the map can be drawn |
| PathfinderUtil.GetRandomTarget | common/src/behaviors/pathfinder/util.rs:49-53 | the goal requested is the drawn cell, inside the map |
| BehaviorUtil.WerewolfOn | common/src/behaviors/util.rs:9-11 | a tile matches exactly when it has a Werewolf-typed occupier; walls and empty tiles never match |
| BehaviorUtil.HumanPanic | common/src/behaviors/util.rs:6-16 | a result is a visible cell holding a werewolf, with its entity; None exactly when no visible cell holds one |
| BehaviorUtil.SetHumanPanic | common/src/behaviors/util.rs:19-29 | the chosen point is requested and the state becomes Panic of the chosen cluster |
| Lerain.ContinueWander | common/src/behaviors/pathfinder/lerain.rs:11-17 | Moving(i) becomes Idle wandering away from i; other states stay |
| Lerain.RunReachedGoal | common/src/behaviors/pathfinder/lerain.rs:11-17 | the continuation rewrites the human state of Human and Werewolf data alike and keeps the werewolf state |
| Lerain.RunReachedGoalIdempotent | common/src/behaviors/pathfinder/lerain.rs:11-17 | running the continuation twice equals running it once |
| Lerain.SetGoal | common/src/behaviors/pathfinder/lerain.rs:9-18 | the state becomes Moving(index), the goal is requested and the continuation registered |
| Lerain.Decide | common/src/behaviors/pathfinder/lerain.rs:67-120 | Free wanders at Low; LineUp requests its target at Low; Exit and no zone wander at Medium and Low, away from the objective's cluster when there is one |
| Lerain.NextWanderAvoidsLastCluster | common/src/behaviors/pathfinder/lerain.rs:11-17 | after arriving from a cluster, the next wander picks another cluster when there are two or more |
| Lerain.AfterDecision | common/src/behaviors/pathfinder/lerain.rs:70-120 | only a wander changes the state, to Moving of its cluster |
| Lerain.Apply | common/src/behaviors/pathfinder/lerain.rs:70-120 | the decision's goal is requested and the state updated |
| Lerain.ReactStep | common/src/behaviors/pathfinder/lerain.rs:124-152 | for Lerain and Rumdare, Moving turns to Panic exactly when a werewolf is seen, and Panic turns to wandering; Player and Werewolf stay |
| Lerain.PanicThenWanderAway | common/src/behaviors/pathfinder/lerain.rs:124-152 | a civilian that sees a werewolf panics and then wanders away from its cluster |
| Lerain.HumanOutcome | common/src/behaviors/pathfinder/lerain.rs:46-154 | Moving and Panic keep the goal and continuation; a pending continuation is never replaced; a new continuation comes only with a start to Moving; an Idle actor that starts Moving heads to an existing cluster, and with no pending continuation its goal is a point of that cluster |
| Lerain.HumanPathfinder | common/src/behaviors/pathfinder/lerain.rs:46-154 | the new state, goal and continuation are `HumanOutcome`: Idle acts on the tile's zone only when the search found nothing and the actor is at its goal; Moving and Panic step by `ReactStep` on whether a werewolf is visible; path state is untouched |
| Lerain.LerainPathfinder | common/src/behaviors/pathfinder/lerain.rs:20-44 | Human behaviour data takes one `HumanOutcome` tick with Werewolf as the search target; Werewolf data is unchanged; `last_path`, `path_index` and `last_goal` are never touched |
| WerewolfPathfinder.BeastStep | common/src/behaviors/pathfinder/werewolf.rs:33-79 | Hunt requests its target or stays put; Panic with a target reverts to Human when the cooldown stops; Panic without one flees to a chosen point |
| WerewolfPathfinder.FreshFlightNextTick | common/src/behaviors/pathfinder/werewolf.rs:67-78 | a fresh flight has cooldown 0; on the next tick the werewolf reverts exactly when the zero cooldown stops |
| WerewolfPathfinder.WerewolfPathfinder | common/src/behaviors/pathfinder/werewolf.rs:5-85 | non-werewolves are unchanged; `last_path`, `path_index` and `last_goal` are never touched; Human form takes one `HumanOutcome` tick with Player as the search target and keeps the werewolf state; Beast form applies `BeastStep` at Medium priority and turns Human when it says so |
| Werewolf.SpriteFor | common/src/behaviors/werewolf.rs:15-19 | Human form shows 'C', Beast form 'W', others keep their sprite |
| Werewolf.SpriteForIdempotent | common/src/behaviors/werewolf.rs:13-21 | updating twice equals updating once; a werewolf's sprite depends on its form alone |
| Werewolf.WerewolfUpdate | common/src/behaviors/werewolf.rs:13-21 | every sprite becomes `SpriteFor` of its entity's data |
| Dialogue.Next | common/src/dialogue.rs:16-20 | the cursor moves down by one unless on the last option, and stays in range |
| Dialogue.Prev | common/src/dialogue.rs:21-25 | the cursor moves up by one unless at 0 |
| Dialogue.IncrementsSaturate | common/src/dialogue.rs:16-20 | k increments leave the cursor at `min(active + k, len - 1)` |
| Dialogue.DecrementsSaturate | common/src/dialogue.rs:21-25 | k decrements leave the cursor at `max(active - k, 0)` |
| Dialogue.Dialogue.Activate | common/src/dialogue.rs:10-15 | text and options are set, the cursor is 0 and the conversation is on |
| Dialogue.Dialogue.Increment | common/src/dialogue.rs:16-20 | the cursor steps as `Next` says and stays in range |
| Dialogue.Dialogue.Decrement | common/src/dialogue.rs:21-25 | the cursor steps as `Prev` says |
| Dialogue.Dialogue.Select | common/src/dialogue.rs:26-30 | Leave ends the conversation; Info re-activates with its text and options |
| Dialogue.Dialogue.Execute | common/src/dialogue.rs:41-48 | Leave changes nothing; Info activates |
| Inventory.NatToString | common/src/inventory.rs:30 | the decimal digits, with no leading zero |
| Inventory.IntToString | common/src/inventory.rs:30 | a leading '-' exactly for negative numbers |
| Inventory.NatRoundTrip | common/src/inventory.rs:30 | reading the digits back gives the number |
| Inventory.IntRoundTrip | common/src/inventory.rs:30 | reading the decimal form back gives the integer |
| Inventory.ItemDeterminedByAccessors | common/src/inventory.rs:1-25 | `get_name`, `get_description` and the heal amount together determine the item |
| Inventory.NewFood | common/src/inventory.rs:16-34 | the name and heal are stored and the description is `Heal for {heal}.` |
| Inventory.FoodDescriptionRoundTrip | common/src/inventory.rs:26-34 | the description spells out the heal amount |
| Inventory.NewApple | common/src/inventory.rs:35-37 | an Apple that heals 1 |
| Inventory.NewBanana | common/src/inventory.rs:38-40 | a Banana that heals 2 |
| Inventory.BoxEq | common/src/inventory.rs:43-48 | `eq` holds exactly for the same allocation, which then holds the same item |
| Inventory.BoxNe | common/src/inventory.rs:49-51 | `ne` holds exactly for different allocations, and always when the items differ |
| Inventory.DistinctBoxes | common/src/inventory.rs:43-51 | two boxes of the same item are not `eq`, and they are `ne` |
| Inventory.Inventory.GetIndex | common/src/inventory.rs:59-67 | the smallest index holding that very box; None exactly when the box is absent |
| Canvas.GetCenterCoordinate | client/src/canvas.rs:13-31 | never past `map - screen + 2`; clamped targets center on `map - target - screen/2`, others on the clamp plus `screen/2 - 1` |
| Canvas.CenterNonIncreasing | client/src/canvas.rs:13-31 | a larger target never gives a larger start |
| Canvas.StartOffset | client/src/canvas.rs:39-48 | the start is 0 on each axis whose map fits on the screen, and within `size - screen + 2` otherwise |
| Canvas.TargetColumnInView | client/src/canvas.rs:39-43 | the target's column is among the first `width - 2` columns drawn |
| Canvas.TargetRowInView | client/src/canvas.rs:42-45 | the target's row is among the first `height - 2` rows drawn |
| Canvas.CameraFollowsTarget | client/src/canvas.rs:39-48 | on every axis the map overflows, the target stays in view |
| Canvas.Glyph | client/src/canvas.rs:59-75 | occupied tiles show the sprite, empty Ground ' ', Wall '#', empty Obstacle '%' |
| Canvas.Render | client/src/canvas.rs:53-83 | one line per row from the start, top of the map first (screen row y shows map row `size_y - 1 - y`), each holding the glyphs from the start column |

## Left out

- Integer widths: positions are `i32` and counters are `u32`/`usize`, but the model uses unbounded integers. Overflow of `+`, `*`, `count += 1` and `distance`'s `as u32` casts is not modelled. Only the `as usize` casts of coordinates and the wrapping index `x + Y*y` of the earliest `Map::get` are written out, and that index follows a release build, which wraps.
- Panics as debug builds raise them are preconditions, not modelled error paths: the `usize` subtractions of the canvas (`Canvas.GetCenterCoordinate`, `Canvas.StartOffset`), the `len() - 1` of `Dialogue.Dialogue.Increment` and the option index of `Dialogue.Dialogue.Select` each `requires` the inputs on which the source does not panic.
- Physics.Distance: stated once for the three revisions (`map_brain.rs`, `pathfinder.rs`, `pathfinder/mod.rs` carry textually identical copies). The same holds for `Pathfinder.Neighbors`/`Successors`/`IsNeighbor`, which stand for `pathfinder.rs`'s copies as well.
- The A* search of the `pathfinding` crate is a foreign library. It is a function parameter, and only the bookkeeping around it is proved.
- `get_in_vision` and `MapCache` are not part of this model. The visible cells are a set parameter. `HumanPanic` may report any visible werewolf, because the iteration order of a hash set is left open.
- Randomness (`rand::thread_rng`) is modelled as arbitrary draws reduced modulo the range.
- The helpers that are referenced but not shown are function parameters:
  - `Cooldown::execute`;
  - `data.werewolf.panic`, `data.human.panic` and their `enemy`/`get`/`get_except` builders;
  - `Tile::is_occupied` and `is_krill_exit`;
  - the collision query.
- `Tile::krill_theater` is not shown. `World.KrillTheaterOf` takes it to return the zone of a Ground tile in a KrillTheater zone, and None otherwise.
- Physics.Get: the index `x + Y*y` wraps as in a release build. A debug build panics on that overflow instead, for example when an entity in column 0 steps West (`Physics.WestOfColumnZeroWraps`); the model does not capture the panic.
- PathfinderUtil.RandomCell: `requires` a non-empty map, because `gen_range(0..0)` panics on an empty range. The same holds for `PathfinderUtil.GetRandomTarget`.
- `get_mut_from_map` is not shown. It is taken to index the flat vector like `Map::get`, but to find no tile at a negative coordinate (`Character.Slot`).
- `Priority`: the shown `set_goal` takes no priority. Later callers pass one, and the model accepts and ignores it.
- `reach_goal_then` is not shown. It is modelled as registering its continuation, as `reach_goal` does. The continuation is the single closure `lerain.rs` passes (`Pathfinder.WanderAfterMoving`), not an arbitrary function.
- `check_conditions` is not shown. It is a boolean parameter.
- The goal director (`target` field) is not called through a stored function pointer. `Pathfinder.PathfinderBehavior.BeginTick` and `Navigate` bracket the director call, and `PathfinderOld.PathfinderBehavior.Update` takes the retargeting as a function parameter.
- The per-entity loops `pathfinder_update` and `brain_update` are not modelled: each entity's tick is independent of the others. `par_for_each_mut` in `physics_update` is modelled as a sequential loop.
- `PathfinderData.GetTarget`: the source's `points` has exactly two clusters and three exits. The model accepts any non-empty list of non-empty clusters; `DefaultData` pins the shipped values.
- `town` in `common/src/map_setup.rs` (hard-coded layout and entity spawning) is left out.
- `common/src/behaviors/pathfinder/rumdare.rs`, `common/src/battle_brain.rs`, `common/src/loot_menu.rs`, `common/src/util.rs`, `common/src/lib.rs`, `client/src/render.rs`, `client/src/util.rs`, `client/src/constants.rs` and `src/main.rs` are left out. They hold dispatch, spawning, terminal I/O, threads and widget wiring, with no logic of their own to state.
- Canvas.Render: the vision set computed in `render` is unused by the code as written, so it is left out. The `tui` paragraph, its border and its centring are left out, and the model stops at the text lines.
- Inventory: `heal` is an `i32` newtype; `format!` is modelled as the decimal rendering `IntToString`.
- Bevy's `Query`, `Res`, `Entity` and components are sequences, arrays and integer handles.
