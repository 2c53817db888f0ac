# Sokoban solver core, modelled in Dafny

This project models the solving core of a Python Sokoban game and solver:

- **the board** (`space.py`): eight cell kinds, four moves, the move rule of `try_move2`, the
  in-place `SokobanState` updates, and the mover check of the level loader;
- **the search problem** (`solver.py`): Manhattan distance, the optimal box-to-destination
  assignment cost (`munkres_distance`), `sokobanHeuristic`, `getSuccessors` with its
  `is_ok` pruning (corner quads and the `expand_wall` wall runs), the goal test, and `solve`;
- **the generic searches** (`search.py`): `GRAPH_SEARCH` over a FIFO queue or a priority
  queue, with its frontier index, explored set, in-place decrease-key and progress hook; the
  `bfs`, `ucs` and `astar` wrappers; `nullHeuristic`; and the stack-based `depthFirstSearch`;
- **the deadlock tables** (`deadlock.py`): space ids in row-scan order, the box-push distance
  matrix from one breadth-first search per cell (`PushBoxProblem`), the areas of cells that
  reach the same destinations, and the `get_distance` and `get_area` queries.

Modules and files:

| Module | File | Models |
|---|---|---|
| `Wrappers` | `wrappers.dfy` | `Option` and `Result` |
| `Space` | `space.dfy` | `space.py` |
| `Util` | `util.dfy` | an abstract specification of the `util.Queue`, `util.PriorityQueue` and `util.Stack` that `search.py` imports; `util.py` itself is not part of this model |
| `Search` | `search.dfy` | `search.py` |
| `Assignment` | `assignment.dfy` | `distance` and `munkres_distance` |
| `Pruning` | `pruning.dfy` | `is_ok` and `expand_wall` |
| `Solver` | `solver.dfy` | the rest of `solver.py` |
| `Deadlock` | `deadlock.dfy` | `deadlock.py` |

How the source's structures are modelled:

- Pure computations are functions with lemmas. Loops become methods proved against those
  functions.
- Objects whose fields change in place are classes: `SokobanState`, the search `Node` whose
  path and cost `GRAPH_SEARCH` rewrites, `Area` (its `positions` list grows), and `Deadlock`.
- The searches work on state values: a `Board` is exactly what `__eq__` and `__hash__`
  compare. Termination of the source's `while True` loops rests on a finite ghost `universe`
  of states. That set holds the start and is closed under successors. For Sokoban it is the
  set of all boards with the start's dimensions.
- Python indexes are unchecked: a negative index wraps, and an index past the end raises.
  The model instead requires a rectangular level whose border cells are static blocks (wall
  or outside), which keeps every probe inside the grid.

Where the source disagrees with itself, the model follows the code that uses the result.
`deadlock.py:136-138` unpacks `bfs` as returning actions and an explored dictionary.
`search.py:52,57` returns the length of the explored set instead. The model's searches
return the explored states as a map from state to path. The size of that map is the count
`search.py` returns, and the map itself is what `_prepare_one` reads. The source's
`exploredSet` stores no path; the model stores, for each explored state, the path its node
had when it was popped, which is a path that reaches it from the start.

## Model

| member | source | states |
|---|---|---|
| Space.Action.Opposite | space.py:14-19 | the opposite action has the negated offset |
| Space.NonStaticInterior | space.py:143-149 | on a bordered level, every neighbour of a cell that is not a static block is inside the grid |
| Space.MoveProbesInGrid | space.py:177-189 | the cell ahead, and the cell beyond it when the cell ahead is not a static block, are inside the grid |
| Space.Step | space.py:177-196 | try_move2's move rule on a board value; defines the move, and its meaning is stated by the Space.StepWalks, Space.StepPushes and Space.StepBlocked rows (and the frame and invariant lemmas after them) |
| Space.StepWalks | space.py:184-188 | a move onto space or a destination moves the mover one cell, pushes no box, and applies leave_man to the old cell |
| Space.StepPushes | space.py:189-194 | with a box ahead and space beyond it, the box lands two cells ahead, that position is returned, and the mover takes the box's cell |
| Space.StepBlocked | space.py:195-196 | every other configuration gives no successor |
| Space.StepFrame | space.py:177-196 | a move changes only the mover's old cell, its new cell, and the pushed box's cell; the grid keeps its dimensions |
| Space.StepKeepsDestinations | space.py:151-168 | no destination appears or vanishes in a move |
| Space.CountSet | space.py:151-168 | overwriting one cell changes a cell count only by the old and the new cell |
| Space.StepLayout | space.py:184-194 | the successor grid is the cell writes of try_move2, in their order |
| Space.StepKeepsBoxCount | space.py:189-194 | a move keeps the number of boxes |
| Space.StepKeepsValid | space.py:151-194 | a move keeps exactly one mover, standing where the board says |
| Space.StepKeepsMovable | space.py:177-196 | a move keeps the level bordered and the mover off static blocks |
| Space.WalkRoundTrip | space.py:184-188 | a walk followed by the opposite walk gives back an equal board |
| Space.SokobanState.constructor | space.py:133-135 | the new state holds the given grid and mover position |
| Space.SokobanState.Equals | space.py:137-138 | two states are equal exactly when both board values are equal |
| Space.SokobanState.EnterMan | space.py:151-156 | the mover moves to (x, y), and the cell becomes mover-on-destination exactly when it was a destination |
| Space.SokobanState.LeaveMan | space.py:158-162 | the mover's cell reverts to space or destination; any other cell is left alone |
| Space.SokobanState.EnterBox | space.py:164-168 | the cell becomes box-on-destination exactly when it was a destination |
| Space.SokobanState.Copy | space.py:170-171 | a fresh object with an equal board |
| Space.SokobanState.TryMove2 | space.py:177-196 | the receiver is unchanged; the result is null exactly when no move applies, otherwise a fresh object holding the move-rule successor and the pushed box position |
| Space.SokobanState.TryMove | space.py:173-175 | the successor object alone |
| Space.SokobanState.IsFinished | space.py:198-203 | true exactly when no cell is an uncovered destination |
| Space.CountBeforeBound | space.py:65-74 | a prefix of the row scan counts no more cells than the whole grid |
| Space.FindMan | space.py:66-78 | the mover's position when exactly one cell holds the mover; "man not found" when none does; "multiple man" when two or more do |
| Space.LoadStates | space.py:65-79 | one state per map, each with its single mover; otherwise the error of the first map without exactly one mover |
| Util.Empty | search.py:38 | an empty frontier of the requested kind |
| Util.Push | search.py:43-45 | the entry is appended with the next insertion number |
| Util.MinIndex | search.py:54 | the chosen entry precedes every entry in (priority, insertion) order |
| Util.PopIndex | search.py:54 | the entry a pop takes is within the frontier |
| Util.Pop | search.py:54 | pop returns the chosen entry's item and removes exactly that entry |
| Util.Find | search.py:71-77 | the first entry holding the item, or -1 when no entry holds it |
| Util.PopIsMinimal | search.py:54 | a priority pop takes an entry that no other entry precedes |
| Util.Update | search.py:77 | the priority queue's `update`; defines it, and its meaning is stated by the Util.UpdateLowersOnly row and by Search.UpdateLowers |
| Util.UpdateLowersOnly | search.py:77 | update keeps items and insertion order, lowers the item's priority when the new one is lower, and raises no priority |
| Search.NullHeuristic | search.py:23-24 | nullHeuristic, the estimate 0 for every state; a constant, used by Search.BreadthFirstSearch and Search.UniformCostSearch |
| Search.Node.constructor | search.py:41 | the node list `[state, path, cost]` (also built at search.py:65): the new node holds exactly the given state, path and cost |
| Search.StatesRemove | search.py:54-55 | removing the popped entry removes exactly its state from the frontier |
| Search.ClosedHoldsReachable | search.py:50-52 | a set that holds the start and every successor of its members holds every reachable state |
| Search.SubsetCard | search.py:59 | a subset is no larger than its superset |
| Search.ExploreOne | search.py:59 | exploring a new non-goal state with a reaching path grows the explored map by one and keeps its invariant |
| Search.PrioritizedAppend | search.py:66-69 | an entry whose priority is its node's cost plus the heuristic (0 without priorities) keeps every entry's priority fitting when appended |
| Search.PrioritizedRemove | search.py:54 | removing one entry keeps every remaining entry's priority fitting |
| Search.PopsLeastEstimate | search.py:54 | a priority pop takes a node of least cost plus heuristic among all frontier entries |
| Search.AddNode | search.py:64-70 | a new node with the extended path and cost is pushed with the given priority (`newFrontier == Push(frontier, node, priority)`), enters the index, and no indexed node changes |
| Search.LowerNode | search.py:71-77 | on a priority frontier, when the new cost is below the indexed node's cost, the node takes the extended path and the lower cost in place and `newFrontier == Update(frontier, node, nextCost + heuristic)`; the entry at the node's first index takes exactly that priority, every entry's priority still fits, and every other indexed node keeps its path and cost |
| Search.AboveNewPriority | search.py:74-77 | before the rewrite, every entry holding the node has a priority above the new one, so `update` lowers it |
| Search.UpdateLowers | search.py:77 | `update` gives the node's entry the new priority, keeps the frontier index, and every entry's priority fits afterwards |
| Search.PrioritizedLowered | search.py:77 | entries that differ only in the lowered entry's priority, which fits the new cost, all have fitting priorities |
| Search.Rewrite | search.py:75-76 | the node of `state` takes the new path and cost in place; every other indexed node and every entry of another node is unchanged, and no cost grows |
| Search.NewSuccessor | search.py:63-70 | a state neither explored nor indexed gets a node with path `solution + [action]` and cost `cost + stepCost`, pushed with priority `nextCost + heuristic` on a priority frontier and 0 otherwise |
| Search.ReachedAgain | search.py:71-77 | a state already in a priority frontier: if `nextCost` is below the node's old cost, path, cost and priority are lowered as in LowerNode and only that node is written (`modifies index[next.state]`), so every other indexed node keeps its path and cost; otherwise the frontier and every node are unchanged |
| Search.ExpandOne | search.py:62-77 | case by case as the source: an explored successor changes nothing; a new one is pushed (`Push`) with the extended path and cost; one already indexed keeps the index, and on a priority frontier is lowered (`Update`) when cheaper, otherwise nothing changes; always: it ends up explored or indexed, nodes stay real walks, priorities fit, no cost grows, and the node of every other state keeps its path and cost |
| Search.StatesUpToExactly | search.py:62 | a state is among the first i successor triples of the loop exactly when one of them names it |
| Search.ExpandAll | search.py:62-77 | after the loop, every successor of the expanded state is explored or in the frontier, every entry's priority is its node's cost plus the heuristic (0 without priorities), every node indexed before is still indexed with a cost that has not grown, and with an unchanged path and cost when there are no priorities or its state is not a successor of the expanded state |
| Search.PopNode | search.py:54-55 | the node the frontier discipline picks is returned and leaves both the frontier (`Pop`) and the index (`index - {state}`) |
| Search.ExpandState | search.py:59-77 | the state joins the explored map with its path, the progress hook sees the new explored size and the frontier size, the loop invariant (with fitting priorities) is restored, and no node indexed before grows in cost; only nodes of successor states can change, and only on a priority frontier |
| Search.StartSearch | search.py:38-46 | the frontier holds only the start node, with path [] and cost 0 |
| Search.SearchStep | search.py:51-77 | a popped goal is returned with a path that reaches it; otherwise the explored map grows by exactly one; on a priority frontier the popped node has the least cost plus heuristic; every other indexed node keeps its place with a cost that has not grown, and keeps its path and cost unless it is the node of a successor of the popped state on a priority frontier |
| Search.GraphSearch | search.py:31-77 | the result is a path to a goal state, or [] with every reachable state explored; each explored state maps to a path that reaches it; progress sees explored sizes 1, 2, 3, ... |
| Search.BreadthFirstSearch | search.py:102-103 | GRAPH_SEARCH with a FIFO queue; with no goal state at all, it explores every reachable state and returns no actions |
| Search.UniformCostSearch | search.py:106-108 | GRAPH_SEARCH with a priority queue and the null heuristic, with the same result guarantees |
| Search.AStarSearch | search.py:111-113 | GRAPH_SEARCH with a priority queue ordered by cost plus heuristic, with the same result guarantees |
| Search.StackPush | search.py:97-99 | pushing a non-explored successor keeps every stack entry a real walk |
| Search.StackPop | search.py:91 | popping the top keeps every remaining entry a real walk |
| Search.DfsPush | search.py:97-99 | an unexplored successor is pushed; an explored one is skipped |
| Search.DfsExpand | search.py:96-99 | after the loop, every successor is explored or on the stack |
| Search.DfsStep | search.py:88-99 | a goal is returned with its reaching path; otherwise the state is marked explored and the loop measure decreases |
| Search.DepthFirstSearch | search.py:80-99 | a path to a goal state, or [] when no goal is reachable from the start |
| Assignment.Distance | solver.py:15-16 | the Manhattan distance is zero exactly for equal positions and bounds each coordinate difference |
| Assignment.DistanceSymmetric | solver.py:15-16 | distance is symmetric |
| Assignment.DistanceTriangle | solver.py:15-16 | distance obeys the triangle inequality |
| Assignment.MinInjectionIsLeast | solver.py:20-24 | no matching of the shorter list into the longer costs less than the minimum |
| Assignment.MinInjectionAttained | solver.py:20-24 | some matching costs exactly the minimum |
| Assignment.MunkresDistance | solver.py:20-24 | munkres_distance; defines it, and its meaning is stated by the Assignment.MunkresDistanceIsOptimal and Assignment.MunkresDistanceEmpty rows |
| Assignment.MunkresDistanceIsOptimal | solver.py:20-24 | munkres_distance is the least cost over all assignments, and some assignment attains it |
| Assignment.MunkresDistanceEmpty | solver.py:20-24 | an empty list gives cost 0 |
| Pruning.QuadsInGrid | solver.py:84-87 | the four quads around a box off the static blocks lie inside the grid |
| Pruning.AnyQuadStuck | solver.py:84-91 | true exactly when some quad is all walls or boxes but not all are walls or boxes on destinations |
| Pruning.WallStart | solver.py:105-111 | each walk begins on the wall line beyond the box: level with the box on the left/down side, one cell further on the right/up side |
| Pruning.WallStartsSplitTheBox | solver.py:105-111 | the left/down walk starts beside the box; the right/up walk starts one cell past it |
| Pruning.ActionIsMove | space.py:14-19 | every action's offset is a unit move |
| Pruning.WallRun | solver.py:104-150 | expand_wall as a recursive walk; defines it, and its meaning is stated by the Pruning.WallRunFindsWall, Pruning.WallRunBoxesOnTargets, Pruning.WallRunStep and Pruning.WallRunEnds rows, and Pruning.ExpandWall is proved equal to it |
| Pruning.WallRunFindsWall | solver.py:115-150 | hasWall is reported exactly when some run of wall-line walls ends on a wall on both lines |
| Pruning.WallRunBoxesOnTargets | solver.py:131-141 | with no plain box on the box line, the walk counts no more boxes than destinations |
| Pruning.WallRunStep | solver.py:131-148 | a counted position adds its box-line cell to the rest of the walk |
| Pruning.WallRunEnds | solver.py:116-143 | the walk ends at the grid edge, off the wall, or on a wall on the box line |
| Pruning.CountBoxLineCell | solver.py:135-141 | a destination counts as a destination, a box as a box, and a box on a destination as both |
| Pruning.ExpandWall | solver.py:104-150 | the loop returns the wall flag and both counts of the walk from its start |
| Pruning.IsOk | solver.py:80-102 | is_ok as a predicate; defines it, and its meaning is stated by the Pruning.AnyQuadStuck and Pruning.WallRunFindsWall rows, and Pruning.IsOkCheck is proved equal to it |
| Pruning.IsOkCheck | solver.py:80-102 | is_ok rejects exactly a stuck quad, or wall runs bounded on both sides holding fewer destinations than boxes |
| Solver.CellsExactly | solver.py:32-37 | the collected list holds exactly the grid positions whose cell qualifies |
| Solver.NearestBox | solver.py:46 | the least mover-to-box distance: no box is nearer, and some box is that near |
| Solver.Heuristic | solver.py:28-49 | the heuristic is non-negative, 0 without plain boxes, and at least the assignment cost otherwise |
| Solver.HeuristicManTerm | solver.py:43-48 | the mover term is the nearest-box distance less one, clamped at zero |
| Solver.CollectBoxesAndDests | solver.py:32-37 | the loop collects exactly the plain boxes and the uncovered destinations, in scan order |
| Solver.SokobanHeuristic | solver.py:28-49 | the loop computes the heuristic |
| Solver.MinDistance | solver.py:46 | the loop computes the nearest-box distance |
| Solver.StepPushedBox | solver.py:71-74 | a pushed box lands inside the bordered level, off the static blocks |
| Solver.Successors | solver.py:67-78 | getSuccessors on board values; defines it, and its meaning is stated by the Solver.SuccessorsExactly row, and Solver.GetSuccessors is proved equal to it |
| Solver.SuccessorsExactly | solver.py:67-78 | at most four successors, one per action, each at cost 1: a walk always, a push exactly when is_ok accepts it |
| Solver.ActionIndex | space.py:14-19 | every action appears in ACTIONS |
| Solver.GetSuccessors | solver.py:67-78 | the loop over ACTIONS returns exactly the successor list |
| Solver.IsGoalState | solver.py:61-62 | the goal test holds exactly when no destination is uncovered |
| Solver.SokobanProblem | solver.py:52-62 | SokobanSearchProblem: the start board, is_finished as the goal test and getSuccessors; its meaning is stated by the Solver.SameShapeBounds and Solver.Solve rows |
| Solver.SameShapeBounds | solver.py:64-65 | the boards of the start's dimensions hold the start and every successor of their members |
| Solver.SuccessorInSameShape | solver.py:67-78 | a successor keeps the board's dimensions |
| Solver.Solve | solver.py:64-65 | either a path of actions to a finished board, or [] when no finished board is reachable; a finished start gives [] and 0 explored boards |
| Deadlock.Area.constructor | deadlock.py:7-10 | an area with the given destination count and no positions |
| Deadlock.Unnumbered | deadlock.py:48 | a -1 for every cell of the level |
| Deadlock.NumberCell | deadlock.py:51-56 | a cell off the static blocks gets the next id, its position and its destination flag |
| Deadlock.NumberSpaces | deadlock.py:47-57 | every cell off the static blocks gets its row-scan index as its id, and every other cell gets -1; ids map back to positions and destination flags; the count equals the number of such cells |
| Deadlock.PushSuccessors | deadlock.py:121-133 | PushBoxProblem.getSuccessors; defines it, and its meaning is stated by the Deadlock.PushSuccessorsExactly row, and Deadlock.GetPushSuccessors is proved equal to it |
| Deadlock.PushSuccessorsExactly | deadlock.py:121-133 | a push succeeds exactly when the box's target and the mover's cell behind it both have ids |
| Deadlock.GetPushSuccessors | deadlock.py:121-133 | the loop returns exactly that successor list |
| Deadlock.PushBoxProblem | deadlock.py:110-119 | PushBoxProblem: the start (id, x, y) and a goal test that always fails; its meaning is stated by the Deadlock.PushBounded and Deadlock.PushSolve rows |
| Deadlock.PushBounded | deadlock.py:110-133 | the numbered cells bound the push search |
| Deadlock.CardByIds | deadlock.py:110-113 | states with distinct ids below n number at most n |
| Deadlock.SpaceIdsBordered | deadlock.py:124-130 | on a bordered level, every probe of a numbered cell lies inside the id grid |
| Deadlock.SpaceIdsIndexed | deadlock.py:69-71 | each push state is determined by its id, and there are at most as many as there are ids |
| Deadlock.PushSolve | deadlock.py:135-138 | the search returns no actions, and every reachable state is explored with a reaching path shorter than the explored count |
| Deadlock.ExploredEntry | deadlock.py:69-71 | an explored cell has a push path of that length; an unexplored cell is unreachable |
| Deadlock.ExploredRow | deadlock.py:66-71 | the written row is the distance row of the start cell |
| Deadlock.RowSoFarStep | deadlock.py:69-71 | one loop step writes the path length of one explored state |
| Deadlock.MatrixStep | deadlock.py:61-64 | visiting a numbered cell fills its row, and visiting any other cell changes nothing |
| Deadlock.ReachableDestsExactly | deadlock.py:77-81 | the list holds exactly the destination ids at finite distance, in ascending order |
| Deadlock.ReachableDestsAgree | deadlock.py:77-81 | rows that agree on finite distances to destinations give the same list |
| Deadlock.SubsetCellsExactly | deadlock.py:94-97 | an area's positions are exactly the cells whose destination tuple is a subset of its key |
| Deadlock.MakeAreas | deadlock.py:87-91 | one fresh, empty area per distinct tuple, whose count is the tuple's length, and no two tuples share an area |
| Deadlock.FillPositions | deadlock.py:93-97 | each area's positions are the cells whose tuple its key covers, in id order |
| Deadlock.KeyMeaning | deadlock.py:76-84 | a cell's tuple is exactly the destinations a box pushed from it can reach |
| Deadlock.AscendingCard | deadlock.py:84 | an ascending tuple has as many distinct destination ids as entries |
| Deadlock.Deadlock.constructor | deadlock.py:17-30 | empty tables and the given layout |
| Deadlock.Deadlock.PrepareSpaceid | deadlock.py:47-58 | the ids are numbered, and every matrix entry starts at UNREACHABLE |
| Deadlock.Deadlock.PrepareOne | deadlock.py:66-71 | only the start cell's row changes, and it becomes that cell's distance row |
| Deadlock.Deadlock.WriteExplored | deadlock.py:69-71 | the loop writes every explored state's path length into the row |
| Deadlock.Deadlock.PrepareDistanceMatrix | deadlock.py:60-64 | every row is its cell's distance row: a push path of that length, or UNREACHABLE exactly when no push reaches the target |
| Deadlock.Deadlock.ReachableDestsOf | deadlock.py:76-81 | the inner loop builds the cell's tuple |
| Deadlock.Deadlock.CollectReachableDests | deadlock.py:75-84 | the loop maps every cell with a non-empty tuple to that tuple, and no other cell |
| Deadlock.Deadlock.PrepareAreas | deadlock.py:73-107 | the area table of every cell is consistent with the distance matrix |
| Deadlock.Deadlock.AreaTable | deadlock.py:100-107 | every id maps to its tuple's area, or to DEADLOCK_AREA when it reaches no destination |
| Deadlock.Deadlock.AreaTableOk | deadlock.py:73-107 | those pieces together give a consistent area table |
| Deadlock.Deadlock.Prepare | deadlock.py:38-41 | after the three phases, ids, distances and areas are all consistent |
| Deadlock.Deadlock.Id | deadlock.py:43-45 | a numbered cell's id is below the count and maps back to that cell |
| Deadlock.Deadlock.GetDistance | deadlock.py:32-33 | 0 from a cell to itself; the length of some push path when the target is reachable; UNREACHABLE otherwise |
| Deadlock.Deadlock.GetArea | deadlock.py:35-36 | the area's count is the number of destinations the cell reaches, and it is DEADLOCK_AREA exactly when the cell reaches none |
| Deadlock.Deadlock.AreaCountsReachableDests | deadlock.py:84-91 | an area's count is the number of distinct destinations a box pushed from the cell can reach |
| Deadlock.Deadlock.SameDestinationsShareArea | deadlock.py:87-105 | cells that reach the same destinations share one area object |
| Deadlock.Deadlock.AreaPositions | deadlock.py:93-97 | a cell is among its own area's positions, and those are exactly the cells whose destinations its destinations cover |

## Left out

- The GUI and I/O: `SokobanLoader` resource paths, reading `map.txt` (only the mover check on
  already-parsed maps is modelled), `load_tiles`, `SokobanSettings`, `read_solution`,
  `save_solution`, `_solve` and `main`. These are file, configuration, multiprocessing and
  console code.
- `sokoban_game.py`, `batchsolver.py` and `batchtimeoutsolver.py` are not part of this model.
- `util.py` is not part of this model. Its `Queue`, `PriorityQueue` and `Stack` are specified
  abstractly in module `Util`: FIFO order, least (priority, insertion) order, LIFO order, and
  an `update` that only lowers priorities. Ties are broken by insertion order, as in a
  heap of (priority, count, item).
- The Hungarian algorithm inside the `munkres` package is not modelled. Its result is
  specified instead: the least cost over all assignments, the optimum the algorithm computes.
  `munkres` pads a non-square matrix with zeros, so only min(|boxes|, |dests|) pairs carry cost.
- Search.ExpandOne: in the cases that change nothing, states that no indexed node's path or
  cost changed (`Unrewritten`) rather than that no node object changed at all, because the
  stronger frame made the loop over the successors too costly to verify. Search.ReachedAgain
  states the full `unchanged(nodes)`.
- Search.GraphSearch: does not state that a priority search returns a least-cost path, or that
  A* with this heuristic is optimal; only that the path reaches a goal.
- Deadlock.Deadlock.GetDistance: states that a finite entry is the length of some push path,
  and not that it is the shortest one, although a breadth-first search finds shortest paths.
- Python's negative-index wrap-around and `IndexError`: the level must be rectangular with a
  static-block border, so no probe leaves the grid.
- Deadlock.Deadlock.GetDistance and Deadlock.Deadlock.GetArea require a cell with an id. On a
  static cell the source's id is -1: `get_distance` then reads the last row, and `get_area`
  raises `KeyError`.
- Deadlock.Deadlock.Prepare: the source appends to `spaceid_to_isdest` and `spaceid_to_pos`,
  so running `prepare` twice duplicates their entries. The model's constructor starts them
  empty and `Prepare` assigns them.
- `DEADLOCK_AREA` is a module-level object in the source. It is a constructor parameter of
  `Deadlock` here, with a count of 0.
- Deadlock.Deadlock.AreaCountsReachableDests and Deadlock.Deadlock.SameDestinationsShareArea
  require at most UNREACHABLE (10000000) ids, which keeps every real distance below the sentinel.
- Dictionary iteration order: the areas' positions come out in id order. Nothing is stated
  about the order in which the source visits the keys of `dests_to_area`.
- The progress hook is recorded as the sequence of its arguments. `nullProgress` and
  user-supplied callbacks are not modelled.
