# Sokobot, the DPLL satisfiability check and the article-chain finder, in Dafny

This project models three small search programs and proves what each one
computes.

**Sokobot** (`Sprint2/Sokobot/solver.py`) is an A* Sokoban solver that
optimises the number of pushes. The model covers every step of it:

- A level text is parsed into walls, floors, goals, boxes and a player.
  Parsing rejects a level with no player, with no boxes, or with unequal
  numbers of boxes and goals.
- Dead cells are floor cells that no goal's reverse-push flood reaches.
- The player's walk region is found by a breadth-first flood fill. The
  player is normalised to the row-major least cell of that region.
- The heuristic is the cheapest one-to-one matching of boxes to goals by
  Manhattan distance.
- The freeze-deadlock test looks for a box stuck on both axes that is not
  on a goal.
- The A* loop searches over push states. `_build_solution` then follows the
  `came_from` links back from the goal state.
- `Solution.to_moves` expands the pushes into lower-case walk moves and
  upper-case push moves.

Three flood fills share one module, `Flood`: the walk region, player
normalisation and the reverse-push flood of the dead-cell computation.

**DPLL** is the `solve` function of the 3-CNF phase-transition experiment.
The repository holds it twice, in `Sprint2/Satisfaction/sat_phase_transition.py`
and in `Sprint2/sat_phase_transition.py`. The two copies are identical, two
lines apart; the table below cites the first. Each call of `dpll` runs unit
propagation in passes, then a branch scan, then tries true before false.
The model proves that `solve` answers true exactly when some assignment of
the formula's variables satisfies every clause.

**The article-chain finder** is `find_chain` and `_dfs` in
`wikipedia-chain/search.py`. It is a bidirectional, iterative-deepening
search with one depth-limited DFS per round and direction. A per-direction
cache holds each title's links, and the two recorded paths are spliced at a
meeting title. The link lookups `get_outgoing_links` and `get_backlinks` are
parameters of the model: pure functions from a title to its list of links.
Whether the backlinks are the inverse of the outgoing links is a hypothesis
of the lemmas that need it.

Modules, one per file: `Wrappers` (Option and Result), `Grid` (cells,
directions, row-major order), `Flood`, `Level`, `Pushes`, `Heuristic`,
`Freeze`, `Astar`, `Moves`, `Dpll` and `Chain`.

## Model

Functions that only compute are listed through the lemmas that state their
properties: `Level.Build` through `Level.Parse` and `Level.ParseFields`;
`Level.IsInterior` through `Level.InteriorSpaces`; `Chain.Fetch` through
`Chain.FetchOk` and `Chain.FetchLog`; `Chain.Dfs` and `Chain.Scan` through
`Chain.DfsGrows`, `Chain.DfsLog`, `Chain.DfsSound`, `Chain.ScanSound`,
`Chain.DfsComplete`, `Chain.ScanShallow` and `Chain.ScanStale`; `Dpll.Dpll`
through `Dpll.DpllSound`, `Dpll.DpllComplete` and `Dpll.DpllDecides`;
`Dpll.IsTrue` through `Dpll.IsTrueStable` and `Dpll.IsTrueNegation`.

| member | source | states |
|---|---|---|
| `Grid.Opposite` | Sprint2/Sokobot/solver.py:32 | Stepping in a direction and then in its opposite returns to the starting cell. |
| `Grid.BackForth` | Sprint2/Sokobot/solver.py:26-32 | Stepping back against a direction and then along it returns to the cell; this is the geometry behind "the player stands at box minus d". |
| `Grid.Enumerate` | Sprint2/Sokobot/solver.py:249-250 | Listing a cell set gives each member exactly once and nothing else, with length equal to the set's size. This is how the model iterates over a set. |
| `Flood.TryDir` | Sprint2/Sokobot/solver.py:225-230 | Looking one step from a dequeued cell keeps the flood well formed. An allowed neighbour ends up visited. Every newly visited cell is queued and is one flood step from the dequeued cell. |
| `Flood.ExpandDirs` | Sprint2/Sokobot/solver.py:206-210 | After trying the directions in order, every allowed neighbour in any of them is visited, nothing already queued is lost, and the running minimum is untouched. |
| `Flood.Pop` | Sprint2/Sokobot/solver.py:201-210 | One turn of the BFS loop keeps the loop invariant. That invariant covers the parent links, the BFS depths, the least cell seen so far and the expansion of every dequeued cell. Each turn either visits a new floor cell or shortens the queue. |
| `Flood.VisitKeepsWf` | Sprint2/Sokobot/solver.py:227-230 | Recording a neighbour as visited, with its parent and its depth one below, keeps the flood's bookkeeping well formed. |
| `Flood.Explore` | Sprint2/Sokobot/solver.py:222-230 | When the queue empties, the visited set is closed under flood steps, contains everything seen before, and the recorded least cell is its row-major minimum. |
| `Flood.Run` | Sprint2/Sokobot/solver.py:214-231 | The whole flood from a start is well formed and closed under steps, and its least cell is the minimum of the region. |
| `Flood.ExploreLeast` | Sprint2/Sokobot/solver.py:222-230 | The loop adds nothing outside any step-closed set that holds what it has already seen. |
| `Flood.RunLeast` | Sprint2/Sokobot/solver.py:214-231 | The flood region is the least step-closed set holding the start. Together with `Flood.Run`, the region is exactly the reachable cells. |
| `Flood.Trace` | Sprint2/Sokobot/solver.py:234-240 | A traced path starts at `start`, ends at the requested cell, and each cell's predecessor in it is that cell's recorded parent. |
| `Flood.ReconstructPath` | Sprint2/Sokobot/solver.py:234-240 | `_reconstruct_path` on any parent map: a path it returns starts at `start`, ends at `end`, and follows the recorded parents; from `start` to itself it is just `[start]`. |
| `Flood.TraceReachesRoot` | Sprint2/Sokobot/solver.py:237-238 | On the flood's own parent map, tracing back from any visited cell reaches the start and stays inside the region, so the source's `while` loop terminates. |
| `Flood.ReconstructFromRun` | Sprint2/Sokobot/solver.py:234-240 | `_reconstruct_path` on the flood's parents always succeeds for a reachable cell. It yields a flood path from the start to that cell inside the region. |
| `Flood.SameRegion` | Sprint2/Sokobot/solver.py:214-231 | Every start inside a walk region floods that same region. |
| `Level.StripNewlines` | Sprint2/Sokobot/solver.py:56 | `rstrip("\n")` removes exactly the trailing newlines: the result is a prefix of the text that does not end in a newline, and only newlines were removed. |
| `Level.Split` | Sprint2/Sokobot/solver.py:56 | `split("\n")` yields at least one line, and no line holds a newline. |
| `Level.JoinSplit` | Sprint2/Sokobot/solver.py:56 | Joining the split lines with newlines gives the text back, so splitting loses nothing. |
| `Level.MaxLen` | Sprint2/Sokobot/solver.py:58 | The width is at least every line's length and equals some line's length. |
| `Level.InteriorSpaces` | Sprint2/Sokobot/solver.py:112-131 | A space counts as floor only strictly inside the level: never on the first or last line, and never at either end of its own line. The padding around a level is therefore never floor. |
| `Level.ScanPlayer` | Sprint2/Sokobot/solver.py:66-76 | The row-major scan for `@` and `+` keeps the last one. The result is a player character, no later cell holds one, and the result is none exactly when the text has no player character. |
| `Level.CellKinds` | Sprint2/Sokobot/solver.py:66-84 | Walls are never floor. Goals, boxes and player cells always are floor. |
| `Level.Parse` | Sprint2/Sokobot/solver.py:54-109 | The errors, in the order `parse_level` checks them: the level fails with no player exactly when there is no player character, and with no boxes exactly when a player exists but no box. A count mismatch carries the number of box cells and the number of goal cells in the text, which differ, the box count positive. A level is accepted exactly when it has a player character, at least one box, and as many boxes as goals. On success: walls and floors are disjoint; goals, boxes and the player lie on floor; there are as many boxes as goals and at least one; dead cells are non-goal floor; the height is the number of lines. |
| `Level.ParseFields` | Sprint2/Sokobot/solver.py:95-109 | Every field of a parsed level is the one read off the text: wall, goal, floor and box cells, dead cells of those, widest line, line count and the scanned player. |
| `Level.ParseCells` | Sprint2/Sokobot/solver.py:66-84 | A cell is a wall, goal or box of the parsed level exactly when the text draws `#`, a goal character or a box character there. No line is wider than the width. |
| `Level.ParsePlayer` | Sprint2/Sokobot/solver.py:73-76 | The parsed player stands on a player character, and no player character comes after it in row-major order. |
| `Level.UnionOver` | Sprint2/Sokobot/solver.py:150-175 | The accumulated union holds a cell exactly when some goal's flood holds it. |
| `Level.UnionOverSet` | Sprint2/Sokobot/solver.py:152 | A union over any listing of the goals is the union over the goal set, so the order of `for goal in goals` does not matter. |
| `Level.DeadCells` | Sprint2/Sokobot/solver.py:138-177 | Dead cells are non-goal floor cells. Such a cell is dead exactly when no goal's reverse-push flood reaches it. |
| `Level.ReachedNotDead` | Sprint2/Sokobot/solver.py:175-177 | A cell some goal's flood reaches is never dead. |
| `Level.PullRegionClosed` | Sprint2/Sokobot/solver.py:152-174 | A goal lies in its own reverse-push flood, and that flood is closed under reverse pushes. |
| `Level.PushChainBack` | Sprint2/Sokobot/solver.py:165-172 | A set closed under reverse pushes holds the first cell of every chain of single-box pushes that ends inside it. |
| `Level.DeadCellIsHopeless` | Sprint2/Sokobot/solver.py:143-148 | The meaning of "dead": no chain of single-box pushes, each with the player's cell free, leads from a dead cell to a goal. |
| `Level.LiveCellIsReached` | Sprint2/Sokobot/solver.py:143-148 | The converse: a floor cell that is not dead is joined to some goal by a flood path of the reverse-push flood. |
| `Pushes.PlayerReachable` | Sprint2/Sokobot/solver.py:214-231 | The reachable set holds the player, is the walk region, and is closed under walking. Every other cell in it is floor that is neither wall nor box. |
| `Pushes.RegionIsLeast` | Sprint2/Sokobot/solver.py:214-231 | The walk region lies inside every walk-closed set holding the player, so nothing unreachable is in it. |
| `Pushes.Normalize` | Sprint2/Sokobot/solver.py:193-211 | The normalised cell is the row-major minimum of the player's walk region, and it is no later than the player's own cell. |
| `Pushes.NormalizeSameRegion` | Sprint2/Sokobot/solver.py:193-196 | Two player cells in one walk region normalise to the same cell, so equivalent positions give equal states. |
| `Pushes.ReachablePath` | Sprint2/Sokobot/solver.py:234-240 | For every reachable cell, reconstruction gives a walk from the player to it over adjacent walkable cells inside the region. |
| `Pushes.Push` | Sprint2/Sokobot/solver.py:399-420 | A candidate push is accepted exactly when the cell behind the box is reachable and the cell in front is no wall, no box and no dead cell. The new boxes differ from the old only by the box moving there, the box count is kept, and the new player is the normalised cell from the box's old position. |
| `Pushes.ReplayKeepsCount` | Sprint2/Sokobot/solver.py:418 | Playing any legal push list keeps the number of boxes. |
| `Pushes.ReplayCons` | Sprint2/Sokobot/solver.py:456-462 | A legal push followed by a list playable from where it leaves off is playable as a whole, and ends with the same boxes. |
| `Heuristic.MinMatchLowerBound` | Sprint2/Sokobot/solver.py:263-268 | The recursive minimum matching costs no more than any rearrangement of the goals. |
| `Heuristic.MinMatchAttained` | Sprint2/Sokobot/solver.py:263-268 | Some rearrangement of the goals costs exactly the minimum matching. |
| `Heuristic.AssignmentIsPermutation` | Sprint2/Sokobot/solver.py:264-265 | A one-to-one assignment of goals to boxes is a rearrangement of the goal listing. |
| `Heuristic.Heuristic` | Sprint2/Sokobot/solver.py:247-268 | `_heuristic` is never more than the cost of its first permutation, the i-th listed box to the i-th listed goal. |
| `Heuristic.HeuristicIsLowerBound` | Sprint2/Sokobot/solver.py:247-268 | `_heuristic` is at most the total Manhattan cost of every one-to-one box-to-goal assignment. |
| `Heuristic.HeuristicIsAttained` | Sprint2/Sokobot/solver.py:247-268 | Some one-to-one assignment costs exactly `_heuristic`, so it is the minimum over all `permutations`. |
| `Heuristic.HeuristicEmpty` | Sprint2/Sokobot/solver.py:251-253 | With no boxes the heuristic is 0. |
| `Heuristic.HeuristicSolved` | Sprint2/Sokobot/solver.py:247-268 | When every box is on a goal the heuristic is 0. |
| `Freeze.StuckMonotone` | Sprint2/Sokobot/solver.py:288-292 | Freezing more boxes never unfreezes a stuck box. |
| `Freeze.Sweep` | Sprint2/Sokobot/solver.py:283-296 | One sweep only adds boxes of the sweep, reports a change exactly when it added one, and keeps every frozen box stuck. When nothing changes, no unfrozen box of the sweep is stuck. |
| `Freeze.NoChangeIsFixpoint` | Sprint2/Sokobot/solver.py:281-296 | A sweep over all boxes that changes nothing leaves exactly the boxes stuck against the frozen set frozen. |
| `Freeze.Settle` | Sprint2/Sokobot/solver.py:280-296 | Sweeping until nothing changes ends at a fixpoint: the frozen boxes are exactly the boxes stuck against them. |
| `Freeze.Frozen` | Sprint2/Sokobot/solver.py:277-296 | The frozen set lies within the boxes and is a fixpoint of "stuck on both axes". |
| `Freeze.FrozenIsLeast` | Sprint2/Sokobot/solver.py:280-296 | The frozen set is the least such fixpoint, so the result does not depend on the order in which `for box in box_set` visits the boxes. |
| `Freeze.WalledInIsFrozen` | Sprint2/Sokobot/solver.py:288-295 | A box with walls on both sides on both axes is always frozen. |
| `Freeze.HasFreezeDeadlock` | Sprint2/Sokobot/solver.py:275-302 | A freeze deadlock exists exactly when some frozen box is not on a goal. There is never one when every box is on a goal. |
| `Astar.MinEntryExists` | Sprint2/Sokobot/solver.py:376-377 | A non-empty open heap has an entry with the least `(f, g)`, which is what `heappop` returns. |
| `Astar.PopKeepsInv` | Sprint2/Sokobot/solver.py:377 | Removing any entry from the heap keeps the search invariant. |
| `Astar.CloseKeepsInv` | Sprint2/Sokobot/solver.py:379-382 | Closing a known state keeps the invariant, and the start state is closed from the first expansion on. |
| `Astar.RecordKeepsInv` | Sprint2/Sokobot/solver.py:429-443 | Recording a cheaper way to a new state keeps the invariant. Every link still names a closed predecessor with a smaller push count and a legal push from it, and every heap entry is a known state scored no lower than its `g_score`. |
| `Astar.PathPart` | Sprint2/Sokobot/solver.py:438-440 | The player path recorded with a push walks from the state's normalised player cell to the push cell. |
| `Astar.BoxPart` | Sprint2/Sokobot/solver.py:403-418 | An accepted push moves its box one step onto a cell that is no wall, no box and no dead cell. |
| `Astar.LinkIsLegal` | Sprint2/Sokobot/solver.py:438-443 | A recorded step from a state whose player is normalised is a legal push from where the player really stands. |
| `Astar.TryPush` | Sprint2/Sokobot/solver.py:400-443 | Handling one (box, direction) candidate, with the closed-set, freeze and score checks, keeps the search ready to go on and closes nothing. |
| `Astar.ExpandBox` | Sprint2/Sokobot/solver.py:401-443 | The same for the four directions on one box, tried up, down, left, right. |
| `Astar.ExpandBoxes` | Sprint2/Sokobot/solver.py:399-443 | The same for every box of the state. |
| `Astar.Expand` | Sprint2/Sokobot/solver.py:391-443 | Expanding a state keeps the search invariant and the player normalisation, and closes nothing. |
| `Astar.StepBack` | Sprint2/Sokobot/solver.py:458-461 | Following one `came_from` link back reaches a known state with a strictly smaller push count. The recorded push, played from there, prepends to a playable list with the same final boxes. |
| `Astar.KnownNorm` | Sprint2/Sokobot/solver.py:419 | An expanded state's player is the normalised cell of where the player really stands. |
| `Astar.StartInv` | Sprint2/Sokobot/solver.py:362-373 | The initial heap, scores and empty links satisfy the search invariant. |
| `Astar.BuildSolution` | Sprint2/Sokobot/solver.py:449-463 | Following the links back from an expanded goal state terminates. The pushes, reversed, are playable from the level's start and end with the goal state's boxes. |
| `Astar.SolveLevel` | Sprint2/Sokobot/solver.py:352-446 | A box on a dead cell fails at once. A level with all boxes on goals is solved by no pushes with 0 states explored. With no expansions allowed, an unsolved level fails. A found solution explores at most `max_states` states, its pushes are playable from the start, and they leave every box on a goal. |
| `Astar.Solve` | Sprint2/Sokobot/solver.py:342-349 | A text fails exactly when parsing fails, with the parser's error. A solution found is playable on the parsed level and leaves every box on a goal. |
| `Moves.Match` | Sprint2/Sokobot/solver.py:333-336 | The direction found has the step's deltas and is in the list. Nothing is found exactly when no listed direction has them. |
| `Moves.DecodeName` | Sprint2/Sokobot/solver.py:335-338 | A move name reads back to its direction and kind, and a name that reads as a move is that move's name. |
| `Moves.MatchStep` | Sprint2/Sokobot/solver.py:329-336 | The deltas of a direction's step select that direction. |
| `Moves.AdjacentMove` | Sprint2/Sokobot/solver.py:329-336 | Between adjacent cells the emitted move is the lower-case name of the direction that steps from one to the other. |
| `Moves.WalkAlongPath` | Sprint2/Sokobot/solver.py:328-336 | Along a path of adjacent cells there is one walk move per step and no push move, and following the moves from the first cell ends at the last. |
| `Moves.ActionFollow` | Sprint2/Sokobot/solver.py:327-338 | One push's moves take the player from the start of its walk onto the box's old cell, with one push move. |
| `Moves.ReplaysWalked` | Sprint2/Sokobot/solver.py:310-315 | Every push of a playable list has a walk of adjacent cells that ends behind its box. |
| `Moves.MovesCount` | Sprint2/Sokobot/solver.py:323-339 | For walked pushes, the moves hold exactly one upper-case move per push and one lower-case move per walk step. |
| `Moves.ToMoves` | Sprint2/Sokobot/solver.py:323-339 | `to_moves` yields one upper-case move per push whatever the walks, and, when every walk steps between adjacent cells, exactly one lower-case move per walk step. |
| `Moves.SolutionMoves` | Sprint2/Sokobot/solver.py:323-339 | The moves of a solution found by the search have one upper-case move per push and one lower-case move per walk step. |
| `Moves.PushCountAny` | Sprint2/Sokobot/solver.py:337-338 | Whatever the walks, each push contributes exactly one upper-case move. |
| `Moves.WalkNoPush` | Sprint2/Sokobot/solver.py:328-336 | A walk never yields an upper-case move, even between cells that are not adjacent. |
| `Dpll.IsTrueStable` | Sprint2/Satisfaction/sat_phase_transition.py:53-58 | A literal with a value keeps it as the assignment grows. |
| `Dpll.IsTrueNegation` | Sprint2/Satisfaction/sat_phase_transition.py:53-58 | A literal and its negation are unassigned together; once the variable has a value they have opposite values. |
| `Dpll.ScanClause` | Sprint2/Satisfaction/sat_phase_transition.py:66-76 | The scan reports "satisfied" exactly when some literal is true. Otherwise the list it collects holds every unassigned literal of the clause and nothing else. |
| `Dpll.NoneLeftIsFalse` | Sprint2/Satisfaction/sat_phase_transition.py:77-78 | A clause with no true and no unassigned literal is false, so the conflict return is justified. |
| `Dpll.Pass` | Sprint2/Satisfaction/sat_phase_transition.py:64-83 | A pass without conflict only extends the assignment, over the formula's variables. It reports a change exactly when it bound a variable. |
| `Dpll.PassUnit` | Sprint2/Satisfaction/sat_phase_transition.py:79-83 | On a unit clause, the pass makes its one unassigned literal true and goes on with the next clause. |
| `Dpll.PassStable` | Sprint2/Satisfaction/sat_phase_transition.py:62-83 | After a pass that changed nothing, every clause is true or has at least two unassigned literals. |
| `Dpll.Propagate` | Sprint2/Satisfaction/sat_phase_transition.py:61-83 | Propagation terminates, and it only extends the assignment over the formula's variables. |
| `Dpll.PropagateStable` | Sprint2/Satisfaction/sat_phase_transition.py:61-83 | What propagation returns leaves every clause true or with at least two unassigned literals. |
| `Dpll.ScanBranch` | Sprint2/Satisfaction/sat_phase_transition.py:88-95 | The branch scan of one clause reports "satisfied" exactly when some literal is true. It keeps an already chosen variable, and otherwise picks the variable of an unassigned literal. With none picked and no true literal, the clause is false. |
| `Dpll.Choose` | Sprint2/Satisfaction/sat_phase_transition.py:85-100 | The status check answers "all satisfied" only when every clause is true, and "unsatisfied" only when some clause is false. A branching variable is an unassigned variable of the formula. |
| `Dpll.DpllSound` | Sprint2/Satisfaction/sat_phase_transition.py:60-109 | When `dpll` answers true, some assignment of all the variables that keeps the current bindings satisfies every clause. |
| `Dpll.BranchSound` | Sprint2/Satisfaction/sat_phase_transition.py:102-107 | A branch that answers true carries a model of the formula that keeps the bindings before branching. |
| `Dpll.PassKeepsModel` | Sprint2/Satisfaction/sat_phase_transition.py:64-83 | A pass never meets a conflict while a model keeps the current bindings, and the model keeps what the pass binds. |
| `Dpll.UnitAgrees` | Sprint2/Satisfaction/sat_phase_transition.py:79-83 | A model that keeps the bindings makes a unit clause's one unassigned literal true. |
| `Dpll.PropagateKeepsModel` | Sprint2/Satisfaction/sat_phase_transition.py:61-83 | Propagation keeps every model: no conflict, and the model keeps what propagation binds. |
| `Dpll.DpllComplete` | Sprint2/Satisfaction/sat_phase_transition.py:60-109 | When some assignment of all the variables that keeps the current bindings satisfies every clause, `dpll` answers true. |
| `Dpll.DpllDecides` | Sprint2/Satisfaction/sat_phase_transition.py:111 | `dpll({})` answers true exactly when the formula is satisfiable. |
| `Dpll.Solve` | Sprint2/Satisfaction/sat_phase_transition.py:36-111 | `solve` answers true exactly when some assignment of the formula's variables satisfies every clause. |
| `Dpll.EmptyCases` | Sprint2/Satisfaction/sat_phase_transition.py:36-111 | The empty formula is satisfiable, and a formula holding an empty clause is not. |
| `Dpll.TautologyClause` | Sprint2/Satisfaction/sat_phase_transition.py:36-111 | A clause holding a literal and its negation is satisfiable. |
| `Dpll.OppositeUnits` | Sprint2/Satisfaction/sat_phase_transition.py:36-111 | A variable forced true by one clause and false by another makes the formula unsatisfiable. |
| `Dpll.TwoUnitsAndClash` | Sprint2/Satisfaction/sat_phase_transition.py:36-111 | x, y and (not x or not y) are unsatisfiable. |
| `Dpll.RepeatedButSatisfiable` | Sprint2/Satisfaction/sat_phase_transition.py:36-111 | A formula of repeated literals that has a model is answered true. |
| `Dpll.RepeatedIsNotUnit` | Sprint2/Satisfaction/sat_phase_transition.py:66-83 | A clause repeating one unassigned literal collects it three times. Propagation therefore does not count it as a unit clause. |
| `Chain.FetchOk` | wikipedia-chain/search.py:64-68 | A lookup through the cache returns the title's links and leaves the title cached. The cache stays faithful to the lookup function, and no recorded path changes. |
| `Chain.FetchLog` | wikipedia-chain/search.py:64-68 | The lookup function is called at most once per title. |
| `Chain.DfsGrows` | wikipedia-chain/search.py:51-75 | `_dfs` overwrites no recorded path and no cache entry, and the cache stays faithful to the lookup function. |
| `Chain.DfsLog` | wikipedia-chain/search.py:64-75 | Across a whole `_dfs`, each title's links are fetched at most once. |
| `Chain.DfsSound` | wikipedia-chain/search.py:51-75 | Every recorded path is a chain of links from the root to its title, of at most `max_depth + 1` titles. |
| `Chain.ScanSound` | wikipedia-chain/search.py:70-75 | The same for the loop over one title's links. |
| `Chain.DfsComplete` | wikipedia-chain/search.py:51-75 | With the corrected descent, `_dfs` from a recorded title records every title within `max_depth - depth` links of it. |
| `Chain.ScanShallow` | wikipedia-chain/search.py:61-75 | At the last level, a round records exactly the new links. |
| `Chain.ScanStale` | wikipedia-chain/search.py:70-71 | As written, a loop whose links are all recorded already changes nothing. |
| `Chain.RoundsOk` | wikipedia-chain/search.py:28-35 | After any number of rounds, the cache is faithful and the log repeat-free. Every recorded path is a chain from the root of at most `rounds + 1` titles. |
| `Chain.RoundsComplete` | wikipedia-chain/search.py:28-35 | With the corrected descent, after `n` rounds every title within `n` links of the root is recorded. |
| `Chain.FirstRound` | wikipedia-chain/search.py:28-35 | The first round records exactly the root and its links. |
| `Chain.FirstVisitRounds` | wikipedia-chain/search.py:28-35 | As written, every round after the first leaves the recorded paths unchanged: only the root and its direct links are ever recorded. |
| `Chain.Reverse` | wikipedia-chain/search.py:43 | Reversal keeps the length and reads the path backwards. |
| `Chain.Splice` | wikipedia-chain/search.py:43 | `fp + rev(bp)[1:]` starts with the whole forward path, adds only titles of the backward path, is one title shorter than the two together, and ends at the backward path's root when the two meet at their last titles. |
| `Chain.SpliceEnds` | wikipedia-chain/search.py:41-43 | A forward path to the meeting title and a backward path to it splice into a chain from start to end, one title shorter than the two together. |
| `Chain.SpliceWalk` | wikipedia-chain/search.py:41-43 | When backlinks invert outgoing links, the splice of two walks is a chain of outgoing links. |
| `Chain.Best` | wikipedia-chain/search.py:39-46 | The loop over the meeting titles, in any order, returns a splice at some meeting title that no other meeting title's splice beats in length. |
| `Chain.FoundChain` | wikipedia-chain/search.py:37-46 | A chain found in round `d` runs from start to end, has at most `2d + 1` titles, and is a chain of links when backlinks invert outgoing links. |
| `Chain.MiddleTitle` | wikipedia-chain/search.py:28-37 | A chain of at most `n + m` links has a title `n` links from its start and, by backlinks, `m` links from its end. This is why meeting in the middle can find it. |
| `Chain.Deepen` | wikipedia-chain/search.py:28-46 | One pass of the loop runs one round in each direction. It returns a shortest splice of the first round that meets, or reports that no round so far met. |
| `Chain.Search` | wikipedia-chain/search.py:7-48 | The start alone when start equals end. No result only when no round up to `MAX_DEPTH` meets. Otherwise, a shortest splice of the first meeting round, from start to end, of at most `2 * MAX_DEPTH + 1` titles. |
| `Chain.FindChain` | wikipedia-chain/search.py:7-48 | The corrected finder has all of the above, including no result only when no round meets. It also finds a chain whenever the end is within `2 * MAX_DEPTH` links of the start and backlinks invert outgoing links. |
| `Chain.NothingMissed` | wikipedia-chain/search.py:28-46 | With the corrected descent, a target within `2 * MAX_DEPTH` links makes the last round meet. |
| `Chain.FindChainAsWritten` | wikipedia-chain/search.py:7-48 | The finder as written: the same guarantees on what it returns, but any chain it returns has at most 3 titles. |
| `Chain.ShortAsWritten` | wikipedia-chain/search.py:28-46 | As written, every chain found has at most 3 titles. |
| `Chain.LineChain` | wikipedia-chain/search.py:70-75 | In the graph A → B → C → D, the chain A, B, C, D exists and D is within `2 * MAX_DEPTH` links of A. |
| `Chain.MissedChain` | wikipedia-chain/search.py:70-75 | As written, in that graph no round from A to D ever meets, so `find_chain` returns None. |

## Left out

- Everything outside the three searches is not part of this model:
  - the Flask and CLI front ends (`app.py`);
  - `wiki_api.py` and its network calls;
  - the sqlite cache of `cache.py`;
  - `puzzles.py` and `render_state`;
  - the phase-transition experiment's random formulas, timing and plotting, and its pysat cross-check;
  - the Lights-out program.
- The link lookups are modelled as pure functions. The real ones call the
  network and may fail or change between calls.
- The `on_progress` and `progress_callback` callbacks are left out; they
  only report.
- Python's set and dict iteration order is hash order. The model visits the
  members of a set in row-major order (`Grid.Enumerate`). Some results are
  proved not to depend on that order:
  - the frozen set is the least fixpoint (`Freeze.FrozenIsLeast`);
  - the dead cells are a union over the goals (`Level.UnionOverSet`);
  - the meeting loop (`Chain.Best`) is proved for any choice among equally
    short splices.
- Which solution A* returns does depend on that order. `Astar.Expand`
  pushes the boxes in row-major order, and the first successor pushed with
  a given g keeps its `came_from` link (solver.py:399, 430-444). So which of
  several equally cheap solutions comes back follows the source's hash
  order, which the model does not reproduce. `Astar.ExpandBoxes` is proved
  for any listing of the boxes, so every guarantee of `Astar.SolveLevel`
  holds whatever the order.
- The heap's tie-breaking is left open. `State.__lt__` always answers False,
  so entries with equal `(f, g)` come out in no promised order. The model
  pops any entry with the least `(f, g)`.
- `Astar.SolveLevel`: does not prove that the solution uses the fewest
  pushes, because that needs the heuristic's consistency and the closed-set
  argument of A*. Only the validity of the solution is proved.
- `Astar.SolveLevel`: requires as many boxes as goals. `parse_level`
  guarantees this, and `_heuristic` fails with an index error without it.
- `Heuristic.HeuristicIsLowerBound`: requires as many boxes as goals, for
  the same reason. With more goals than boxes the source matches against a
  hash-order prefix of the goals.
- `Flood.ReconstructPath`: gives up after as many steps as the parent map
  has entries. The source's loop would not terminate on a parent map with a
  cycle, but the flood never produces one (`Flood.TraceReachesRoot`).
- `Solution.to_moves` starts each push's walk at the normalised player cell,
  because that is where `_player_reachable` starts. After a push the player
  actually stands on the box's old cell, so the moves of consecutive pushes
  need not join up. The model follows the code: each push's moves are
  proved correct from the start of its own walk (`Moves.ActionFollow`).
- The freeze test follows the code, which calls a box frozen only when both
  axes are blocked by walls or frozen boxes. A box resting against another
  box that is not itself frozen is not frozen.
- A level text with two player characters keeps the last one, as the
  source's loop overwrites `player`; the model does the same
  (`Level.ParsePlayer`).
- The `variables` set that DPLL's `solve` builds is never used by the
  source. The model uses the same set to define satisfiability: some
  assignment of exactly those variables makes every clause true.
- DPLL's in-place propagation on a copied dictionary is modelled as a pure
  function returning the extended assignment. Each branch starts from a
  copy, so the two agree.

## Findings

| source | as written | input that shows it | evidently intended | confidence | as-written member | corrected member |
|---|---|---|---|---|---|---|
| wikipedia-chain/search.py:70-75 | `_dfs` descends only through links not yet in `visited`. Round 1 already records every link of the root, so rounds 2 and 3 never get below depth 1, and every chain found has at most 3 titles. | Links A → B → C → D with the matching backlinks, start "A", end "D": no round meets and `find_chain` returns None, although a 4-title chain exists (`Chain.LineChain`, `Chain.MissedChain`). | Iterative deepening to `MAX_DEPTH` in each direction. Each round re-descends through recorded titles and records only titles not seen before, so chains of up to `2 * MAX_DEPTH + 1` titles are found. | not executed | `Chain.FindChainAsWritten` | `Chain.FindChain` |
