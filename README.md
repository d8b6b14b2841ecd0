# Delivery robot on a grid: a verified model

`robot.py` simulates one delivery robot on a 15 × 15 grid of cells. Each cell is
empty, an obstacle, a package marker or a target marker. The "+1 Paquete" button
creates a task: a package cell, a destination cell and a letter A..Z. The task
goes to the end of a FIFO backlog and both cells are marked. The "Buscar" button
takes the oldest task and plans a route to its package with A*. Planning uses
4-neighbour moves of unit cost and the Manhattan-distance heuristic. Each tick of
the main loop moves the robot one cell along its route. When the route runs out,
the tick does one of two things:

- It clears the package marker and plans a route to the destination.
- It clears the target marker, drops the task's letter from the overlay and goes
  idle.

The model has three modules, one per part of the program:

- `GridMap` (`grid.dfy`): the cell matrix, bounds, cell updates and 4-connected
  walks. A walk is a sequence of cells that leaves a start cell; it excludes the
  start, just like the planner's paths.
- `PathFinder` (`pathfinder.dfy`):
  - `Heuristic`, a function.
  - `AStar`, the `astar` routine as a method with loop invariants. The heap
    frontier is a multiset of `(priority, cell)` entries. Each pop extracts a least
    entry in Python's tuple order.
  - `ExpandNeighbours`, the neighbour loop, as its own method.
  - The proof that the result is a shortest walk to the goal. The result is empty
    exactly when the goal is the start or cannot be reached.
- `Robot` (`simulation.dfy`):
  - The class `Simulation`, whose fields are the module-level variables of
    `robot.py`.
  - `AddTask`, `Dispatch` and `Step` as its mutating methods. `Step` is split into
    its three branches: `Advance`, `PickUp` and `Deliver`.
  - `State`, the same variables as one value. Each command has a transition
    function on `State`: `Added`, `Dispatched`, `Moved`, `PickedUp` and `Delivered`.
    Each method's postcondition ties its new state to that function.
  - Lemmas proving that each transition keeps the invariant `Inv`:
    - The letters are issued in order.
    - `labels` holds exactly the outstanding tasks.
    - The phase is idle exactly when no task is in flight.
    - Every referenced cell is in bounds.
    - While a task is in flight, the robot stands `stepIndex` cells along a shortest
      route to its current goal.

Two behaviours of `robot.py` are kept as written:

- A dispatch towards an unreachable package still enters `to_package`. `astar`
  returns `[]`, and the very next tick takes the arrival branch with the robot
  elsewhere (robot.py:146-153). `UnreachablePackageArrivesAtOnce` states it.
- `astar` returns `[]` when the goal is the start cell, because the start never
  enters `came_from` (robot.py:42-43, 60-61). The robot can stand on a package:
  `random_empty_cell` may pick the robot's cell, since the robot is never stored
  in the grid (robot.py:102-106, 110). `AStar`'s contract states both cases in
  which the result is empty.

## Model

| member | source | states |
|---|---|---|
| GridMap.SetCell | robot.py:137-138 | writing one cell leaves a 15 × 15 grid in which that cell has the new kind and every other cell keeps its kind |
| GridMap.WalkInBounds | robot.py:52 | every cell of a walk is inside the grid |
| GridMap.WalkCons | robot.py:62-67 | putting a passable neighbour in front of a walk gives a walk from the neighbour's predecessor with the same end; path reconstruction relies on this |
| GridMap.WalksAgree | robot.py:52 | whether a sequence is a walk depends only on which cells are obstacles |
| GridMap.ShiftAdjacent | robot.py:40 | each of the four moves in `neighbors` reaches a 4-neighbour, and no two moves reach the same one |
| GridMap.AdjacentIsShift | robot.py:40 | every 4-neighbour of a cell is reached by one of the four moves in `neighbors` |
| PathFinder.Heuristic | robot.py:36-37 | the Manhattan distance is a natural number that is zero exactly when the two cells coincide |
| PathFinder.HeuristicSymmetric | robot.py:36-37 | the distance does not depend on argument order |
| PathFinder.HeuristicConsistent | robot.py:36-37 | one step to a 4-neighbour changes the distance to any cell by at most one, in either direction |
| PathFinder.HeuristicAdmissible | robot.py:36-37 | from any point of a walk, the distance to the walk's end is at most the number of steps left |
| PathFinder.WalkAtLeastManhattan | robot.py:36-37 | no walk is shorter than the Manhattan distance between its ends |
| PathFinder.LeastExists | robot.py:46 | a non-empty frontier has an entry that is least in (priority, x, y) order, which is the entry `heappop` returns |
| PathFinder.LeastUnique | robot.py:46 | two least entries of a frontier are equal, so the least entry chosen is the one `heappop` returns |
| PathFinder.InitialInv | robot.py:41-43 | the initial frontier, cost table and empty back-pointer table satisfy the search invariant |
| PathFinder.PopInv | robot.py:46-48 | removing a least entry whose cell is not the goal still leaves every other discovered cell either waiting in the frontier or fully relaxed |
| PathFinder.SkipMove | robot.py:52-54 | a move that is out of bounds, blocked or no cheaper leaves the invariant and that direction relaxed |
| PathFinder.ImproveMove | robot.py:53-58 | recording a cheaper cost, its back-pointer and a new frontier entry keeps the invariant, and the direction becomes relaxed |
| PathFinder.ProgressMeasure | robot.py:45-58 | each round of the main loop either discovers a cell, lowers a recorded cost or shrinks the frontier, so the loop ends |
| PathFinder.GoalPoppedOptimal | robot.py:45-48 | when the goal's entry is popped, its recorded cost is at most the length of every walk from start to goal |
| PathFinder.ExhaustedUnreachable | robot.py:45-61 | if the frontier empties without popping the goal, the goal is not the start and is unreachable |
| PathFinder.Reverse | robot.py:67 | the result has the input's length with the elements in the opposite order |
| PathFinder.ExpandNeighbours | robot.py:49-58 | relaxing the four moves out of the popped cell re-establishes the search invariant and makes progress |
| PathFinder.AStar | robot.py:39-68 | a non-empty result is a walk of passable in-bounds cells from start that ends at goal; the result is empty exactly when goal is start or unreachable; no walk from start to goal is shorter |
| PathFinder.ManhattanWalk | robot.py:36-40 | on a grid without obstacles an L-shaped walk joins any two cells in exactly the Manhattan distance |
| PathFinder.OpenGridRouteIsManhattan | robot.py:39-68 | on a grid without obstacles the planned route is exactly as long as the Manhattan distance |
| Robot.Letter | robot.py:132 | the i-th letter is the upper-case ASCII letter at offset i from 'A' |
| Robot.HasLetterIff | robot.py:135 | a letter is in the backlog exactly when some backlog entry carries it |
| Robot.HasLetterAppend | robot.py:135 | appending a task keeps the backlog's letters and adds its own |
| Robot.AddKeepsLabels | robot.py:131-139 | appending a task under the next letter keeps the letters increasing and `labels` equal to the outstanding tasks |
| Robot.DispatchKeepsLabels | robot.py:142-145 | taking the head of the backlog makes it the task in flight with the label bookkeeping intact |
| Robot.DeliverKeepsLabels | robot.py:164 | dropping the letter in flight leaves exactly the backlog's letters in `labels` |
| Robot.LettersUnique | robot.py:131-139 | no two outstanding tasks share a letter |
| Robot.AdvanceOnRoute | robot.py:150-152 | moving to `path[step_index]` keeps the robot on its route and on a passable cell |
| Robot.ArrivedAtGoal | robot.py:153-159 | once a non-empty route is used up, the robot stands on the route's goal |
| Robot.RouteSurvivesMarkers | robot.py:137-138 | a shortest route stays shortest when only package or target markers change |
| Robot.ClearMarker | robot.py:154-156 | the marker cell becomes empty only if it held that marker, and no other cell changes |
| Robot.ClearMarkerKeepsObstacles | robot.py:154-156 | clearing a marker never adds or removes an obstacle |
| Robot.Added | robot.py:135-139 | the state after adding a task: the grid stays a full 15 × 15 grid, the new letter is in the backlog and in `labels`, the letter index advances, and the robot, its route, phase and task in flight are untouched |
| Robot.AddedEffect | robot.py:131-139 | adding a task appends exactly one entry after the unchanged backlog, records its letter, marks dest TARGET and pkg PACKAGE unless they coincide, changes no other cell and advances the letter index |
| Robot.AddedInv | robot.py:131-139 | adding a task on two empty cells keeps the invariant and the obstacle layout |
| Robot.Dispatched | robot.py:143-148 | the state after a dispatch: heading for the head task's package under its letter, one task fewer in the backlog, the given route from the robot's cell with step 0, grid and labels untouched |
| Robot.DispatchedInv | robot.py:142-148 | dispatching the head task along a shortest route to its package keeps the invariant |
| Robot.UnreachablePackageArrivesAtOnce | robot.py:147-153 | dispatching to an unreachable package plans the empty route, and the resulting state already meets the arrival condition while the robot is not on the package |
| Robot.Moved | robot.py:151-152 | the state after one movement tick: the robot is on a cell of its route, one step fewer remains, and nothing else changes |
| Robot.MovedInv | robot.py:150-152 | one step along the route keeps the invariant and the robot on a passable cell |
| Robot.PickedUp | robot.py:154-159 | the state after pickup: the package cell holds no package marker, no obstacle changes, the robot heads for the destination along the given route from step 0, backlog and labels untouched |
| Robot.PickedUpInv | robot.py:153-159 | arrival for pickup happens on the package cell whenever the route was non-empty, and replanning to the destination keeps the invariant |
| Robot.Delivered | robot.py:161-167 | the state after delivery: the destination holds no target marker, no obstacle changes, the letter is gone from `labels` and no other label is added, idle with no task in flight, backlog untouched |
| Robot.DeliveredInv | robot.py:160-167 | arrival for delivery happens on the destination whenever the route was non-empty, and going idle keeps the invariant |
| Robot.Simulation.constructor | robot.py:109-119 | from a map of empty and obstacle cells, the initial state: robot at (0, 0), empty backlog and labels, letter index 0, idle with an empty path; the invariant holds |
| Robot.Simulation.AddTask | robot.py:131-139 | with letters left, the new state is `Added` of the old one, so the properties of AddedEffect apply; with none left nothing changes; obstacles and the invariant are kept |
| Robot.Simulation.Dispatch | robot.py:142-148 | when idle with a backlog, the head task is in flight along a shortest route from the robot to its package; otherwise nothing changes |
| Robot.Simulation.Advance | robot.py:150-152 | the robot moves to the next route cell, which is passable |
| Robot.Simulation.PickUp | robot.py:153-159 | the package marker is cleared if present and a shortest route to the destination is planned from where the robot stands |
| Robot.Simulation.Deliver | robot.py:160-167 | the target marker is cleared if present, the letter is dropped and the robot goes idle |
| Robot.Simulation.Step | robot.py:150-167 | a tick moves, picks up, delivers or, when idle, changes nothing, keeping the invariant |

## Left out

- Rendering and timing are not modelled: the pygame window, fonts, `draw_grid`, `draw_buttons`, `display.flip` and `clock.tick`. None of them affects the state.
- The event loop and click-coordinate decoding are not modelled. The two buttons become the `AddTask` and `Dispatch` calls, and one loop iteration becomes `Step`.
- `create_base_map` is random, so the constructor takes any full grid of empty and obstacle cells as a parameter instead. It does not model the 60 random obstacle draws.
- `random_empty_cell` is a random rejection-sampling loop. The two cells it returns are parameters of `AddTask`, with the precondition that they were empty when drawn. They may coincide.
- The binary-heap layout of `heapq` is not modelled. The frontier is a multiset from which a least `(priority, x, y)` entry is removed. Ties are never visible, because the least entry is unique (`LeastUnique`).
- The `ROBOT` cell kind is not modelled, because the program never stores it in the grid.
- The grid is a total map from cell coordinates to cell kinds, reassigned as a whole value. `robot.py` uses a list of rows updated in place; no other variable aliases it, so nothing observable differs.
- Abandoning an unreachable task (dropping it and its markers, then going idle) is not modelled, because the code has no such behaviour.
