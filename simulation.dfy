/**
 * The simulation state of robot.py (its module-level variables) and the three
 * things that change it: the "+1 Paquete" button (AddTask), the "Buscar" button
 * (Dispatch) and one tick of the main loop (Step).
 */
module Robot {
  import opened GridMap
  import opened PathFinder

  datatype Option<T> = None | Some(value: T)

  /** The phase strings "idle", "to_package" and "to_target". */
  datatype Phase = Idle | ToPackage | ToTarget

  /** A (paquete, destino) pair: where the package waits and where it goes. */
  datatype Pair = Pair(pkg: Pos, dest: Pos)

  /** A backlog entry (paquete, destino, letra). */
  datatype Task = Task(pkg: Pos, dest: Pos, letter: char)

  /** len(string.ascii_uppercase): at most this many tasks are ever created. */
  const LETTERS := 26

  /** string.ascii_uppercase[i], the i-th upper-case ASCII letter. */
  function Letter(i: int): (c: char)
    requires 0 <= i < LETTERS
    ensures 'A' <= c <= 'Z' && c as int == 'A' as int + i
  {
    ('A' as int + i) as char
  }

  /** Some task still in the backlog carries the letter c. */
  predicate HasLetter(tasks: seq<Task>, c: char) {
    tasks != [] && (tasks[0].letter == c || HasLetter(tasks[1..], c))
  }

  lemma {:induction false} HasLetterIff(tasks: seq<Task>, c: char)
    ensures HasLetter(tasks, c) <==> exists i :: 0 <= i < |tasks| && tasks[i].letter == c
    decreases |tasks|
  {
    if tasks != [] {
      HasLetterIff(tasks[1..], c);
      if exists i :: 0 <= i < |tasks| && tasks[i].letter == c {
        var i :| 0 <= i < |tasks| && tasks[i].letter == c;
        if i > 0 {
          assert tasks[1..][i - 1].letter == c;
        }
      }
      if HasLetter(tasks[1..], c) && tasks[0].letter != c {
        var i :| 0 <= i < |tasks[1..]| && tasks[1..][i].letter == c;
        assert tasks[i + 1].letter == c;
      }
    }
  }

  /** Appending a task keeps every letter already in the backlog and adds its own. */
  lemma {:induction false} HasLetterAppend(tasks: seq<Task>, t: Task, c: char)
    ensures HasLetter(tasks + [t], c) <==> HasLetter(tasks, c) || t.letter == c
    decreases |tasks|
  {
    if tasks != [] {
      assert (tasks + [t])[1..] == tasks[1..] + [t];
      HasLetterAppend(tasks[1..], t, c);
    } else {
      assert ([] + [t])[1..] == [];
    }
  }

  /**
   * Letters are issued in order and labels lists exactly the outstanding tasks:
   * the backlog (in strictly increasing letter order) and the task in flight,
   * whose letter precedes every letter still in the backlog.
   */
  ghost predicate LabelsOk(tasks: seq<Task>, labels: map<char, Pair>, letterIndex: int,
                           current: Option<char>, pair: Option<Pair>)
  {
    && 0 <= letterIndex <= LETTERS
    && (forall i, j :: 0 <= i < j < |tasks| ==> tasks[i].letter < tasks[j].letter)
    && (forall i :: 0 <= i < |tasks| ==> tasks[i].letter as int < 'A' as int + letterIndex)
    && (forall i :: 0 <= i < |tasks| ==>
          tasks[i].letter in labels && labels[tasks[i].letter] == Pair(tasks[i].pkg, tasks[i].dest))
    && (current.Some? ==>
          && current.value as int < 'A' as int + letterIndex
          && (forall i :: 0 <= i < |tasks| ==> current.value < tasks[i].letter)
          && pair.Some?
          && current.value in labels && labels[current.value] == pair.value)
    && (forall c {:trigger HasLetter(tasks, c)} :: c in labels ==> HasLetter(tasks, c) || current == Some(c))
  }

  /** Appending a task under the next letter keeps the labels consistent. */
  lemma AddKeepsLabels(tasks: seq<Task>, labels: map<char, Pair>, letterIndex: int,
                       current: Option<char>, pair: Option<Pair>, t: Task)
    requires LabelsOk(tasks, labels, letterIndex, current, pair)
    requires letterIndex < LETTERS && t.letter == Letter(letterIndex)
    ensures LabelsOk(tasks + [t], labels[t.letter := Pair(t.pkg, t.dest)], letterIndex + 1, current, pair)
  {
    var tasks', labels' := tasks + [t], labels[t.letter := Pair(t.pkg, t.dest)];
    forall i | 0 <= i < |tasks'|
      ensures tasks'[i].letter in labels' && labels'[tasks'[i].letter] == Pair(tasks'[i].pkg, tasks'[i].dest)
    {
      if i < |tasks| {
        assert tasks'[i] == tasks[i];
      }
    }
    forall c | c in labels' ensures HasLetter(tasks', c) || current == Some(c) {
      HasLetterAppend(tasks, t, c);
    }
  }

  /** Taking the head of the backlog makes it the task in flight. */
  lemma DispatchKeepsLabels(tasks: seq<Task>, labels: map<char, Pair>, letterIndex: int)
    requires LabelsOk(tasks, labels, letterIndex, None, None) && tasks != []
    ensures LabelsOk(tasks[1..], labels, letterIndex, Some(tasks[0].letter),
                     Some(Pair(tasks[0].pkg, tasks[0].dest)))
  {
    forall c | c in labels ensures HasLetter(tasks[1..], c) || c == tasks[0].letter {
      assert HasLetter(tasks, c);
    }
  }

  /** Delivering the task in flight removes exactly its label. */
  lemma DeliverKeepsLabels(tasks: seq<Task>, labels: map<char, Pair>, letterIndex: int, c: char, pair: Pair)
    requires LabelsOk(tasks, labels, letterIndex, Some(c), Some(pair))
    ensures LabelsOk(tasks, labels - {c}, letterIndex, None, None)
  {
  }

  /** Backlog letters are pairwise distinct, so no label is ever issued twice. */
  lemma LettersUnique(tasks: seq<Task>, labels: map<char, Pair>, letterIndex: int,
                      current: Option<char>, pair: Option<Pair>, i: int, j: int)
    requires LabelsOk(tasks, labels, letterIndex, current, pair)
    requires 0 <= i < |tasks| && 0 <= j < |tasks| && i != j
    ensures tasks[i].letter != tasks[j].letter && current != Some(tasks[i].letter)
  {
  }

  /**
   * The robot is stepIndex cells along path, a shortest route from origin to goal;
   * this is what holds whenever a task is in flight.
   */
  ghost predicate OnRoute(g: Grid, origin: Pos, goal: Pos, path: seq<Pos>, stepIndex: int, pos: Pos)
    requires WellFormed(g)
  {
    && 0 <= stepIndex <= |path|
    && pos == Node(origin, path, stepIndex)
    && ShortestRoute(g, origin, goal, path)
  }

  /** One tick of movement keeps the robot on its route. */
  lemma AdvanceOnRoute(g: Grid, origin: Pos, goal: Pos, path: seq<Pos>, stepIndex: int, pos: Pos)
    requires WellFormed(g) && OnRoute(g, origin, goal, path, stepIndex, pos) && stepIndex < |path|
    ensures OnRoute(g, origin, goal, path, stepIndex + 1, path[stepIndex])
    ensures Passable(g, path[stepIndex])
  {
    assert WalkStep(g, origin, path, stepIndex);
  }

  /** At the end of a non-empty route the robot stands on its goal. */
  lemma ArrivedAtGoal(g: Grid, origin: Pos, goal: Pos, path: seq<Pos>, stepIndex: int, pos: Pos)
    requires WellFormed(g) && OnRoute(g, origin, goal, path, stepIndex, pos)
    requires stepIndex >= |path| && path != []
    ensures pos == goal
  {
  }

  /** A route planned on one grid is still a shortest route once only markers change. */
  lemma RouteSurvivesMarkers(g: Grid, h: Grid, start: Pos, goal: Pos, path: seq<Pos>)
    requires WellFormed(g) && WellFormed(h) && SamePassability(g, h)
    requires ShortestRoute(g, start, goal, path)
    ensures ShortestRoute(h, start, goal, path)
  {
    forall w ensures IsWalk(g, start, w) <==> IsWalk(h, start, w) {
      WalksAgree(g, h, start, w);
    }
  }

  /** A marker cell the robot has reached is cleared, as grid[y][x] = EMPTY guarded by its kind. */
  function ClearMarker(g: Grid, p: Pos, marker: Cell): (g': Grid)
    requires WellFormed(g) && InBounds(p) && marker != Obstacle
    ensures WellFormed(g')
    ensures At(g', p) == (if At(g, p) == marker then Empty else At(g, p))
    ensures forall q :: InBounds(q) && q != p ==> At(g', q) == At(g, q)
  {
    if At(g, p) == marker then SetCell(g, p, Empty) else g
  }

  /** Clearing a marker never creates or removes an obstacle. */
  lemma ClearMarkerKeepsObstacles(g: Grid, p: Pos, marker: Cell)
    requires WellFormed(g) && InBounds(p) && marker != Obstacle
    ensures SamePassability(g, ClearMarker(g, p, marker))
  {
  }

  /** The module-level variables of the simulation, as one value. */
  datatype State = State(
    grid: Grid,
    robotPos: Pos,
    tasks: seq<Task>,
    labels: map<char, Pair>,
    letterIndex: int,
    path: seq<Pos>,
    phase: Phase,
    stepIndex: int,
    currentPair: Option<Pair>,
    currentLetter: Option<char>,
    origin: Pos)

  /** The cell the robot is heading for while a task is in flight. */
  function Goal(s: State): Pos
    requires s.currentPair.Some?
  {
    if s.phase == ToPackage then s.currentPair.value.pkg else s.currentPair.value.dest
  }

  /** Every cell the state refers to lies inside the grid. */
  predicate CellsInBounds(s: State) {
    && InBounds(s.robotPos)
    && (forall i :: 0 <= i < |s.path| ==> InBounds(s.path[i]))
    && (forall i :: 0 <= i < |s.tasks| ==> InBounds(s.tasks[i].pkg) && InBounds(s.tasks[i].dest))
    && (s.currentPair.Some? ==> InBounds(s.currentPair.value.pkg) && InBounds(s.currentPair.value.dest))
  }

  /**
   * What holds between ticks: the phase is idle exactly when no task is in flight,
   * the labels are consistent, and a task in flight has the robot on a shortest
   * route (planned from origin) to its current goal.
   */
  ghost predicate Inv(s: State) {
    && WellFormed(s.grid)
    && CellsInBounds(s)
    && 0 <= s.stepIndex <= |s.path|
    && (s.phase == Idle <==> s.currentPair == None)
    && (s.currentPair == None <==> s.currentLetter == None)
    && LabelsOk(s.tasks, s.labels, s.letterIndex, s.currentLetter, s.currentPair)
    && (s.phase != Idle ==> OnRoute(s.grid, s.origin, Goal(s), s.path, s.stepIndex, s.robotPos))
  }

  /** The state after "+1 Paquete" with pkg and dest drawn. */
  function Added(s: State, pkg: Pos, dest: Pos): (r: State)
    requires WellFormed(s.grid) && InBounds(pkg) && InBounds(dest) && 0 <= s.letterIndex < LETTERS
    ensures WellFormed(r.grid) && r.letterIndex == s.letterIndex + 1
    ensures HasLetter(r.tasks, Letter(s.letterIndex)) && Letter(s.letterIndex) in r.labels
    ensures r.robotPos == s.robotPos && r.path == s.path && r.phase == s.phase && r.stepIndex == s.stepIndex
    ensures r.currentPair == s.currentPair && r.currentLetter == s.currentLetter
  {
    HasLetterAppend(s.tasks, Task(pkg, dest, Letter(s.letterIndex)), Letter(s.letterIndex));
    s.(tasks := s.tasks + [Task(pkg, dest, Letter(s.letterIndex))],
       labels := s.labels[Letter(s.letterIndex) := Pair(pkg, dest)],
       grid := SetCell(SetCell(s.grid, pkg, Package), dest, Target),
       letterIndex := s.letterIndex + 1)
  }

  /**
   * What "+1 Paquete" does: one task appended after the unchanged backlog, its letter
   * recorded, dest marked TARGET, pkg marked PACKAGE unless it is dest, nothing else touched.
   */
  lemma AddedEffect(s: State, pkg: Pos, dest: Pos)
    requires WellFormed(s.grid) && InBounds(pkg) && InBounds(dest) && 0 <= s.letterIndex < LETTERS
    ensures var s' := Added(s, pkg, dest);
      && |s'.tasks| == |s.tasks| + 1 && s'.tasks[..|s.tasks|] == s.tasks
      && s'.tasks[|s.tasks|] == Task(pkg, dest, Letter(s.letterIndex))
      && Letter(s.letterIndex) in s'.labels && s'.labels[Letter(s.letterIndex)] == Pair(pkg, dest)
      && At(s'.grid, dest) == Target
      && (pkg != dest ==> At(s'.grid, pkg) == Package)
      && (forall q :: InBounds(q) && q != pkg && q != dest ==> At(s'.grid, q) == At(s.grid, q))
      && s'.letterIndex == s.letterIndex + 1
  {
    var s' := Added(s, pkg, dest);
    assert s'.tasks[..|s.tasks|] == s.tasks;
  }

  lemma AddedInv(s: State, s': State, pkg: Pos, dest: Pos)
    requires Inv(s) && s.letterIndex < LETTERS
    requires InBounds(pkg) && InBounds(dest) && At(s.grid, pkg) == Empty && At(s.grid, dest) == Empty
    requires s' == Added(s, pkg, dest)
    ensures Inv(s') && SamePassability(s.grid, s'.grid)
  {
    AddKeepsLabels(s.tasks, s.labels, s.letterIndex, s.currentLetter, s.currentPair, Task(pkg, dest, Letter(s.letterIndex)));
    assert SamePassability(s.grid, s'.grid);
    if s.phase != Idle {
      RouteSurvivesMarkers(s.grid, s'.grid, s.origin, Goal(s), s.path);
    }
    assert CellsInBounds(s') by {
      forall i | 0 <= i < |s'.tasks| ensures InBounds(s'.tasks[i].pkg) && InBounds(s'.tasks[i].dest) {
        if i < |s.tasks| {
          assert s'.tasks[i] == s.tasks[i];
        }
      }
    }
  }

  /** The state after "Buscar" took the oldest task and planned route to its package. */
  function Dispatched(s: State, route: seq<Pos>): (r: State)
    requires s.tasks != []
    ensures r.phase == ToPackage && r.currentPair.Some? && Goal(r) == s.tasks[0].pkg && r.currentLetter == Some(s.tasks[0].letter)
    ensures |r.tasks| == |s.tasks| - 1 && r.path == route && r.stepIndex == 0 && r.origin == s.robotPos
    ensures r.grid == s.grid && r.robotPos == s.robotPos && r.labels == s.labels && r.letterIndex == s.letterIndex
  {
    s.(tasks := s.tasks[1..],
       currentPair := Some(Pair(s.tasks[0].pkg, s.tasks[0].dest)),
       currentLetter := Some(s.tasks[0].letter),
       path := route, origin := s.robotPos, phase := ToPackage, stepIndex := 0)
  }

  lemma DispatchedInv(s: State, s': State)
    requires Inv(s) && s.phase == Idle && s.tasks != []
    requires s' == Dispatched(s, s'.path)
    requires ShortestRoute(s.grid, s.robotPos, s.tasks[0].pkg, s'.path)
    ensures Inv(s')
  {
    DispatchKeepsLabels(s.tasks, s.labels, s.letterIndex);
    WalkInBounds(s.grid, s.robotPos, s'.path);
    assert CellsInBounds(s') by {
      forall i | 0 <= i < |s'.tasks| ensures InBounds(s'.tasks[i].pkg) && InBounds(s'.tasks[i].dest) {
        assert s'.tasks[i] == s.tasks[i + 1];
      }
    }
  }

  /**
   * As written, a dispatch towards an unreachable package plans the empty route, and
   * the state it leaves already satisfies the arrival condition of the next tick
   * although the robot is not on the package.
   */
  lemma UnreachablePackageArrivesAtOnce(s: State)
    requires Inv(s) && s.phase == Idle && s.tasks != []
    requires s.robotPos != s.tasks[0].pkg && !Reachable(s.grid, s.robotPos, s.tasks[0].pkg)
    ensures ShortestRoute(s.grid, s.robotPos, s.tasks[0].pkg, [])
    ensures var s' := Dispatched(s, []);
      Inv(s') && s'.phase == ToPackage && s'.stepIndex >= |s'.path| && s'.robotPos != Goal(s')
  {
    DispatchedInv(s, Dispatched(s, []));
  }

  /** The state after one tick of movement along the path. */
  function Moved(s: State): (r: State)
    requires 0 <= s.stepIndex < |s.path|
    ensures r.robotPos in s.path && |r.path| - r.stepIndex == |s.path| - s.stepIndex - 1
    ensures r.grid == s.grid && r.path == s.path && r.phase == s.phase && r.tasks == s.tasks
    ensures r.labels == s.labels && r.currentPair == s.currentPair && r.currentLetter == s.currentLetter
  {
    s.(robotPos := s.path[s.stepIndex], stepIndex := s.stepIndex + 1)
  }

  lemma MovedInv(s: State)
    requires Inv(s) && s.phase != Idle && s.stepIndex < |s.path|
    ensures Inv(Moved(s))
    ensures Passable(s.grid, Moved(s).robotPos)
  {
    AdvanceOnRoute(s.grid, s.origin, Goal(s), s.path, s.stepIndex, s.robotPos);
  }

  /** The state after arriving for pickup: package cleared, route to the destination planned. */
  function PickedUp(s: State, route: seq<Pos>): (r: State)
    requires WellFormed(s.grid) && s.currentPair.Some? && InBounds(s.currentPair.value.pkg)
    ensures WellFormed(r.grid) && SamePassability(s.grid, r.grid)
    ensures r.phase == ToTarget && r.currentPair.Some? && Goal(r) == s.currentPair.value.dest
    ensures At(r.grid, s.currentPair.value.pkg) != Package
    ensures r.path == route && r.stepIndex == 0 && r.origin == s.robotPos && r.robotPos == s.robotPos
    ensures r.tasks == s.tasks && r.labels == s.labels && r.currentLetter == s.currentLetter
  {
    s.(grid := ClearMarker(s.grid, s.currentPair.value.pkg, Package),
       path := route, origin := s.robotPos, phase := ToTarget, stepIndex := 0)
  }

  lemma PickedUpInv(s: State, s': State)
    requires Inv(s) && s.phase == ToPackage && s.stepIndex >= |s.path|
    requires s' == PickedUp(s, s'.path)
    requires ShortestRoute(s'.grid, s.robotPos, s.currentPair.value.dest, s'.path)
    ensures Inv(s')
    ensures s.path != [] ==> s.robotPos == s.currentPair.value.pkg
  {
    if s.path != [] {
      ArrivedAtGoal(s.grid, s.origin, Goal(s), s.path, s.stepIndex, s.robotPos);
    }
    WalkInBounds(s'.grid, s.robotPos, s'.path);
  }

  /** The state after arriving for delivery: target cleared, label dropped, idle again. */
  function Delivered(s: State): (r: State)
    requires WellFormed(s.grid) && s.currentPair.Some? && s.currentLetter.Some?
    requires InBounds(s.currentPair.value.dest)
    ensures WellFormed(r.grid) && SamePassability(s.grid, r.grid)
    ensures At(r.grid, s.currentPair.value.dest) != Target
    ensures r.phase == Idle && r.currentPair == None && r.currentLetter == None
    ensures s.currentLetter.value !in r.labels && forall c :: c in r.labels ==> c in s.labels
    ensures r.tasks == s.tasks && r.robotPos == s.robotPos && r.letterIndex == s.letterIndex
  {
    s.(grid := ClearMarker(s.grid, s.currentPair.value.dest, Target),
       labels := s.labels - {s.currentLetter.value},
       phase := Idle, currentPair := None, currentLetter := None)
  }

  lemma DeliveredInv(s: State)
    requires Inv(s) && s.phase == ToTarget && s.stepIndex >= |s.path|
    ensures Inv(Delivered(s))
    ensures s.path != [] ==> s.robotPos == s.currentPair.value.dest
  {
    if s.path != [] {
      ArrivedAtGoal(s.grid, s.origin, Goal(s), s.path, s.stepIndex, s.robotPos);
    }
    DeliverKeepsLabels(s.tasks, s.labels, s.letterIndex, s.currentLetter.value, s.currentPair.value);
  }

  class Simulation {
    var grid: Grid
    var robotPos: Pos
    /** The FIFO backlog of tasks not yet dispatched. */
    var tasks: seq<Task>
    /** The letter overlay: letter -> (package cell, destination cell). */
    var labels: map<char, Pair>
    var letterIndex: int
    var path: seq<Pos>
    var phase: Phase
    var stepIndex: int
    var currentPair: Option<Pair>
    var currentLetter: Option<char>
    /** The robot's position when the current path was planned. */
    ghost var origin: Pos

    ghost function Snapshot(): State
      reads this
    {
      State(grid, robotPos, tasks, labels, letterIndex, path, phase, stepIndex, currentPair, currentLetter, origin)
    }

    ghost predicate Valid()
      reads this
    {
      Inv(Snapshot())
    }

    /** The initial state over the given obstacle map. */
    constructor (initial: Grid)
      requires WellFormed(initial)
      requires forall p :: InBounds(p) ==> At(initial, p) == Empty || At(initial, p) == Obstacle
      ensures Valid()
      ensures grid == initial && robotPos == Pos(0, 0)
      ensures tasks == [] && labels == map[] && letterIndex == 0
      ensures path == [] && phase == Idle && stepIndex == 0
      ensures currentPair == None && currentLetter == None
    {
      grid := initial;
      robotPos := Pos(0, 0);
      tasks := [];
      labels := map[];
      letterIndex := 0;
      path := [];
      phase := Idle;
      stepIndex := 0;
      currentPair := None;
      currentLetter := None;
      origin := Pos(0, 0);
    }

    /**
     * The "+1 Paquete" button. pkg and dest are the two cells random_empty_cell
     * picked; both were empty when picked, so they may coincide.
     */
    method AddTask(pkg: Pos, dest: Pos)
      requires Valid()
      requires letterIndex < LETTERS ==>
                 InBounds(pkg) && InBounds(dest) && At(grid, pkg) == Empty && At(grid, dest) == Empty
      modifies this
      ensures Valid()
      ensures SamePassability(old(grid), grid)
      ensures old(letterIndex) < LETTERS ==> Snapshot() == Added(old(Snapshot()), pkg, dest)
      ensures old(letterIndex) >= LETTERS ==> Snapshot() == old(Snapshot())
    {
      if letterIndex < LETTERS {
        ghost var s := Snapshot();
        var letra := Letter(letterIndex);
        tasks := tasks + [Task(pkg, dest, letra)];
        labels := labels[letra := Pair(pkg, dest)];
        grid := SetCell(grid, pkg, Package);
        grid := SetCell(grid, dest, Target);
        letterIndex := letterIndex + 1;
        AddedInv(s, Snapshot(), pkg, dest);
      }
    }

    /** The "Buscar" button: when idle, take the oldest task and plan a route to its package. */
    method Dispatch()
      requires Valid()
      modifies this
      ensures Valid()
      ensures old(phase) == Idle && old(tasks) != [] ==>
                && Snapshot() == Dispatched(old(Snapshot()), path)
                && ShortestRoute(grid, robotPos, old(tasks)[0].pkg, path)
      ensures !(old(phase) == Idle && old(tasks) != []) ==> Snapshot() == old(Snapshot())
    {
      if phase == Idle && tasks != [] {
        ghost var s := Snapshot();
        var head := tasks[0];
        tasks := tasks[1..];
        currentPair := Some(Pair(head.pkg, head.dest));
        currentLetter := Some(head.letter);
        path := AStar(grid, robotPos, head.pkg);
        origin := robotPos;
        phase := ToPackage;
        stepIndex := 0;
        DispatchedInv(s, Snapshot());
      }
    }

    /** A tick while a path still has cells left: move one cell along it. */
    method Advance()
      requires Valid() && phase != Idle && stepIndex < |path|
      modifies this
      ensures Valid()
      ensures Snapshot() == Moved(old(Snapshot()))
      ensures Passable(grid, robotPos)
    {
      ghost var s := Snapshot();
      MovedInv(s);
      robotPos := path[stepIndex];
      stepIndex := stepIndex + 1;
      assert Snapshot() == Moved(s);
    }

    /** A tick after the path to the package ran out: clear the package marker, plan to the destination. */
    method PickUp()
      requires Valid() && phase == ToPackage && stepIndex >= |path|
      modifies this
      ensures Valid()
      ensures old(path) != [] ==> old(robotPos) == old(currentPair).value.pkg
      ensures Snapshot() == PickedUp(old(Snapshot()), path)
      ensures ShortestRoute(grid, robotPos, currentPair.value.dest, path)
    {
      ghost var s := Snapshot();
      var cleared := ClearMarker(grid, currentPair.value.pkg, Package);
      path := AStar(cleared, robotPos, currentPair.value.dest);
      grid, origin, phase, stepIndex := cleared, robotPos, ToTarget, 0;
      PickedUpInv(s, Snapshot());
    }

    /** A tick after the path to the destination ran out: clear the target marker, drop the label, go idle. */
    method Deliver()
      requires Valid() && phase == ToTarget && stepIndex >= |path|
      modifies this
      ensures Valid()
      ensures old(path) != [] ==> old(robotPos) == old(currentPair).value.dest
      ensures Snapshot() == Delivered(old(Snapshot()))
    {
      ghost var s := Snapshot();
      DeliveredInv(s);
      grid := ClearMarker(grid, currentPair.value.dest, Target);
      labels := labels - {currentLetter.value};
      phase, currentPair, currentLetter := Idle, None, None;
      assert Snapshot() == Delivered(s);
    }

    /** One tick of the main loop. */
    method Step()
      requires Valid()
      modifies this
      ensures Valid()
      ensures old(phase) != Idle && old(stepIndex) < |old(path)| ==> Snapshot() == Moved(old(Snapshot()))
      ensures old(phase) == ToPackage && old(stepIndex) >= |old(path)| ==>
                && (old(path) != [] ==> old(robotPos) == old(currentPair).value.pkg)
                && Snapshot() == PickedUp(old(Snapshot()), path)
                && ShortestRoute(grid, robotPos, currentPair.value.dest, path)
      ensures old(phase) == ToTarget && old(stepIndex) >= |old(path)| ==>
                && (old(path) != [] ==> old(robotPos) == old(currentPair).value.dest)
                && Snapshot() == Delivered(old(Snapshot()))
      ensures old(phase) == Idle ==> Snapshot() == old(Snapshot())
    {
      if (phase == ToPackage || phase == ToTarget) && stepIndex < |path| {
        Advance();
      } else if phase == ToPackage && stepIndex >= |path| {
        PickUp();
      } else if phase == ToTarget && stepIndex >= |path| {
        Deliver();
      }
    }
  }
}
