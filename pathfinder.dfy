/**
 * A* over the 4-connected grid (robot.py heuristic and astar). The frontier is a
 * multiset of (priority, position) entries from which the least entry, in Python's
 * tuple order, is popped; stale entries are not skipped, exactly as robot.py does.
 */
module PathFinder {
  import opened GridMap

  /** Manhattan distance, the A* heuristic. */
  function Heuristic(a: Pos, b: Pos): (d: nat)
    ensures d == 0 <==> a == b
  {
    Abs(a.x - b.x) + Abs(a.y - b.y)
  }

  lemma HeuristicSymmetric(a: Pos, b: Pos)
    ensures Heuristic(a, b) == Heuristic(b, a)
  {
  }

  /** Consistency: one unit move changes the estimate by at most one. */
  lemma HeuristicConsistent(a: Pos, p: Pos, q: Pos)
    requires Adjacent(p, q)
    ensures Heuristic(a, p) <= Heuristic(a, q) + 1
    ensures Heuristic(a, q) <= Heuristic(a, p) + 1
  {
  }

  /** Admissibility: the rest of a walk is no shorter than the estimate to its end. */
  lemma {:induction false} HeuristicAdmissible(g: Grid, start: Pos, w: seq<Pos>, i: int)
    requires WellFormed(g) && IsWalk(g, start, w) && 0 <= i <= |w|
    ensures Heuristic(End(start, w), Node(start, w, i)) <= |w| - i
    decreases |w| - i
  {
    if i < |w| {
      HeuristicAdmissible(g, start, w, i + 1);
      assert WalkStep(g, start, w, i);
      assert Node(start, w, i + 1) == w[i];
      HeuristicConsistent(End(start, w), Node(start, w, i), w[i]);
    }
  }

  /** No walk from start to goal is shorter than their Manhattan distance. */
  lemma WalkAtLeastManhattan(g: Grid, start: Pos, w: seq<Pos>)
    requires WellFormed(g) && IsWalk(g, start, w)
    ensures Heuristic(start, End(start, w)) <= |w|
  {
    HeuristicAdmissible(g, start, w, 0);
    HeuristicSymmetric(start, End(start, w));
  }

  // ---------------------------------------------------------------- frontier

  /** A frontier entry; Python orders the tuple (priority, (x, y)) lexicographically. */
  datatype Entry = Entry(priority: int, pos: Pos)

  predicate EntryLe(a: Entry, b: Entry) {
    || a.priority < b.priority
    || (a.priority == b.priority && a.pos.x < b.pos.x)
    || (a.priority == b.priority && a.pos.x == b.pos.x && a.pos.y <= b.pos.y)
  }

  /** e is the entry heappop returns from q. */
  predicate IsLeast(e: Entry, q: multiset<Entry>) {
    e in q && forall f :: f in q ==> EntryLe(e, f)
  }

  /** The least entry is unique, so choosing any least entry is choosing the one heappop returns. */
  lemma LeastUnique(e1: Entry, e2: Entry, q: multiset<Entry>)
    requires IsLeast(e1, q) && IsLeast(e2, q)
    ensures e1 == e2
  {
  }

  /** A non-empty frontier always has a least entry. */
  lemma {:induction false} LeastExists(q: multiset<Entry>)
    requires q != multiset{}
    ensures exists e :: IsLeast(e, q)
    decreases |q|
  {
    var x :| x in q;
    var rest := q - multiset{x};
    assert q == rest + multiset{x};
    if rest == multiset{} {
      assert IsLeast(x, q);
    } else {
      LeastExists(rest);
      var m :| IsLeast(m, rest);
      if EntryLe(x, m) {
        assert IsLeast(x, q);
      } else {
        assert IsLeast(m, q);
      }
    }
  }

  // ------------------------------------------------------- search invariants

  /** Every discovered cell except start is passable; start costs 0. */
  ghost predicate KeysOk(g: Grid, start: Pos, cost: map<Pos, nat>)
    requires WellFormed(g)
  {
    && start in cost && cost[start] == 0
    && forall p {:trigger Passable(g, p)} :: p in cost && p != start ==> Passable(g, p)
  }

  /**
   * came_from covers every discovered cell but start, and each back-pointer is
   * a 4-neighbour of strictly smaller cost, so following it reaches start.
   */
  ghost predicate TreeOk(start: Pos, cost: map<Pos, nat>, cameFrom: map<Pos, Pos>) {
    && (forall p {:trigger p in cameFrom} :: p in cameFrom <==> p in cost && p != start)
    && forall p {:trigger cameFrom[p]} :: p in cameFrom ==>
         cameFrom[p] in cost && Adjacent(cameFrom[p], p) && cost[cameFrom[p]] < cost[p]
  }

  /** Entries never underestimate cost + heuristic, except the initial (0, start). */
  ghost predicate QueueOk(start: Pos, goal: Pos, queue: multiset<Entry>, cost: map<Pos, nat>) {
    forall e :: e in queue ==>
      e.pos in cost && (e == Entry(0, start) || cost[e.pos] + Heuristic(goal, e.pos) <= e.priority)
  }

  /** The entry pushed for p when it got its current cost. */
  ghost function FreshEntry(goal: Pos, cost: map<Pos, nat>, p: Pos): Entry
    requires p in cost
  {
    Entry(cost[p] + Heuristic(goal, p), p)
  }

  /** p waits in the frontier with its current cost. */
  ghost predicate Pending(start: Pos, goal: Pos, queue: multiset<Entry>, cost: map<Pos, nat>, p: Pos)
    requires p in cost
  {
    FreshEntry(goal, cost, p) in queue || (p == start && Entry(0, start) in queue)
  }

  /** Move k out of p leads nowhere, or to a cell discovered at cost at most cost[p] + 1. */
  ghost predicate RelaxedDir(g: Grid, cost: map<Pos, nat>, p: Pos, k: int)
    requires WellFormed(g) && p in cost && 0 <= k < 4
  {
    Passable(g, Shift(p, k)) ==> Shift(p, k) in cost && cost[Shift(p, k)] <= cost[p] + 1
  }

  ghost predicate Relaxed(g: Grid, cost: map<Pos, nat>, p: Pos)
    requires WellFormed(g) && p in cost
  {
    forall k :: 0 <= k < 4 ==> RelaxedDir(g, cost, p, k)
  }

  /** Each discovered cell is still pending or has had all its neighbours relaxed. */
  ghost predicate Settled(g: Grid, start: Pos, goal: Pos, queue: multiset<Entry>, cost: map<Pos, nat>, p: Pos)
    requires WellFormed(g) && p in cost
  {
    Pending(start, goal, queue, cost, p) || Relaxed(g, cost, p)
  }

  /** Until it is popped, a discovered goal waits in the frontier with its current cost. */
  ghost predicate GoalPending(goal: Pos, queue: multiset<Entry>, cost: map<Pos, nat>) {
    goal in cost ==> Entry(cost[goal], goal) in queue
  }

  ghost predicate Common(g: Grid, start: Pos, goal: Pos, queue: multiset<Entry>,
                         cost: map<Pos, nat>, cameFrom: map<Pos, Pos>)
    requires WellFormed(g)
  {
    KeysOk(g, start, cost) && TreeOk(start, cost, cameFrom) &&
    QueueOk(start, goal, queue, cost) && GoalPending(goal, queue, cost)
  }

  /** The invariant of the main loop. */
  ghost predicate SearchInv(g: Grid, start: Pos, goal: Pos, queue: multiset<Entry>,
                            cost: map<Pos, nat>, cameFrom: map<Pos, Pos>)
    requires WellFormed(g)
  {
    && Common(g, start, goal, queue, cost, cameFrom)
    && forall p {:trigger Settled(g, start, goal, queue, cost, p)} :: p in cost ==> Settled(g, start, goal, queue, cost, p)
  }

  /** The invariant of the neighbour loop while cur is expanded, moves 0 .. k-1 done. */
  ghost predicate ExpandInv(g: Grid, start: Pos, goal: Pos, queue: multiset<Entry>,
                            cost: map<Pos, nat>, cameFrom: map<Pos, Pos>, cur: Pos, k: int)
    requires WellFormed(g)
  {
    && Common(g, start, goal, queue, cost, cameFrom)
    && 0 <= k <= 4 && cur in cost
    && (forall p {:trigger Settled(g, start, goal, queue, cost, p)} :: p in cost && p != cur ==> Settled(g, start, goal, queue, cost, p))
    && forall j :: 0 <= j < k ==> RelaxedDir(g, cost, cur, j)
  }

  lemma InitialInv(g: Grid, start: Pos, goal: Pos)
    requires WellFormed(g)
    ensures SearchInv(g, start, goal, multiset{Entry(0, start)}, map[start := 0], map[])
  {
    var cost := map[start := 0];
    assert Pending(start, goal, multiset{Entry(0, start)}, cost, start);
  }

  /** Popping a non-goal entry leaves everything settled except the popped cell. */
  lemma PopInv(g: Grid, start: Pos, goal: Pos, queue: multiset<Entry>,
               cost: map<Pos, nat>, cameFrom: map<Pos, Pos>, e: Entry)
    requires WellFormed(g) && SearchInv(g, start, goal, queue, cost, cameFrom)
    requires e in queue && e.pos != goal
    ensures ExpandInv(g, start, goal, queue - multiset{e}, cost, cameFrom, e.pos, 0)
  {
    var q := queue - multiset{e};
    forall f | f in queue && f != e ensures f in q {
    }
    forall p | p in cost && p != e.pos
      ensures Settled(g, start, goal, q, cost, p)
    {
      assert Settled(g, start, goal, queue, cost, p);
      if FreshEntry(goal, cost, p) in queue {
        assert FreshEntry(goal, cost, p) in q;
      }
    }
    if goal in cost {
      assert Entry(cost[goal], goal) in q;
    }
  }

  /** Move k out of cur needs no update. */
  lemma SkipMove(g: Grid, start: Pos, goal: Pos, queue: multiset<Entry>,
                 cost: map<Pos, nat>, cameFrom: map<Pos, Pos>, cur: Pos, k: int)
    requires WellFormed(g) && ExpandInv(g, start, goal, queue, cost, cameFrom, cur, k) && k < 4
    requires RelaxedDir(g, cost, cur, k)
    ensures ExpandInv(g, start, goal, queue, cost, cameFrom, cur, k + 1)
  {
  }

  /** Recording a cheaper cost for the target of move k keeps the common invariants. */
  lemma ImproveCommon(g: Grid, start: Pos, goal: Pos, queue: multiset<Entry>,
                      cost: map<Pos, nat>, cameFrom: map<Pos, Pos>, cur: Pos, k: int)
    requires WellFormed(g) && Common(g, start, goal, queue, cost, cameFrom)
    requires cur in cost && 0 <= k < 4 && Passable(g, Shift(cur, k))
    requires Shift(cur, k) !in cost || cost[cur] + 1 < cost[Shift(cur, k)]
    ensures var next := Shift(cur, k);
            var c := cost[cur] + 1;
            Common(g, start, goal, queue + multiset{Entry(c + Heuristic(goal, next), next)},
                   cost[next := c], cameFrom[next := cur])
  {
    var next := Shift(cur, k);
    ShiftAdjacent(cur, k);
    var c := cost[cur] + 1;
    var pushed := Entry(c + Heuristic(goal, next), next);
    var queue', cost', cameFrom' := queue + multiset{pushed}, cost[next := c], cameFrom[next := cur];
    assert next != start;
    forall p | p in cameFrom'
      ensures cameFrom'[p] in cost' && Adjacent(cameFrom'[p], p) && cost'[cameFrom'[p]] < cost'[p]
    {
      if p != next {
        assert cameFrom'[p] == cameFrom[p];
      }
    }
    assert TreeOk(start, cost', cameFrom');
    forall f | f in queue'
      ensures f.pos in cost' && (f == Entry(0, start) || cost'[f.pos] + Heuristic(goal, f.pos) <= f.priority)
    {
      if f != pushed {
        assert f in queue;
      }
    }
    assert QueueOk(start, goal, queue', cost');
  }

  /** Recording a cheaper cost keeps every other cell settled. */
  lemma ImproveSettled(g: Grid, start: Pos, goal: Pos, queue: multiset<Entry>,
                       cost: map<Pos, nat>, cameFrom: map<Pos, Pos>, cur: Pos, k: int)
    requires WellFormed(g) && cur in cost && 0 <= k < 4
    requires Shift(cur, k) !in cost || cost[cur] + 1 < cost[Shift(cur, k)]
    requires forall p :: p in cost && p != cur ==> Settled(g, start, goal, queue, cost, p)
    ensures var next := Shift(cur, k);
            var c := cost[cur] + 1;
            var queue', cost' := queue + multiset{Entry(c + Heuristic(goal, next), next)}, cost[next := c];
            forall p :: p in cost' && p != cur ==> Settled(g, start, goal, queue', cost', p)
  {
    var next := Shift(cur, k);
    var c := cost[cur] + 1;
    var pushed := Entry(c + Heuristic(goal, next), next);
    var queue', cost' := queue + multiset{pushed}, cost[next := c];
    forall p | p in cost' && p != cur
      ensures Settled(g, start, goal, queue', cost', p)
    {
      if p == next {
        assert FreshEntry(goal, cost', p) == pushed;
      } else {
        assert Settled(g, start, goal, queue, cost, p);
        if Pending(start, goal, queue, cost, p) {
          assert Pending(start, goal, queue', cost', p);
        } else {
          forall j | 0 <= j < 4 ensures RelaxedDir(g, cost', p, j) {
            assert RelaxedDir(g, cost, p, j);
          }
        }
      }
    }
  }

  /** Move k out of cur finds a cheaper cost for its target and records it. */
  lemma ImproveMove(g: Grid, start: Pos, goal: Pos, queue: multiset<Entry>,
                    cost: map<Pos, nat>, cameFrom: map<Pos, Pos>, cur: Pos, k: int,
                    queue': multiset<Entry>, cost': map<Pos, nat>, cameFrom': map<Pos, Pos>)
    requires WellFormed(g) && ExpandInv(g, start, goal, queue, cost, cameFrom, cur, k) && k < 4
    requires Passable(g, Shift(cur, k))
    requires Shift(cur, k) !in cost || cost[cur] + 1 < cost[Shift(cur, k)]
    requires cost' == cost[Shift(cur, k) := cost[cur] + 1]
    requires cameFrom' == cameFrom[Shift(cur, k) := cur]
    requires queue' == queue + multiset{Entry(cost[cur] + 1 + Heuristic(goal, Shift(cur, k)), Shift(cur, k))}
    ensures ExpandInv(g, start, goal, queue', cost', cameFrom', cur, k + 1)
  {
    ShiftAdjacent(cur, k);
    ImproveCommon(g, start, goal, queue, cost, cameFrom, cur, k);
    ImproveSettled(g, start, goal, queue, cost, cameFrom, cur, k);
    assert Common(g, start, goal, queue', cost', cameFrom');
    assert forall p :: p in cost' && p != cur ==> Settled(g, start, goal, queue', cost', p);
    forall j | 0 <= j < k + 1 ensures RelaxedDir(g, cost', cur, j) {
      if j < k {
        assert RelaxedDir(g, cost, cur, j);
      }
    }
  }

  /** After all four moves, cur is relaxed and the main invariant is back. */
  lemma ExpandDone(g: Grid, start: Pos, goal: Pos, queue: multiset<Entry>,
                   cost: map<Pos, nat>, cameFrom: map<Pos, Pos>, cur: Pos)
    requires WellFormed(g) && ExpandInv(g, start, goal, queue, cost, cameFrom, cur, 4)
    ensures SearchInv(g, start, goal, queue, cost, cameFrom)
  {
    assert Relaxed(g, cost, cur);
  }

  // ------------------------------------------------------------- optimality

  /** Along a walk, the first cell that is not relaxed at an optimal cost is pending. */
  lemma {:induction false} PendingOnWalk(g: Grid, start: Pos, goal: Pos, queue: multiset<Entry>,
                                         cost: map<Pos, nat>, cameFrom: map<Pos, Pos>,
                                         w: seq<Pos>, i: int) returns (j: int)
    requires WellFormed(g) && SearchInv(g, start, goal, queue, cost, cameFrom)
    requires IsWalk(g, start, w) && 0 <= i <= |w|
    requires Node(start, w, i) in cost && cost[Node(start, w, i)] <= i
    ensures i <= j <= |w| && Node(start, w, j) in cost && cost[Node(start, w, j)] <= j
    ensures j == |w| || Pending(start, goal, queue, cost, Node(start, w, j))
    decreases |w| - i
  {
    var v := Node(start, w, i);
    if i == |w| || Pending(start, goal, queue, cost, v) {
      return i;
    }
    assert Settled(g, start, goal, queue, cost, v);
    assert WalkStep(g, start, w, i);
    var k := AdjacentIsShift(v, w[i]);
    assert RelaxedDir(g, cost, v, k);
    assert Node(start, w, i + 1) == w[i];
    j := PendingOnWalk(g, start, goal, queue, cost, cameFrom, w, i + 1);
  }

  /** When the goal is popped its cost is at most the length of any walk to it. */
  lemma GoalPoppedOptimal(g: Grid, start: Pos, goal: Pos, queue: multiset<Entry>,
                          cost: map<Pos, nat>, cameFrom: map<Pos, Pos>, e: Entry, w: seq<Pos>)
    requires WellFormed(g) && SearchInv(g, start, goal, queue, cost, cameFrom)
    requires IsLeast(e, queue) && e.pos == goal
    requires IsWalk(g, start, w) && End(start, w) == goal
    ensures goal in cost && cost[goal] <= |w|
  {
    assert goal in cost;
    var j := PendingOnWalk(g, start, goal, queue, cost, cameFrom, w, 0);
    if j < |w| {
      var v := Node(start, w, j);
      var pe := if FreshEntry(goal, cost, v) in queue then FreshEntry(goal, cost, v) else Entry(0, start);
      assert pe in queue;
      HeuristicAdmissible(g, start, w, j);
      assert pe.priority <= j + (|w| - j);
      assert EntryLe(e, pe);
    }
  }

  /** Following relaxed cells, every walk from start stays among the discovered cells. */
  lemma {:induction false} WalkStaysDiscovered(g: Grid, start: Pos, goal: Pos,
                                               cost: map<Pos, nat>, cameFrom: map<Pos, Pos>,
                                               w: seq<Pos>, i: int)
    requires WellFormed(g) && SearchInv(g, start, goal, multiset{}, cost, cameFrom)
    requires IsWalk(g, start, w) && 0 <= i <= |w|
    ensures Node(start, w, i) in cost
    decreases i
  {
    if i > 0 {
      WalkStaysDiscovered(g, start, goal, cost, cameFrom, w, i - 1);
      var v := Node(start, w, i - 1);
      assert Settled(g, start, goal, multiset{}, cost, v);
      assert WalkStep(g, start, w, i - 1);
      var k := AdjacentIsShift(v, w[i - 1]);
      assert RelaxedDir(g, cost, v, k);
    }
  }

  /** An exhausted frontier means the goal cannot be reached. */
  lemma ExhaustedUnreachable(g: Grid, start: Pos, goal: Pos, cost: map<Pos, nat>, cameFrom: map<Pos, Pos>)
    requires WellFormed(g) && SearchInv(g, start, goal, multiset{}, cost, cameFrom)
    ensures goal !in cost && goal != start && !Reachable(g, start, goal)
  {
    forall w | IsWalk(g, start, w) ensures End(start, w) in cost {
      WalkStaysDiscovered(g, start, goal, cost, cameFrom, w, |w|);
    }
  }

  // ------------------------------------------------------------ termination

  ghost const Cells: set<Pos> := set x: int, y: int | 0 <= x < COLS && 0 <= y < ROWS :: Pos(x, y)

  /** How many grid cells are still undiscovered. */
  ghost function Unseen(cost: map<Pos, nat>): nat {
    |Cells - cost.Keys|
  }

  /** One unit of "excess" per discovered cell and cost step; costs only go down. */
  ghost function Potential(cost: map<Pos, nat>): set<(Pos, int)> {
    set p, c | p in cost && 0 <= c < cost[p] :: (p, c)
  }

  /** The neighbour loop has changed nothing, discovered a cell, or lowered a cost. */
  ghost predicate Progress(cost0: map<Pos, nat>, queue0: multiset<Entry>,
                           cost: map<Pos, nat>, queue: multiset<Entry>)
  {
    && cost0.Keys <= cost.Keys
    && ((cost == cost0 && queue == queue0) || cost.Keys != cost0.Keys || Potential(cost) < Potential(cost0))
  }

  lemma ProgressStep(cost0: map<Pos, nat>, queue0: multiset<Entry>,
                     cost: map<Pos, nat>, queue: multiset<Entry>, next: Pos, c: nat, e: Entry)
    requires Progress(cost0, queue0, cost, queue)
    requires next in cost ==> c < cost[next]
    ensures Progress(cost0, queue0, cost[next := c], queue + multiset{e})
  {
    var cost' := cost[next := c];
    if next in cost {
      assert (next, c) in Potential(cost) && (next, c) !in Potential(cost');
      assert Potential(cost') <= Potential(cost);
    } else {
      assert next !in cost0.Keys && next in cost'.Keys;
    }
  }

  lemma ProgressMeasure(g: Grid, start: Pos, cost0: map<Pos, nat>, queue0: multiset<Entry>,
                        cost: map<Pos, nat>, queue: multiset<Entry>)
    requires WellFormed(g) && KeysOk(g, start, cost) && start in cost0
    requires Progress(cost0, queue0, cost, queue)
    ensures || Unseen(cost) < Unseen(cost0)
            || (Unseen(cost) == Unseen(cost0) && Potential(cost) < Potential(cost0))
            || (cost == cost0 && queue == queue0)
  {
    if cost.Keys != cost0.Keys {
      var n :| n in cost.Keys && n !in cost0.Keys;
      assert Passable(g, n);
      assert n == Pos(n.x, n.y);
      assert n in Cells;
      StrictSubsetCard(Cells - cost.Keys, Cells - cost0.Keys, n);
    }
  }

  lemma {:induction false} SubsetCard<T>(a: set<T>, b: set<T>)
    requires a <= b
    ensures |a| <= |b|
    decreases |a|
  {
    if a != {} {
      var x :| x in a;
      SubsetCard(a - {x}, b - {x});
    }
  }

  lemma StrictSubsetCard<T>(a: set<T>, b: set<T>, x: T)
    requires a <= b && x in b && x !in a
    ensures |a| < |b|
  {
    SubsetCard(a, b - {x});
  }

  // -------------------------------------------------------------- the search

  /** The reversal of s, the path.reverse() of astar. */
  function Reverse(s: seq<Pos>): (r: seq<Pos>)
    ensures |r| == |s|
    ensures forall i :: 0 <= i < |s| ==> r[i] == s[|s| - 1 - i]
  {
    if s == [] then [] else [s[|s| - 1]] + Reverse(s[..|s| - 1])
  }

  /**
   * What astar promises: a non-empty result is a walk from start that ends at goal;
   * the result is empty exactly when goal is start or cannot be reached; and no walk
   * from start to goal is shorter than the result.
   */
  ghost predicate ShortestRoute(g: Grid, start: Pos, goal: Pos, path: seq<Pos>)
    requires WellFormed(g)
  {
    && (path != [] ==> IsWalk(g, start, path) && End(start, path) == goal)
    && (path == [] <==> goal == start || !Reachable(g, start, goal))
    && forall w :: IsWalk(g, start, w) && End(start, w) == goal ==> |path| <= |w|
  }

  /**
   * The `for dx, dy in neighbors` loop of astar: relax the four moves
   * out of current, whose frontier entry has just been popped.
   */
  method ExpandNeighbours(grid: Grid, start: Pos, goal: Pos, current: Pos,
                          queue0: multiset<Entry>, cost0: map<Pos, nat>, cameFrom0: map<Pos, Pos>)
    returns (queue: multiset<Entry>, costSoFar: map<Pos, nat>, cameFrom: map<Pos, Pos>)
    requires WellFormed(grid) && ExpandInv(grid, start, goal, queue0, cost0, cameFrom0, current, 0)
    ensures SearchInv(grid, start, goal, queue, costSoFar, cameFrom)
    ensures Progress(cost0, queue0, costSoFar, queue)
  {
    queue, costSoFar, cameFrom := queue0, cost0, cameFrom0;
    for k := 0 to 4
      invariant ExpandInv(grid, start, goal, queue, costSoFar, cameFrom, current, k)
      invariant Progress(cost0, queue0, costSoFar, queue)
    {
      var next := Shift(current, k);
      if InBounds(next) && At(grid, next) != Obstacle {
        var newCost := costSoFar[current] + 1;
        if next !in costSoFar || newCost < costSoFar[next] {
          ghost var queue', cost', cameFrom' := queue, costSoFar, cameFrom;
          costSoFar := costSoFar[next := newCost];
          var priority := newCost + Heuristic(goal, next);
          queue := queue + multiset{Entry(priority, next)};
          cameFrom := cameFrom[next := current];
          ImproveMove(grid, start, goal, queue', cost', cameFrom', current, k, queue, costSoFar, cameFrom);
          ProgressStep(cost0, queue0, cost', queue', next, newCost, Entry(priority, next));
        } else {
          SkipMove(grid, start, goal, queue, costSoFar, cameFrom, current, k);
        }
      } else {
        SkipMove(grid, start, goal, queue, costSoFar, cameFrom, current, k);
      }
    }
    ExpandDone(grid, start, goal, queue, costSoFar, cameFrom, current);
  }

  method AStar(grid: Grid, start: Pos, goal: Pos) returns (path: seq<Pos>)
    requires WellFormed(grid)
    ensures path != [] ==> IsWalk(grid, start, path) && End(start, path) == goal
    ensures path == [] <==> goal == start || !Reachable(grid, start, goal)
    ensures forall w :: IsWalk(grid, start, w) && End(start, w) == goal ==> |path| <= |w|
  {
    var queue: multiset<Entry> := multiset{Entry(0, start)};
    var cameFrom: map<Pos, Pos> := map[];
    var costSoFar: map<Pos, nat> := map[start := 0];
    InitialInv(grid, start, goal);
    ghost var popped := false;

    while queue != multiset{}
      invariant SearchInv(grid, start, goal, queue, costSoFar, cameFrom)
      invariant !popped
      decreases Unseen(costSoFar), Potential(costSoFar), |queue|
    {
      LeastExists(queue);
      var e :| IsLeast(e, queue);
      ghost var before := queue;
      queue := queue - multiset{e};
      var current := e.pos;
      if current == goal {
        forall w | IsWalk(grid, start, w) && End(start, w) == goal
          ensures costSoFar[goal] <= |w|
        {
          GoalPoppedOptimal(grid, start, goal, before, costSoFar, cameFrom, e, w);
        }
        popped := true;
        break;
      }
      PopInv(grid, start, goal, before, costSoFar, cameFrom, e);
      ghost var cost0, queue0 := costSoFar, queue;
      queue, costSoFar, cameFrom := ExpandNeighbours(grid, start, goal, current, queue, costSoFar, cameFrom);
      ProgressMeasure(grid, start, cost0, queue0, costSoFar, queue);
    }

    if !popped {
      ExhaustedUnreachable(grid, start, goal, costSoFar, cameFrom);
    }
    if goal !in cameFrom {
      return [];
    }
    path := [];
    var current := goal;
    while current != start
      invariant current in costSoFar
      invariant IsWalk(grid, current, Reverse(path)) && End(current, Reverse(path)) == goal
      invariant |path| + costSoFar[current] <= costSoFar[goal]
      decreases costSoFar[current]
    {
      assert Reverse(path + [current]) == [current] + Reverse(path) by {
        assert (path + [current])[..|path|] == path;
      }
      WalkCons(grid, cameFrom[current], current, Reverse(path));
      path := path + [current];
      current := cameFrom[current];
    }
    path := Reverse(path);
    assert IsWalk(grid, start, path) && End(start, path) == goal;
  }

  /** A grid without a single obstacle. */
  ghost predicate Open(g: Grid)
    requires WellFormed(g)
  {
    forall p :: InBounds(p) ==> At(g, p) != Obstacle
  }

  /** On an open grid an L-shaped walk joins any two cells in Manhattan-distance steps. */
  lemma {:induction false} ManhattanWalk(g: Grid, a: Pos, b: Pos) returns (w: seq<Pos>)
    requires WellFormed(g) && Open(g) && InBounds(a) && InBounds(b)
    ensures IsWalk(g, a, w) && End(a, w) == b && |w| == Heuristic(a, b)
    decreases Heuristic(a, b)
  {
    if a == b {
      w := [];
    } else {
      var c := if a.x < b.x then Pos(a.x + 1, a.y)
               else if a.x > b.x then Pos(a.x - 1, a.y)
               else if a.y < b.y then Pos(a.x, a.y + 1)
               else Pos(a.x, a.y - 1);
      assert Heuristic(c, b) == Heuristic(a, b) - 1;
      var rest := ManhattanWalk(g, c, b);
      WalkCons(g, a, c, rest);
      w := [c] + rest;
    }
  }

  /** With no obstacles, a shortest route is exactly as long as the Manhattan distance. */
  lemma OpenGridRouteIsManhattan(g: Grid, start: Pos, goal: Pos, path: seq<Pos>)
    requires WellFormed(g) && Open(g) && InBounds(start) && InBounds(goal)
    requires ShortestRoute(g, start, goal, path)
    ensures |path| == Heuristic(start, goal)
  {
    var w := ManhattanWalk(g, start, goal);
    assert IsWalk(g, start, w) && End(start, w) == goal;
    if path != [] {
      WalkAtLeastManhattan(g, start, path);
    }
  }
}
