/** The simulation's cell matrix and the vocabulary of 4-connected walks over it. */
module GridMap {

  /** The grid has ROWS rows of COLS cells. */
  const ROWS: int := 15
  const COLS: int := 15

  /** Cell kinds. robot.py also defines a ROBOT code, but never stores it in the grid. */
  datatype Cell = Empty | Obstacle | Package | Target

  /** A cell coordinate (x = column, y = row), the (x, y) tuple of robot.py. */
  datatype Pos = Pos(x: int, y: int)

  /** The matrix grid[y][x], as a map from each cell coordinate to its kind. */
  type Grid = map<Pos, Cell>

  /** Every cell of the 15 x 15 board has a kind. */
  predicate WellFormed(g: Grid) {
    forall x, y :: 0 <= x < COLS && 0 <= y < ROWS ==> Pos(x, y) in g
  }

  predicate InBounds(p: Pos) {
    0 <= p.x < COLS && 0 <= p.y < ROWS
  }

  function At(g: Grid, p: Pos): Cell
    requires WellFormed(g) && InBounds(p)
  {
    g[p]
  }

  /** A cell the robot may enter: inside the grid and not an obstacle. */
  predicate Passable(g: Grid, p: Pos)
    requires WellFormed(g)
  {
    InBounds(p) && At(g, p) != Obstacle
  }

  /** The in-place assignment grid[y][x] = c, as a new grid value. */
  function SetCell(g: Grid, p: Pos, c: Cell): (g': Grid)
    requires WellFormed(g) && InBounds(p)
    ensures WellFormed(g')
    ensures At(g', p) == c
    ensures forall q :: InBounds(q) && q != p ==> At(g', q) == At(g, q)
  {
    g[p := c]
  }

  /** Two grids block exactly the same cells. */
  ghost predicate SamePassability(g: Grid, h: Grid)
    requires WellFormed(g) && WellFormed(h)
  {
    forall p :: InBounds(p) ==> (At(g, p) == Obstacle <==> At(h, p) == Obstacle)
  }

  function Abs(n: int): nat {
    if n < 0 then -n else n
  }

  /** The four unit moves, in the order the planner tries them. */
  const Moves: seq<(int, int)> := [(0, 1), (1, 0), (-1, 0), (0, -1)]

  function Shift(p: Pos, k: int): Pos
    requires 0 <= k < 4
  {
    Pos(p.x + Moves[k].0, p.y + Moves[k].1)
  }

  /** a and b differ by exactly one unit step along exactly one axis. */
  predicate Adjacent(a: Pos, b: Pos) {
    Abs(a.x - b.x) + Abs(a.y - b.y) == 1
  }

  /** Each of the four moves reaches a 4-neighbour, and no two moves reach the same one. */
  lemma ShiftAdjacent(p: Pos, k: int)
    requires 0 <= k < 4
    ensures Adjacent(p, Shift(p, k)) && Shift(p, k) != p
    ensures forall j :: 0 <= j < 4 && j != k ==> Shift(p, j) != Shift(p, k)
  {
  }

  /** Every 4-neighbour is reached by one of the four moves. */
  lemma AdjacentIsShift(a: Pos, b: Pos) returns (k: int)
    requires Adjacent(a, b)
    ensures 0 <= k < 4 && Shift(a, k) == b
  {
    if b.y == a.y + 1 { k := 0; }
    else if b.x == a.x + 1 { k := 1; }
    else if b.x == a.x - 1 { k := 2; }
    else { k := 3; }
  }

  /** The i-th cell of the walk w from start: start itself for i == 0, w[i - 1] after. */
  function Node(start: Pos, w: seq<Pos>, i: int): Pos
    requires 0 <= i <= |w|
  {
    if i == 0 then start else w[i - 1]
  }

  /** Where the walk w from start ends. */
  function End(start: Pos, w: seq<Pos>): Pos {
    Node(start, w, |w|)
  }

  /**
   * w is a 4-connected walk leaving start: each cell of w is passable and a
   * 4-neighbour of the cell before it. Like the planner's paths, w excludes start.
   */
  predicate IsWalk(g: Grid, start: Pos, w: seq<Pos>)
    requires WellFormed(g)
  {
    forall i :: 0 <= i < |w| ==> WalkStep(g, start, w, i)
  }

  /** The i-th cell of w is passable and a 4-neighbour of the cell before it. */
  predicate WalkStep(g: Grid, start: Pos, w: seq<Pos>, i: int)
    requires WellFormed(g) && 0 <= i < |w|
  {
    Passable(g, w[i]) && Adjacent(Node(start, w, i), w[i])
  }

  ghost predicate Reachable(g: Grid, start: Pos, goal: Pos)
    requires WellFormed(g)
  {
    exists w :: IsWalk(g, start, w) && End(start, w) == goal
  }

  /** Every cell of a walk lies inside the grid. */
  lemma WalkInBounds(g: Grid, start: Pos, w: seq<Pos>)
    requires WellFormed(g) && IsWalk(g, start, w)
    ensures forall i :: 0 <= i < |w| ==> InBounds(w[i])
  {
    forall i | 0 <= i < |w| ensures InBounds(w[i]) {
      assert WalkStep(g, start, w, i);
    }
  }

  /** Prepending a step to a walk gives a walk from the step's predecessor. */
  lemma WalkCons(g: Grid, from: Pos, c: Pos, w: seq<Pos>)
    requires WellFormed(g) && IsWalk(g, c, w)
    requires Passable(g, c) && Adjacent(from, c)
    ensures IsWalk(g, from, [c] + w) && End(from, [c] + w) == End(c, w)
  {
    var w' := [c] + w;
    forall i | 0 <= i < |w'|
      ensures WalkStep(g, from, w', i)
    {
      if i == 0 {
        assert w'[0] == c && Node(from, w', 0) == from;
      } else {
        assert w'[i] == w[i - 1];
        assert Node(from, w', i) == Node(c, w, i - 1);
        assert WalkStep(g, c, w, i - 1);
      }
    }
    if w != [] {
      assert w'[|w'| - 1] == w[|w| - 1];
    }
  }

  /** Walks depend only on which cells are blocked. */
  lemma WalksAgree(g: Grid, h: Grid, start: Pos, w: seq<Pos>)
    requires WellFormed(g) && WellFormed(h) && SamePassability(g, h)
    ensures IsWalk(g, start, w) <==> IsWalk(h, start, w)
  {
    forall i | 0 <= i < |w| ensures WalkStep(g, start, w, i) <==> WalkStep(h, start, w, i) {
    }
  }
}
