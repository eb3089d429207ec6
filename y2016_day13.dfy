/** 2016 day 13: the cubicle maze (src/year_2016/day13.rs). Whether a cell is
    a wall depends on the parity of the set bits of a polynomial in its
    coordinates; routes are found with A*, and a breadth-first sweep counts
    the cells within fifty steps. */
module Year2016Day13 {
  import opened Wrappers
  import AStar
  import opened Point

  const MaxUsize: int := 0xffff_ffff_ffff_ffff

  /** A cell the `usize` coordinates can name. */
  predicate InGrid(p: Point2D) {
    0 <= p.x <= MaxUsize && 0 <= p.y <= MaxUsize
  }

  /** `count_ones`: the number of set bits. */
  function PopCount(n: nat): (c: nat)
    ensures c == 0 <==> n == 0
    ensures c <= n
  {
    if n == 0 then 0 else n % 2 + PopCount(n / 2)
  }

  /** Appending a bit adds it to the count. */
  lemma PopCountAppend(n: nat, bit: nat)
    requires bit < 2
    ensures PopCount(2 * n + bit) == PopCount(n) + bit
  {
    assert (2 * n + bit) / 2 == n;
  }

  /** `is_wall`: the cell is a wall when x*x + 3x + 2xy + y + y*y plus the
      favourite number has an odd number of set bits. */
  function IsWall(p: Point2D, favorite: nat): bool
    requires InGrid(p)
  {
    PopCount(Location(p.x, p.y, favorite)) % 2 != 0
  }

  function Location(x: nat, y: nat, favorite: nat): nat {
    x * x + 3 * x + 2 * x * y + y + y * y + favorite
  }

  /** The two cells one step apart in a cardinal direction. */
  predicate Adjacent(p: Point2D, q: Point2D) {
    (p.y == q.y && (q.x == p.x - 1 || q.x == p.x + 1)) || (p.x == q.x && (q.y == p.y - 1 || q.y == p.y + 1))
  }

  /** The cell, if it is open. */
  function IfOpen(p: Point2D, favorite: nat): seq<Point2D>
    requires InGrid(p)
  {
    if IsWall(p, favorite) then [] else [p]
  }

  /** `cardinal_neighbors`: left, right, up and down, each only when the
      coordinate can move without leaving `usize` and the cell is open. The
      result holds exactly the open adjacent cells. */
  function CardinalNeighbors(p: Point2D, favorite: nat): (r: seq<Point2D>)
    requires InGrid(p)
    ensures |r| <= 4
    ensures forall q :: q in r <==> InGrid(q) && Adjacent(p, q) && !IsWall(q, favorite)
  {
    (if p.x > 0 then IfOpen(Point2D(p.x - 1, p.y), favorite) else [])
    + (if p.x < MaxUsize then IfOpen(Point2D(p.x + 1, p.y), favorite) else [])
    + (if p.y > 0 then IfOpen(Point2D(p.x, p.y - 1), favorite) else [])
    + (if p.y < MaxUsize then IfOpen(Point2D(p.x, p.y + 1), favorite) else [])
  }

  function Abs(n: int): nat {
    if n < 0 then -n else n
  }

  /** The heuristic: larger minus smaller coordinate on each axis, summed. */
  function Manhattan(a: Point2D, b: Point2D): (d: int) {
    var (x1, x2) := if a.x > b.x then (a.x, b.x) else (b.x, a.x);
    var (y1, y2) := if a.y > b.y then (a.y, b.y) else (b.y, a.y);
    (x1 - x2) + (y1 - y2)
  }

  /** The heuristic is the Manhattan distance, the same both ways round, and
      1 exactly between adjacent cells. */
  lemma ManhattanMeaning(a: Point2D, b: Point2D)
    ensures Manhattan(a, b) == Abs(a.x - b.x) + Abs(a.y - b.y)
    ensures Manhattan(a, b) == Manhattan(b, a)
    ensures Manhattan(a, b) == 1 <==> Adjacent(a, b)
  {
  }

  /** Every step of a walk is a step of one in a cardinal direction onto an
      open cell. */
  predicate OpenWalk(path: seq<Point2D>, favorite: nat) {
    && (forall i :: 0 <= i < |path| ==> InGrid(path[i]))
    && forall i :: 1 <= i < |path| ==> Adjacent(path[i - 1], path[i]) && !IsWall(path[i], favorite)
  }

  /** The neighbour function handed to `a_star`. */
  function Neighbors(favorite: nat): Point2D -> seq<Point2D> {
    p => if InGrid(p) then CardinalNeighbors(p, favorite) else []
  }

  /** The step cost handed to `a_star`: every step costs 1. */
  function UnitCost(): (Point2D, Point2D) -> nat {
    (a: Point2D, b: Point2D) => 1
  }

  /** With unit steps a walk costs its number of steps. */
  lemma {:induction false} UnitPathCost(w: seq<Point2D>)
    requires |w| >= 1
    ensures AStar.PathCost(UnitCost(), w) == |w| - 1
  {
    if |w| >= 2 {
      UnitPathCost(w[1..]);
    }
  }

  /** The Manhattan heuristic never overestimates the steps of a walk
      through `Neighbors` to the goal. */
  lemma {:induction false} ManhattanBelowWalk(goal: Point2D, favorite: nat, w: seq<Point2D>)
    requires |w| >= 1 && w[|w| - 1] == goal && AStar.IsWalk(Neighbors(favorite), w)
    ensures Manhattan(goal, w[0]) <= |w| - 1
  {
    if |w| >= 2 {
      AStar.WalkSlice(Neighbors(favorite), w, 1, |w|);
      ManhattanBelowWalk(goal, favorite, w[1..]);
      assert w[1] in Neighbors(favorite)(w[0]);
      assert InGrid(w[0]) && Adjacent(w[0], w[1]);
      ManhattanStep(goal, w[0], w[1]);
    }
  }

  /** One step changes the heuristic by at most one. */
  lemma ManhattanStep(goal: Point2D, p: Point2D, q: Point2D)
    requires Adjacent(p, q)
    ensures Manhattan(goal, p) <= Manhattan(goal, q) + 1
  {
    ManhattanMeaning(goal, p);
    ManhattanMeaning(goal, q);
    ManhattanMeaning(q, goal);
    StepAway(goal, q, p, Manhattan(goal, q));
  }

  /** The Manhattan heuristic is admissible for unit steps through open cells. */
  lemma ManhattanAdmissible(goal: Point2D, favorite: nat)
    ensures AStar.Admissible(goal, Neighbors(favorite), UnitCost(), Manhattan)
  {
    forall w | |w| >= 1 && w[|w| - 1] == goal && AStar.IsWalk(Neighbors(favorite), w)
      ensures Manhattan(goal, w[0]) <= AStar.PathCost(UnitCost(), w)
    {
      ManhattanBelowWalk(goal, favorite, w);
      UnitPathCost(w);
    }
  }

  /** The first part: `a_star` from `start` to `goal` with unit steps and the
      Manhattan heuristic (its outer loop bounded by `fuel`). The route ends
      at the goal and walks through open cells. When the goal was popped it
      starts at `start` and no walk through open cells from `start` to `goal`
      takes fewer steps, which is the "fewest steps" the puzzle prints; when
      the frontier ran dry it is the goal alone and no walk through open
      cells leads from `start` to `goal`. */
  method Route(start: Point2D, goal: Point2D, favorite: nat, fuel: nat)
    returns (path: seq<Point2D>, outcome: AStar.Outcome)
    requires InGrid(start) && InGrid(goal)
    ensures |path| >= 1 && path[|path| - 1] == goal
    ensures path[0] == start || path == [goal]
    ensures OpenWalk(path, favorite)
    ensures outcome == AStar.Found ==> path[0] == start
    ensures outcome == AStar.Found ==>
      forall w :: |w| >= 1 && w[0] == start && w[|w| - 1] == goal && OpenWalk(w, favorite) ==> |path| <= |w|
    ensures outcome == AStar.Exhausted ==> path == [goal]
    ensures outcome == AStar.Exhausted ==>
      forall w :: |w| >= 1 && w[0] == start && OpenWalk(w, favorite) ==> w[|w| - 1] != goal
  {
    path, outcome := AStar.Search(start, goal, Neighbors(favorite), UnitCost(), Manhattan, fuel);
    NeighborWalkInGrid(path, favorite);
    NeighborWalkOpen(path, favorite);
    if outcome == AStar.Found {
      ManhattanAdmissible(goal, favorite);
      UnitPathCost(path);
      forall w | |w| >= 1 && w[0] == start && w[|w| - 1] == goal && OpenWalk(w, favorite) ensures |path| <= |w| {
        OpenWalkIsNeighborWalk(w, favorite);
        UnitPathCost(w);
      }
    }
    if outcome == AStar.Exhausted {
      forall w | |w| >= 1 && w[0] == start && OpenWalk(w, favorite) ensures w[|w| - 1] != goal {
        OpenWalkIsNeighborWalk(w, favorite);
      }
    }
  }

  /** A walk through open cells is a walk through `Neighbors`. */
  lemma OpenWalkIsNeighborWalk(path: seq<Point2D>, favorite: nat)
    requires OpenWalk(path, favorite)
    ensures AStar.IsWalk(Neighbors(favorite), path)
  {
    forall i | 0 <= i < |path| - 1 ensures path[i + 1] in Neighbors(favorite)(path[i]) {
      assert InGrid(path[i]) && InGrid(path[i + 1]);
    }
  }

  /** A walk through `Neighbors` from a grid cell stays in the grid. */
  lemma NeighborWalkInGrid(path: seq<Point2D>, favorite: nat)
    requires |path| >= 1 && InGrid(path[0]) && AStar.IsWalk(Neighbors(favorite), path)
    ensures forall i :: 0 <= i < |path| ==> InGrid(path[i])
  {
    forall i | 0 < i < |path| ensures InGrid(path[i]) {
      assert path[i] in Neighbors(favorite)(path[i - 1]);
    }
  }

  /** A walk through `Neighbors` steps to adjacent open cells. */
  lemma NeighborWalkOpen(path: seq<Point2D>, favorite: nat)
    requires forall i :: 0 <= i < |path| ==> InGrid(path[i])
    requires AStar.IsWalk(Neighbors(favorite), path)
    ensures OpenWalk(path, favorite)
  {
    forall i | 1 <= i < |path| ensures Adjacent(path[i - 1], path[i]) && !IsWall(path[i], favorite) {
      assert path[i] in Neighbors(favorite)(path[i - 1]);
    }
  }

  /** Test `simple_example`: with favourite number 10 the listed route from
      (1,1) to (7,4) walks through open cells in eleven steps. */
  lemma ExampleRouteIsOpen(path: seq<Point2D>)
    requires path == ExampleRoute()
    ensures OpenWalk(path, 10) && |path| - 1 == 11 && !IsWall(path[0], 10)
  {
    ExampleRouteAdjacent(path);
    ExampleCellsOpenA(path);
    ExampleCellsOpenB(path);
    ExampleCellsOpenC(path);
  }

  function ExampleRoute(): seq<Point2D> {
    [Point2D(1, 1), Point2D(1, 2), Point2D(2, 2), Point2D(3, 2), Point2D(3, 3), Point2D(3, 4),
     Point2D(4, 4), Point2D(4, 5), Point2D(5, 5), Point2D(6, 5), Point2D(7, 5), Point2D(7, 4)]
  }

  lemma ExampleRouteAdjacent(path: seq<Point2D>)
    requires path == ExampleRoute()
    ensures |path| == 12
    ensures forall i :: 0 <= i < |path| ==> InGrid(path[i])
    ensures forall i :: 1 <= i < |path| ==> Adjacent(path[i - 1], path[i])
  {
  }

  /** The route's cells are open: their location numbers 18, 24, 34, 46, 58,
      72, 90, 108, 130, 154, 180 and 156 have an even number of set bits.
      Each group of four has its own lemma to keep the proofs small. */
  lemma ExampleCellsOpenA(path: seq<Point2D>)
    requires path == ExampleRoute()
    ensures forall i :: 0 <= i < 4 ==> !IsWall(path[i], 10)
  {
    assert PopCount(1) == 1 && PopCount(2) == 1 && PopCount(3) == 2 && PopCount(4) == 1 && PopCount(5) == 2;
    assert PopCount(6) == 2 && PopCount(8) == 1 && PopCount(9) == 2 && PopCount(11) == 3 && PopCount(12) == 2;
    assert PopCount(17) == 2 && PopCount(18) == 2 && PopCount(23) == 4 && PopCount(24) == 2 && PopCount(34) == 2;
    assert PopCount(46) == 4;
    assert Location(1, 1, 10) == 18;
    assert Location(1, 2, 10) == 24;
    assert Location(2, 2, 10) == 34;
    assert Location(3, 2, 10) == 46;
  }

  lemma ExampleCellsOpenB(path: seq<Point2D>)
    requires path == ExampleRoute()
    ensures forall i :: 4 <= i < 8 ==> !IsWall(path[i], 10)
  {
    assert PopCount(1) == 1 && PopCount(2) == 1 && PopCount(3) == 2 && PopCount(4) == 1 && PopCount(5) == 2;
    assert PopCount(6) == 2 && PopCount(7) == 3 && PopCount(9) == 2 && PopCount(11) == 3 && PopCount(13) == 3;
    assert PopCount(14) == 3 && PopCount(18) == 2 && PopCount(22) == 3 && PopCount(27) == 4 && PopCount(29) == 4;
    assert PopCount(36) == 2 && PopCount(45) == 4 && PopCount(54) == 4 && PopCount(58) == 4 && PopCount(72) == 2;
    assert PopCount(90) == 4 && PopCount(108) == 4;
    assert Location(3, 3, 10) == 58;
    assert Location(3, 4, 10) == 72;
    assert Location(4, 4, 10) == 90;
    assert Location(4, 5, 10) == 108;
  }

  lemma ExampleCellsOpenC(path: seq<Point2D>)
    requires path == ExampleRoute()
    ensures forall i :: 8 <= i < 12 ==> !IsWall(path[i], 10)
  {
    assert PopCount(1) == 1 && PopCount(2) == 1 && PopCount(4) == 1 && PopCount(5) == 2 && PopCount(8) == 1;
    assert PopCount(9) == 2 && PopCount(11) == 3 && PopCount(16) == 1 && PopCount(19) == 3 && PopCount(22) == 3;
    assert PopCount(32) == 1 && PopCount(38) == 3 && PopCount(39) == 4 && PopCount(45) == 4 && PopCount(65) == 2;
    assert PopCount(77) == 4 && PopCount(78) == 4 && PopCount(90) == 4 && PopCount(130) == 2 && PopCount(154) == 4;
    assert PopCount(156) == 4 && PopCount(180) == 4;
    assert Location(5, 5, 10) == 130;
    assert Location(6, 5, 10) == 154;
    assert Location(7, 5, 10) == 180;
    assert Location(7, 4, 10) == 156;
  }

  // ----- the second part: cells within fifty steps -----

  /** Every cell a neighbour function offers is an adjacent grid cell. */
  ghost predicate StepsAdjacent(nb: Point2D -> seq<Point2D>) {
    forall p, q :: InGrid(p) && q in nb(p) ==> InGrid(q) && Adjacent(p, q)
  }

  lemma NeighborsAdjacent(favorite: nat)
    ensures StepsAdjacent(Neighbors(favorite))
  {
  }

  /** The cells one step from some cell of `s`. */
  function NeighborSet(s: set<Point2D>, nb: Point2D -> seq<Point2D>): set<Point2D> {
    set p, q | p in s && q in nb(p) :: q
  }

  /** The cells reachable from `start` in at most `k` steps. */
  function Ball(start: Point2D, nb: Point2D -> seq<Point2D>, k: nat): set<Point2D> {
    if k == 0 then {start} else Ball(start, nb, k - 1) + NeighborSet(Ball(start, nb, k - 1), nb)
  }

  /** The cells first reached after exactly `k` steps. */
  function Layer(start: Point2D, nb: Point2D -> seq<Point2D>, k: nat): set<Point2D> {
    if k == 0 then {start} else Ball(start, nb, k) - Ball(start, nb, k - 1)
  }

  /** Every cell reached in at most `k` steps lies in the grid, within
      Manhattan distance `k` of the start. */
  lemma {:induction false} BallNear(start: Point2D, nb: Point2D -> seq<Point2D>, k: nat, p: Point2D)
    requires InGrid(start) && StepsAdjacent(nb) && p in Ball(start, nb, k)
    ensures InGrid(p) && Abs(p.x - start.x) + Abs(p.y - start.y) <= k
  {
    if k > 0 && p !in Ball(start, nb, k - 1) {
      var q :| q in Ball(start, nb, k - 1) && p in nb(q);
      BallNear(start, nb, k - 1, q);
      StepAway(start, q, p, k - 1);
    } else if k > 0 {
      BallNear(start, nb, k - 1, p);
    }
  }

  /** One step moves the distance from `start` by at most one. */
  lemma StepAway(start: Point2D, q: Point2D, p: Point2D, d: nat)
    requires Adjacent(q, p) && Abs(q.x - start.x) + Abs(q.y - start.y) <= d
    ensures Abs(p.x - start.x) + Abs(p.y - start.y) <= d + 1
  {
  }

  /** A cell reached in at most `k` steps is reached in at most `k + 1`. */
  lemma BallGrows(start: Point2D, nb: Point2D -> seq<Point2D>, k: nat)
    ensures Ball(start, nb, k) <= Ball(start, nb, k + 1)
  {
  }

  /** The next ball adds the neighbours of the newest layer only: cells
      adjacent to older layers are already inside. */
  lemma {:induction false} NextBall(start: Point2D, nb: Point2D -> seq<Point2D>, k: nat)
    ensures Ball(start, nb, k + 1) == Ball(start, nb, k) + NeighborSet(Layer(start, nb, k), nb)
  {
    var b := Ball(start, nb, k);
    forall q | q in NeighborSet(b, nb) && q !in NeighborSet(Layer(start, nb, k), nb)
      ensures q in b
    {
      var p :| p in b && q in nb(p);
      assert p !in Layer(start, nb, k);
      assert k > 0 && p in Ball(start, nb, k - 1);
    }
  }

  /** The cells a frontier lists. */
  function Cells(s: seq<Point2D>): set<Point2D> {
    set p | p in s
  }

  /** The neighbours of a set of cells, gathered one cell at a time. */
  lemma NeighborSetAdd(s: set<Point2D>, p: Point2D, nb: Point2D -> seq<Point2D>)
    ensures NeighborSet(s + {p}, nb) == NeighborSet(s, nb) + Cells(nb(p))
  {
  }

  /** One sweep of the inner loops: every neighbour of a frontier cell that
      was not reached yet is reached and goes into the new frontier, once. */
  method Sweep(frontier: seq<Point2D>, reached0: set<Point2D>, nb: Point2D -> seq<Point2D>)
    returns (next: seq<Point2D>, reached: set<Point2D>)
    ensures reached == reached0 + NeighborSet(Cells(frontier), nb)
    ensures forall q :: q in next <==> q in reached && q !in reached0
    ensures forall i, j :: 0 <= i < j < |next| ==> next[i] != next[j]
  {
    next, reached := [], reached0;
    for i := 0 to |frontier|
      invariant reached == reached0 + NeighborSet(Cells(frontier[..i]), nb)
      invariant forall q :: q in next <==> q in reached && q !in reached0
      invariant forall a, b :: 0 <= a < b < |next| ==> next[a] != next[b]
    {
      NeighborSetAdd(Cells(frontier[..i]), frontier[i], nb);
      assert Cells(frontier[..i + 1]) == Cells(frontier[..i]) + {frontier[i]} by {
        assert frontier[..i + 1] == frontier[..i] + [frontier[i]];
      }
      next, reached := SweepCell(frontier[i], nb, next, reached, reached0);
    }
    assert frontier[..|frontier|] == frontier;
  }

  /** The innermost loop: the neighbours of one frontier cell. */
  method SweepCell(current: Point2D, nb: Point2D -> seq<Point2D>, next0: seq<Point2D>, reached1: set<Point2D>,
                   ghost reached0: set<Point2D>)
    returns (next: seq<Point2D>, reached: set<Point2D>)
    requires reached0 <= reached1
    requires forall q :: q in next0 <==> q in reached1 && q !in reached0
    requires forall a, b :: 0 <= a < b < |next0| ==> next0[a] != next0[b]
    ensures reached == reached1 + Cells(nb(current))
    ensures forall q :: q in next <==> q in reached && q !in reached0
    ensures forall a, b :: 0 <= a < b < |next| ==> next[a] != next[b]
  {
    var candidates := nb(current);
    next, reached := next0, reached1;
    for j := 0 to |candidates|
      invariant reached == reached1 + Cells(candidates[..j])
      invariant forall q :: q in next <==> q in reached && q !in reached0
      invariant forall a, b :: 0 <= a < b < |next| ==> next[a] != next[b]
    {
      assert candidates[..j + 1] == candidates[..j] + [candidates[j]];
      if candidates[j] !in reached {
        next := next + [candidates[j]];
        reached := reached + {candidates[j]};
      }
    }
    assert candidates[..|candidates|] == candidates;
  }

  /** The second part: `layers` rounds of breadth-first search from `start`
      through the open cells. The reached set is every cell at most `layers`
      steps away, all in the grid and that close to the start; its size is
      the answer. */
  method WithinSteps(start: Point2D, favorite: nat, layers: nat) returns (reached: set<Point2D>)
    requires InGrid(start)
    ensures reached == Ball(start, Neighbors(favorite), layers)
    ensures forall p :: p in reached ==> InGrid(p) && Abs(p.x - start.x) + Abs(p.y - start.y) <= layers
  {
    reached := Explore(start, Neighbors(favorite), layers);
    NeighborsAdjacent(favorite);
    forall p | p in reached ensures InGrid(p) && Abs(p.x - start.x) + Abs(p.y - start.y) <= layers {
      BallNear(start, Neighbors(favorite), layers, p);
    }
  }

  /** The layered breadth-first search over any neighbour function. */
  method Explore(start: Point2D, nb: Point2D -> seq<Point2D>, layers: nat) returns (reached: set<Point2D>)
    ensures reached == Ball(start, nb, layers)
  {
    var frontier := [start];
    reached := {start};
    for k := 0 to layers
      invariant reached == Ball(start, nb, k)
      invariant Cells(frontier) == Layer(start, nb, k)
    {
      var next;
      next, reached := Sweep(frontier, reached, nb);
      NextBall(start, nb, k);
      frontier := next;
    }
  }
}
