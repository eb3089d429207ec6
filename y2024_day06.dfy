/** 2024 day 6: a guard patrols a lab map, walking straight ahead and turning
    right in front of each obstruction until it leaves the map
    (src/year_2024/day06.rs). Part one counts the distinct positions of the
    patrol; part two counts the cells where one extra obstruction traps the
    guard in a loop. Coordinates are `usize` values, taken as 64 bits wide. */
module Year2024Day06 {
  import opened Wrappers
  import opened Cardinal
  import opened Point

  const USIZE_MAX: int := 0xFFFF_FFFF_FFFF_FFFF

  type Usize = n: int | 0 <= n <= USIZE_MAX

  predicate InUsize(p: Point2D) {
    0 <= p.x <= USIZE_MAX && 0 <= p.y <= USIZE_MAX
  }

  /** `Point2D<usize>`. */
  type UPoint = p: Point2D | InUsize(p) witness Point2D(0, 0)

  datatype Tile = Obstruction | Empty

  datatype Guard = Guard(pos: UPoint, dir: Cardinal)

  datatype PathTermination = Exited(visited: set<Guard>) | Looped

  datatype Fault = UnexpectedChar(ch: char) | UnexpectedLoop

  function Larger(a: int, b: int): int {
    if a < b then b else a
  }

  /** `max` is the componentwise maximum of the tile positions, or 0 in a
      component where there are none above 0. */
  ghost predicate Fits(tiles: map<UPoint, Tile>, max: UPoint) {
    && (forall p :: p in tiles ==> p.x <= max.x && p.y <= max.y)
    && (max.x == 0 || exists p :: p in tiles && p.x == max.x)
    && (max.y == 0 || exists p :: p in tiles && p.y == max.y)
  }

  /** The tiles determine the maximum. */
  lemma FitsUnique(tiles: map<UPoint, Tile>, a: UPoint, b: UPoint)
    requires Fits(tiles, a) && Fits(tiles, b)
    ensures a == b
  {
    if b.x != 0 {
      var p :| p in tiles && p.x == b.x;
    }
    if a.x != 0 {
      var p :| p in tiles && p.x == a.x;
    }
    if b.y != 0 {
      var p :| p in tiles && p.y == b.y;
    }
    if a.y != 0 {
      var p :| p in tiles && p.y == a.y;
    }
  }

  /** `GuardMap::get`: the tile at a position, Empty where none was inserted. */
  function Get(tiles: map<UPoint, Tile>, pos: UPoint): (t: Tile)
    ensures pos !in tiles ==> t == Empty
  {
    if pos in tiles then tiles[pos] else Empty
  }

  /** Putting a tile at one position changes what `Get` reads there and
      nowhere else. */
  lemma GetUpdate(tiles: map<UPoint, Tile>, p: UPoint, t: Tile, q: UPoint)
    ensures Get(tiles[p := t], q) == if q == p then t else Get(tiles, q)
  {
  }

  class GuardMap {
    var tiles: map<UPoint, Tile>
    var max: UPoint

    ghost predicate Valid()
      reads this
    {
      Fits(tiles, max)
    }

    /** `GuardMap::new`. */
    constructor ()
      ensures tiles == map[] && max == Point2D(0, 0)
      ensures Valid()
    {
      tiles := map[];
      max := Point2D(0, 0);
    }

    /** `GuardMap::insert`: stores the tile and raises `max` in each
        component the position exceeds. */
    method Insert(pos: UPoint, tile: Tile)
      requires Valid()
      modifies this
      ensures tiles == old(tiles)[pos := tile]
      ensures max == Point2D(Larger(old(max).x, pos.x), Larger(old(max).y, pos.y))
      ensures Valid()
    {
      tiles := tiles[pos := tile];
      match (pos.x > max.x, pos.y > max.y)
      case (true, true) =>
        max := pos;
      case (true, false) =>
        max := Point2D(pos.x, max.y);
      case (false, true) =>
        max := Point2D(max.x, pos.y);
      case (false, false) =>
    }

    /** `#[derive(Clone)]`. */
    method Clone() returns (c: GuardMap)
      ensures fresh(c)
      ensures c.tiles == tiles && c.max == max
    {
      c := new GuardMap();
      c.tiles := tiles;
      c.max := max;
    }
  }

  /** The point `mag` cells away in the given heading, in unbounded
      coordinates (North is towards smaller `y`). */
  function Offset(p: Point2D, dir: Cardinal, mag: int): Point2D {
    match dir
    case North => Point2D(p.x, p.y - mag)
    case East => Point2D(p.x + mag, p.y)
    case South => Point2D(p.x, p.y + mag)
    case West => Point2D(p.x - mag, p.y)
  }

  /** `Point2D::step`: the checked subtraction or addition of the heading. */
  function Step(p: UPoint, dir: Cardinal, mag: Usize): (r: Option<UPoint>)
    ensures r.Some? <==> InUsize(Offset(p, dir, mag))
    ensures r.Some? ==> r.value == Offset(p, dir, mag)
  {
    match dir
    case North => if p.y < mag then None else Some(Point2D(p.x, p.y - mag))
    case East => if p.x + mag > USIZE_MAX then None else Some(Point2D(p.x + mag, p.y))
    case South => if p.y + mag > USIZE_MAX then None else Some(Point2D(p.x, p.y + mag))
    case West => if p.x < mag then None else Some(Point2D(p.x - mag, p.y))
  }

  /** The heading behind: two right turns. */
  function Behind(dir: Cardinal): Cardinal {
    TurnTo(TurnTo(dir, Right), Right)
  }

  /** A step that succeeds can be retraced by the same step backwards. */
  lemma StepBack(p: UPoint, dir: Cardinal, mag: Usize)
    requires Step(p, dir, mag).Some?
    ensures Step(Step(p, dir, mag).value, Behind(dir), mag) == Some(p)
  {
  }

  /** The cell one step ahead of the guard, when it is on the map. */
  function InFront(g: Guard, max: UPoint): Option<UPoint> {
    match Step(g.pos, g.dir, 1)
    case None => None
    case Some(next) => if next.y <= max.y && next.x <= max.x then Some(next) else None
  }

  /** `Guard::step`: `None` for the `false` return, otherwise the guard after
      moving or turning. */
  function Next(g: Guard, tiles: map<UPoint, Tile>, max: UPoint): Option<Guard> {
    match InFront(g, max)
    case None => None
    case Some(next) =>
      if Get(tiles, next) == Empty then Some(Guard(next, g.dir))
      else Some(Guard(g.pos, TurnTo(g.dir, Right)))
  }

  /** `Guard::step` stops exactly when the cell ahead lies off the map;
      otherwise the guard moves one cell ahead onto an empty tile or turns
      right in place before an obstruction. */
  lemma {:induction false} NextMeaning(g: Guard, tiles: map<UPoint, Tile>, max: UPoint)
    ensures var ahead := Offset(g.pos, g.dir, 1);
      Next(g, tiles, max).None? <==> !(0 <= ahead.x <= max.x && 0 <= ahead.y <= max.y)
    ensures var ahead := Offset(g.pos, g.dir, 1);
      Next(g, tiles, max).Some? && Get(tiles, ahead) == Empty ==>
        Next(g, tiles, max) == Some(Guard(ahead, g.dir))
    ensures var ahead := Offset(g.pos, g.dir, 1);
      Next(g, tiles, max).Some? && Get(tiles, ahead) == Obstruction ==>
        Next(g, tiles, max) == Some(Guard(g.pos, TurnTo(g.dir, Right)))
  {
    var ahead := Offset(g.pos, g.dir, 1);
    if 0 <= ahead.x <= max.x && 0 <= ahead.y <= max.y {
      assert InFront(g, max) == Some(ahead);
    }
  }

  /** A walk: the guard's states from `start`, each the step of the last. */
  ghost predicate IsWalk(start: Guard, tiles: map<UPoint, Tile>, max: UPoint, path: seq<Guard>) {
    && |path| > 0
    && path[0] == start
    && forall k :: 0 <= k < |path| - 1 ==> Next(path[k], tiles, max) == Some(path[k + 1])
  }

  /** A walk to the last state before the guard leaves the map. */
  ghost predicate Leaves(start: Guard, tiles: map<UPoint, Tile>, max: UPoint, path: seq<Guard>) {
    IsWalk(start, tiles, max, path) && Next(path[|path| - 1], tiles, max).None?
  }

  ghost predicate Repeats(path: seq<Guard>) {
    exists i, j :: 0 <= i < j < |path| && path[i] == path[j]
  }

  /** Some walk comes back to a state it was in. */
  ghost predicate Loops(start: Guard, tiles: map<UPoint, Tile>, max: UPoint) {
    exists path :: IsWalk(start, tiles, max, path) && Repeats(path)
  }

  ghost function Elems(path: seq<Guard>): set<Guard> {
    set g | g in path
  }

  /** Two walks from the same start agree wherever both are defined. */
  lemma {:induction false} WalksAgree(start: Guard, tiles: map<UPoint, Tile>, max: UPoint,
                                      p: seq<Guard>, q: seq<Guard>, k: nat)
    requires IsWalk(start, tiles, max, p) && IsWalk(start, tiles, max, q)
    requires k < |p| && k < |q|
    ensures p[k] == q[k]
  {
    if k > 0 {
      WalksAgree(start, tiles, max, p, q, k - 1);
      assert Next(p[k - 1], tiles, max) == Some(p[k]);
      assert Next(q[k - 1], tiles, max) == Some(q[k]);
    }
  }

  /** Every index of a walk is an index of the walk that leaves. */
  lemma {:induction false} WalkWithin(start: Guard, tiles: map<UPoint, Tile>, max: UPoint,
                                      p: seq<Guard>, q: seq<Guard>, k: nat)
    requires Leaves(start, tiles, max, p) && IsWalk(start, tiles, max, q)
    requires k < |q|
    ensures k < |p|
  {
    if k > 0 {
      WalkWithin(start, tiles, max, p, q, k - 1);
      WalksAgree(start, tiles, max, p, q, k - 1);
      assert Next(q[k - 1], tiles, max) == Some(q[k]);
    }
  }

  /** No walk goes on past the state where the guard leaves. */
  lemma LeavesLongest(start: Guard, tiles: map<UPoint, Tile>, max: UPoint, p: seq<Guard>, q: seq<Guard>)
    requires Leaves(start, tiles, max, p) && IsWalk(start, tiles, max, q)
    ensures |q| <= |p|
  {
    WalkWithin(start, tiles, max, p, q, |q| - 1);
  }

  /** A walk that leaves without repeating a state rules out every loop. */
  lemma LeavesNoLoop(start: Guard, tiles: map<UPoint, Tile>, max: UPoint, p: seq<Guard>)
    requires Leaves(start, tiles, max, p) && !Repeats(p)
    ensures !Loops(start, tiles, max)
  {
    forall q | IsWalk(start, tiles, max, q)
      ensures !Repeats(q)
    {
      LeavesLongest(start, tiles, max, p, q);
      forall i, j | 0 <= i < j < |q|
        ensures q[i] != q[j]
      {
        WalksAgree(start, tiles, max, p, q, i);
        WalksAgree(start, tiles, max, p, q, j);
      }
    }
  }

  /** A walk extends by the guard's next state. */
  lemma WalkExtends(start: Guard, tiles: map<UPoint, Tile>, max: UPoint, path: seq<Guard>, g: Guard)
    requires IsWalk(start, tiles, max, path)
    requires Next(path[|path| - 1], tiles, max) == Some(g)
    ensures IsWalk(start, tiles, max, path + [g])
  {
    var q := path + [g];
    forall k | 0 <= k < |q| - 1
      ensures Next(q[k], tiles, max) == Some(q[k + 1])
    {
      if k < |path| - 1 {
        assert q[k] == path[k] && q[k + 1] == path[k + 1];
      }
    }
  }

  /** Appending a state not yet in the walk keeps its states distinct. */
  lemma AppendFresh(path: seq<Guard>, g: Guard)
    requires !Repeats(path) && g !in path
    ensures !Repeats(path + [g])
  {
    var q := path + [g];
    forall i, j | 0 <= i < j < |q|
      ensures q[i] != q[j]
    {
      assert q[i] == path[i];
      if j < |path| {
        assert q[j] == path[j];
      }
    }
  }

  const Headings: set<Cardinal> := {North, East, South, West}

  /** Every state the guard can reach from a start position: any heading on
      a map cell, or any heading at the start position itself. */
  ghost function Box(start: UPoint, max: UPoint): set<Guard> {
    (set x: int, y: int, d: Cardinal | 0 <= x <= max.x && 0 <= y <= max.y && d in Headings
       :: Guard(Point2D(x, y), d))
    + (set d: Cardinal | d in Headings :: Guard(start, d))
  }

  lemma InBox(start: UPoint, max: UPoint, g: Guard)
    requires g.pos == start || (g.pos.x <= max.x && g.pos.y <= max.y)
    ensures g in Box(start, max)
  {
    match g.dir {
      case North =>
      case East =>
      case South =>
      case West =>
    }
    if g.pos != start {
      assert g == Guard(Point2D(g.pos.x, g.pos.y), g.dir);
    }
  }

  /** The guard's next state stays among the reachable ones. */
  lemma NextInBox(start: UPoint, tiles: map<UPoint, Tile>, max: UPoint, g: Guard)
    requires g in Box(start, max) && Next(g, tiles, max).Some?
    ensures Next(g, tiles, max).value in Box(start, max)
  {
    var n := Next(g, tiles, max).value;
    if n.pos == g.pos {
      if g.pos != start {
        var x: int, y: int, d: Cardinal :| 0 <= x <= max.x && 0 <= y <= max.y && d in Headings
          && g == Guard(Point2D(x, y), d);
      }
    }
    InBox(start, max, n);
  }

  /** `execute_pathing`: steps the guard until it leaves the map or comes
      back to a state it has been in. */
  method ExecutePathing(start: Guard, guardMap: GuardMap) returns (r: PathTermination)
    ensures r.Looped? <==> Loops(start, guardMap.tiles, guardMap.max)
    ensures r.Exited? ==> exists path ::
      Leaves(start, guardMap.tiles, guardMap.max, path) && !Repeats(path) && r.visited == Elems(path)
  {
    var guard := start;
    var visited := {guard};
    ghost var path := [guard];
    ghost var box := Box(start.pos, guardMap.max);
    InBox(start.pos, guardMap.max, start);
    while true
      invariant IsWalk(start, guardMap.tiles, guardMap.max, path)
      invariant guard == path[|path| - 1]
      invariant visited == Elems(path)
      invariant !Repeats(path)
      invariant guard in box && visited <= box
      decreases box - visited
    {
      var next := Next(guard, guardMap.tiles, guardMap.max);
      if next.None? {
        LeavesNoLoop(start, guardMap.tiles, guardMap.max, path);
        return Exited(visited);
      }
      NextInBox(start.pos, guardMap.tiles, guardMap.max, guard);
      WalkExtends(start, guardMap.tiles, guardMap.max, path, next.value);
      guard := next.value;
      if guard in visited {
        ghost var i :| 0 <= i < |path| && path[i] == guard;
        assert (path + [guard])[i] == (path + [guard])[|path|];
        return Looped;
      }
      AppendFresh(path, guard);
      path := path + [guard];
      visited := visited + {guard};
    }
  }

  ghost function Positions(visited: set<Guard>): set<UPoint> {
    set v | v in visited :: v.pos
  }

  /** There are no more positions than states. */
  lemma {:induction false} PositionsBound(visited: set<Guard>)
    ensures |Positions(visited)| <= |visited|
    decreases visited
  {
    if visited != {} {
      var v :| v in visited;
      var rest := visited - {v};
      PositionsBound(rest);
      assert Positions(visited) == Positions(rest) + {v.pos};
    }
  }

  /** `unique_locations`: the number of distinct positions among the states. */
  method UniqueLocations(visited: set<Guard>) returns (count: nat)
    ensures count == |Positions(visited)|
  {
    var unique: set<UPoint> := {};
    var remaining := visited;
    while remaining != {}
      invariant remaining <= visited
      invariant unique == Positions(visited - remaining)
      decreases remaining
    {
      var v :| v in remaining;
      assert Positions(visited - (remaining - {v})) == Positions(visited - remaining) + {v.pos};
      unique := unique + {v.pos};
      remaining := remaining - {v};
    }
    assert visited - remaining == visited;
    count := |unique|;
  }

  /** The cell in front of a state that `main` may block: on the map and
      empty. */
  function Candidate(v: Guard, tiles: map<UPoint, Tile>, max: UPoint): Option<UPoint> {
    match InFront(v, max)
    case None => None
    case Some(next) => if Get(tiles, next) == Empty then Some(next) else None
  }

  ghost function Attempts(states: set<Guard>, tiles: map<UPoint, Tile>, max: UPoint): set<UPoint> {
    set v | v in states && Candidate(v, tiles, max).Some? :: Candidate(v, tiles, max).value
  }

  /** The candidate cells whose obstruction makes the guard loop. */
  ghost function Looping(start: Guard, states: set<Guard>, tiles: map<UPoint, Tile>, max: UPoint): set<UPoint> {
    set n | n in Attempts(states, tiles, max) && Loops(start, tiles[n := Obstruction], max)
  }

  lemma AttemptsStep(states: set<Guard>, v: Guard, tiles: map<UPoint, Tile>, max: UPoint)
    ensures Attempts(states + {v}, tiles, max) ==
      Attempts(states, tiles, max) + (if Candidate(v, tiles, max).Some? then {Candidate(v, tiles, max).value} else {})
  {
  }

  /** How one more visited state changes the cells tried and the cells
      that trap the guard: a new candidate cell is added once, a cell
      already tried changes nothing. */
  lemma LoopingStep(start: Guard, states: set<Guard>, v: Guard, tiles: map<UPoint, Tile>, max: UPoint)
    ensures Candidate(v, tiles, max).None? || Candidate(v, tiles, max).value in Attempts(states, tiles, max) ==>
      Attempts(states + {v}, tiles, max) == Attempts(states, tiles, max)
      && Looping(start, states + {v}, tiles, max) == Looping(start, states, tiles, max)
    ensures Candidate(v, tiles, max).Some? && Candidate(v, tiles, max).value !in Attempts(states, tiles, max) ==>
      var n := Candidate(v, tiles, max).value;
      && Attempts(states + {v}, tiles, max) == Attempts(states, tiles, max) + {n}
      && |Looping(start, states + {v}, tiles, max)|
         == |Looping(start, states, tiles, max)| + (if Loops(start, tiles[n := Obstruction], max) then 1 else 0)
  {
    AttemptsStep(states, v, tiles, max);
    if Candidate(v, tiles, max).Some? {
      var n := Candidate(v, tiles, max).value;
      var before := Looping(start, states, tiles, max);
      var after := Looping(start, states + {v}, tiles, max);
      if n !in Attempts(states, tiles, max) && Loops(start, tiles[n := Obstruction], max) {
        assert after == before + {n};
        assert n !in before;
      } else {
        assert after == before;
      }
    }
  }

  /** A cell is blocked in turn for each of the visited states in front of
      which it lies, at most once per cell. */
  lemma LoopingBound(start: Guard, states: set<Guard>, tiles: map<UPoint, Tile>, max: UPoint)
    ensures |Looping(start, states, tiles, max)| <= |Attempts(states, tiles, max)| <= |states|
  {
    var a := Attempts(states, tiles, max);
    var l := Looping(start, states, tiles, max);
    assert a == l + (a - l);
    AttemptsBound(states, tiles, max);
  }

  lemma {:induction false} AttemptsBound(states: set<Guard>, tiles: map<UPoint, Tile>, max: UPoint)
    ensures |Attempts(states, tiles, max)| <= |states|
    decreases states
  {
    if states != {} {
      var v :| v in states;
      var rest := states - {v};
      AttemptsBound(rest, tiles, max);
      assert states == rest + {v};
      AttemptsStep(rest, v, tiles, max);
    }
  }

  /** One trial of `main`: a copy of the map with an obstruction added at
      `n`, walked from the start. */
  method TryBlock(start: Guard, guardMap: GuardMap, n: UPoint) returns (loops: bool)
    requires guardMap.Valid() && n.x <= guardMap.max.x && n.y <= guardMap.max.y
    ensures loops == Loops(start, guardMap.tiles[n := Obstruction], guardMap.max)
  {
    var alt := guardMap.Clone();
    alt.Insert(n, Obstruction);
    var outcome := ExecutePathing(start, alt);
    loops := outcome == Looped;
  }

  /** The second half of `main`: tries an obstruction on the empty map cell in
      front of each visited state, once per cell, and counts the loops. */
  method CountLoops(start: Guard, guardMap: GuardMap, visited: set<Guard>) returns (loopCount: nat)
    requires guardMap.Valid()
    ensures loopCount == |Looping(start, visited, guardMap.tiles, guardMap.max)|
  {
    var blockAttempted: set<UPoint> := {};
    loopCount := 0;
    var remaining := visited;
    while remaining != {}
      invariant remaining <= visited
      invariant blockAttempted == Attempts(visited - remaining, guardMap.tiles, guardMap.max)
      invariant loopCount == |Looping(start, visited - remaining, guardMap.tiles, guardMap.max)|
      decreases remaining
    {
      var v :| v in remaining;
      ghost var done := visited - remaining;
      assert visited - (remaining - {v}) == done + {v};
      LoopingStep(start, done, v, guardMap.tiles, guardMap.max);
      var next := Candidate(v, guardMap.tiles, guardMap.max);
      if next.Some? && next.value !in blockAttempted {
        blockAttempted := blockAttempted + {next.value};
        var loops := TryBlock(start, guardMap, next.value);
        if loops {
          loopCount := loopCount + 1;
        }
      }
      remaining := remaining - {v};
    }
    assert visited - remaining == visited;
  }

  /** The tile a map character stands for; the guard's cell gets none. */
  function TileIn(lines: seq<string>, p: UPoint): Option<Tile> {
    if p.y < |lines| && p.x < |lines[p.y]| then
      if lines[p.y][p.x] == '#' then Some(Obstruction)
      else if lines[p.y][p.x] == '.' then Some(Empty)
      else None
    else None
  }

  /** Row-major order: `p` comes before column `x` of row `y`. */
  predicate Before(p: Point2D, y: int, x: int) {
    p.y < y || (p.y == y && p.x < x)
  }

  /** The tiles hold exactly the cells read before `(x, y)`. */
  ghost predicate LoadedUpTo(lines: seq<string>, y: int, x: int, tiles: map<UPoint, Tile>) {
    && (forall p: UPoint :: p in tiles <==> Before(p, y, x) && TileIn(lines, p).Some?)
    && (forall p :: p in tiles ==> Some(tiles[p]) == TileIn(lines, p))
  }

  /** The map read from the whole grid. */
  ghost predicate Loaded(lines: seq<string>, tiles: map<UPoint, Tile>, max: UPoint) {
    LoadedUpTo(lines, |lines|, 0, tiles) && Fits(tiles, max)
  }

  /** The grid determines the guardMap. */
  lemma LoadedUnique(lines: seq<string>, t1: map<UPoint, Tile>, m1: UPoint, t2: map<UPoint, Tile>, m2: UPoint)
    requires Loaded(lines, t1, m1) && Loaded(lines, t2, m2)
    ensures t1 == t2 && m1 == m2
  {
    assert forall p :: p in t1 <==> p in t2;
    assert forall p :: p in t1 ==> t1[p] == t2[p];
    FitsUnique(t1, m1, m2);
  }

  /** Every row and column index fits a `usize`. */
  predicate Addressable(lines: seq<string>) {
    |lines| <= USIZE_MAX && forall y :: 0 <= y < |lines| ==> |lines[y]| <= USIZE_MAX
  }

  predicate ValidChar(c: char) {
    c == '#' || c == '.' || c == '^'
  }

  /** Every character of the rows before `y`, and of row `y` before `x`, is a
      map character. */
  predicate ValidBefore(lines: seq<string>, y: int, x: int) {
    forall j, i :: 0 <= j < |lines| && 0 <= i < |lines[j]| && Before(Point2D(i, j), y, x) ==> ValidChar(lines[j][i])
  }

  predicate ValidGrid(lines: seq<string>) {
    ValidBefore(lines, |lines|, 0)
  }

  /** The index of the last `^` among the first `n` characters of a row. */
  function LastCaret(s: string, n: nat): (r: Option<nat>)
    requires n <= |s|
    ensures r.Some? ==> r.value < n && s[r.value] == '^'
  {
    if n == 0 then None
    else if s[n - 1] == '^' then Some(n - 1)
    else LastCaret(s, n - 1)
  }

  lemma {:induction false} LastCaretMeaning(s: string, n: nat)
    requires n <= |s|
    ensures LastCaret(s, n).None? <==> forall i :: 0 <= i < n ==> s[i] != '^'
    ensures LastCaret(s, n).Some? ==> forall i :: LastCaret(s, n).value < i < n ==> s[i] != '^'
  {
    if n > 0 && s[n - 1] != '^' {
      LastCaretMeaning(s, n - 1);
    }
  }

  /** Where the guard stands once the first `y` rows are read: the last `^`
      among them, `(0, 0)` when there is none. */
  function StartBefore(lines: seq<string>, y: nat): UPoint
    requires Addressable(lines) && y <= |lines|
  {
    if y == 0 then Point2D(0, 0)
    else match LastCaret(lines[y - 1], |lines[y - 1]|)
      case Some(i) => Point2D(i, y - 1)
      case None => StartBefore(lines, y - 1)
  }

  /** The start is a `^` with no `^` after it in row-major order, or
      `(0, 0)` when the rows have no `^`. */
  lemma {:induction false} StartBeforeMeaning(lines: seq<string>, n: nat)
    requires Addressable(lines) && n <= |lines|
    ensures var r := StartBefore(lines, n);
      (exists y, x :: 0 <= y < n && 0 <= x < |lines[y]| && lines[y][x] == '^')
      ==> r.y < n && r.x < |lines[r.y]| && lines[r.y][r.x] == '^'
    ensures var r := StartBefore(lines, n);
      forall y, x :: 0 <= y < n && 0 <= x < |lines[y]| && lines[y][x] == '^' ==> Before(Point2D(x, y), r.y, r.x + 1)
    ensures (forall y, x :: 0 <= y < n && 0 <= x < |lines[y]| ==> lines[y][x] != '^') ==> StartBefore(lines, n) == Point2D(0, 0)
  {
    if n > 0 {
      LastCaretMeaning(lines[n - 1], |lines[n - 1]|);
      StartBeforeMeaning(lines, n - 1);
    }
  }

  /** The guard's position after reading row `y` up to column `x`. */
  function CaretBefore(lines: seq<string>, y: nat, x: nat): UPoint
    requires Addressable(lines) && y < |lines| && x <= |lines[y]|
  {
    match LastCaret(lines[y], x)
    case Some(i) => Point2D(i, y)
    case None => StartBefore(lines, y)
  }

  lemma LoadTile(lines: seq<string>, y: nat, x: nat, tiles: map<UPoint, Tile>, t: Tile)
    requires Addressable(lines) && y < |lines| && x < |lines[y]|
    requires LoadedUpTo(lines, y, x, tiles)
    requires TileIn(lines, Point2D(x, y)) == Some(t)
    ensures LoadedUpTo(lines, y, x + 1, tiles[Point2D(x, y) := t])
  {
  }

  lemma LoadCaret(lines: seq<string>, y: nat, x: nat, tiles: map<UPoint, Tile>)
    requires Addressable(lines) && y < |lines| && x < |lines[y]|
    requires LoadedUpTo(lines, y, x, tiles)
    requires lines[y][x] == '^'
    ensures LoadedUpTo(lines, y, x + 1, tiles)
    ensures CaretBefore(lines, y, x + 1) == Point2D(x, y)
  {
  }

  lemma LoadOther(lines: seq<string>, y: nat, x: nat)
    requires Addressable(lines) && y < |lines| && x < |lines[y]|
    requires lines[y][x] != '^'
    ensures CaretBefore(lines, y, x + 1) == CaretBefore(lines, y, x)
  {
  }

  lemma LoadRow(lines: seq<string>, y: nat, tiles: map<UPoint, Tile>)
    requires Addressable(lines) && y < |lines|
    requires LoadedUpTo(lines, y, |lines[y]|, tiles)
    ensures LoadedUpTo(lines, y + 1, 0, tiles)
    ensures CaretBefore(lines, y, |lines[y]|) == StartBefore(lines, y + 1)
  {
  }

  lemma ValidStep(lines: seq<string>, y: nat, x: nat)
    requires y < |lines| && x < |lines[y]|
    requires ValidBefore(lines, y, x) && ValidChar(lines[y][x])
    ensures ValidBefore(lines, y, x + 1)
  {
  }

  lemma ValidRow(lines: seq<string>, y: nat)
    requires y < |lines| && ValidBefore(lines, y, |lines[y]|)
    ensures ValidBefore(lines, y + 1, 0)
  {
  }

  /** One character of the reading loop of `main`: `#` and `.` become
      tiles, `^` places the guard, and any other character fails. */
  method ReadCell(lines: seq<string>, y: nat, x: nat, guardMap: GuardMap, guard: Guard) returns (r: Result<Guard, Fault>)
    requires Addressable(lines) && y < |lines| && x < |lines[y]|
    requires guardMap.Valid() && LoadedUpTo(lines, y, x, guardMap.tiles)
    requires guard == Guard(CaretBefore(lines, y, x), North) && ValidBefore(lines, y, x)
    modifies guardMap
    ensures guardMap.Valid()
    ensures r.Ok? ==> LoadedUpTo(lines, y, x + 1, guardMap.tiles) && ValidBefore(lines, y, x + 1)
    ensures r.Ok? ==> r.value == Guard(CaretBefore(lines, y, x + 1), North)
    ensures r.Err? ==> r.error == UnexpectedChar(lines[y][x]) && !ValidChar(lines[y][x])
  {
    var ch := lines[y][x];
    var point := Point2D(x, y);
    if ch == '#' {
      LoadTile(lines, y, x, guardMap.tiles, Obstruction);
      LoadOther(lines, y, x);
      guardMap.Insert(point, Obstruction);
    } else if ch == '.' {
      LoadTile(lines, y, x, guardMap.tiles, Empty);
      LoadOther(lines, y, x);
      guardMap.Insert(point, Empty);
    } else if ch == '^' {
      LoadCaret(lines, y, x, guardMap.tiles);
      return Ok(Guard(point, guard.dir));
    } else {
      return Err(UnexpectedChar(ch));
    }
    ValidStep(lines, y, x);
    return Ok(guard);
  }

  /** One row of the reading loop of `main`. */
  method ReadRow(lines: seq<string>, y: nat, guardMap: GuardMap, guard: Guard) returns (r: Result<Guard, Fault>)
    requires Addressable(lines) && y < |lines|
    requires guardMap.Valid() && LoadedUpTo(lines, y, 0, guardMap.tiles)
    requires guard == Guard(StartBefore(lines, y), North) && ValidBefore(lines, y, 0)
    modifies guardMap
    ensures guardMap.Valid()
    ensures r.Ok? ==> LoadedUpTo(lines, y + 1, 0, guardMap.tiles) && ValidBefore(lines, y + 1, 0)
    ensures r.Ok? ==> r.value == Guard(StartBefore(lines, y + 1), North)
    ensures r.Err? ==> r.error.UnexpectedChar? && exists x ::
      0 <= x < |lines[y]| && lines[y][x] == r.error.ch && !ValidChar(r.error.ch) && ValidBefore(lines, y, x)
  {
    var current := guard;
    for x := 0 to |lines[y]|
      invariant guardMap.Valid()
      invariant LoadedUpTo(lines, y, x, guardMap.tiles)
      invariant current == Guard(CaretBefore(lines, y, x), North)
      invariant ValidBefore(lines, y, x)
    {
      var cell := ReadCell(lines, y, x, guardMap, current);
      if cell.Err? {
        r := Err(cell.error);
        assert 0 <= x < |lines[y]| && lines[y][x] == r.error.ch && !ValidChar(r.error.ch) && ValidBefore(lines, y, x);
        return;
      }
      current := cell.value;
    }
    LoadRow(lines, y, guardMap.tiles);
    ValidRow(lines, y);
    return Ok(current);
  }

  /** The reading loop of `main`, row by row. */
  method Load(lines: seq<string>) returns (r: Result<(Guard, GuardMap), Fault>)
    requires Addressable(lines)
    ensures r.Ok? <==> ValidGrid(lines)
    ensures r.Err? ==> r.error.UnexpectedChar? && exists y, x ::
      0 <= y < |lines| && 0 <= x < |lines[y]| && lines[y][x] == r.error.ch
      && !ValidChar(r.error.ch) && ValidBefore(lines, y, x)
    ensures r.Ok? ==> fresh(r.value.1) && r.value.1.Valid()
    ensures r.Ok? ==> Loaded(lines, r.value.1.tiles, r.value.1.max)
    ensures r.Ok? ==> r.value.0 == Guard(StartBefore(lines, |lines|), North)
  {
    var guard := Guard(Point2D(0, 0), North);
    var guardMap := new GuardMap();
    var y := 0;
    while y < |lines|
      invariant 0 <= y <= |lines|
      invariant fresh(guardMap) && guardMap.Valid()
      invariant LoadedUpTo(lines, y, 0, guardMap.tiles)
      invariant guard == Guard(StartBefore(lines, y), North)
      invariant ValidBefore(lines, y, 0)
    {
      var row := ReadRow(lines, y, guardMap, guard);
      if row.Err? {
        ghost var x :| 0 <= x < |lines[y]| && lines[y][x] == row.error.ch
          && !ValidChar(row.error.ch) && ValidBefore(lines, y, x);
        assert Before(Point2D(x, y), |lines|, 0);
        return Err(row.error);
      }
      guard := row.value;
      y := y + 1;
    }
    return Ok((guard, guardMap));
  }

  /** The guard as `main` places it. */
  function Start(lines: seq<string>): Guard
    requires Addressable(lines)
  {
    Guard(StartBefore(lines, |lines|), North)
  }

  /** `main`: reads the map, walks the guard, and answers with the number of
      distinct positions on its patrol and the number of cells where an
      extra obstruction traps it. A guard that loops on the map as read is
      an error. */
  method Solve(lines: seq<string>) returns (r: Result<(nat, nat), Fault>)
    requires Addressable(lines)
    ensures r.Err? && r.error.UnexpectedChar? <==> !ValidGrid(lines)
    ensures ValidGrid(lines) ==> forall tiles, max :: Loaded(lines, tiles, max) ==>
      (r == Err(UnexpectedLoop) <==> Loops(Start(lines), tiles, max))
    ensures r.Ok? ==> forall tiles, max :: Loaded(lines, tiles, max) ==> exists path ::
      && Leaves(Start(lines), tiles, max, path)
      && r.value.0 == |Positions(Elems(path))|
      && r.value.1 == |Looping(Start(lines), Elems(path), tiles, max)|
  {
    var loaded := Load(lines);
    if loaded.Err? {
      return Err(loaded.error);
    }
    var guard, guardMap := loaded.value.0, loaded.value.1;
    forall tiles, max | Loaded(lines, tiles, max)
      ensures tiles == guardMap.tiles && max == guardMap.max
    {
      LoadedUnique(lines, tiles, max, guardMap.tiles, guardMap.max);
    }
    var outcome := ExecutePathing(guard, guardMap);
    if outcome.Looped? {
      return Err(UnexpectedLoop);
    }
    ghost var path :| Leaves(guard, guardMap.tiles, guardMap.max, path) && !Repeats(path) && outcome.visited == Elems(path);
    var unique := UniqueLocations(outcome.visited);
    var loopCount := CountLoops(guard, guardMap, outcome.visited);
    r := Ok((unique, loopCount));
  }
}
