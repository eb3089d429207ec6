/** 2015 day 18: Conway's game of life on a 100 by 100 grid of lights, once
    freely and once with the four corner lights stuck on. */
module Year2015Day18 {

  const Side: nat := 100
  const GridSize: nat := 10000
  const StepCount: nat := 100

  /** The eight neighbour offsets. */
  const Peers: seq<(int, int)> := [(-1, -1), (0, -1), (1, -1), (-1, 0), (1, 0), (-1, 1), (0, 1), (1, 1)]

  predicate InBounds(x: int, y: int) {
    0 <= x < Side && 0 <= y < Side
  }

  /** The row-major position of an in-bounds point. */
  function Index(x: int, y: int): (i: nat)
    requires InBounds(x, y)
    ensures i < GridSize
  {
    y * Side + x
  }

  predicate IsCorner(x: int, y: int) {
    (x == 0 || x == Side - 1) && (y == 0 || y == Side - 1)
  }

  /** Lit neighbours among the first `k` offsets; offsets leaving the grid count nothing. */
  function LitPeers(g: seq<bool>, x: int, y: int, k: nat): (n: nat)
    requires |g| == GridSize && k <= |Peers|
    ensures n <= k
  {
    if k == 0 then 0
    else
      var (dx, dy) := Peers[k - 1];
      LitPeers(g, x, y, k - 1) + (if InBounds(x + dx, y + dy) && g[Index(x + dx, y + dy)] then 1 else 0)
  }

  function Neighbours(g: seq<bool>, x: int, y: int): (n: nat)
    requires |g| == GridSize
    ensures n <= 8
  {
    LitPeers(g, x, y, |Peers|)
  }

  /** The life rule: a lit light stays lit with 2 or 3 lit neighbours, a dark one lights with exactly 3. */
  predicate Life(on: bool, n: nat) {
    if on then n == 2 || n == 3 else n == 3
  }

  /** A light's next state; with `stuck`, corners are always lit. */
  predicate NextCell(g: seq<bool>, x: int, y: int, stuck: bool)
    requires |g| == GridSize && InBounds(x, y)
  {
    if stuck && IsCorner(x, y) then true else Life(g[Index(x, y)], Neighbours(g, x, y))
  }

  /** The whole next grid, computed from the current one only. */
  function Next(g: seq<bool>, stuck: bool): (r: seq<bool>)
    requires |g| == GridSize
    ensures |r| == GridSize
  {
    seq(GridSize, i requires 0 <= i < GridSize => NextCell(g, i % Side, i / Side, stuck))
  }

  /** Each light of the next grid follows the rule at its own point. */
  lemma NextAt(g: seq<bool>, x: int, y: int, stuck: bool)
    requires |g| == GridSize && InBounds(x, y)
    ensures Next(g, stuck)[Index(x, y)] == NextCell(g, x, y, stuck)
  {
    var i := Index(x, y);
    assert i % Side == x && i / Side == y;
  }

  function Steps(g: seq<bool>, n: nat, stuck: bool): (r: seq<bool>)
    requires |g| == GridSize
    ensures |r| == GridSize
  {
    if n == 0 then g else Next(Steps(g, n - 1, stuck), stuck)
  }

  /** The loop over `PEERS` for one point, counting on both grids at once. */
  method PeerCounts(grid: array<bool>, stuckGrid: array<bool>, x: int, y: int) returns (peerCount: nat, stuckPeerCount: nat)
    requires grid.Length == GridSize && stuckGrid.Length == GridSize
    ensures peerCount == Neighbours(grid[..], x, y)
    ensures stuckPeerCount == Neighbours(stuckGrid[..], x, y)
  {
    peerCount, stuckPeerCount := 0, 0;
    for k := 0 to |Peers|
      invariant peerCount == LitPeers(grid[..], x, y, k)
      invariant stuckPeerCount == LitPeers(stuckGrid[..], x, y, k)
    {
      var (dx, dy) := Peers[k];
      if InBounds(x + dx, y + dy) {
        var idx := Index(x + dx, y + dy);
        if grid[idx] {
          peerCount := peerCount + 1;
        }
        if stuckGrid[idx] {
          stuckPeerCount := stuckPeerCount + 1;
        }
      }
    }
  }

  /** The next state of every light below index `upto`, in both grids. */
  ghost predicate DoneBelow(next: seq<bool>, stuckNext: seq<bool>, g: seq<bool>, stuckG: seq<bool>, upto: nat)
    requires |next| == |stuckNext| == |g| == |stuckG| == GridSize && upto <= GridSize
  {
    && (forall i :: 0 <= i < upto ==> next[i] == NextCell(g, i % Side, i / Side, false))
    && (forall i :: 0 <= i < upto ==> stuckNext[i] == NextCell(stuckG, i % Side, i / Side, true))
  }

  /** One step of both grids: every point's next state from the old grids,
      written into fresh grids that then replace them. */
  method Step(grid: array<bool>, stuckGrid: array<bool>) returns (gridNext: array<bool>, stuckGridNext: array<bool>)
    requires grid.Length == GridSize && stuckGrid.Length == GridSize
    ensures fresh(gridNext) && fresh(stuckGridNext)
    ensures gridNext[..] == Next(grid[..], false) && stuckGridNext[..] == Next(stuckGrid[..], true)
  {
    gridNext := new bool[GridSize](_ => false);
    stuckGridNext := new bool[GridSize](_ => false);
    for y := 0 to Side
      invariant DoneBelow(gridNext[..], stuckGridNext[..], grid[..], stuckGrid[..], y * Side)
    {
      StepRow(grid, stuckGrid, gridNext, stuckGridNext, y);
    }
  }

  /** The points of row `y`, in order. */
  method StepRow(grid: array<bool>, stuckGrid: array<bool>, gridNext: array<bool>, stuckGridNext: array<bool>, y: nat)
    requires grid.Length == GridSize && stuckGrid.Length == GridSize
    requires gridNext.Length == GridSize && stuckGridNext.Length == GridSize
    requires gridNext != stuckGridNext && y < Side
    requires gridNext != grid && gridNext != stuckGrid && stuckGridNext != grid && stuckGridNext != stuckGrid
    requires DoneBelow(gridNext[..], stuckGridNext[..], grid[..], stuckGrid[..], y * Side)
    modifies gridNext, stuckGridNext
    ensures DoneBelow(gridNext[..], stuckGridNext[..], grid[..], stuckGrid[..], (y + 1) * Side)
  {
    for x := 0 to Side
      invariant DoneBelow(gridNext[..], stuckGridNext[..], grid[..], stuckGrid[..], y * Side + x)
    {
      var peerCount, stuckPeerCount := PeerCounts(grid, stuckGrid, x, y);
      var idx := Index(x, y);
      assert idx % Side == x && idx / Side == y;
      gridNext[idx] := if grid[idx] then peerCount == 2 || peerCount == 3 else peerCount == 3;
      stuckGridNext[idx] := if IsCorner(x, y) then true
        else if stuckGrid[idx] then stuckPeerCount == 2 || stuckPeerCount == 3
        else stuckPeerCount == 3;
    }
  }

  /** The loading loop: one light per character, '#' lit, the rest dark. */
  function Loaded(cells: string): (r: seq<bool>)
    requires |cells| <= GridSize
    ensures |r| == GridSize
  {
    seq(GridSize, i requires 0 <= i < GridSize => i < |cells| && cells[i] == '#')
  }

  /** The same grid with the four corners lit. */
  function WithCorners(g: seq<bool>): (r: seq<bool>)
    requires |g| == GridSize
    ensures |r| == GridSize
  {
    g[Index(0, 0) := true][Index(Side - 1, Side - 1) := true][Index(0, Side - 1) := true][Index(Side - 1, 0) := true]
  }

  /** Reading the grid, both copies; characters past the grid would panic. */
  method Load(cells: string) returns (grid: array<bool>, stuckGrid: array<bool>)
    requires |cells| <= GridSize
    ensures fresh(grid) && fresh(stuckGrid)
    ensures grid[..] == Loaded(cells) && stuckGrid[..] == WithCorners(Loaded(cells))
  {
    grid := new bool[GridSize](_ => false);
    stuckGrid := new bool[GridSize](_ => false);
    for idx := 0 to |cells|
      invariant forall i :: 0 <= i < GridSize ==> grid[i] == (i < idx && cells[i] == '#') && stuckGrid[i] == grid[i]
    {
      var on := cells[idx] == '#';
      grid[idx] := on;
      stuckGrid[idx] := on;
    }
    stuckGrid[Index(0, 0)] := true;
    stuckGrid[Index(Side - 1, Side - 1)] := true;
    stuckGrid[Index(0, Side - 1)] := true;
    stuckGrid[Index(Side - 1, 0)] := true;
  }

  /** `main`'s step loop and the final count of lit lights in each grid. */
  method Animate(cells: string, steps: nat) returns (count: nat, stuckCount: nat)
    requires |cells| <= GridSize
    ensures count == multiset(Steps(Loaded(cells), steps, false))[true]
    ensures stuckCount == multiset(Steps(WithCorners(Loaded(cells)), steps, true))[true]
  {
    var grid, stuckGrid := Load(cells);
    for k := 0 to steps
      invariant grid.Length == GridSize && stuckGrid.Length == GridSize
      invariant grid[..] == Steps(Loaded(cells), k, false)
      invariant stuckGrid[..] == Steps(WithCorners(Loaded(cells)), k, true)
    {
      grid, stuckGrid := Step(grid, stuckGrid);
    }
    count := CountLit(grid);
    stuckCount := CountLit(stuckGrid);
  }

  method CountLit(grid: array<bool>) returns (count: nat)
    ensures count == multiset(grid[..])[true]
  {
    count := 0;
    for idx := 0 to grid.Length
      invariant count == multiset(grid[..idx])[true]
    {
      assert grid[..idx + 1] == grid[..idx] + [grid[idx]];
      if grid[idx] {
        count := count + 1;
      }
    }
    assert grid[..grid.Length] == grid[..];
  }

  // ----- properties -----

  predicate CornersLit(g: seq<bool>)
    requires |g| == GridSize
  {
    g[Index(0, 0)] && g[Index(Side - 1, Side - 1)] && g[Index(0, Side - 1)] && g[Index(Side - 1, 0)]
  }

  /** With the corners stuck, they are lit after any number of steps. */
  lemma {:induction false} StuckCornersStayLit(g: seq<bool>, n: nat)
    requires |g| == GridSize && CornersLit(g)
    ensures CornersLit(Steps(g, n, true))
  {
    if n > 0 {
      StuckCornersStayLit(g, n - 1);
    }
  }

  lemma CornersOfWithCorners(g: seq<bool>)
    requires |g| == GridSize
    ensures CornersLit(WithCorners(g))
  {
  }

  predicate AllDark(g: seq<bool>) {
    forall i :: 0 <= i < |g| ==> !g[i]
  }

  /** A dark grid stays dark. */
  lemma {:induction false} DarkStaysDark(g: seq<bool>, n: nat)
    requires |g| == GridSize && AllDark(g)
    ensures AllDark(Steps(g, n, false))
  {
    if n > 0 {
      DarkStaysDark(g, n - 1);
      NextOfDark(Steps(g, n - 1, false));
    }
  }

  lemma NextOfDark(g: seq<bool>)
    requires |g| == GridSize && AllDark(g)
    ensures AllDark(Next(g, false))
  {
    var r := Next(g, false);
    forall i | 0 <= i < GridSize
      ensures !r[i]
    {
      NoLitPeers(g, i % Side, i / Side, |Peers|);
    }
  }

  lemma {:induction false} NoLitPeers(g: seq<bool>, x: int, y: int, k: nat)
    requires |g| == GridSize && k <= |Peers| && forall i :: 0 <= i < GridSize ==> !g[i]
    ensures LitPeers(g, x, y, k) == 0
  {
    if k > 0 {
      NoLitPeers(g, x, y, k - 1);
    }
  }
}
