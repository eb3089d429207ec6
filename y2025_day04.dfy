/** 2025 day 4: rolls of paper `@` on a grid; a roll can be removed when
    fewer than four of the eight cells around it hold a roll. The first
    answer counts the removable rolls, the second removes them round after
    round until none is removable (src/year_2025/day04.rs). */
module Year2025Day04 {
  import opened Point

  /** A `Point2D<usize>`. */
  type Cell = p: Point2D | p.x >= 0 && p.y >= 0 witness Point2D(0, 0)

  /** Row-major order: by row, then by column. */
  predicate Before(p: Point2D, q: Point2D) {
    p.y < q.y || (p.y == q.y && p.x < q.x)
  }

  /** One of the eight cells around `q`. */
  predicate Adjacent(p: Point2D, q: Point2D) {
    p != q && -1 <= p.x - q.x <= 1 && -1 <= p.y - q.y <= 1
  }

  /** The rolls on the cells around `location`. */
  ghost function Around(stacks: set<Cell>, location: Cell): set<Cell> {
    set p | p in stacks && Adjacent(p, location)
  }

  /** Fewer than four rolls around. */
  ghost predicate Removable(stacks: set<Cell>, location: Cell) {
    |Around(stacks, location)| < 4
  }

  lemma SubsetCard<T>(a: set<T>, b: set<T>)
    requires a <= b
    ensures |a| <= |b|
  {
    assert b == a + (b - a);
  }

  /** The inner loop of `is_removable` over the columns of one row. */
  method CountRow(stacks: set<Cell>, location: Cell, y: nat, lowX: nat, highX: nat,
                  count0: nat, ghost seen0: set<Cell>)
    returns (count: nat, ghost seen: set<Cell>)
    requires location.y - 1 <= y <= location.y + 1
    requires lowX == (if location.x > 0 then location.x - 1 else 0) && highX == location.x + 1
    requires seen0 <= Around(stacks, location) && count0 == |seen0| && count0 < 4
    requires forall p :: p in seen0 ==> Before(p, Point2D(lowX, y))
    requires forall p :: p in Around(stacks, location) && p.y < y ==> p in seen0
    ensures seen <= Around(stacks, location) && count == |seen|
    ensures forall p :: p in seen ==> p.y <= y
    ensures count < 4 ==> forall p :: p in Around(stacks, location) && p.y <= y ==> p in seen
  {
    count, seen := count0, seen0;
    for x := lowX to highX + 1
      invariant seen <= Around(stacks, location) && count == |seen| && count < 4
      invariant forall p :: p in seen ==> Before(p, Point2D(x, y))
      invariant forall p :: p in Around(stacks, location) && Before(p, Point2D(x, y)) && p.y >= y ==> p in seen
      invariant forall p :: p in Around(stacks, location) && p.y < y ==> p in seen
    {
      var neighbor := Point2D(x, y);
      if neighbor != location && neighbor in stacks {
        assert neighbor !in seen;
        seen := seen + {neighbor};
        count := count + 1;
        if count >= 4 {
          return;
        }
      }
    }
  }

  /** `is_removable`: counts the rolls in the 3 by 3 window around
      `location`, clamped at 0, and stops at four. */
  method IsRemovable(stacks: set<Cell>, location: Cell) returns (removable: bool)
    ensures removable <==> Removable(stacks, location)
  {
    var lowY := if location.y > 0 then location.y - 1 else 0;
    var highY := location.y + 1;
    var lowX := if location.x > 0 then location.x - 1 else 0;
    var highX := location.x + 1;
    var count := 0;
    ghost var seen: set<Cell> := {};
    var y := lowY;
    while y <= highY
      invariant lowY <= y <= highY + 1
      invariant seen <= Around(stacks, location) && count == |seen| && count < 4
      invariant forall p :: p in seen ==> p.y < y
      invariant forall p :: p in Around(stacks, location) && p.y < y ==> p in seen
    {
      count, seen := CountRow(stacks, location, y, lowX, highX, count, seen);
      if count >= 4 {
        break;
      }
      y := y + 1;
    }
    SubsetCard(seen, Around(stacks, location));
    if count < 4 {
      assert Around(stacks, location) <= seen;
      SubsetCard(Around(stacks, location), seen);
    }
    removable := count < 4;
  }

  /** Within the inclusive rectangle from `lo` to `hi`. */
  predicate InExtents(p: Point2D, lo: Point2D, hi: Point2D) {
    lo.x <= p.x <= hi.x && lo.y <= p.y <= hi.y
  }

  /** The rolls within the extents that can be removed. */
  ghost function RemovableIn(stacks: set<Cell>, lo: Cell, hi: Cell): set<Cell> {
    set p | p in stacks && InExtents(p, lo, hi) && Removable(stacks, p)
  }

  predicate Increasing(s: seq<Point2D>) {
    forall i, j :: 0 <= i < j < |s| ==> Before(s[i], s[j])
  }

  function Elems(s: seq<Cell>): set<Cell> {
    set p | p in s
  }

  /** A row-major increasing list holds no cell twice. */
  lemma {:induction false} IncreasingCard(s: seq<Cell>)
    requires Increasing(s)
    ensures |Elems(s)| == |s|
  {
    if s != [] {
      var n := |s| - 1;
      IncreasingCard(s[..n]);
      assert Elems(s) == Elems(s[..n]) + {s[n]};
      assert s[n] !in Elems(s[..n]);
    }
  }

  /** The inner loop of `find_removable` over the columns of row `y`. */
  method FindRow(stacks: set<Cell>, lo: Cell, hi: Cell, y: nat, acc: seq<Cell>)
    returns (removable: seq<Cell>)
    requires lo.y <= y <= hi.y
    requires Increasing(acc)
    requires forall p :: p in acc <==> p in RemovableIn(stacks, lo, hi) && p.y < y
    ensures Increasing(removable)
    ensures forall p :: p in removable <==> p in RemovableIn(stacks, lo, hi) && p.y <= y
  {
    removable := acc;
    var x := lo.x;
    while x <= hi.x
      invariant lo.x <= x
      invariant Increasing(removable)
      invariant forall p :: p in removable ==> Before(p, Point2D(x, y))
      invariant forall p :: p in removable <==> p in RemovableIn(stacks, lo, hi) && Before(p, Point2D(x, y))
    {
      var location: Cell := Point2D(x, y);
      if location in stacks {
        var b := IsRemovable(stacks, location);
        if b {
          removable := removable + [location];
        }
      }
      x := x + 1;
    }
  }

  /** `find_removable`: the removable rolls within the extents, scanned row
      by row. */
  method FindRemovable(stacks: set<Cell>, lo: Cell, hi: Cell) returns (removable: seq<Cell>)
    ensures Increasing(removable)
    ensures Elems(removable) == RemovableIn(stacks, lo, hi)
    ensures |removable| == |RemovableIn(stacks, lo, hi)|
  {
    removable := [];
    var y := lo.y;
    while y <= hi.y
      invariant lo.y <= y
      invariant Increasing(removable)
      invariant forall p :: p in removable <==> p in RemovableIn(stacks, lo, hi) && p.y < y
    {
      removable := FindRow(stacks, lo, hi, y, removable);
      y := y + 1;
    }
    assert Elems(removable) == RemovableIn(stacks, lo, hi);
    IncreasingCard(removable);
  }

  /** A roll `@` at column `p.x` of line `p.y`. */
  predicate Roll(lines: seq<string>, p: Cell) {
    p.y < |lines| && p.x < |lines[p.y]| && lines[p.y][p.x] == '@'
  }

  /** The rolls of the grid. */
  ghost function Stacks(lines: seq<string>): set<Cell> {
    set y: nat, x: nat | y < |lines| && x < |lines[y]| && lines[y][x] == '@' :: Point2D(x, y)
  }

  /** The length of the longest of the first `n` lines. */
  function Widest(lines: seq<string>, n: nat): nat
    requires n <= |lines|
  {
    if n == 0 then 0
    else if |lines[n - 1]| > Widest(lines, n - 1) then |lines[n - 1]|
    else Widest(lines, n - 1)
  }

  /** The largest index below `n`, or 0 when there is none. */
  function Last(n: nat): nat {
    if n == 0 then 0 else n - 1
  }

  /** The far corner of the extents: the largest column and row seen. */
  function Extents(lines: seq<string>): Cell {
    Point2D(Last(Widest(lines, |lines|)), Last(|lines|))
  }

  /** The inner loop of the load over the characters of line `y`. */
  method LoadRow(lines: seq<string>, y: nat, stacks0: set<Cell>, hi0: Cell)
    returns (stacks: set<Cell>, hi: Cell)
    requires y < |lines|
    requires forall p: Cell :: p in stacks0 <==> Roll(lines, p) && p.y < y
    requires hi0 == Point2D(Last(Widest(lines, y)), y)
    ensures forall p: Cell :: p in stacks <==> Roll(lines, p) && p.y <= y
    ensures hi == Point2D(Last(Widest(lines, y + 1)), y)
  {
    stacks, hi := stacks0, hi0;
    var row := lines[y];
    for x := 0 to |row|
      invariant forall p: Cell :: p in stacks <==> Roll(lines, p) && Before(p, Point2D(x, y))
      invariant hi == Point2D(Last(if x > Widest(lines, y) then x else Widest(lines, y)), y)
    {
      if x > hi.x {
        hi := hi.(x := x);
      }
      if row[x] == '@' {
        stacks := stacks + {Point2D(x, y)};
      }
    }
  }

  /** The load of `main`: the rolls and the extents of the grid. */
  method Load(lines: seq<string>) returns (stacks: set<Cell>, hi: Cell)
    ensures stacks == Stacks(lines)
    ensures hi == Extents(lines)
  {
    stacks := {};
    hi := Point2D(0, 0);
    for y := 0 to |lines|
      invariant forall p: Cell :: p in stacks <==> Roll(lines, p) && p.y < y
      invariant hi == Point2D(Last(Widest(lines, y)), Last(y))
    {
      if y > hi.y {
        hi := hi.(y := y);
      }
      stacks, hi := LoadRow(lines, y, stacks, hi);
    }
    assert forall p: Cell :: p in Stacks(lines) <==> Roll(lines, p);
    assert stacks == Stacks(lines);
  }

  lemma DiffSmaller(r: set<Cell>, stacks: set<Cell>)
    requires r <= stacks
    ensures |stacks - r| == |stacks| - |r|
  {
    assert stacks == (stacks - r) + r;
  }

  /** The rolls left once the removable rolls within the extents are taken
      away round after round, until no roll there is removable. */
  ghost function Settle(stacks: set<Cell>, lo: Cell, hi: Cell): set<Cell>
    decreases |stacks|
  {
    var r := RemovableIn(stacks, lo, hi);
    if r == {} then stacks
    else
      DiffSmaller(r, stacks);
      Settle(stacks - r, lo, hi)
  }

  /** The removal loop of `main`: each listed roll is taken away. */
  method RemoveAll(stacks0: set<Cell>, cells: seq<Cell>) returns (stacks: set<Cell>)
    ensures stacks == stacks0 - Elems(cells)
  {
    stacks := stacks0;
    for i := 0 to |cells|
      invariant stacks == stacks0 - Elems(cells[..i])
    {
      assert Elems(cells[..i + 1]) == Elems(cells[..i]) + {cells[i]} by {
        assert cells[..i + 1] == cells[..i] + [cells[i]];
      }
      stacks := stacks - {cells[i]};
    }
    assert cells[..|cells|] == cells;
  }

  /** `main`: the rolls removable at first, and the rolls removed over all
      rounds until none is removable. */
  method Solve(lines: seq<string>) returns (available: nat, removed: nat)
    ensures available == |RemovableIn(Stacks(lines), Point2D(0, 0), Extents(lines))|
    ensures removed == |Stacks(lines)| - |Settle(Stacks(lines), Point2D(0, 0), Extents(lines))|
  {
    var stacks, hi := Load(lines);
    var lo: Cell := Point2D(0, 0);
    var removable := FindRemovable(stacks, lo, hi);
    available := |removable|;
    removed := 0;
    ghost var start := stacks;
    while |removable| > 0
      invariant Settle(stacks, lo, hi) == Settle(start, lo, hi)
      invariant removed + |stacks| == |start|
      invariant Elems(removable) == RemovableIn(stacks, lo, hi)
      invariant |removable| == |RemovableIn(stacks, lo, hi)|
      decreases |stacks|
    {
      removed := removed + |removable|;
      ghost var before := stacks;
      stacks := RemoveAll(stacks, removable);
      DiffSmaller(Elems(removable), before);
      removable := FindRemovable(stacks, lo, hi);
    }
  }

  /** Taking rolls away never makes a removable roll unremovable. */
  lemma RemovableStays(stacks: set<Cell>, fewer: set<Cell>, p: Cell)
    requires fewer <= stacks && Removable(stacks, p)
    ensures Removable(fewer, p)
  {
    SubsetCard(Around(fewer, p), Around(stacks, p));
  }

  /** The rounds end on a subset of the rolls in which no roll within the
      extents is removable. */
  lemma {:induction false} SettleStable(stacks: set<Cell>, lo: Cell, hi: Cell)
    ensures Settle(stacks, lo, hi) <= stacks
    ensures RemovableIn(Settle(stacks, lo, hi), lo, hi) == {}
    decreases |stacks|
  {
    var r := RemovableIn(stacks, lo, hi);
    if r != {} {
      DiffSmaller(r, stacks);
      SettleStable(stacks - r, lo, hi);
    }
  }

  /** Rolls outside the extents are never removed. */
  lemma {:induction false} SettleKeepsOutside(stacks: set<Cell>, lo: Cell, hi: Cell, p: Cell)
    requires p in stacks && !InExtents(p, lo, hi)
    ensures p in Settle(stacks, lo, hi)
    decreases |stacks|
  {
    var r := RemovableIn(stacks, lo, hi);
    if r != {} {
      DiffSmaller(r, stacks);
      SettleKeepsOutside(stacks - r, lo, hi, p);
    }
  }

  /** Every roll removable in the first round is gone at the end. */
  lemma SettleRemovesAvailable(stacks: set<Cell>, lo: Cell, hi: Cell, p: Cell)
    requires p in RemovableIn(stacks, lo, hi)
    ensures p !in Settle(stacks, lo, hi)
  {
    SettleStable(stacks, lo, hi);
    var rest := Settle(stacks, lo, hi);
    if p in rest {
      RemovableStays(stacks, rest, p);
      assert false;
    }
  }

  /** Running the rounds again removes nothing more. */
  lemma SettleIdempotent(stacks: set<Cell>, lo: Cell, hi: Cell)
    ensures Settle(Settle(stacks, lo, hi), lo, hi) == Settle(stacks, lo, hi)
  {
    SettleStable(stacks, lo, hi);
  }
}
