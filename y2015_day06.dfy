/** 2015 day 6: a 1000 by 1000 grid of lights switched by rectangle
    instructions, as on/off switches and as brightness dials
    (src/year_2015/day06.rs). */
module Year2015Day06 {
  import opened Point

  const Side: nat := 1000
  const Cells: nat := 1_000_000

  datatype Action = TurnOn | Toggle | TurnOff

  /** The row-major index of a point of the grid. */
  function CellIndex(p: Point2D): nat
    requires 0 <= p.x < Side && 0 <= p.y < Side
  {
    p.y * Side + p.x
  }

  /** Whether cell `idx` lies in the inclusive rectangle spanned by `from` and `to`. */
  predicate InRect(idx: nat, from: Point2D, to: Point2D) {
    var b := IterBounds(from, to);
    b.0 <= idx % Side <= b.1 && b.2 <= idx / Side <= b.3
  }

  /** The effect of an action on one switch. */
  function Switch(a: Action, lit: bool): bool {
    match a
    case TurnOn => true
    case Toggle => !lit
    case TurnOff => false
  }

  /** The effect of an action on one dial: up 1, up 2, or down 1 but never below 0. */
  function Dial(a: Action, level: nat): nat {
    match a
    case TurnOn => level + 1
    case Toggle => level + 2
    case TurnOff => if level == 0 then 0 else level - 1
  }

  /** Toggling twice restores a switch and adds 4 to a dial; turning off never
      goes below 0 and undoes turning on. */
  lemma {:induction false} ActionFacts(lit: bool, level: nat)
    ensures Switch(Toggle, Switch(Toggle, lit)) == lit
    ensures Dial(Toggle, Dial(Toggle, level)) == level + 4
    ensures Dial(TurnOff, Dial(TurnOn, level)) == level
    ensures Dial(TurnOff, level) <= level && (level > 0 ==> Dial(TurnOff, level) == level - 1)
  {
  }

  /** One row of an instruction: cells `x0..x1` of row `y` get the action on
      both grids; every other cell is untouched. */
  method ApplyRow(lights: array<bool>, levels: array<nat>, action: Action, y: nat, x0: nat, x1: nat)
    requires lights.Length == Cells && levels.Length == Cells
    requires y < Side && x1 < Side
    modifies lights, levels
    ensures forall i :: 0 <= i < Cells ==>
              lights[i] == (if i / Side == y && x0 <= i % Side <= x1 then Switch(action, old(lights[i])) else old(lights[i]))
    ensures forall i :: 0 <= i < Cells ==>
              levels[i] == (if i / Side == y && x0 <= i % Side <= x1 then Dial(action, old(levels[i])) else old(levels[i]))
  {
    var x := x0;
    while x <= x1
      invariant x0 <= x <= x1 + 1 || (x == x0 && x0 > x1)
      invariant forall i :: 0 <= i < Cells ==>
                  lights[i] == (if i / Side == y && x0 <= i % Side < x then Switch(action, old(lights[i])) else old(lights[i]))
      invariant forall i :: 0 <= i < Cells ==>
                  levels[i] == (if i / Side == y && x0 <= i % Side < x then Dial(action, old(levels[i])) else old(levels[i]))
    {
      var idx := CellIndex(Point2D(x, y));
      assert idx / Side == y && idx % Side == x;
      lights[idx] := Switch(action, lights[idx]);
      levels[idx] := Dial(action, levels[idx]);
      x := x + 1;
    }
  }

  /** One instruction: every cell of the rectangle, visited row by row, gets the
      action on both grids; cells outside are untouched. */
  method Apply(lights: array<bool>, levels: array<nat>, action: Action, from: Point2D, to: Point2D)
    requires lights.Length == Cells && levels.Length == Cells
    requires 0 <= from.x < Side && 0 <= from.y < Side && 0 <= to.x < Side && 0 <= to.y < Side
    modifies lights, levels
    ensures forall i :: 0 <= i < Cells ==>
              lights[i] == (if InRect(i, from, to) then Switch(action, old(lights[i])) else old(lights[i]))
    ensures forall i :: 0 <= i < Cells ==>
              levels[i] == (if InRect(i, from, to) then Dial(action, old(levels[i])) else old(levels[i]))
  {
    var b := IterBounds(from, to);
    var y := b.2;
    while y <= b.3
      invariant b.2 <= y <= b.3 + 1
      invariant forall i :: 0 <= i < Cells ==>
                  lights[i] == (if InRect(i, from, to) && i / Side < y then Switch(action, old(lights[i])) else old(lights[i]))
      invariant forall i :: 0 <= i < Cells ==>
                  levels[i] == (if InRect(i, from, to) && i / Side < y then Dial(action, old(levels[i])) else old(levels[i]))
    {
      ApplyRow(lights, levels, action, y as nat, b.0 as nat, b.1 as nat);
      y := y + 1;
    }
  }

  /** Switch `idx` after the instructions, starting dark: each instruction
      whose rectangle covers the cell acts on it, in order. */
  function SwitchAt(instructions: seq<(Action, Point2D, Point2D)>, idx: nat): bool {
    if instructions == [] then false
    else
      var last := instructions[|instructions| - 1];
      var before := SwitchAt(instructions[..|instructions| - 1], idx);
      if InRect(idx, last.1, last.2) then Switch(last.0, before) else before
  }

  /** Dial `idx` after the instructions, starting at 0. */
  function LevelAt(instructions: seq<(Action, Point2D, Point2D)>, idx: nat): nat {
    if instructions == [] then 0
    else
      var last := instructions[|instructions| - 1];
      var before := LevelAt(instructions[..|instructions| - 1], idx);
      if InRect(idx, last.1, last.2) then Dial(last.0, before) else before
  }

  /** The whole puzzle: both grids start dark, every instruction is applied in
      order, and the answers are the number of lit switches and the total of
      the dials, each cell having seen exactly the instructions covering it. */
  method Solve(instructions: seq<(Action, Point2D, Point2D)>) returns (lit: nat, brightness: nat)
    requires forall k :: 0 <= k < |instructions| ==>
               var (_, f, t) := instructions[k];
               0 <= f.x < Side && 0 <= f.y < Side && 0 <= t.x < Side && 0 <= t.y < Side
    ensures lit == CountLit(seq(Cells, i requires 0 <= i => SwitchAt(instructions, i)))
    ensures brightness == TotalLevel(seq(Cells, i requires 0 <= i => LevelAt(instructions, i)))
    ensures lit <= Cells
  {
    var lights := new bool[Cells](_ => false);
    var levels := new nat[Cells](_ => 0);
    for k := 0 to |instructions|
      invariant forall i :: 0 <= i < Cells ==> lights[i] == SwitchAt(instructions[..k], i)
      invariant forall i :: 0 <= i < Cells ==> levels[i] == LevelAt(instructions[..k], i)
    {
      var (action, f, t) := instructions[k];
      Apply(lights, levels, action, f, t);
      assert instructions[..k + 1][..k] == instructions[..k];
    }
    assert instructions[..|instructions|] == instructions;
    assert lights[..] == seq(Cells, i requires 0 <= i => SwitchAt(instructions, i));
    assert levels[..] == seq(Cells, i requires 0 <= i => LevelAt(instructions, i));
    lit := CountLit(lights[..]);
    brightness := TotalLevel(levels[..]);
  }

  /** The number of lit switches. */
  function CountLit(s: seq<bool>): (n: nat)
    ensures n == multiset(s)[true] && n <= |s|
  {
    if s == [] then 0
    else
      assert s == s[..|s| - 1] + [s[|s| - 1]];
      CountLit(s[..|s| - 1]) + (if s[|s| - 1] then 1 else 0)
  }

  function TotalLevel(s: seq<nat>): nat {
    if s == [] then 0 else TotalLevel(s[..|s| - 1]) + s[|s| - 1]
  }
}
