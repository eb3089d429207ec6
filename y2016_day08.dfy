/** 2016 day 8: a 50x6 display driven by `rect` and `rotate` commands. */
module Year2016Day08 {

  const Width: nat := 50
  const Height: nat := 6

  type Grid = seq<seq<bool>>

  predicate WellFormed(g: Grid) {
    |g| == Height && forall y :: 0 <= y < Height ==> |g[y]| == Width
  }

  function Blank(): (g: Grid)
    ensures WellFormed(g)
  {
    seq(Height, y => seq(Width, x => false))
  }

  // ----- rotation of a sequence -----

  /** `rotate_right(k)` for `k <= |s|`: the last `k` elements move to the front. */
  function Rotate(s: seq<bool>, k: nat): (r: seq<bool>)
    requires k <= |s|
    ensures |r| == |s|
  {
    s[|s| - k..] + s[..|s| - k]
  }

  /** Where each element goes: position `i` receives the one `k` places
      before it, counting round the end. */
  lemma RotateAt(s: seq<bool>, k: nat, i: nat)
    requires k <= |s| && i < |s|
    ensures Rotate(s, k)[i] == if i < k then s[|s| - k + i] else s[i - k]
  {
  }

  /** Rotating by `a` and then by `b` is rotating by `a + b` round the length. */
  lemma RotateCompose(s: seq<bool>, a: nat, b: nat)
    requires a <= |s| && b <= |s|
    ensures Rotate(Rotate(s, a), b) == Rotate(s, if a + b <= |s| then a + b else a + b - |s|)
  {
    var n := |s|;
    var c := if a + b <= n then a + b else a + b - n;
    forall i | 0 <= i < n
      ensures Rotate(Rotate(s, a), b)[i] == Rotate(s, c)[i]
    {
      RotateAt(Rotate(s, a), b, i);
      RotateAt(s, c, i);
      if i < b {
        RotateAt(s, a, n - b + i);
      } else {
        RotateAt(s, a, i - b);
      }
    }
  }

  /** A turn of the whole length, or of none, changes nothing. */
  lemma RotateWhole(s: seq<bool>)
    ensures Rotate(s, |s|) == s && Rotate(s, 0) == s
  {
  }

  // ----- the commands on a grid -----

  /** `rect AxB`: the top-left `a` by `b` corner turned on, the rest kept. */
  function RectOn(g: Grid, a: nat, b: nat): (r: Grid)
    requires WellFormed(g)
    ensures WellFormed(r)
  {
    seq(Height, y requires 0 <= y < Height => seq(Width, x requires 0 <= x < Width => (y < b && x < a) || g[y][x]))
  }

  /** `rotate row y=Y by K`: that row rotated right by `K mod 50`. */
  function RotateRowOf(g: Grid, y: nat, shift: nat): (r: Grid)
    requires WellFormed(g) && y < Height
    ensures WellFormed(r)
  {
    g[y := Rotate(g[y], shift % Width)]
  }

  function Column(g: Grid, x: nat): (c: seq<bool>)
    requires WellFormed(g) && x < Width
    ensures |c| == Height
  {
    seq(Height, y requires 0 <= y < Height => g[y][x])
  }

  /** `rotate column x=X by K`: that column rotated down by `K mod 6`. */
  function RotateColumnOf(g: Grid, x: nat, shift: nat): (r: Grid)
    requires WellFormed(g) && x < Width
    ensures WellFormed(r)
  {
    var column := Rotate(Column(g, x), shift % Height);
    seq(Height, y requires 0 <= y < Height => g[y][x := column[y]])
  }

  /** A column rotation is a rotation of that column and leaves the others. */
  lemma RotateColumnIsRotation(g: Grid, x: nat, shift: nat)
    requires WellFormed(g) && x < Width
    ensures Column(RotateColumnOf(g, x, shift), x) == Rotate(Column(g, x), shift % Height)
    ensures forall x' :: 0 <= x' < Width && x' != x ==> Column(RotateColumnOf(g, x, shift), x') == Column(g, x')
  {
  }

  lemma RotateColumnCells(g: Grid, x: nat, shift: nat)
    requires WellFormed(g) && x < Width
    ensures forall y', x' :: 0 <= y' < Height && 0 <= x' < Width ==>
      RotateColumnOf(g, x, shift)[y'][x'] == if x' == x then Rotate(Column(g, x), shift % Height)[y'] else g[y'][x']
  {
  }

  /** Rotating a row by `k` and then by `50 - k` restores it. */
  lemma RotateRowUndo(g: Grid, y: nat, k: nat)
    requires WellFormed(g) && y < Height && k < Width
    ensures RotateRowOf(RotateRowOf(g, y, k), y, Width - k) == g
  {
    var row := g[y];
    var g1 := RotateRowOf(g, y, k);
    assert k % Width == k;
    assert g1 == g[y := Rotate(row, k)];
    var back := (Width - k) % Width;
    RotateWhole(row);
    if k == 0 {
      assert back == 0;
      assert Rotate(row, k) == row;
    } else {
      assert back == Width - k;
      RotateCompose(row, k, back);
    }
    assert Rotate(Rotate(row, k), back) == row;
    assert RotateRowOf(g1, y, Width - k) == g1[y := Rotate(g1[y], back)];
  }

  lemma GridEqual(g1: Grid, g2: Grid)
    requires WellFormed(g1) && WellFormed(g2)
    requires forall y, x :: 0 <= y < Height && 0 <= x < Width ==> g1[y][x] == g2[y][x]
    ensures g1 == g2
  {
    forall y | 0 <= y < Height
      ensures g1[y] == g2[y]
    {
    }
  }

  /** `rect` is idempotent and only ever turns pixels on. */
  lemma RectProperties(g: Grid, a: nat, b: nat)
    requires WellFormed(g)
    ensures RectOn(RectOn(g, a, b), a, b) == RectOn(g, a, b)
    ensures forall y, x :: 0 <= y < Height && 0 <= x < Width && g[y][x] ==> RectOn(g, a, b)[y][x]
  {
    GridEqual(RectOn(RectOn(g, a, b), a, b), RectOn(g, a, b));
  }

  // ----- counting lit pixels -----

  function CountOn(s: seq<bool>): nat {
    if s == [] then 0 else CountOn(s[..|s| - 1]) + (if s[|s| - 1] then 1 else 0)
  }

  /** The lit pixels of the first `n` rows. */
  function LitRows(g: Grid, n: nat): nat
    requires n <= |g|
  {
    if n == 0 then 0 else LitRows(g, n - 1) + CountOn(g[n - 1])
  }

  function Lit(g: Grid): nat {
    LitRows(g, |g|)
  }

  lemma {:induction false} CountOnAppend(a: seq<bool>, b: seq<bool>)
    ensures CountOn(a + b) == CountOn(a) + CountOn(b)
    decreases |b|
  {
    if b != [] {
      var c := a + b;
      assert c[..|c| - 1] == a + b[..|b| - 1];
      CountOnAppend(a, b[..|b| - 1]);
    } else {
      assert a + b == a;
    }
  }

  /** A rotation lights as many pixels as it started with. */
  lemma RotateKeepsCount(s: seq<bool>, k: nat)
    requires k <= |s|
    ensures CountOn(Rotate(s, k)) == CountOn(s)
  {
    var n := |s|;
    CountOnAppend(s[n - k..], s[..n - k]);
    CountOnAppend(s[..n - k], s[n - k..]);
    assert s[..n - k] + s[n - k..] == s;
  }

  lemma {:induction false} LitRowsReplace(g: Grid, y: nat, row: seq<bool>, n: nat)
    requires y < |g| && n <= |g| && CountOn(row) == CountOn(g[y])
    ensures LitRows(g[y := row], n) == LitRows(g, n)
  {
    if n > 0 {
      LitRowsReplace(g, y, row, n - 1);
    }
  }

  /** A row rotation keeps the number of lit pixels. */
  lemma RotateRowKeepsLit(g: Grid, y: nat, shift: nat)
    requires WellFormed(g) && y < Height
    ensures Lit(RotateRowOf(g, y, shift)) == Lit(g)
  {
    RotateKeepsCount(g[y], shift % Width);
    LitRowsReplace(g, y, Rotate(g[y], shift % Width), Height);
  }

  // ----- the display -----

  datatype Command =
    | Rect(a: nat, b: nat)
    | RotateRow(y: nat, shift: nat)
    | RotateColumn(x: nat, shift: nat)
    | Unrecognized

  /** `rect AxB` only touches the display when both sides are positive, and
      then it must fit on it. */
  predicate RectFits(a: nat, b: nat) {
    a == 0 || b == 0 || (a <= Width && b <= Height)
  }

  /** The indices a command uses are on the display (larger ones panic). */
  predicate InBounds(c: Command) {
    match c
    case Rect(a, b) => RectFits(a, b)
    case RotateRow(y, _) => y < Height
    case RotateColumn(x, _) => x < Width
    case Unrecognized => true
  }

  function Apply(g: Grid, c: Command): (r: Grid)
    requires WellFormed(g) && InBounds(c)
    ensures WellFormed(r)
  {
    match c
    case Rect(a, b) => RectOn(g, a, b)
    case RotateRow(y, shift) => RotateRowOf(g, y, shift)
    case RotateColumn(x, shift) => RotateColumnOf(g, x, shift)
    case Unrecognized => g
  }

  function ApplyAll(g: Grid, commands: seq<Command>): (r: Grid)
    requires WellFormed(g) && forall i :: 0 <= i < |commands| ==> InBounds(commands[i])
    ensures WellFormed(r)
  {
    if commands == [] then g else Apply(ApplyAll(g, commands[..|commands| - 1]), commands[|commands| - 1])
  }

  /** `display`: the 6x50 pixel array, changed in place. */
  class Display {
    const pixels: array2<bool>

    ghost predicate Valid() {
      pixels.Length0 == Height && pixels.Length1 == Width
    }

    ghost function Grid(): (g: Grid)
      reads pixels
      requires Valid()
      ensures WellFormed(g)
      ensures forall y, x :: 0 <= y < Height && 0 <= x < Width ==> g[y][x] == pixels[y, x]
    {
      seq(Height, y requires 0 <= y < Height reads pixels =>
        seq(Width, x requires 0 <= x < Width reads pixels => pixels[y, x]))
    }

    constructor ()
      ensures Valid() && fresh(pixels) && Grid() == Blank()
    {
      pixels := new bool[Height, Width]((y, x) => false);
      new;
      GridEqual(Grid(), Blank());
    }

    /** `rect AxB`. */
    method RectCommand(a: nat, b: nat)
      requires Valid() && RectFits(a, b)
      modifies pixels
      ensures Valid() && Grid() == RectOn(old(Grid()), a, b)
    {
      ghost var before := Grid();
      for y := 0 to b
        invariant forall y', x' :: 0 <= y' < Height && 0 <= x' < Width ==>
          pixels[y', x'] == ((y' < y && x' < a) || before[y'][x'])
      {
        for x := 0 to a
          invariant forall y', x' :: 0 <= y' < Height && 0 <= x' < Width ==>
            pixels[y', x'] == ((y' < y && x' < a) || (y' == y && x' < x) || before[y'][x'])
        {
          pixels[y, x] := true;
        }
      }
      GridEqual(Grid(), RectOn(before, a, b));
    }

    /** `display[y].rotate_right(shift % 50)`. */
    method RotateRowCommand(y: nat, shift: nat)
      requires Valid() && y < Height
      modifies pixels
      ensures Valid() && Grid() == RotateRowOf(old(Grid()), y, shift)
    {
      ghost var before := Grid();
      var row := seq(Width, x requires 0 <= x < Width reads pixels => pixels[y, x]);
      assert row == before[y];
      var rotated := Rotate(row, shift % Width);
      ghost var after := RotateRowOf(before, y, shift);
      for x := 0 to Width
        invariant forall y', x' :: 0 <= y' < Height && 0 <= x' < Width ==>
          pixels[y', x'] == if y' == y && x' < x then rotated[x'] else before[y'][x']
      {
        pixels[y, x] := rotated[x];
      }
      GridEqual(Grid(), after);
    }

    /** The column copied out, rotated by `shift % 6` and written back. */
    method RotateColumnCommand(x: nat, shift: nat)
      requires Valid() && x < Width
      modifies pixels
      ensures Valid() && Grid() == RotateColumnOf(old(Grid()), x, shift)
    {
      ghost var before := Grid();
      var column := seq(Height, y requires 0 <= y < Height reads pixels => pixels[y, x]);
      assert column == Column(before, x);
      column := Rotate(column, shift % Height);

      for y := 0 to Height
        invariant forall y', x' :: 0 <= y' < Height && 0 <= x' < Width ==>
          pixels[y', x'] == if x' == x && y' < y then column[y'] else before[y'][x']
      {
        pixels[y, x] := column[y];
      }
      RotateColumnCells(before, x, shift);
      GridEqual(Grid(), RotateColumnOf(before, x, shift));
    }

    method Execute(c: Command)
      requires Valid() && InBounds(c)
      modifies pixels
      ensures Valid() && Grid() == Apply(old(Grid()), c)
    {
      match c
      case Rect(a, b) => RectCommand(a, b);
      case RotateRow(y, shift) => RotateRowCommand(y, shift);
      case RotateColumn(x, shift) => RotateColumnCommand(x, shift);
      case Unrecognized =>
    }

    /** The `filter(On).count()` over the flattened display. */
    method LitCount() returns (n: nat)
      requires Valid()
      ensures n == Lit(Grid())
    {
      ghost var g := Grid();
      n := 0;
      for y := 0 to Height
        invariant n == LitRows(g, y)
      {
        var rowCount := 0;
        for x := 0 to Width
          invariant rowCount == CountOn(g[y][..x])
        {
          assert g[y][..x + 1][..x] == g[y][..x];
          if pixels[y, x] {
            rowCount := rowCount + 1;
          }
        }
        assert g[y][..Width] == g[y];
        n := n + rowCount;
      }
    }
  }

  /** `main`: every command on a blank display, then the lit pixels. */
  method LitAfter(commands: seq<Command>) returns (lit: nat)
    requires forall i :: 0 <= i < |commands| ==> InBounds(commands[i])
    ensures lit == Lit(ApplyAll(Blank(), commands))
  {
    var display := new Display();
    for i := 0 to |commands|
      invariant display.Valid() && fresh(display.pixels)
      invariant display.Grid() == ApplyAll(Blank(), commands[..i])
    {
      assert commands[..i + 1][..i] == commands[..i];
      display.Execute(commands[i]);
    }
    assert commands[..|commands|] == commands;
    lit := display.LitCount();
  }
}
