/** 2016 day 3: counting the side triples that can form a triangle, read
    along the rows and, three lines at a time, down the columns. */
module Year2016Day03 {
  import opened Wrappers

  const MaxU32: nat := 0xffff_ffff

  function Sum(sides: seq<nat>): nat {
    if sides == [] then 0 else Sum(sides[..|sides| - 1]) + sides[|sides| - 1]
  }

  lemma Sum3(sides: seq<nat>)
    requires |sides| == 3
    ensures Sum(sides) == sides[0] + sides[1] + sides[2]
  {
    assert sides[..2][..1] == sides[..1];
    assert Sum(sides) == Sum(sides[..2]) + sides[2];
    assert Sum(sides[..2]) == Sum(sides[..1]) + sides[1];
    assert Sum(sides[..1]) == Sum([]) + sides[0];
  }

  /** A triangle: every side is shorter than the other two together. */
  predicate IsTriangle(sides: seq<nat>)
    requires |sides| == 3
  {
    sides[0] < sides[1] + sides[2] && sides[1] < sides[0] + sides[2] && sides[2] < sides[0] + sides[1]
  }

  /** The other form: the two smaller sides together exceed the largest. */
  predicate SmallerPairExceedsLargest(sides: seq<nat>)
    requires |sides| == 3
  {
    exists i :: 0 <= i < 3
      && (forall j :: 0 <= j < 3 ==> sides[j] <= sides[i])
      && Sum(sides) - sides[i] > sides[i]
  }

  lemma TriangleForms(sides: seq<nat>)
    requires |sides| == 3
    ensures IsTriangle(sides) <==> SmallerPairExceedsLargest(sides)
  {
    var i := if sides[0] >= sides[1] && sides[0] >= sides[2] then 0 else if sides[1] >= sides[2] then 1 else 2;
    assert forall j :: 0 <= j < 3 ==> sides[j] <= sides[i];
    Sum3(sides);
    if SmallerPairExceedsLargest(sides) {
      var k :| 0 <= k < 3 && (forall j :: 0 <= j < 3 ==> sides[j] <= sides[k]) && Sum(sides) - sides[k] > sides[k];
      assert sides[k] == sides[i];
    }
  }

  /** `good_triangle`: one pass keeping the sum and the largest side; the
      `u32` sum must not overflow. */
  method GoodTriangle(sides: seq<nat>) returns (good: bool)
    requires |sides| == 3 && Sum(sides) <= MaxU32
    ensures good <==> IsTriangle(sides)
  {
    var sum, large := 0, 0;
    for k := 0 to 3
      invariant sum == Sum(sides[..k])
      invariant forall j :: 0 <= j < k ==> sides[j] <= large
      invariant large == 0 || exists j :: 0 <= j < k && sides[j] == large
    {
      assert sides[..k + 1][..k] == sides[..k];
      var s := sides[k];
      sum := sum + s;
      if s > large {
        large := s;
      }
    }
    assert sides[..3] == sides;
    good := sum - large > large;
    TriangleForms(sides);
    assert forall j :: 0 <= j < 3 ==> sides[j] <= large;
    Sum3(sides);
  }

  // ----- `main` -----

  /** A line's three numbers, or `None` for a line the pattern does not match. */
  type Line = Option<(nat, nat, nat)>

  function Column(t: (nat, nat, nat), r: nat): nat
    requires r < 3
  {
    if r == 0 then t.0 else if r == 1 then t.1 else t.2
  }

  predicate InRange(lines: seq<Line>) {
    forall n :: 0 <= n < |lines| && lines[n].Some? ==>
      lines[n].value.0 <= MaxU32 / 3 && lines[n].value.1 <= MaxU32 / 3 && lines[n].value.2 <= MaxU32 / 3
  }

  /** `window[r][c]` after the lines: number `r` of the last matching line
      whose index is `c` modulo 3, or 0 if there is none. */
  function WindowCell(lines: seq<Line>, r: nat, c: nat): nat
    requires r < 3
  {
    if lines == [] then 0
    else
      var n := |lines| - 1;
      if n % 3 == c && lines[n].Some? then Column(lines[n].value, r) else WindowCell(lines[..n], r, c)
  }

  /** The `r`-th window row, tested as a triangle. */
  function WindowRow(lines: seq<Line>, r: nat): seq<nat>
    requires r < 3
  {
    [WindowCell(lines, r, 0), WindowCell(lines, r, 1), WindowCell(lines, r, 2)]
  }

  function HorizontalCount(lines: seq<Line>): nat {
    if lines == [] then 0
    else
      var n := |lines| - 1;
      HorizontalCount(lines[..n])
        + (if lines[n].Some? && IsTriangle([lines[n].value.0, lines[n].value.1, lines[n].value.2]) then 1 else 0)
  }

  /** How many of the first `k` window rows are triangles. */
  function GoodRows(lines: seq<Line>, k: nat): nat
    requires k <= 3
  {
    if k == 0 then 0 else GoodRows(lines, k - 1) + (if IsTriangle(WindowRow(lines, k - 1)) then 1 else 0)
  }

  /** The rows are tested after each matching line whose index is 2 modulo 3. */
  function VerticalCount(lines: seq<Line>): nat {
    if lines == [] then 0
    else
      var n := |lines| - 1;
      VerticalCount(lines[..n]) + (if n % 3 == 2 && lines[n].Some? then GoodRows(lines, 3) else 0)
  }

  /** `main`'s loop over the lines, with the 3x3 window overwritten in place. */
  method CountTriangles(lines: seq<Line>) returns (horizontal: nat, vertical: nat)
    requires InRange(lines)
    ensures horizontal == HorizontalCount(lines) && vertical == VerticalCount(lines)
  {
    horizontal, vertical := 0, 0;
    var window := new nat[3, 3]((r, c) => 0);
    for num := 0 to |lines|
      invariant horizontal == HorizontalCount(lines[..num]) && vertical == VerticalCount(lines[..num])
      invariant forall r, c :: 0 <= r < 3 && 0 <= c < 3 ==> window[r, c] == WindowCell(lines[..num], r, c)
    {
      var seen := lines[..num + 1];
      assert seen[..num] == lines[..num];
      WindowAfter(lines, num);
      var cycle := num % 3;
      if lines[num].Some? {
        var (a, b, c) := lines[num].value;
        Sum3([a, b, c]);
        var good := GoodTriangle([a, b, c]);
        if good {
          horizontal := horizontal + 1;
        }
        SetColumn(window, cycle, lines[num].value);
        if cycle == 2 {
          var found := CountRows(window, seen);
          vertical := vertical + found;
        }
      }
    }
    assert lines[..|lines|] == lines;
  }

  /** `window[r][cycle] = …` for the three numbers of a line. */
  method SetColumn(window: array2<nat>, cycle: nat, t: (nat, nat, nat))
    requires window.Length0 == 3 && window.Length1 == 3 && cycle < 3
    modifies window
    ensures forall r, c :: 0 <= r < 3 && 0 <= c < 3 ==>
      window[r, c] == if c == cycle then Column(t, r) else old(window[r, c])
  {
    window[0, cycle] := t.0;
    window[1, cycle] := t.1;
    window[2, cycle] := t.2;
  }

  lemma WindowAfter(lines: seq<Line>, num: nat)
    requires num < |lines|
    ensures forall r, c :: 0 <= r < 3 ==>
      WindowCell(lines[..num + 1], r, c)
        == if num % 3 == c && lines[num].Some? then Column(lines[num].value, r) else WindowCell(lines[..num], r, c)
  {
    var seen := lines[..num + 1];
    assert seen[..num] == lines[..num] && seen[num] == lines[num];
    forall r, c | 0 <= r < 3
      ensures WindowCell(seen, r, c)
        == if num % 3 == c && lines[num].Some? then Column(lines[num].value, r) else WindowCell(lines[..num], r, c)
    {
    }
  }

  /** The `for triangle in window` loop. */
  method CountRows(window: array2<nat>, seen: seq<Line>) returns (found: nat)
    requires window.Length0 == 3 && window.Length1 == 3 && InRange(seen)
    requires forall r, c :: 0 <= r < 3 && 0 <= c < 3 ==> window[r, c] == WindowCell(seen, r, c)
    ensures found == GoodRows(seen, 3)
  {
    found := 0;
    for r := 0 to 3
      invariant found == GoodRows(seen, r)
    {
      WindowCellInRange(seen, r, 0);
      WindowCellInRange(seen, r, 1);
      WindowCellInRange(seen, r, 2);
      Sum3([window[r, 0], window[r, 1], window[r, 2]]);
      var good := GoodTriangle([window[r, 0], window[r, 1], window[r, 2]]);
      if good {
        found := found + 1;
      }
    }
  }

  lemma {:induction false} WindowCellInRange(lines: seq<Line>, r: nat, c: nat)
    requires r < 3 && InRange(lines)
    ensures WindowCell(lines, r, c) <= MaxU32 / 3
  {
    if lines != [] {
      WindowCellInRange(lines[..|lines| - 1], r, c);
    }
  }

  /** When the three lines of a group all match, the window rows are exactly
      the group's columns read top to bottom. */
  lemma AlignedGroup(lines: seq<Line>, k: nat, r: nat)
    requires 3 * k + 3 <= |lines| && r < 3
    requires lines[3 * k].Some? && lines[3 * k + 1].Some? && lines[3 * k + 2].Some?
    ensures WindowRow(lines[..3 * k + 3], r)
      == [Column(lines[3 * k].value, r), Column(lines[3 * k + 1].value, r), Column(lines[3 * k + 2].value, r)]
  {
    var group := lines[..3 * k + 3];
    assert group[..3 * k + 2] == lines[..3 * k + 2];
    assert group[..3 * k + 2][..3 * k + 1] == lines[..3 * k + 1];
    assert WindowCell(group, r, 2) == Column(lines[3 * k + 2].value, r);
    assert WindowCell(group, r, 1) == WindowCell(lines[..3 * k + 2], r, 1) == Column(lines[3 * k + 1].value, r);
    assert WindowCell(group, r, 0) == WindowCell(lines[..3 * k + 1], r, 0) == Column(lines[3 * k].value, r);
  }

  /** A line the pattern does not match still takes its place in the cycle:
      its column keeps the value of an earlier group. */
  lemma UnmatchedLineKeepsColumn(lines: seq<Line>, k: nat, r: nat)
    requires 3 * k + 3 <= |lines| && r < 3 && lines[3 * k].None?
    ensures WindowCell(lines[..3 * k + 3], r, 0) == WindowCell(lines[..3 * k], r, 0)
  {
    var group := lines[..3 * k + 3];
    assert group[..3 * k + 2] == lines[..3 * k + 2];
    assert lines[..3 * k + 2][..3 * k + 1] == lines[..3 * k + 1];
    assert lines[..3 * k + 1][..3 * k] == lines[..3 * k];
    assert (3 * k + 2) % 3 == 2 && (3 * k + 1) % 3 == 1;
    assert WindowCell(group, r, 0) == WindowCell(lines[..3 * k + 2], r, 0);
    assert WindowCell(lines[..3 * k + 2], r, 0) == WindowCell(lines[..3 * k + 1], r, 0);
  }
}
