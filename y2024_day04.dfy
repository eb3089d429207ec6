/** 2024 day 4: the word search. `XmasCounter` slides a four-character window
    along every row, column and diagonal of the grid and counts the windows
    reading XMAS forwards or backwards; part two counts the crosses of two
    MAS words centred on an 'A' (src/year_2024/day04.rs). The grid arrives as
    its lines of characters. */
module Year2024Day04 {
  import opened Wrappers

  /** `main` fails on a grid without lines, where `reduce` finds no width. */
  datatype Fault = EmptyGrid

  /** The window `new` and `reset_cache` install. */
  const Dots: seq<char> := "...."

  /** A window reading XMAS forwards or backwards. */
  predicate IsXmas(w: seq<char>) {
    w == "XMAS" || w == "SAMX"
  }

  /** The window after the characters `p` have been fed to a window of dots:
      the last four of the dots followed by `p`. */
  function Window(p: seq<char>): (w: seq<char>)
    ensures |w| == 4
  {
    (Dots + p)[|p|..]
  }

  /** The number of places where four consecutive characters of `line` read
      XMAS or SAMX, counted at the place's last character. */
  function Matches(line: seq<char>): nat {
    if |line| < 4 then 0
    else Matches(line[..|line| - 1]) + (if IsXmas(line[|line| - 4..]) then 1 else 0)
  }

  /** Feeding one more character shifts the window and counts a match exactly
      when the shifted window reads XMAS or SAMX: a window still holding one
      of the dots never does. */
  lemma FeedStep(p: seq<char>, c: char)
    ensures Window(p + [c]) == Window(p)[1..] + [c]
    ensures Matches(p + [c]) == Matches(p) + (if IsXmas(Window(p + [c])) then 1 else 0)
  {
    var q := p + [c];
    assert q[..|q| - 1] == p;
    assert (Dots + q)[|q|..] == (Dots + p)[|p|..][1..] + [c];
    if |q| < 4 {
      assert Window(q)[0] == '.';
    } else {
      assert Window(q) == q[|q| - 4..];
    }
  }

  /** The counter: the last four characters seen on the current line and the
      number of XMAS readings so far. */
  class XmasCounter {
    var cache: array<char>
    var count: nat

    ghost predicate Valid()
      reads this
    {
      cache.Length == 4
    }

    /** `new`: a window of dots and a zero count. */
    constructor ()
      ensures Valid() && fresh(cache)
      ensures cache[..] == Dots && count == 0
    {
      cache := new char[4](_ => '.');
      count := 0;
    }

    /** `reset_cache`: refills the window with dots and keeps the count. */
    method ResetCache()
      requires Valid()
      modifies cache
      ensures cache[..] == Dots
    {
      cache[0], cache[1], cache[2], cache[3] := '.', '.', '.', '.';
    }

    /** `process`: shifts the window left by one, places `ch` last, and counts
        the window when it reads XMAS or SAMX, so the count never falls. */
    method Process(ch: char)
      requires Valid()
      modifies this, cache
      ensures Valid() && cache == old(cache)
      ensures cache[..] == old(cache[..])[1..] + [ch]
      ensures count == old(count) + (if IsXmas(cache[..]) then 1 else 0)
      ensures count >= old(count)
    {
      cache[0] := cache[1];
      cache[1] := cache[2];
      cache[2] := cache[3];
      cache[3] := ch;
      if (cache[0] == 'X' && cache[1] == 'M' && cache[2] == 'A' && cache[3] == 'S')
        || (cache[3] == 'X' && cache[2] == 'M' && cache[1] == 'A' && cache[0] == 'S')
      {
        count := count + 1;
      }
    }
  }

  /** The characters of `s` in the opposite order. */
  function Reverse(s: seq<char>): (r: seq<char>)
    ensures |r| == |s|
  {
    seq(|s|, i requires 0 <= i < |s| => s[|s| - 1 - i])
  }

  /** Counting from the front: a character put before `q` adds a match
      exactly when it starts an XMAS or SAMX reading. */
  lemma {:induction false} MatchesCons(c: char, q: seq<char>)
    ensures Matches([c] + q) == Matches(q) + (if |q| >= 3 && IsXmas(([c] + q)[..4]) then 1 else 0)
    decreases |q|
  {
    var l := [c] + q;
    if |q| < 4 {
      if |q| == 3 {
        assert l[..|l| - 1][..] == l[..3];
        assert l[|l| - 4..] == l[..4];
      }
    } else {
      var q' := q[..|q| - 1];
      MatchesCons(c, q');
      assert l[..|l| - 1] == [c] + q';
      assert ([c] + q')[..4] == l[..4];
      assert l[|l| - 4..] == q[|q| - 4..];
    }
  }

  /** A window of four reads XMAS or SAMX exactly when its reverse does. */
  lemma XmasReverse(w: seq<char>)
    requires |w| == 4
    ensures IsXmas(Reverse(w)) <==> IsXmas(w)
  {
    var r := Reverse(w);
    assert r == [w[3], w[2], w[1], w[0]];
    assert w == [w[0], w[1], w[2], w[3]];
  }

  /** Reversing a line with a character in front puts that character last. */
  lemma ReverseCons(c: char, q: seq<char>)
    ensures Reverse([c] + q) == Reverse(q) + [c]
  {
    var l := [c] + q;
    forall i | 0 <= i < |l|
      ensures Reverse(l)[i] == (Reverse(q) + [c])[i]
    {
      if i < |q| {
        assert l[|l| - 1 - i] == q[|q| - 1 - i];
      }
    }
  }

  /** The last four of a reversed line are its first four, reversed. */
  lemma ReverseLastFour(line: seq<char>)
    requires |line| >= 4
    ensures Reverse(line)[|line| - 4..] == Reverse(line[..4])
  {
    var r := Reverse(line);
    forall k | 0 <= k < 4
      ensures r[|line| - 4..][k] == Reverse(line[..4])[k]
    {
      assert r[|line| - 4 + k] == line[3 - k];
    }
  }

  /** A line and its reverse hold the same number of XMAS readings, which is
      why one sweep along each line also counts the readings running the
      other way. */
  lemma {:induction false} MatchesReverse(line: seq<char>)
    ensures Matches(Reverse(line)) == Matches(line)
    decreases |line|
  {
    if |line| > 0 {
      var c, q := line[0], line[1..];
      assert line == [c] + q;
      MatchesReverse(q);
      MatchesCons(c, q);
      ReverseCons(c, q);
      var r := Reverse(line);
      assert r[..|r| - 1] == Reverse(q);
      if |line| >= 4 {
        ReverseLastFour(line);
        XmasReverse(line[..4]);
      }
    }
  }

  /** Every line of the grid has `width` characters. */
  predicate Rectangular(mat: seq<seq<char>>, width: nat) {
    forall y :: 0 <= y < |mat| ==> |mat[y]| == width
  }

  function Min(a: nat, b: nat): nat {
    if a <= b then a else b
  }

  /** Column `x`, read from the top. */
  function Column(mat: seq<seq<char>>, width: nat, x: nat): seq<char>
    requires Rectangular(mat, width) && x < width
  {
    seq(|mat|, y requires 0 <= y < |mat| => mat[y][x])
  }

  /** The diagonal running south-east from column `x0` of line `y0` to the
      edge of the grid. */
  function SouthEast(mat: seq<seq<char>>, width: nat, x0: nat, y0: nat): (line: seq<char>)
    requires Rectangular(mat, width) && x0 <= width && y0 <= |mat|
    ensures |line| == Min(width - x0, |mat| - y0)
  {
    var n := Min(width - x0, |mat| - y0);
    seq(n, k requires 0 <= k < n => mat[y0 + k][x0 + k])
  }

  /** The diagonal running south-west from column `x0` of line `y0` to the
      edge of the grid. */
  function SouthWest(mat: seq<seq<char>>, width: nat, x0: nat, y0: nat): (line: seq<char>)
    requires Rectangular(mat, width) && x0 < width && y0 <= |mat|
    ensures |line| == Min(x0 + 1, |mat| - y0)
  {
    var n := Min(x0 + 1, |mat| - y0);
    seq(n, k requires 0 <= k < n => mat[y0 + k][x0 - k])
  }

  /** The `k`-th character of a south-east diagonal. */
  lemma SouthEastAt(mat: seq<seq<char>>, width: nat, x0: nat, y0: nat, k: nat)
    requires Rectangular(mat, width) && x0 <= width && y0 <= |mat|
    requires k < |SouthEast(mat, width, x0, y0)|
    ensures y0 + k < |mat| && x0 + k < width
    ensures SouthEast(mat, width, x0, y0)[k] == mat[y0 + k][x0 + k]
  {
  }

  /** The `k`-th character of a south-west diagonal. */
  lemma SouthWestAt(mat: seq<seq<char>>, width: nat, x0: nat, y0: nat, k: nat)
    requires Rectangular(mat, width) && x0 < width && y0 <= |mat|
    requires k < |SouthWest(mat, width, x0, y0)|
    ensures y0 + k < |mat| && k <= x0
    ensures SouthWest(mat, width, x0, y0)[k] == mat[y0 + k][x0 - k]
  {
  }

  /** The XMAS readings of all of `lines`. */
  function SumMatches(lines: seq<seq<char>>): nat {
    if lines == [] then 0
    else SumMatches(lines[..|lines| - 1]) + Matches(lines[|lines| - 1])
  }

  /** Every column, from the left. */
  function Columns(mat: seq<seq<char>>, width: nat): seq<seq<char>>
    requires Rectangular(mat, width)
  {
    seq(width, x requires 0 <= x < width => Column(mat, width, x))
  }

  /** The south-east diagonals starting on the top line, from the left. */
  function SouthEastTops(mat: seq<seq<char>>, width: nat): seq<seq<char>>
    requires Rectangular(mat, width)
  {
    seq(width, x requires 0 <= x < width => SouthEast(mat, width, x, 0))
  }

  /** The south-east diagonals starting in the left column below the top line. */
  function SouthEastLefts(mat: seq<seq<char>>, width: nat): seq<seq<char>>
    requires Rectangular(mat, width) && |mat| > 0
  {
    seq(|mat| - 1, i requires 0 <= i < |mat| - 1 => SouthEast(mat, width, 0, i + 1))
  }

  /** The south-west diagonals starting on the top line, from the left. */
  function SouthWestTops(mat: seq<seq<char>>, width: nat): seq<seq<char>>
    requires Rectangular(mat, width)
  {
    seq(width, x requires 0 <= x < width => SouthWest(mat, width, x, 0))
  }

  /** The south-west diagonals starting in the right column below the top
      line. */
  function SouthWestRights(mat: seq<seq<char>>, width: nat): seq<seq<char>>
    requires Rectangular(mat, width) && |mat| > 0 && width > 0
  {
    seq(|mat| - 1, i requires 0 <= i < |mat| - 1 => SouthWest(mat, width, width - 1, i + 1))
  }

  /** Part one: the XMAS readings along every row, column and diagonal, in
      either direction. */
  function PartOne(mat: seq<seq<char>>, width: nat): nat
    requires Rectangular(mat, width) && |mat| > 0 && width > 0
  {
    SumMatches(mat) + SumMatches(Columns(mat, width))
    + SumMatches(SouthEastTops(mat, width)) + SumMatches(SouthEastLefts(mat, width))
    + SumMatches(SouthWestTops(mat, width)) + SumMatches(SouthWestRights(mat, width))
  }

  /** The window of dots holds no characters of a line yet. */
  lemma FreshWindow(line: seq<char>)
    ensures Window(line[..0]) == Dots && Matches(line[..0]) == 0
  {
    assert line[..0] == [];
    assert Dots + [] == Dots;
  }

  /** Feeding the next character of a line. */
  lemma FeedNext(line: seq<char>, x: nat)
    requires x < |line|
    ensures Window(line[..x + 1]) == Window(line[..x])[1..] + [line[x]]
    ensures Matches(line[..x + 1]) == Matches(line[..x]) + (if IsXmas(Window(line[..x + 1])) then 1 else 0)
  {
    FeedStep(line[..x], line[x]);
    assert line[..x + 1] == line[..x] + [line[x]];
  }

  /** One more line added to a total. */
  lemma SumMatchesStep(lines: seq<seq<char>>, n: nat)
    requires n < |lines|
    ensures SumMatches(lines[..n + 1]) == SumMatches(lines[..n]) + Matches(lines[n])
  {
    assert lines[..n + 1][..n] == lines[..n];
  }

  /** The east-to-west sweep of `main`: every line, left to right. */
  method SweepRows(counter: XmasCounter, mat: seq<seq<char>>, width: nat)
    requires counter.Valid() && counter.cache[..] == Dots && Rectangular(mat, width)
    modifies counter, counter.cache
    ensures counter.Valid() && counter.cache == old(counter.cache) && counter.cache[..] == Dots
    ensures counter.count == old(counter.count) + SumMatches(mat)
  {
    for y := 0 to |mat|
      invariant counter.Valid() && counter.cache == old(counter.cache) && counter.cache[..] == Dots
      invariant counter.count == old(counter.count) + SumMatches(mat[..y])
    {
      var line := mat[y];
      var base := counter.count;
      FreshWindow(line);
      for x := 0 to width
        invariant counter.Valid() && counter.cache == old(counter.cache)
        invariant counter.cache[..] == Window(line[..x])
        invariant counter.count == base + Matches(line[..x])
      {
        FeedNext(line, x);
        counter.Process(mat[y][x]);
      }
      counter.ResetCache();
      assert line[..width] == line;
      SumMatchesStep(mat, y);
    }
    assert mat[..|mat|] == mat;
  }

  /** The north-to-south sweep of `main`: every column, top to bottom. */
  method SweepColumns(counter: XmasCounter, mat: seq<seq<char>>, width: nat)
    requires counter.Valid() && counter.cache[..] == Dots && Rectangular(mat, width)
    modifies counter, counter.cache
    ensures counter.Valid() && counter.cache == old(counter.cache) && counter.cache[..] == Dots
    ensures counter.count == old(counter.count) + SumMatches(Columns(mat, width))
  {
    var lines := Columns(mat, width);
    for x := 0 to width
      invariant counter.Valid() && counter.cache == old(counter.cache) && counter.cache[..] == Dots
      invariant counter.count == old(counter.count) + SumMatches(lines[..x])
    {
      var line := lines[x];
      var base := counter.count;
      FreshWindow(line);
      for y := 0 to |mat|
        invariant counter.Valid() && counter.cache == old(counter.cache)
        invariant counter.cache[..] == Window(line[..y])
        invariant counter.count == base + Matches(line[..y])
      {
        FeedNext(line, y);
        counter.Process(mat[y][x]);
      }
      counter.ResetCache();
      assert line[..|mat|] == line;
      SumMatchesStep(lines, x);
    }
    assert lines[..width] == lines;
  }

  /** One walk of the south-east sweep: from column `x0` of line `y0` down
      and to the right until either edge, then `reset_cache`. */
  method WalkSouthEast(counter: XmasCounter, mat: seq<seq<char>>, width: nat, x0: nat, y0: nat)
    requires counter.Valid() && counter.cache[..] == Dots && Rectangular(mat, width)
    requires x0 <= width && y0 <= |mat|
    modifies counter, counter.cache
    ensures counter.Valid() && counter.cache == old(counter.cache) && counter.cache[..] == Dots
    ensures counter.count == old(counter.count) + Matches(SouthEast(mat, width, x0, y0))
  {
    var line := SouthEast(mat, width, x0, y0);
    FreshWindow(line);
    var base := counter.count;
    ghost var cache := counter.cache;
    var x, y := x0, y0;
    ghost var k := 0;
    while x < width && y < |mat|
      invariant x == x0 + k && y == y0 + k && k <= |line|
      invariant counter.Valid() && counter.cache == cache
      invariant counter.cache[..] == Window(line[..k])
      invariant counter.count == base + Matches(line[..k])
    {
      SouthEastAt(mat, width, x0, y0, k);
      FeedNext(line, k);
      var ch := mat[y][x];
      assert ch == line[k];
      counter.Process(ch);
      k := k + 1;
      x := x + 1;
      y := y + 1;
    }
    counter.ResetCache();
    assert line[..k] == line;
  }

  /** One walk of the south-west sweep: from column `x0` of line `y0` down
      and to the left, stopping after the bottom line or after column 0,
      then `reset_cache`. */
  method WalkSouthWest(counter: XmasCounter, mat: seq<seq<char>>, width: nat, x0: nat, y0: nat)
    requires counter.Valid() && counter.cache[..] == Dots && Rectangular(mat, width)
    requires x0 < width && y0 <= |mat|
    modifies counter, counter.cache
    ensures counter.Valid() && counter.cache == old(counter.cache) && counter.cache[..] == Dots
    ensures counter.count == old(counter.count) + Matches(SouthWest(mat, width, x0, y0))
  {
    var line := SouthWest(mat, width, x0, y0);
    FreshWindow(line);
    var base := counter.count;
    ghost var cache := counter.cache;
    var x: nat, y: nat := x0, y0;
    ghost var k := 0;
    while y < |mat|
      invariant x + k == x0 && y == y0 + k && k <= |line|
      invariant counter.Valid() && counter.cache == cache
      invariant counter.cache[..] == Window(line[..k])
      invariant counter.count == base + Matches(line[..k])
    {
      SouthWestAt(mat, width, x0, y0, k);
      FeedNext(line, k);
      var ch := mat[y][x];
      assert ch == line[k];
      counter.Process(ch);
      k := k + 1;
      if x == 0 {
        break;
      }
      x := x - 1;
      y := y + 1;
    }
    counter.ResetCache();
    assert line[..k] == line;
  }

  /** The south-east sweep of `main`: the diagonals from the top line, then
      those from the left column, skipping the shared top-left start. */
  method SweepSouthEast(counter: XmasCounter, mat: seq<seq<char>>, width: nat)
    requires counter.Valid() && counter.cache[..] == Dots && Rectangular(mat, width) && |mat| > 0
    modifies counter, counter.cache
    ensures counter.Valid() && counter.cache == old(counter.cache) && counter.cache[..] == Dots
    ensures counter.count == old(counter.count)
      + SumMatches(SouthEastTops(mat, width)) + SumMatches(SouthEastLefts(mat, width))
  {
    var tops := SouthEastTops(mat, width);
    for xStart := 0 to width
      invariant counter.Valid() && counter.cache == old(counter.cache) && counter.cache[..] == Dots
      invariant counter.count == old(counter.count) + SumMatches(tops[..xStart])
    {
      WalkSouthEast(counter, mat, width, xStart, 0);
      SumMatchesStep(tops, xStart);
    }
    assert tops[..width] == tops;
    var middle := counter.count;
    var lefts := SouthEastLefts(mat, width);
    for yStart := 1 to |mat|
      invariant counter.Valid() && counter.cache == old(counter.cache) && counter.cache[..] == Dots
      invariant counter.count == middle + SumMatches(lefts[..yStart - 1])
    {
      WalkSouthEast(counter, mat, width, 0, yStart);
      SumMatchesStep(lefts, yStart - 1);
    }
    assert lefts[..|mat| - 1] == lefts;
  }

  /** The south-west sweep of `main`: the diagonals from the top line, then
      those from the right column, skipping the shared top-right start. */
  method SweepSouthWest(counter: XmasCounter, mat: seq<seq<char>>, width: nat)
    requires counter.Valid() && counter.cache[..] == Dots && Rectangular(mat, width)
    requires |mat| > 0 && width > 0
    modifies counter, counter.cache
    ensures counter.Valid() && counter.cache == old(counter.cache) && counter.cache[..] == Dots
    ensures counter.count == old(counter.count)
      + SumMatches(SouthWestTops(mat, width)) + SumMatches(SouthWestRights(mat, width))
  {
    var tops := SouthWestTops(mat, width);
    for xStart := 0 to width
      invariant counter.Valid() && counter.cache == old(counter.cache) && counter.cache[..] == Dots
      invariant counter.count == old(counter.count) + SumMatches(tops[..xStart])
    {
      WalkSouthWest(counter, mat, width, xStart, 0);
      SumMatchesStep(tops, xStart);
    }
    assert tops[..width] == tops;
    var middle := counter.count;
    var rights := SouthWestRights(mat, width);
    for yStart := 1 to |mat|
      invariant counter.Valid() && counter.cache == old(counter.cache) && counter.cache[..] == Dots
      invariant counter.count == middle + SumMatches(rights[..yStart - 1])
    {
      WalkSouthWest(counter, mat, width, width - 1, yStart);
      SumMatchesStep(rights, yStart - 1);
    }
    assert rights[..|mat| - 1] == rights;
  }

  /** Two opposite corners reading M and S in either order. */
  predicate MasPair(a: char, b: char) {
    (a == 'M' && b == 'S') || (a == 'S' && b == 'M')
  }

  /** An X-MAS centred at column `x` of line `y`: an 'A' whose two diagonals
      each read MAS forwards or backwards. */
  predicate XMasAt(mat: seq<seq<char>>, width: nat, x: nat, y: nat)
    requires Rectangular(mat, width) && 0 < x < width - 1 && 0 < y < |mat| - 1
  {
    mat[y][x] == 'A'
    && MasPair(mat[y - 1][x - 1], mat[y + 1][x + 1])
    && MasPair(mat[y - 1][x + 1], mat[y + 1][x - 1])
  }

  /** An X-MAS is an 'A' whose four corners are two 'M's and two 'S's with
      different letters at the ends of the north-west diagonal. */
  lemma XMasCorners(mat: seq<seq<char>>, width: nat, x: nat, y: nat)
    requires Rectangular(mat, width) && 0 < x < width - 1 && 0 < y < |mat| - 1
    ensures XMasAt(mat, width, x, y) <==>
      mat[y][x] == 'A'
      && multiset{mat[y - 1][x - 1], mat[y - 1][x + 1], mat[y + 1][x - 1], mat[y + 1][x + 1]}
         == multiset{'M', 'M', 'S', 'S'}
      && mat[y - 1][x - 1] != mat[y + 1][x + 1]
  {
    var nw, ne, sw, se := mat[y - 1][x - 1], mat[y - 1][x + 1], mat[y + 1][x - 1], mat[y + 1][x + 1];
    CornersMultiset(nw, ne, sw, se);
  }

  /** Two pairs each reading M and S are the multiset of two 'M's and two
      'S's, and conversely when the first pair differs. */
  lemma CornersMultiset(nw: char, ne: char, sw: char, se: char)
    ensures MasPair(nw, se) && MasPair(ne, sw) <==>
      multiset{nw, ne, sw, se} == multiset{'M', 'M', 'S', 'S'} && nw != se
  {
    var corners := multiset{nw, ne, sw, se};
    var target := multiset{'M', 'M', 'S', 'S'};
    if corners == target && nw != se {
      assert nw in target && ne in target && sw in target && se in target;
      assert corners['M'] == 2;
    }
  }

  /** The X-MAS centres in column `x` on the interior lines above `yEnd`. */
  function XMasInColumn(mat: seq<seq<char>>, width: nat, x: nat, yEnd: nat): nat
    requires Rectangular(mat, width) && 0 < x < width - 1 && yEnd < |mat|
  {
    if yEnd <= 1 then 0
    else XMasInColumn(mat, width, x, yEnd - 1) + (if XMasAt(mat, width, x, yEnd - 1) then 1 else 0)
  }

  /** Part two: the X-MAS centres in the interior columns left of `xEnd`. */
  function XMasTotal(mat: seq<seq<char>>, width: nat, xEnd: nat): nat
    requires Rectangular(mat, width) && |mat| > 0 && xEnd < width
  {
    if xEnd <= 1 then 0
    else XMasTotal(mat, width, xEnd - 1) + XMasInColumn(mat, width, xEnd - 1, |mat| - 1)
  }

  /** The second half of `main`: every interior cell, column by column. */
  method CountXMas(mat: seq<seq<char>>, width: nat) returns (xmasCount: nat)
    requires Rectangular(mat, width) && |mat| > 0 && width > 0
    ensures xmasCount == XMasTotal(mat, width, width - 1)
  {
    xmasCount := 0;
    var x := 1;
    while x < width - 1
      invariant 1 <= x && (x <= width - 1 || width == 1)
      invariant xmasCount == XMasTotal(mat, width, if width == 1 then 0 else x)
    {
      var column := 0;
      var y := 1;
      while y < |mat| - 1
        invariant 1 <= y && (y <= |mat| - 1 || |mat| == 1)
        invariant column == XMasInColumn(mat, width, x, if |mat| == 1 then 0 else y)
      {
        if mat[y][x] == 'A' {
          var nw := mat[y - 1][x - 1];
          var ne := mat[y - 1][x + 1];
          var sw := mat[y + 1][x - 1];
          var se := mat[y + 1][x + 1];
          var d1 := (nw == 'M' && se == 'S') || (nw == 'S' && se == 'M');
          var d2 := (ne == 'M' && sw == 'S') || (ne == 'S' && sw == 'M');
          if d1 && d2 {
            column := column + 1;
          }
        }
        y := y + 1;
      }
      xmasCount := xmasCount + column;
      x := x + 1;
    }
  }

  /** The width `main` takes: the longest line, or none for an empty grid. */
  method GridWidth(mat: seq<seq<char>>) returns (width: Option<nat>)
    ensures width.None? <==> |mat| == 0
    ensures width.Some? ==> exists y :: 0 <= y < |mat| && |mat[y]| == width.value
    ensures width.Some? ==> forall y :: 0 <= y < |mat| ==> |mat[y]| <= width.value
  {
    if |mat| == 0 {
      return None;
    }
    var maxLen := |mat[0]|;
    for y := 1 to |mat|
      invariant exists i :: 0 <= i < y && |mat[i]| == maxLen
      invariant forall i :: 0 <= i < y ==> |mat[i]| <= maxLen
    {
      var len := |mat[y]|;
      maxLen := if len >= maxLen then len else maxLen;
    }
    return Some(maxLen);
  }

  /** `main`: the XMAS readings of every line through the counter, and the
      X-MAS count. */
  method Solve(mat: seq<seq<char>>) returns (r: Result<(nat, nat), Fault>)
    requires forall y :: 0 <= y < |mat| ==> 0 < |mat[y]| == |mat[0]|
    ensures |mat| == 0 ==> r == Err(EmptyGrid)
    ensures |mat| > 0 ==> Rectangular(mat, |mat[0]|)
    ensures |mat| > 0 ==> r == Ok((PartOne(mat, |mat[0]|), XMasTotal(mat, |mat[0]|, |mat[0]| - 1)))
  {
    var found := GridWidth(mat);
    if found.None? {
      return Err(EmptyGrid);
    }
    var width := found.value;
    assert width == |mat[0]|;
    var counter := new XmasCounter();
    SweepRows(counter, mat, width);
    assert counter.count == SumMatches(mat);
    SweepColumns(counter, mat, width);
    assert counter.count == SumMatches(mat) + SumMatches(Columns(mat, width));
    SweepSouthEast(counter, mat, width);
    SweepSouthWest(counter, mat, width);
    var partOne := counter.count;
    assert partOne == PartOne(mat, width);
    var xmasCount := CountXMas(mat, width);
    return Ok((partOne, xmasCount));
  }
}
