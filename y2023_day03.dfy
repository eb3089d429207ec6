/** 2023 day 3: part numbers on an engine schematic. A scanner reads the
    grid row by row, collecting the runs of digits as numbers and every
    other character except `.` as a symbol; each number is then attached to
    the first symbol found around it, and the gears are the `*` symbols that
    got exactly two numbers (src/year_2023/day03.rs). */
module Year2023Day03 {
  import opened Wrappers
  import opened Numerals
  import P = Point

  /** A number of the schematic: its value, its row and its first and last column. */
  datatype Number = Number(value: nat, y: nat, xStart: nat, xStop: nat)

  /** A symbol: the numbers attached to it so far, and its character. */
  datatype Symbol = Symbol(adjacent: seq<nat>, sym: char)

  predicate IsSymbolChar(c: char) {
    !IsDigit(c) && c != '.'
  }

  // ----- the runs of digits of one row -----

  /** The first column at or after `i` that does not hold a digit. */
  function RunEnd(line: string, i: nat): (e: nat)
    requires i <= |line|
    ensures i <= e <= |line|
    decreases |line| - i
  {
    if i < |line| && IsDigit(line[i]) then RunEnd(line, i + 1) else i
  }

  /** Every column from `i` up to `RunEnd` holds a digit, and the run stops there. */
  lemma {:induction false} RunEndMeaning(line: string, i: nat)
    requires i <= |line|
    ensures AllDigits(line[i..RunEnd(line, i)])
    ensures RunEnd(line, i) == |line| || !IsDigit(line[RunEnd(line, i)])
    decreases |line| - i
  {
    if i < |line| && IsDigit(line[i]) {
      RunEndMeaning(line, i + 1);
      var e := RunEnd(line, i);
      assert forall k :: i + 1 <= k < e ==> IsDigit(line[k]) by {
        forall k | i + 1 <= k < e ensures IsDigit(line[k]) {
          assert line[i + 1..e][k - i - 1] == line[k];
        }
      }
    }
  }

  lemma DigitOfRun(line: string, i: nat, e: nat, k: nat)
    requires i <= k < e <= |line| && AllDigits(line[i..e])
    ensures IsDigit(line[k])
  {
    assert line[i..e][k - i] == line[k];
  }

  /** A run of digits from `s` to just before `x` ends at `x` when `x` is the
      end of the row or holds something else. */
  lemma {:induction false} RunEndAt(line: string, s: nat, x: nat)
    requires s <= x <= |line|
    requires forall k :: s <= k < x ==> IsDigit(line[k])
    requires x == |line| || !IsDigit(line[x])
    ensures RunEnd(line, s) == x
    decreases x - s
  {
    if s < x {
      RunEndAt(line, s + 1, x);
    }
  }

  /** The numbers of row `y` from column `i` on, found by skipping
      non-digits and taking each whole run of digits at once. */
  function NumbersFrom(line: string, y: nat, i: nat): seq<Number>
    requires i <= |line|
    decreases |line| - i
  {
    if i == |line| then []
    else if !IsDigit(line[i]) then NumbersFrom(line, y, i + 1)
    else
      var e := RunEnd(line, i);
      RunEndMeaning(line, i);
      [Number(DecimalValue(line[i..e]), y, i, e - 1)] + NumbersFrom(line, y, e)
  }

  /** A maximal run of digits of a row: digits from `s` to `e`, and no digit
      just before or just after. */
  predicate IsRun(line: string, s: nat, e: nat) {
    s <= e < |line| && (forall k :: s <= k <= e ==> IsDigit(line[k]))
    && (s == 0 || !IsDigit(line[s - 1])) && (e + 1 == |line| || !IsDigit(line[e + 1]))
  }

  /** Every number of a row is a maximal run of its digits, with the value
      those digits denote. */
  lemma {:induction false} NumbersAreRuns(line: string, y: nat, i: nat)
    requires i <= |line| && (i == 0 || i == |line| || !IsDigit(line[i - 1]) || !IsDigit(line[i]))
    ensures forall n :: n in NumbersFrom(line, y, i) ==>
      n.y == y && i <= n.xStart && IsRun(line, n.xStart, n.xStop) && AllDigits(line[n.xStart..n.xStop + 1])
      && n.value == DecimalValue(line[n.xStart..n.xStop + 1])
    decreases |line| - i
  {
    if i < |line| {
      if !IsDigit(line[i]) {
        NumbersAreRuns(line, y, i + 1);
      } else {
        var e := RunEnd(line, i);
        RunEndMeaning(line, i);
        NumbersAreRuns(line, y, e);
        var head := Number(DecimalValue(line[i..e]), y, i, e - 1);
        assert NumbersFrom(line, y, i) == [head] + NumbersFrom(line, y, e);
        assert line[i..e] == line[head.xStart..head.xStop + 1];
        forall k | i <= k < e ensures IsDigit(line[k]) {
          assert line[i..e][k - i] == line[k];
        }
        assert IsRun(line, i, e - 1);
      }
    }
  }

  /** A maximal run of digits of a row from column `i` on is one of its numbers. */
  lemma {:induction false} RunIsNumber(line: string, y: nat, i: nat, s: nat, t: nat)
    requires i <= s && IsRun(line, s, t)
    ensures Number(DecimalValue(line[s..t + 1]), y, s, t) in NumbersFrom(line, y, i)
    decreases |line| - i
  {
    if !IsDigit(line[i]) {
      RunIsNumber(line, y, i + 1, s, t);
    } else {
      var e := RunEnd(line, i);
      RunEndMeaning(line, i);
      assert NumbersFrom(line, y, i) == [Number(DecimalValue(line[i..e]), y, i, e - 1)] + NumbersFrom(line, y, e);
      if s == i {
        RunEndAt(line, s, t + 1);
      } else if s < e {
        DigitOfRun(line, i, e, s - 1);
        assert false;
      } else {
        RunIsNumber(line, y, e, s, t);
      }
    }
  }

  /** Every maximal run of digits of a row from column `i` on is one of its numbers. */
  lemma RunsAreNumbers(line: string, y: nat, i: nat)
    requires i <= |line|
    ensures forall s: nat, e: nat :: i <= s && IsRun(line, s, e) ==>
      Number(DecimalValue(line[s..e + 1]), y, s, e) in NumbersFrom(line, y, i)
  {
    forall s: nat, e: nat | i <= s && IsRun(line, s, e)
      ensures Number(DecimalValue(line[s..e + 1]), y, s, e) in NumbersFrom(line, y, i)
    {
      RunIsNumber(line, y, i, s, e);
    }
  }

  /** The numbers of a row come left to right and do not overlap. */
  lemma {:induction false} NumbersOrdered(line: string, y: nat, i: nat)
    requires i <= |line|
    ensures forall a :: 0 <= a < |NumbersFrom(line, y, i)| ==>
      i <= NumbersFrom(line, y, i)[a].xStart <= NumbersFrom(line, y, i)[a].xStop
    ensures forall a, b :: 0 <= a < b < |NumbersFrom(line, y, i)| ==>
      NumbersFrom(line, y, i)[a].xStop < NumbersFrom(line, y, i)[b].xStart
    decreases |line| - i
  {
    if i < |line| {
      if !IsDigit(line[i]) {
        NumbersOrdered(line, y, i + 1);
      } else {
        var e := RunEnd(line, i);
        NumbersOrdered(line, y, e);
      }
    }
  }

  /** A run of digits from `s` that stops before column `x` is the first
      number of the row from `s` on. */
  lemma CloseRun(line: string, y: nat, s: nat, x: nat)
    requires s < x <= |line|
    requires forall k :: s <= k < x ==> IsDigit(line[k])
    requires x == |line| || !IsDigit(line[x])
    ensures AllDigits(line[s..x])
    ensures NumbersFrom(line, y, s) == [Number(DecimalValue(line[s..x]), y, s, x - 1)] + NumbersFrom(line, y, x)
  {
    RunEndAt(line, s, x);
    RunEndMeaning(line, s);
  }

  /** One more digit at the end multiplies the value by ten and adds the digit. */
  lemma DecimalStep(line: string, s: nat, x: nat)
    requires s <= x < |line| && AllDigits(line[s..x]) && IsDigit(line[x])
    ensures AllDigits(line[s..x + 1])
    ensures DecimalValue(line[s..x + 1]) == 10 * DecimalValue(line[s..x]) + (line[x] as int - '0' as int)
  {
    assert line[s..x + 1][..x - s] == line[s..x];
  }

  // ----- the symbols of the schematic -----

  /** The symbol map after the inner loop has passed columns `i..` of row
      `y`: each symbol character is entered, with no numbers yet, at its cell. */
  function AddSymbols(m: map<P.Point2D, Symbol>, line: string, y: nat, i: nat): map<P.Point2D, Symbol>
    requires i <= |line|
    decreases |line| - i
  {
    if i == |line| then m
    else AddSymbols(if IsSymbolChar(line[i]) then m[P.Point2D(i, y) := Symbol([], line[i])] else m, line, y, i + 1)
  }

  /** Passing a row adds exactly its symbol cells to the map, each with its
      character and no numbers, and leaves every other entry as it was. */
  lemma {:induction false} AddSymbolsMeaning(m: map<P.Point2D, Symbol>, line: string, y: nat, i: nat)
    requires i <= |line|
    ensures forall p :: p in AddSymbols(m, line, y, i) <==>
      p in m || (p.y == y && i <= p.x < |line| && IsSymbolChar(line[p.x]))
    ensures forall p :: p in AddSymbols(m, line, y, i) ==>
      AddSymbols(m, line, y, i)[p] ==
        if p.y == y && i <= p.x < |line| && IsSymbolChar(line[p.x]) then Symbol([], line[p.x]) else m[p]
    decreases |line| - i
  {
    if i < |line| {
      AddSymbolsMeaning(if IsSymbolChar(line[i]) then m[P.Point2D(i, y) := Symbol([], line[i])] else m, line, y, i + 1);
    }
  }

  // ----- the whole schematic -----

  /** Every number of the schematic, row by row and left to right. */
  function AllNumbers(lines: seq<string>): seq<Number> {
    if lines == [] then []
    else AllNumbers(lines[..|lines| - 1]) + NumbersFrom(lines[|lines| - 1], |lines| - 1, 0)
  }

  /** Every symbol of the schematic at its cell, with no numbers attached yet. */
  function AllSymbols(lines: seq<string>): map<P.Point2D, Symbol> {
    if lines == [] then map[]
    else AddSymbols(AllSymbols(lines[..|lines| - 1]), lines[|lines| - 1], |lines| - 1, 0)
  }

  /** The cell `p` of the schematic holds a symbol. */
  predicate SymbolAt(lines: seq<string>, p: P.Point2D) {
    0 <= p.y < |lines| && 0 <= p.x < |lines[p.y]| && IsSymbolChar(lines[p.y][p.x])
  }

  /** The symbol map has an entry exactly at the cells holding a symbol,
      each with that cell's character and no numbers. */
  lemma {:induction false} AllSymbolsMeaning(lines: seq<string>)
    ensures forall p :: p in AllSymbols(lines) <==> SymbolAt(lines, p)
    ensures forall p :: p in AllSymbols(lines) ==> SymbolAt(lines, p) && AllSymbols(lines)[p] == Symbol([], lines[p.y][p.x])
  {
    if lines != [] {
      var n := |lines| - 1;
      AllSymbolsMeaning(lines[..n]);
      AddSymbolsMeaning(AllSymbols(lines[..n]), lines[n], n, 0);
      assert forall k :: 0 <= k < n ==> lines[..n][k] == lines[k];
    }
  }

  /** Every number of the schematic is a maximal run of digits of its row,
      with the value its digits denote, and every maximal run is a number. */
  lemma {:induction false} AllNumbersMeaning(lines: seq<string>)
    ensures forall n :: n in AllNumbers(lines) ==>
      n.y < |lines| && IsRun(lines[n.y], n.xStart, n.xStop) && AllDigits(lines[n.y][n.xStart..n.xStop + 1])
      && n.value == DecimalValue(lines[n.y][n.xStart..n.xStop + 1])
    ensures forall y: nat, s: nat, e: nat :: y < |lines| && IsRun(lines[y], s, e) ==>
      Number(DecimalValue(lines[y][s..e + 1]), y, s, e) in AllNumbers(lines)
  {
    if lines != [] {
      var n := |lines| - 1;
      AllNumbersMeaning(lines[..n]);
      NumbersAreRuns(lines[n], n, 0);
      RunsAreNumbers(lines[n], n, 0);
      assert forall k :: 0 <= k < n ==> lines[..n][k] == lines[k];
    }
  }

  /** No number covers a symbol's cell: numbers lie on digits. */
  lemma NumbersAvoidSymbols(lines: seq<string>, n: Number, p: P.Point2D)
    requires n in AllNumbers(lines) && SymbolAt(lines, p)
    ensures !(p.y == n.y && n.xStart <= p.x <= n.xStop)
  {
    AllNumbersMeaning(lines);
  }

  /** What the inner loop over a row knows after its first `x` columns:
      the numbers it pushed, then the number in progress if any, then the
      numbers of the rest of the row make up the numbers of the row. */
  predicate Scanned(line: string, y: nat, x: nat, numbers0: seq<Number>, numbers: seq<Number>, inProgress: Option<Number>)
    requires x <= |line|
  {
    match inProgress
    case None =>
      (x == 0 || !IsDigit(line[x - 1]))
      && numbers0 + NumbersFrom(line, y, 0) == numbers + NumbersFrom(line, y, x)
    case Some(n) =>
      n.y == y && n.xStart < x && n.xStop == x - 1
      && (forall k :: n.xStart <= k < x ==> IsDigit(line[k]))
      && AllDigits(line[n.xStart..x]) && n.value == DecimalValue(line[n.xStart..x])
      && numbers0 + NumbersFrom(line, y, 0) == numbers + NumbersFrom(line, y, n.xStart)
  }

  /** The number in progress, closed at column `x`, is the next number of the row. */
  lemma CloseInProgress(line: string, y: nat, x: nat, numbers0: seq<Number>, numbers: seq<Number>, n: Number)
    requires x <= |line| && (x == |line| || !IsDigit(line[x]))
    requires Scanned(line, y, x, numbers0, numbers, Some(n))
    ensures numbers0 + NumbersFrom(line, y, 0) == numbers + [n] + NumbersFrom(line, y, x)
  {
    CloseRun(line, y, n.xStart, x);
  }

  /** The body of the inner loop for the character at column `x`. */
  method ScanCell(line: string, y: nat, x: nat, ghost numbers0: seq<Number>, numbers: seq<Number>,
                  inProgress: Option<Number>, symbols: map<P.Point2D, Symbol>)
    returns (numbers': seq<Number>, inProgress': Option<Number>, symbols': map<P.Point2D, Symbol>)
    requires x < |line| && Scanned(line, y, x, numbers0, numbers, inProgress)
    ensures Scanned(line, y, x + 1, numbers0, numbers', inProgress')
    ensures symbols' == if IsSymbolChar(line[x]) then symbols[P.Point2D(x, y) := Symbol([], line[x])] else symbols
  {
    var ch := line[x];
    numbers', inProgress', symbols' := numbers, inProgress, symbols;
    if IsDigit(ch) {
      var d := ch as int - '0' as int;
      match inProgress
      case None =>
        assert line[x..x + 1][..0] == [];
        inProgress' := Some(Number(d, y, x, x));
      case Some(n) =>
        DecimalStep(line, n.xStart, x);
        inProgress' := Some(n.(value := n.value * 10 + d, xStop := x));
    } else {
      if ch != '.' {
        symbols' := symbols[P.Point2D(x, y) := Symbol([], ch)];
      }
      if inProgress.Some? {
        CloseInProgress(line, y, x, numbers0, numbers, inProgress.value);
        numbers' := numbers + [inProgress.value];
        inProgress' := None;
      }
    }
  }

  /** `main`'s inner loop over one row: runs of digits become numbers when
      they end, and other characters except `.` become symbols. */
  method ScanLine(y: nat, line: string, numbers: seq<Number>, symbols: map<P.Point2D, Symbol>)
    returns (numbers': seq<Number>, symbols': map<P.Point2D, Symbol>)
    ensures numbers' == numbers + NumbersFrom(line, y, 0)
    ensures symbols' == AddSymbols(symbols, line, y, 0)
  {
    var inProgress: Option<Number> := None;
    numbers', symbols' := numbers, symbols;
    for x := 0 to |line|
      invariant AddSymbols(symbols, line, y, 0) == AddSymbols(symbols', line, y, x)
      invariant Scanned(line, y, x, numbers, numbers', inProgress)
    {
      numbers', inProgress, symbols' := ScanCell(line, y, x, numbers, numbers', inProgress, symbols');
    }
    if inProgress.Some? {
      CloseInProgress(line, y, |line|, numbers, numbers', inProgress.value);
      numbers' := numbers' + [inProgress.value];
    }
  }

  /** `main`'s loop over the rows: the numbers and the symbol map. */
  method Scan(lines: seq<string>) returns (numbers: seq<Number>, symbols: map<P.Point2D, Symbol>)
    ensures numbers == AllNumbers(lines) && symbols == AllSymbols(lines)
  {
    numbers, symbols := [], map[];
    for y := 0 to |lines|
      invariant numbers == AllNumbers(lines[..y]) && symbols == AllSymbols(lines[..y])
    {
      assert lines[..y + 1][..y] == lines[..y];
      numbers, symbols := ScanLine(y, lines[y], numbers, symbols);
    }
    assert lines[..|lines|] == lines;
  }

  // ----- attaching numbers to symbols -----

  /** The column left of a number, as `saturating_sub(1)` gives it. */
  function Low(n: Number): nat {
    if n.xStart == 0 then 0 else n.xStart - 1
  }

  /** The column right of a number. */
  function High(n: Number): nat {
    n.xStop + 1
  }

  /** The cells `main` looks at around a number, in its order: the row above
      (when there is one), the cells left and right, then the row below. */
  function Neighbourhood(n: Number): seq<P.Point2D> {
    (if n.y > 0 then P.RowPoints(Low(n), High(n), n.y - 1) else [])
    + ([P.Point2D(Low(n), n.y), P.Point2D(High(n), n.y)] + P.RowPoints(Low(n), High(n), n.y + 1))
  }

  /** The first of `cells` that is one of `keys`. */
  function FirstIn(cells: seq<P.Point2D>, keys: set<P.Point2D>): (r: Option<P.Point2D>)
    ensures r.Some? ==> r.value in keys && r.value in cells
  {
    if cells == [] then None
    else if cells[0] in keys then Some(cells[0])
    else FirstIn(cells[1..], keys)
  }

  /** `FirstIn` finds a cell exactly when one of the cells is a key, and
      the cell it finds comes before every other key among them. */
  lemma {:induction false} FirstInMeaning(cells: seq<P.Point2D>, keys: set<P.Point2D>)
    ensures FirstIn(cells, keys).None? <==> forall k :: 0 <= k < |cells| ==> cells[k] !in keys
    ensures FirstIn(cells, keys).Some? ==>
      exists k :: 0 <= k < |cells| && cells[k] == FirstIn(cells, keys).value && (forall j :: 0 <= j < k ==> cells[j] !in keys)
  {
    if cells != [] && cells[0] !in keys {
      FirstInMeaning(cells[1..], keys);
      if FirstIn(cells, keys).Some? {
        var k :| 0 <= k < |cells[1..]| && cells[1..][k] == FirstIn(cells, keys).value
          && (forall j :: 0 <= j < k ==> cells[1..][j] !in keys);
        assert cells[k + 1] == FirstIn(cells, keys).value;
        forall j | 0 <= j < k + 1 ensures cells[j] !in keys {
          if j > 0 {
            assert cells[j] == cells[1..][j - 1];
          }
        }
      } else {
        forall k | 0 <= k < |cells| ensures cells[k] !in keys {
          if k > 0 {
            assert cells[k] == cells[1..][k - 1];
          }
        }
      }
    } else if cells != [] {
      assert cells[0] == FirstIn(cells, keys).value;
    }
  }

  /** Looking through two lists of cells in turn finds the first key of the first, if any, else of the second. */
  lemma {:induction false} FirstInConcat(a: seq<P.Point2D>, b: seq<P.Point2D>, keys: set<P.Point2D>)
    ensures FirstIn(a + b, keys) == if FirstIn(a, keys).Some? then FirstIn(a, keys) else FirstIn(b, keys)
  {
    if a != [] {
      assert (a + b)[0] == a[0];
      assert (a + b)[1..] == a[1..] + b;
      FirstInConcat(a[1..], b, keys);
    } else {
      assert a + b == b;
    }
  }

  /** One of `main`'s loops over `low_x..=high_x` on row `y`: the first of
      those cells that holds a symbol. */
  method ScanRow(lo: nat, hi: nat, y: nat, symbols: map<P.Point2D, Symbol>) returns (r: Option<P.Point2D>)
    ensures r == FirstIn(P.RowPoints(lo, hi, y), symbols.Keys)
  {
    var x := lo;
    while x <= hi
      invariant x == lo || x <= hi + 1
      invariant FirstIn(P.RowPoints(lo, hi, y), symbols.Keys) == FirstIn(P.RowPoints(x, hi, y), symbols.Keys)
      decreases hi + 1 - x
    {
      assert P.RowPoints(x, hi, y)[0] == P.Point2D(x, y);
      assert P.RowPoints(x, hi, y)[1..] == P.RowPoints(x + 1, hi, y);
      if P.Point2D(x, y) in symbols {
        return Some(P.Point2D(x, y));
      }
      x := x + 1;
    }
    r := None;
  }

  /** Looking at two cells in turn. */
  lemma FirstInPair(a: P.Point2D, b: P.Point2D, keys: set<P.Point2D>)
    ensures FirstIn([a, b], keys) == if a in keys then Some(a) else if b in keys then Some(b) else None
  {
    assert [a, b][1..] == [b];
    assert [b][1..] == [];
  }

  /** The search `main` runs for one number: the first cell of its
      neighbourhood, in `main`'s order, that holds a symbol. */
  method FindSymbol(n: Number, symbols: map<P.Point2D, Symbol>) returns (r: Option<P.Point2D>)
    ensures r == FirstIn(Neighbourhood(n), symbols.Keys)
  {
    var low, high := Low(n), High(n);
    ghost var keys := symbols.Keys;
    ghost var above := if n.y > 0 then P.RowPoints(low, high, n.y - 1) else [];
    ghost var sides := [P.Point2D(low, n.y), P.Point2D(high, n.y)];
    ghost var below := P.RowPoints(low, high, n.y + 1);
    assert Neighbourhood(n) == above + (sides + below);
    FirstInConcat(above, sides + below, keys);
    r := None;
    if n.y > 0 {
      r := ScanRow(low, high, n.y - 1, symbols);
    }
    if r.Some? {
      return;
    }
    FirstInConcat(sides, below, keys);
    FirstInPair(sides[0], sides[1], keys);
    if P.Point2D(low, n.y) in symbols {
      return Some(P.Point2D(low, n.y));
    }
    if P.Point2D(high, n.y) in symbols {
      return Some(P.Point2D(high, n.y));
    }
    r := ScanRow(low, high, n.y + 1, symbols);
  }

  /** Cell `c` touches number `n`: it lies in the box one cell wider than
      the number on every side, and not on the number itself. */
  predicate Adjacent(n: Number, c: P.Point2D) {
    0 <= c.x && 0 <= c.y && n.xStart - 1 <= c.x <= n.xStop + 1 && n.y - 1 <= c.y <= n.y + 1
    && !OnNumber(n, c)
  }

  /** Cell `c` is one of the digits of number `n`. */
  predicate OnNumber(n: Number, c: P.Point2D) {
    c.y == n.y && n.xStart <= c.x <= n.xStop
  }

  /** The cells of a row are those with its `y` and a column in range. */
  lemma InRow(x0: int, x1: int, y: int, c: P.Point2D)
    ensures c in P.RowPoints(x0, x1, y) <==> c.y == y && x0 <= c.x <= x1
  {
    var row := P.RowPoints(x0, x1, y);
    if c.y == y && x0 <= c.x <= x1 {
      P.RowPointsAt(x0, x1, y, c.x - x0);
    }
    if c in row {
      var i :| 0 <= i < |row| && row[i] == c;
      P.RowPointsAt(x0, x1, y, i);
    }
  }

  /** The neighbourhood `main` searches holds every cell touching the
      number, and nothing else but, when the number starts at column 0, its
      own first digit. */
  lemma NeighbourhoodMeaning(n: Number)
    requires n.xStart <= n.xStop
    ensures forall c :: Adjacent(n, c) ==> c in Neighbourhood(n)
    ensures forall c :: c in Neighbourhood(n) ==> Adjacent(n, c) || (OnNumber(n, c) && n.xStart == 0 && c.x == 0)
  {
    forall c ensures Adjacent(n, c) <==> c in Neighbourhood(n) && !(OnNumber(n, c) && n.xStart == 0 && c.x == 0) {
      InRow(Low(n), High(n), n.y + 1, c);
      if n.y > 0 {
        InRow(Low(n), High(n), n.y - 1, c);
      }
    }
  }

  /** With no symbol on the number's own digits, the search finds a symbol
      exactly when some symbol touches the number. */
  lemma FirstSymbolMeaning(n: Number, keys: set<P.Point2D>)
    requires n.xStart <= n.xStop
    requires forall c :: c in keys ==> !OnNumber(n, c)
    ensures FirstIn(Neighbourhood(n), keys).Some? <==> exists c :: c in keys && Adjacent(n, c)
  {
    NeighbourhoodMeaning(n);
    FirstInMeaning(Neighbourhood(n), keys);
    var cells := Neighbourhood(n);
    if c :| c in keys && Adjacent(n, c) {
      var k :| 0 <= k < |cells| && cells[k] == c;
    }
  }

  /** The symbols and the sum after `main`'s loop has attached the numbers
      `nums` in order: each goes onto the first symbol around it, if any,
      and then counts towards the sum. */
  function Attach(m: map<P.Point2D, Symbol>, nums: seq<Number>): (r: (map<P.Point2D, Symbol>, nat))
    ensures r.0.Keys == m.Keys
  {
    if nums == [] then (m, 0)
    else
      var (m', sum) := Attach(m, nums[..|nums| - 1]);
      var n := nums[|nums| - 1];
      match FirstIn(Neighbourhood(n), m'.Keys)
      case None => (m', sum)
      case Some(c) => (m'[c := m'[c].(adjacent := m'[c].adjacent + [n.value])], sum + n.value)
  }

  /** The values of those of `nums` whose first symbol is at `c`, in order. */
  function AttachedTo(nums: seq<Number>, keys: set<P.Point2D>, c: P.Point2D): seq<nat> {
    if nums == [] then []
    else
      var n := nums[|nums| - 1];
      AttachedTo(nums[..|nums| - 1], keys, c) + (if FirstIn(Neighbourhood(n), keys) == Some(c) then [n.value] else [])
  }

  /** The sum of the values of those of `nums` that have a symbol around them. */
  function PartSum(nums: seq<Number>, keys: set<P.Point2D>): nat {
    if nums == [] then 0
    else
      var n := nums[|nums| - 1];
      PartSum(nums[..|nums| - 1], keys) + (if FirstIn(Neighbourhood(n), keys).Some? then n.value else 0)
  }

  /** Attaching keeps every symbol's character and extends its list by the
      numbers whose first symbol it is; the sum is that of the part numbers. */
  lemma {:induction false} AttachMeaning(m: map<P.Point2D, Symbol>, nums: seq<Number>)
    ensures forall c :: c in m ==>
      Attach(m, nums).0[c] == Symbol(m[c].adjacent + AttachedTo(nums, m.Keys, c), m[c].sym)
    ensures Attach(m, nums).1 == PartSum(nums, m.Keys)
  {
    if nums != [] {
      AttachMeaning(m, nums[..|nums| - 1]);
    }
  }

  /** `main`'s loop over the numbers: attach each to the first symbol
      around it and add it to the sum of parts. */
  method SumParts(numbers: seq<Number>, symbols: map<P.Point2D, Symbol>)
    returns (sum: nat, symbols': map<P.Point2D, Symbol>)
    ensures (symbols', sum) == Attach(symbols, numbers)
  {
    sum, symbols' := 0, symbols;
    for i := 0 to |numbers|
      invariant (symbols', sum) == Attach(symbols, numbers[..i])
    {
      assert numbers[..i + 1][..i] == numbers[..i];
      var num := numbers[i];
      var found := FindSymbol(num, symbols');
      if found.Some? {
        var sym := symbols'[found.value];
        symbols' := symbols'[found.value := sym.(adjacent := sym.adjacent + [num.value])];
        sum := sum + num.value;
      }
    }
    assert numbers[..|numbers|] == numbers;
  }

  /** A number of the schematic is counted as a part exactly when some
      symbol touches it. */
  lemma PartsMeaning(lines: seq<string>, n: Number)
    requires n in AllNumbers(lines)
    ensures FirstIn(Neighbourhood(n), AllSymbols(lines).Keys).Some? <==>
      exists c :: SymbolAt(lines, c) && Adjacent(n, c)
  {
    AllNumbersMeaning(lines);
    AllSymbolsMeaning(lines);
    forall c | c in AllSymbols(lines).Keys ensures !OnNumber(n, c) {
      NumbersAvoidSymbols(lines, n, c);
    }
    FirstSymbolMeaning(n, AllSymbols(lines).Keys);
  }

  // ----- gear ratios -----

  /** The symbol cells of the schematic, row by row and left to right: the
      order in which the gear ratios are added up. */
  function SymbolCells(lines: seq<string>): seq<P.Point2D> {
    if lines == [] then []
    else SymbolCells(lines[..|lines| - 1]) + SymbolCellsFrom(lines[|lines| - 1], |lines| - 1, 0)
  }

  /** The symbol cells of row `y` from column `i` on, left to right. */
  function SymbolCellsFrom(line: string, y: nat, i: nat): seq<P.Point2D>
    requires i <= |line|
    decreases |line| - i
  {
    if i == |line| then []
    else (if IsSymbolChar(line[i]) then [P.Point2D(i, y)] else []) + SymbolCellsFrom(line, y, i + 1)
  }

  /** Cell `p` comes before cell `q` in row-major order. */
  predicate Before(p: P.Point2D, q: P.Point2D) {
    p.y < q.y || (p.y == q.y && p.x < q.x)
  }

  /** The symbol cells of a row from column `i` on are exactly those cells,
      left to right. */
  lemma {:induction false} SymbolCellsFromMeaning(line: string, y: nat, i: nat)
    requires i <= |line|
    ensures forall c :: c in SymbolCellsFrom(line, y, i) <==> c.y == y && i <= c.x < |line| && IsSymbolChar(line[c.x])
    ensures forall a, b :: 0 <= a < b < |SymbolCellsFrom(line, y, i)| ==>
      Before(SymbolCellsFrom(line, y, i)[a], SymbolCellsFrom(line, y, i)[b])
    decreases |line| - i
  {
    if i < |line| {
      SymbolCellsFromMeaning(line, y, i + 1);
    }
  }

  /** The symbol cells of the schematic are exactly the cells holding a
      symbol, each once, in row-major order. */
  lemma {:induction false} SymbolCellsMeaning(lines: seq<string>)
    ensures forall c :: c in SymbolCells(lines) <==> SymbolAt(lines, c)
    ensures forall a, b :: 0 <= a < b < |SymbolCells(lines)| ==> Before(SymbolCells(lines)[a], SymbolCells(lines)[b])
  {
    if lines != [] {
      var n := |lines| - 1;
      var init, last := SymbolCells(lines[..n]), SymbolCellsFrom(lines[n], n, 0);
      SymbolCellsMeaning(lines[..n]);
      SymbolCellsFromMeaning(lines[n], n, 0);
      assert forall k :: 0 <= k < n ==> lines[..n][k] == lines[k];
      forall a, b | 0 <= a < b < |init + last| ensures Before((init + last)[a], (init + last)[b]) {
        if a < |init| && b >= |init| {
          assert (init + last)[a] in init;
          assert (init + last)[b] in last;
        }
      }
    }
  }

  /** What a symbol adds to the sum of ratios: the product of its two
      numbers when it is a `*` with exactly two. */
  function Ratio(sym: Symbol): nat {
    if sym.sym == '*' && |sym.adjacent| == 2 then sym.adjacent[0] * sym.adjacent[1] else 0
  }

  /** The ratios of the symbols at `cells`, added up. */
  function RatioSum(m: map<P.Point2D, Symbol>, cells: seq<P.Point2D>): nat
    requires forall c :: c in cells ==> c in m
  {
    if cells == [] then 0 else RatioSum(m, cells[..|cells| - 1]) + Ratio(m[cells[|cells| - 1]])
  }

  /** `main`'s sum over the symbols' ratios, taken in the order of `cells`. */
  method SumRatios(m: map<P.Point2D, Symbol>, cells: seq<P.Point2D>) returns (sum: nat)
    requires forall c :: c in cells ==> c in m
    ensures sum == RatioSum(m, cells)
  {
    sum := 0;
    for i := 0 to |cells|
      invariant sum == RatioSum(m, cells[..i])
    {
      assert cells[..i + 1][..i] == cells[..i];
      sum := sum + Ratio(m[cells[i]]);
    }
    assert cells[..|cells|] == cells;
  }

  /** The ratio of the gear at `c`: the product of the two numbers whose
      first symbol is the `*` at `c`, when there are exactly two, else 0. */
  function GearRatio(lines: seq<string>, c: P.Point2D): nat {
    var nums := AttachedTo(AllNumbers(lines), AllSymbols(lines).Keys, c);
    if SymbolAt(lines, c) && lines[c.y][c.x] == '*' && |nums| == 2 then nums[0] * nums[1] else 0
  }

  /** The gear ratios of the cells `cells`, added up. */
  function GearSum(lines: seq<string>, cells: seq<P.Point2D>): nat {
    if cells == [] then 0 else GearSum(lines, cells[..|cells| - 1]) + GearRatio(lines, cells[|cells| - 1])
  }

  /** After all numbers are attached, each symbol's ratio is its gear ratio. */
  lemma {:induction false} RatioSumIsGearSum(lines: seq<string>, cells: seq<P.Point2D>)
    requires forall c :: c in cells ==> c in AllSymbols(lines)
    ensures RatioSum(Attach(AllSymbols(lines), AllNumbers(lines)).0, cells) == GearSum(lines, cells)
  {
    AllSymbolsMeaning(lines);
    AttachMeaning(AllSymbols(lines), AllNumbers(lines));
    if cells != [] {
      RatioSumIsGearSum(lines, cells[..|cells| - 1]);
    }
  }

  /** `main`: the sum of the part numbers, and the sum of the gear ratios
      over the symbols in row-major order. */
  method Solve(lines: seq<string>) returns (sumOfParts: nat, ratioSum: nat)
    ensures sumOfParts == PartSum(AllNumbers(lines), AllSymbols(lines).Keys)
    ensures ratioSum == GearSum(lines, SymbolCells(lines))
  {
    var numbers, symbols := Scan(lines);
    var attached;
    sumOfParts, attached := SumParts(numbers, symbols);
    AttachMeaning(symbols, numbers);
    SymbolCellsMeaning(lines);
    AllSymbolsMeaning(lines);
    ratioSum := SumRatios(attached, SymbolCells(lines));
    RatioSumIsGearSum(lines, SymbolCells(lines));
  }
}
