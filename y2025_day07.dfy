/** 2025 day 7: a tachyon manifold read row by row. Each column carries the
    number of timelines in which a beam passes it; `S` starts a beam, `.`
    lets it fall, and `^` splits it to the left and right neighbours. The
    answers are the number of splits that met a beam and the number of
    timelines at the bottom (src/year_2025/day07.rs). Counts are unbounded. */
module Year2025Day07 {
  import opened Wrappers

  datatype Fault = UnexpectedInput(ch: char)

  predicate Allowed(ch: char) {
    ch == '.' || ch == 'S' || ch == '^'
  }

  /** The count of column `c` in a row, zero past its end (the `resize`
      with zeros). */
  function Count(scan: seq<nat>, c: int): nat {
    if 0 <= c < |scan| then scan[c] else 0
  }

  predicate Splitter(line: string, c: int) {
    0 <= c < |line| && line[c] == '^'
  }

  /** What a splitter on the left adds to column `c`: only inside the width
      of the rows above. */
  function FromLeft(scan: seq<nat>, line: string, c: int): nat {
    if c > 0 && Splitter(line, c - 1) && c < |scan| then Count(scan, c - 1) else 0
  }

  /** What a splitter on the right adds to column `c`. */
  function FromRight(scan: seq<nat>, line: string, c: int): nat {
    if Splitter(line, c + 1) then Count(scan, c + 1) else 0
  }

  /** Column `c` once its own character is read: a spawn point is one
      timeline, a splitter shadows the column, anything else keeps the count
      from above and what the left splitter sent it. */
  function Own(scan: seq<nat>, line: string, c: int): nat {
    if 0 <= c < |line| && line[c] == 'S' then 1
    else if Splitter(line, c) then 0
    else Count(scan, c) + FromLeft(scan, line, c)
  }

  /** The count of column `c` in the next row. */
  function Beam(scan: seq<nat>, line: string, c: int): nat {
    Own(scan, line, c) + FromRight(scan, line, c)
  }

  function Max(a: nat, b: nat): nat {
    if a < b then b else a
  }

  function Width(scan: seq<nat>, line: string): nat {
    Max(|scan|, |line|)
  }

  /** The row below `scan` after reading `line`, column by column. */
  function NextRow(scan: seq<nat>, line: string): (next: seq<nat>)
    ensures |next| == Width(scan, line)
    ensures forall c :: 0 <= c < |next| ==> next[c] == Beam(scan, line, c)
  {
    seq(Width(scan, line), c => Beam(scan, line, c))
  }

  /** The splitters among the first `k` characters that a beam reaches. */
  function LineSplits(scan: seq<nat>, line: string, k: nat): nat
    requires k <= |line|
  {
    if k == 0 then 0
    else LineSplits(scan, line, k - 1) + (if Splitter(line, k - 1) && Count(scan, k - 1) > 0 then 1 else 0)
  }

  /** The row while its line is read: after `i` characters, the columns read
      so far have their own value and, but for the last one, what their
      right neighbour sent; the next column has what its left neighbour sent;
      the others still hold the row above. */
  function Partial(scan: seq<nat>, line: string, i: nat, c: nat): nat {
    (if c < i then Own(scan, line, c) else Count(scan, c) + (if c == i then FromLeft(scan, line, c) else 0))
    + (if c + 1 < i then FromRight(scan, line, c) else 0)
  }

  function Resize(s: seq<nat>, n: nat): (r: seq<nat>)
    requires |s| <= n
    ensures |r| == n && r[..|s|] == s
    ensures forall c :: |s| <= c < n ==> r[c] == 0
  {
    s + seq(n - |s|, _ => 0)
  }

  /** One character of the line read into the row. */
  lemma Step(scan: seq<nat>, line: string, i: nat, prop: seq<nat>, prop': seq<nat>)
    requires i < |line| && Allowed(line[i])
    requires |prop| == Max(|scan|, i) && |prop'| == Max(|scan|, i + 1)
    requires forall c :: 0 <= c < |prop| ==> prop[c] == Partial(scan, line, i, c)
    requires forall c :: 0 <= c < |prop'| && c != i - 1 && c != i && c != i + 1 ==> prop'[c] == prop[c]
    requires line[i] == '.' ==> prop'[i] == Partial(scan, line, i, i) && (i > 0 ==> prop'[i - 1] == prop[i - 1])
    requires line[i] == 'S' ==> prop'[i] == 1 && (i > 0 ==> prop'[i - 1] == prop[i - 1])
    requires line[i] == '^' ==>
      && prop'[i] == 0
      && (i > 0 ==> prop'[i - 1] == prop[i - 1] + Count(scan, i))
      && (i + 1 < |scan| ==> prop'[i + 1] == prop[i + 1] + Count(scan, i))
    requires line[i] != '^' && i + 1 < |prop'| ==> prop'[i + 1] == prop[i + 1]
    ensures forall c :: 0 <= c < |prop'| ==> prop'[c] == Partial(scan, line, i + 1, c)
  {
  }

  /** Once the whole line is read, the row is the next row. */
  lemma Done(scan: seq<nat>, line: string, prop: seq<nat>)
    requires |prop| == Width(scan, line)
    requires forall c :: 0 <= c < |prop| ==> prop[c] == Partial(scan, line, |line|, c)
    ensures prop == NextRow(scan, line)
  {
  }

  /** The inner loop of `main` over one line: the next row and the number of
      splits, or the first character that is not `.`, `S` or `^`. */
  method Propagate(scan: seq<nat>, line: string) returns (r: Result<(seq<nat>, nat), Fault>)
    ensures r.Ok? <==> forall c :: 0 <= c < |line| ==> Allowed(line[c])
    ensures r.Err? ==> exists c ::
      && 0 <= c < |line| && !Allowed(line[c]) && r.error == UnexpectedInput(line[c])
      && forall d :: 0 <= d < c ==> Allowed(line[d])
    ensures r.Ok? ==> r.value.0 == NextRow(scan, line) && r.value.1 == LineSplits(scan, line, |line|)
  {
    var above := scan;
    var prop := scan;
    var splits := 0;
    for i := 0 to |line|
      invariant forall d :: 0 <= d < i ==> Allowed(line[d])
      invariant |above| == |prop| == Max(|scan|, i)
      invariant forall c :: 0 <= c < |above| ==> above[c] == Count(scan, c)
      invariant forall c :: 0 <= c < |prop| ==> prop[c] == Partial(scan, line, i, c)
      invariant splits == LineSplits(scan, line, i)
    {
      var ch := line[i];
      if i >= |above| {
        above := Resize(above, i + 1);
      }
      var before := prop;
      if i >= |prop| {
        prop := Resize(prop, i + 1);
      }
      if ch == '.' {
      } else if ch == 'S' {
        prop := prop[i := 1];
      } else if ch == '^' {
        prop := prop[i := 0];
        if above[i] > 0 {
          splits := splits + 1;
          if i > 0 {
            prop := prop[i - 1 := prop[i - 1] + above[i]];
          }
          if i < |prop| - 1 {
            prop := prop[i + 1 := prop[i + 1] + above[i]];
          }
        }
      } else {
        return Err(UnexpectedInput(ch));
      }
      Step(scan, line, i, before, prop);
    }
    Done(scan, line, prop);
    return Ok((prop, splits));
  }

  /** A row of `.` carries every count straight down and widens the row
      with empty columns. */
  lemma DotsCarry(scan: seq<nat>, line: string)
    requires forall c :: 0 <= c < |line| ==> line[c] == '.'
    ensures NextRow(scan, line) == Resize(scan, Width(scan, line))
  {
    var next, wide := NextRow(scan, line), Resize(scan, Width(scan, line));
    forall c | 0 <= c < |next|
      ensures next[c] == wide[c]
    {
      if c < |scan| {
        assert wide[c] == wide[..|scan|][c];
      }
    }
  }

  /** A spawn point starts exactly one timeline unless a splitter right of it
      sends it more, and a splitter always leaves its own column dark unless
      its right neighbour splits too. */
  lemma SpawnAndShadow(scan: seq<nat>, line: string, c: nat)
    requires c < |line| && !Splitter(line, c + 1)
    ensures line[c] == 'S' ==> Beam(scan, line, c) == 1
    ensures line[c] == '^' ==> Beam(scan, line, c) == 0
  {
  }

  /** The splitters' beam counts among the first `k` columns. */
  function SplitMass(scan: seq<nat>, line: string, k: nat): nat {
    if k == 0 then 0 else SplitMass(scan, line, k - 1) + (if Splitter(line, k - 1) then Count(scan, k - 1) else 0)
  }

  /** A row with no spawn point whose splitters stand apart, inside the width
      of the rows above, with a column on each side. */
  predicate Clean(scan: seq<nat>, line: string) {
    && |line| <= |scan|
    && (forall c :: 0 <= c < |line| ==> line[c] != 'S')
    && (forall c :: 0 <= c < |line| && Splitter(line, c) ==> 0 < c && c + 1 < |scan| && !Splitter(line, c + 1))
  }

  lemma {:induction false} SplitPrefix(scan: seq<nat>, line: string, k: nat)
    requires Clean(scan, line) && k <= |scan|
    ensures
      Sum(NextRow(scan, line), k) + (if Splitter(line, k - 1) then Count(scan, k - 1) else 0) ==
      Sum(scan, k) + SplitMass(scan, line, k) + (if Splitter(line, k) then Count(scan, k) else 0)
  {
    if k > 0 {
      SplitPrefix(scan, line, k - 1);
      if Splitter(line, k - 2) {
        assert !Splitter(line, k - 1);
      }
    }
  }

  /** Timelines are conserved but for the splits: in a clean row, each
      splitter a beam reaches sends its count both ways, so the row below
      holds the row above plus one copy of every split beam. */
  lemma SplitsAddTimelines(scan: seq<nat>, line: string)
    requires Clean(scan, line)
    ensures |NextRow(scan, line)| == |scan|
    ensures Sum(NextRow(scan, line), |scan|) == Sum(scan, |scan|) + SplitMass(scan, line, |scan|)
  {
    SplitPrefix(scan, line, |scan|);
  }

  /** The rows after each of the first `n` lines, from an empty row. */
  function Rows(lines: seq<string>, n: nat): seq<nat>
    requires n <= |lines|
  {
    if n == 0 then [] else NextRow(Rows(lines, n - 1), lines[n - 1])
  }

  /** The splits met over the first `n` lines. */
  function Splits(lines: seq<string>, n: nat): nat
    requires n <= |lines|
  {
    if n == 0 then 0 else Splits(lines, n - 1) + LineSplits(Rows(lines, n - 1), lines[n - 1], |lines[n - 1]|)
  }

  function Sum(s: seq<nat>, k: nat): nat
    requires k <= |s|
  {
    if k == 0 then 0 else Sum(s, k - 1) + s[k - 1]
  }

  predicate LineAllowed(line: string) {
    forall c :: 0 <= c < |line| ==> Allowed(line[c])
  }

  /** `main`: the number of splits that met a beam, and the number of
      timelines after the last line, or the first unexpected character. */
  method Solve(lines: seq<string>) returns (r: Result<(nat, nat), Fault>)
    ensures r.Ok? <==> forall n :: 0 <= n < |lines| ==> LineAllowed(lines[n])
    ensures r.Err? ==> exists n, c ::
      && 0 <= n < |lines| && 0 <= c < |lines[n]| && r.error == UnexpectedInput(lines[n][c])
      && !Allowed(lines[n][c]) && (forall d :: 0 <= d < c ==> Allowed(lines[n][d]))
      && forall m :: 0 <= m < n ==> LineAllowed(lines[m])
    ensures r.Ok? ==> r.value == (Splits(lines, |lines|), Sum(Rows(lines, |lines|), |Rows(lines, |lines|)|))
  {
    var scan: seq<nat> := [];
    var splitCount := 0;
    for n := 0 to |lines|
      invariant forall m :: 0 <= m < n ==> LineAllowed(lines[m])
      invariant scan == Rows(lines, n) && splitCount == Splits(lines, n)
    {
      var next := Propagate(scan, lines[n]);
      if next.Err? {
        return Err(next.error);
      }
      scan := next.value.0;
      splitCount := splitCount + next.value.1;
    }
    var timelines := 0;
    for k := 0 to |scan|
      invariant timelines == Sum(scan, k)
    {
      timelines := timelines + scan[k];
    }
    return Ok((splitCount, timelines));
  }
}
