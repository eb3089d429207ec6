/** 2016 day 6: error-correcting a repeated message by taking, column by
    column, the most common and the least common character. */
module Year2016Day06 {

  const MaxU32: nat := 0xffff_ffff

  /** How many lines hold `ch` at position `pos`. */
  function ColumnCount(lines: seq<string>, ch: char, pos: nat): nat {
    if lines == [] then 0
    else
      var line := lines[|lines| - 1];
      ColumnCount(lines[..|lines| - 1], ch, pos) + (if pos < |line| && line[pos] == ch then 1 else 0)
  }

  /** The largest position of any character, 0 when there is none. */
  function MaxPos(lines: seq<string>): nat {
    if lines == [] then 0
    else
      var line := lines[|lines| - 1];
      var before := MaxPos(lines[..|lines| - 1]);
      if |line| > before + 1 then |line| - 1 else before
  }

  lemma {:induction false} ColumnCountBound(lines: seq<string>, ch: char, pos: nat)
    ensures ColumnCount(lines, ch, pos) <= |lines|
  {
    if lines != [] {
      ColumnCountBound(lines[..|lines| - 1], ch, pos);
    }
  }

  /** A character at a position of some line counts there. */
  lemma {:induction false} ColumnCountPositive(lines: seq<string>, n: nat, pos: nat)
    requires n < |lines| && pos < |lines[n]|
    ensures ColumnCount(lines, lines[n][pos], pos) >= 1
  {
    if n < |lines| - 1 {
      ColumnCountPositive(lines[..|lines| - 1], n, pos);
    }
  }

  /** No line reaches past `MaxPos`. */
  lemma {:induction false} LinesWithin(lines: seq<string>)
    ensures forall n :: 0 <= n < |lines| ==> |lines[n]| <= MaxPos(lines) + 1
  {
    if lines != [] {
      var init := lines[..|lines| - 1];
      LinesWithin(init);
      assert forall n :: 0 <= n < |init| ==> init[n] == lines[n];
    }
  }

  /** Unless all lines are empty, some line reaches `MaxPos`. */
  lemma {:induction false} LongestLine(lines: seq<string>) returns (n: nat)
    requires exists k :: 0 <= k < |lines| && lines[k] != []
    ensures n < |lines| && |lines[n]| == MaxPos(lines) + 1
  {
    var init := lines[..|lines| - 1];
    var last := lines[|lines| - 1];
    if exists k :: 0 <= k < |init| && init[k] != [] {
      n := LongestLine(init);
      if |last| > MaxPos(init) + 1 {
        n := |lines| - 1;
      }
    } else {
      assert forall j :: 0 <= j < |init| ==> init[j] == lines[j];
      n := |lines| - 1;
      LinesWithin(init);
      assert forall k :: 0 <= k < |init| ==> init[k] == [];
      assert MaxPos(init) == 0 by {
        EmptyLines(init);
      }
    }
  }

  lemma {:induction false} EmptyLines(lines: seq<string>)
    requires forall k :: 0 <= k < |lines| ==> lines[k] == []
    ensures MaxPos(lines) == 0
  {
    if lines != [] {
      EmptyLines(lines[..|lines| - 1]);
    }
  }

  // ----- counting -----

  /** The counting loops: `char_counts` per (character, position), and the
      largest position seen. */
  method CountColumns(lines: seq<string>) returns (counts: map<(char, nat), nat>, maxPos: nat)
    ensures forall key :: key in counts <==> ColumnCount(lines, key.0, key.1) > 0
    ensures forall key :: key in counts ==> counts[key] == ColumnCount(lines, key.0, key.1)
    ensures maxPos == MaxPos(lines)
  {
    counts, maxPos := map[], 0;
    for n := 0 to |lines|
      invariant forall key :: key in counts <==> ColumnCount(lines[..n], key.0, key.1) > 0
      invariant forall key :: key in counts ==> counts[key] == ColumnCount(lines[..n], key.0, key.1)
      invariant maxPos == MaxPos(lines[..n])
    {
      assert lines[..n + 1][..n] == lines[..n];
      var line := lines[n];
      for i := 0 to |line|
        invariant forall key :: key in counts <==> Counted(lines[..n], line, i, key) > 0
        invariant forall key :: key in counts ==> counts[key] == Counted(lines[..n], line, i, key)
        invariant maxPos == if i > 0 && i > MaxPos(lines[..n]) + 1 then i - 1 else MaxPos(lines[..n])
      {
        var ch := line[i];
        counts := counts[(ch, i) := if (ch, i) in counts then counts[(ch, i)] + 1 else 1];
        if i > maxPos {
          maxPos := i;
        }
      }
      assert forall key :: Counted(lines[..n], line, |line|, key) == ColumnCount(lines[..n + 1], key.0, key.1);
    }
    assert lines[..|lines|] == lines;
  }

  /** The counts part-way through a line: the earlier lines, and the line's
      first `i` characters. */
  function Counted(before: seq<string>, line: string, i: nat, key: (char, nat)): nat {
    ColumnCount(before, key.0, key.1) + (if key.1 < i && key.1 < |line| && line[key.1] == key.0 then 1 else 0)
  }

  // ----- selecting -----

  /** `most` holds a character of largest count at `pos` among `keys`, or the
      initial ('a', 0) when no key has that position. */
  ghost predicate MostAt(counts: map<(char, nat), nat>, keys: set<(char, nat)>, pos: nat, most: (char, nat))
    requires keys <= counts.Keys
  {
    if forall k :: k in keys ==> k.1 != pos then most == ('a', 0)
    else
      (most.0, pos) in keys && counts[(most.0, pos)] == most.1
      && forall k :: k in keys && k.1 == pos ==> counts[k] <= most.1
  }

  /** `least` likewise, with the smallest count and ('a', `u32::MAX`) at first. */
  ghost predicate LeastAt(counts: map<(char, nat), nat>, keys: set<(char, nat)>, pos: nat, least: (char, nat))
    requires keys <= counts.Keys
  {
    if forall k :: k in keys ==> k.1 != pos then least == ('a', MaxU32)
    else
      (least.0, pos) in keys && counts[(least.0, pos)] == least.1
      && forall k :: k in keys && k.1 == pos ==> counts[k] >= least.1
  }

  lemma MostStep(counts: map<(char, nat), nat>, done: set<(char, nat)>, key: (char, nat), prev: (char, nat), next: (char, nat))
    requires done <= counts.Keys && key in counts && key !in done && 1 <= counts[key]
    requires MostAt(counts, done, key.1, prev)
    requires next == if counts[key] > prev.1 then (key.0, counts[key]) else prev
    ensures MostAt(counts, done + {key}, key.1, next)
  {
  }

  lemma LeastStep(counts: map<(char, nat), nat>, done: set<(char, nat)>, key: (char, nat), prev: (char, nat), next: (char, nat))
    requires done <= counts.Keys && key in counts && key !in done && counts[key] < MaxU32
    requires LeastAt(counts, done, key.1, prev)
    requires next == if counts[key] < prev.1 then (key.0, counts[key]) else prev
    ensures LeastAt(counts, done + {key}, key.1, next)
  {
  }

  /** An entry at another position changes neither selection. */
  lemma OtherPosition(counts: map<(char, nat), nat>, done: set<(char, nat)>, key: (char, nat), p: nat, most: (char, nat), least: (char, nat))
    requires done <= counts.Keys && key in counts && p != key.1
    requires MostAt(counts, done, p, most) && LeastAt(counts, done, p, least)
    ensures MostAt(counts, done + {key}, p, most) && LeastAt(counts, done + {key}, p, least)
  {
    assert forall k :: k in done + {key} && k.1 == p ==> k in done;
  }

  /** The loop over `char_counts`, visiting its entries in no set order and
      keeping, per position, the first strictly larger and the first strictly
      smaller count it meets. */
  method SelectColumns(counts: map<(char, nat), nat>, maxPos: nat)
    returns (most: seq<(char, nat)>, least: seq<(char, nat)>)
    requires forall key :: key in counts ==> key.1 <= maxPos && 1 <= counts[key] < MaxU32
    ensures |most| == |least| == maxPos + 1
    ensures forall pos :: 0 <= pos <= maxPos ==> MostAt(counts, counts.Keys, pos, most[pos])
    ensures forall pos :: 0 <= pos <= maxPos ==> LeastAt(counts, counts.Keys, pos, least[pos])
  {
    var mostCommon := new (char, nat)[maxPos + 1](_ => ('a', 0));
    var leastCommon := new (char, nat)[maxPos + 1](_ => ('a', MaxU32));
    var remaining := counts.Keys;
    ghost var done: set<(char, nat)> := {};
    while remaining != {}
      invariant remaining + done == counts.Keys && remaining !! done
      invariant forall pos :: 0 <= pos <= maxPos ==> MostAt(counts, done, pos, mostCommon[pos])
      invariant forall pos :: 0 <= pos <= maxPos ==> LeastAt(counts, done, pos, leastCommon[pos])
      decreases remaining
    {
      var key :| key in remaining;
      var (ch, pos) := key;
      var count := counts[key];
      ghost var before, beforeLeast := mostCommon[..], leastCommon[..];
      var (_, prevCount) := mostCommon[pos];
      if count > prevCount {
        mostCommon[pos] := (ch, count);
      }
      var (_, prevLeast) := leastCommon[pos];
      if count < prevLeast {
        leastCommon[pos] := (ch, count);
      }
      MostStep(counts, done, key, before[pos], mostCommon[pos]);
      LeastStep(counts, done, key, beforeLeast[pos], leastCommon[pos]);
      forall p | 0 <= p <= maxPos && p != pos
        ensures MostAt(counts, done + {key}, p, mostCommon[p]) && LeastAt(counts, done + {key}, p, leastCommon[p])
      {
        OtherPosition(counts, done, key, p, before[p], beforeLeast[p]);
      }
      remaining, done := remaining - {key}, done + {key};
    }
    most, least := mostCommon[..], leastCommon[..];
  }

  // ----- `main` -----

  /** `ch` is a most common character at `pos`, or 'a' if none occurs there. */
  ghost predicate IsMostCommon(lines: seq<string>, pos: nat, ch: char) {
    if forall c :: ColumnCount(lines, c, pos) == 0 then ch == 'a'
    else
      ColumnCount(lines, ch, pos) > 0
      && forall c :: ColumnCount(lines, c, pos) <= ColumnCount(lines, ch, pos)
  }

  /** `ch` is a least common character among those occurring at `pos`. */
  ghost predicate IsLeastCommon(lines: seq<string>, pos: nat, ch: char) {
    if forall c :: ColumnCount(lines, c, pos) == 0 then ch == 'a'
    else
      ColumnCount(lines, ch, pos) > 0
      && forall c :: ColumnCount(lines, c, pos) > 0 ==> ColumnCount(lines, ch, pos) <= ColumnCount(lines, c, pos)
  }

  /** The selections over the counts map mean the same over the lines. */
  lemma SelectionsMean(lines: seq<string>, counts: map<(char, nat), nat>, pos: nat, most: (char, nat), least: (char, nat))
    requires forall key :: key in counts <==> ColumnCount(lines, key.0, key.1) > 0
    requires forall key :: key in counts ==> counts[key] == ColumnCount(lines, key.0, key.1)
    requires MostAt(counts, counts.Keys, pos, most) && LeastAt(counts, counts.Keys, pos, least)
    ensures IsMostCommon(lines, pos, most.0) && IsLeastCommon(lines, pos, least.0)
  {
    if forall c :: ColumnCount(lines, c, pos) == 0 {
      assert forall k :: k in counts.Keys ==> k.1 != pos;
    } else {
      var c :| ColumnCount(lines, c, pos) != 0;
      assert (c, pos) in counts.Keys;
      forall c | ColumnCount(lines, c, pos) > 0
        ensures ColumnCount(lines, c, pos) <= ColumnCount(lines, most.0, pos)
        ensures ColumnCount(lines, least.0, pos) <= ColumnCount(lines, c, pos)
      {
        assert (c, pos) in counts.Keys;
      }
    }
  }

  /** The corrected messages: per position, a most common character and a
      least common one; 'a' fills a position no line reaches. */
  method ErrorCorrect(lines: seq<string>) returns (most: string, least: string)
    requires |lines| < MaxU32
    ensures |most| == |least| == MaxPos(lines) + 1
    ensures forall pos :: 0 <= pos < |most| ==> IsMostCommon(lines, pos, most[pos])
    ensures forall pos :: 0 <= pos < |least| ==> IsLeastCommon(lines, pos, least[pos])
  {
    var counts, maxPos := CountColumns(lines);
    forall key | key in counts
      ensures key.1 <= maxPos && 1 <= counts[key] < MaxU32
    {
      ColumnCountBound(lines, key.0, key.1);
      ColumnsWithin(lines, key.0, key.1);
    }
    var mostCommon, leastCommon := SelectColumns(counts, maxPos);
    most := seq(|mostCommon|, k requires 0 <= k < |mostCommon| => mostCommon[k].0);
    least := seq(|leastCommon|, k requires 0 <= k < |leastCommon| => leastCommon[k].0);
    forall pos | 0 <= pos < |most|
      ensures IsMostCommon(lines, pos, most[pos]) && IsLeastCommon(lines, pos, least[pos])
    {
      SelectionsMean(lines, counts, pos, mostCommon[pos], leastCommon[pos]);
    }
  }

  /** A counted position is at most `MaxPos`. */
  lemma ColumnsWithin(lines: seq<string>, ch: char, pos: nat)
    requires ColumnCount(lines, ch, pos) > 0
    ensures pos <= MaxPos(lines)
  {
    var n := SomeLineAt(lines, ch, pos);
    LinesWithin(lines);
  }

  lemma {:induction false} SomeLineAt(lines: seq<string>, ch: char, pos: nat) returns (n: nat)
    requires ColumnCount(lines, ch, pos) > 0
    ensures n < |lines| && pos < |lines[n]| && lines[n][pos] == ch
  {
    var last := lines[|lines| - 1];
    if pos < |last| && last[pos] == ch {
      n := |lines| - 1;
    } else {
      n := SomeLineAt(lines[..|lines| - 1], ch, pos);
    }
  }

  /** Unless every line is empty, every position of the output holds a
      character that really occurs there. */
  lemma EveryColumnReal(lines: seq<string>, pos: nat)
    requires pos <= MaxPos(lines) && exists n :: 0 <= n < |lines| && lines[n] != []
    ensures exists ch :: ColumnCount(lines, ch, pos) > 0
  {
    var n := LongestLine(lines);
    ColumnCountPositive(lines, n, pos);
  }
}
