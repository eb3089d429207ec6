/** 2015 day 10: the look-and-say sequence; each step replaces every maximal
    run of one character by its length in decimal followed by the character
    (src/year_2015/day10.rs). */
module Year2015Day10 {
  import opened Numerals

  /** The end of the run of `ch` that starts at or before `j`: the first index
      from `j` on that is past the end or holds another character. */
  function RunEnd(s: seq<char>, ch: char, j: nat): (k: nat)
    requires j <= |s|
    ensures j <= k <= |s| && (k == |s| || s[k] != ch)
    ensures forall i :: j <= i < k ==> s[i] == ch
    decreases |s| - j
  {
    if j == |s| || s[j] != ch then j else RunEnd(s, ch, j + 1)
  }

  /** What the step emits for the runs from index `j` on. */
  function SayFrom(s: seq<char>, j: nat): seq<char>
    requires j <= |s|
    decreases |s| - j
  {
    if j == |s| then []
    else
      var k := RunEnd(s, s[j], j + 1);
      Decimal(k - j) + [s[j]] + SayFrom(s, k)
  }

  /** The number of maximal runs from index `j` on. */
  function RunCount(s: seq<char>, j: nat): nat
    requires j <= |s|
    decreases |s| - j
  {
    if j == |s| then 0 else 1 + RunCount(s, RunEnd(s, s[j], j + 1))
  }

  /** Every run emits its count (at least one digit) and its character. */
  lemma {:induction false} SayLength(s: seq<char>, j: nat)
    requires j <= |s|
    ensures |SayFrom(s, j)| >= 2 * RunCount(s, j)
    ensures SayFrom(s, j) == [] <==> j == |s|
    decreases |s| - j
  {
    if j < |s| {
      SayLength(s, RunEnd(s, s[j], j + 1));
    }
  }

  /** One step, as the nested loops do it: mark the start of a run, advance
      past it, emit the count's digits and then the character. */
  method LookAndSay(sequence: seq<char>) returns (next: seq<char>)
    ensures next == SayFrom(sequence, 0)
  {
    next := [];
    var j := 0;
    while j < |sequence|
      invariant j <= |sequence|
      invariant next + SayFrom(sequence, j) == SayFrom(sequence, 0)
      decreases |sequence| - j
    {
      var ch := sequence[j];
      var mark := j;
      j := SkipRun(sequence, mark);
      SayStep(sequence, mark, next);
      next := next + Decimal(j - mark) + [ch];
    }
  }

  /** The inner loop: advances from `mark` past the run of `s[mark]`. */
  method SkipRun(s: seq<char>, mark: nat) returns (j: nat)
    requires mark < |s|
    ensures j == RunEnd(s, s[mark], mark + 1)
  {
    var ch := s[mark];
    j := mark;
    while j < |s| && s[j] == ch
      invariant mark <= j <= |s| && (j == mark || mark < j)
      invariant forall i :: mark <= i < j ==> s[i] == ch
      decreases |s| - j
    {
      j := j + 1;
    }
    RunEndFrom(s, ch, mark + 1, j);
  }

  lemma SayStep(s: seq<char>, mark: nat, next: seq<char>)
    requires mark < |s|
    ensures var j := RunEnd(s, s[mark], mark + 1);
            next + SayFrom(s, mark) == next + Decimal(j - mark) + [s[mark]] + SayFrom(s, j)
  {
    var j := RunEnd(s, s[mark], mark + 1);
    var d, t := Decimal(j - mark), SayFrom(s, j);
    assert SayFrom(s, mark) == d + [s[mark]] + t;
    assert next + (d + [s[mark]] + t) == next + d + [s[mark]] + t;
  }

  /** A run's end does not depend on where inside the run the scan starts. */
  lemma {:induction false} RunEndFrom(s: seq<char>, ch: char, j: nat, k: nat)
    requires j <= k <= |s| && (k == |s| || s[k] != ch)
    requires forall i :: j <= i < k ==> s[i] == ch
    ensures RunEnd(s, ch, j) == k
    decreases k - j
  {
    if j < k {
      RunEndFrom(s, ch, j + 1, k);
    }
  }

  /** Fifty steps, recording the length after the 40th and the 50th. */
  method Lengths(start: seq<char>) returns (fortyLen: nat, fiftyLen: nat)
    ensures fortyLen == |Steps(start, 40)| && fiftyLen == |Steps(start, 50)|
  {
    var sequence := start;
    fortyLen, fiftyLen := 0, 0;
    for i := 1 to 51
      invariant sequence == Steps(start, i - 1)
      invariant i > 40 ==> fortyLen == |Steps(start, 40)|
      invariant i > 50 ==> fiftyLen == |Steps(start, 50)|
    {
      sequence := LookAndSay(sequence);
      if i == 40 {
        fortyLen := |sequence|;
      } else if i == 50 {
        fiftyLen := |sequence|;
      }
    }
  }

  function Steps(s: seq<char>, n: nat): seq<char> {
    if n == 0 then s else SayFrom(Steps(s, n - 1), 0)
  }

  /** `ch` repeated `k` times. */
  function Repeat(ch: char, k: nat): (r: seq<char>)
    ensures |r| == k && forall i :: 0 <= i < k ==> r[i] == ch
  {
    if k == 0 then [] else [ch] + Repeat(ch, k - 1)
  }

  /** The index of the first non-digit of `t` at or after `i`. */
  function DigitsEnd(t: seq<char>, i: nat): (d: nat)
    requires i <= |t|
    ensures i <= d <= |t| && (d == |t| || !IsDigit(t[d]))
    ensures forall k :: i <= k < d ==> IsDigit(t[k])
    decreases |t| - i
  {
    if i == |t| || !IsDigit(t[i]) then i else DigitsEnd(t, i + 1)
  }

  /** Reading an emitted sequence back: a count, then the character it
      repeats. Meaningful when the characters are not themselves digits. */
  function Unsay(t: seq<char>): seq<char>
    decreases |t|
  {
    var d := DigitsEnd(t, 0);
    if d == |t| then []
    else Repeat(t[d], DecimalValue(t[..d])) + Unsay(t[d + 1..])
  }

  predicate NoDigits(s: seq<char>) {
    forall i :: 0 <= i < |s| ==> !IsDigit(s[i])
  }

  /** Over an alphabet without digits, reading the step back gives the input:
      the runs partition it and each run is reproduced exactly. */
  lemma {:induction false} UnsaySay(s: seq<char>, j: nat)
    requires j <= |s| && NoDigits(s)
    ensures Unsay(SayFrom(s, j)) == s[j..]
    decreases |s| - j
  {
    if j < |s| {
      var k := RunEnd(s, s[j], j + 1);
      UnsayStep(s, j);
      UnsaySay(s, k);
      RunGlue(s, j);
    }
  }

  /** Reading back the first run of the step from `j`. */
  lemma UnsayStep(s: seq<char>, j: nat)
    requires j < |s| && !IsDigit(s[j])
    ensures var k := RunEnd(s, s[j], j + 1);
            Unsay(SayFrom(s, j)) == Repeat(s[j], k - j) + Unsay(SayFrom(s, k))
  {
    var k := RunEnd(s, s[j], j + 1);
    var num := Decimal(k - j);
    var rest := SayFrom(s, k);
    assert SayFrom(s, j) == num + [s[j]] + rest;
    UnsayRun(num, s[j], rest);
    DecimalRoundTrip(k - j);
  }

  /** The run from `j` followed by what comes after it is the rest of `s`. */
  lemma RunGlue(s: seq<char>, j: nat)
    requires j < |s|
    ensures var k := RunEnd(s, s[j], j + 1); Repeat(s[j], k - j) + s[k..] == s[j..]
  {
    var k := RunEnd(s, s[j], j + 1);
    RepeatIsRun(s, j, k);
    assert s[j..] == s[j..k] + s[k..];
  }

  lemma RepeatIsRun(s: seq<char>, j: nat, k: nat)
    requires j < k <= |s| && forall i :: j <= i < k ==> s[i] == s[j]
    ensures Repeat(s[j], k - j) == s[j..k]
  {
    var r := Repeat(s[j], k - j);
    assert forall i :: 0 <= i < k - j ==> r[i] == s[j..k][i];
  }

  /** Reading back one count and its character. */
  lemma UnsayRun(num: seq<char>, ch: char, rest: seq<char>)
    requires AllDigits(num) && !IsDigit(ch)
    ensures Unsay(num + [ch] + rest) == Repeat(ch, DecimalValue(num)) + Unsay(rest)
  {
    var t := num + [ch] + rest;
    DigitsEndOf(num, ch, rest);
    assert t[..|num|] == num;
    assert t[|num| + 1..] == rest;
  }

  lemma DigitsEndOf(num: seq<char>, ch: char, rest: seq<char>)
    requires AllDigits(num) && !IsDigit(ch)
    ensures DigitsEnd(num + [ch] + rest, 0) == |num|
  {
    var t := num + [ch] + rest;
    DigitsEndAt(t, 0, |num|);
  }

  lemma {:induction false} DigitsEndAt(t: seq<char>, i: nat, d: nat)
    requires i <= d < |t| && !IsDigit(t[d])
    requires forall k :: i <= k < d ==> IsDigit(t[k])
    ensures DigitsEnd(t, i) == d
    decreases d - i
  {
    if i < d {
      DigitsEndAt(t, i + 1, d);
    }
  }
}
