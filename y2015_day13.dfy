/** 2015 day 13: the best circular seating, tried over every ordering of the
    guests. Guests are the ids a `StringIdMap` hands out, 0 up to the count. */
module Year2015Day13 {

  const MinI64: int := -0x8000_0000_0000_0000

  /** Happiness a guest (first) gains sitting next to another (second). */
  type Chart = map<(nat, nat), int>

  function Lookup(chart: Chart, a: nat, b: nat): int {
    if (a, b) in chart then chart[(a, b)] else 0
  }

  /** `pair_happiness`: what both neighbours gain together. */
  function PairHappiness(chart: Chart, a: nat, b: nat): (h: int)
    ensures (a, b) !in chart && (b, a) !in chart ==> h == 0
  {
    Lookup(chart, a, b) + Lookup(chart, b, a)
  }

  /** A pair's happiness does not depend on who sits left. */
  lemma PairSymmetric(chart: Chart, a: nat, b: nat)
    ensures PairHappiness(chart, a, b) == PairHappiness(chart, b, a)
  {
  }

  // ----- the orderings -----

  function Insert(s: seq<nat>, j: nat, x: nat): seq<nat>
    requires j <= |s|
  {
    s[..j] + [x] + s[j..]
  }

  /** `x` inserted at positions 0 .. k-1 of `s`, in that order. */
  function InsertAll(s: seq<nat>, x: nat, k: nat): seq<seq<nat>>
    requires k <= |s| + 1
  {
    if k == 0 then [] else InsertAll(s, x, k - 1) + [Insert(s, k - 1, x)]
  }

  /** One round of the outer loop: every sequence, with `x` at every position. */
  function Expand(seqs: seq<seq<nat>>, x: nat): seq<seq<nat>> {
    if seqs == [] then []
    else
      var last := seqs[|seqs| - 1];
      Expand(seqs[..|seqs| - 1], x) + InsertAll(last, x, |last| + 1)
  }

  function Arrangements(n: nat): seq<seq<nat>> {
    if n == 0 then [[]] else Expand(Arrangements(n - 1), n - 1)
  }

  /** The guests 0 .. n-1. */
  function Range(n: nat): seq<nat> {
    if n == 0 then [] else Range(n - 1) + [n - 1]
  }

  /** A seating of the guests 0 .. n-1, each exactly once. */
  predicate IsSeating(s: seq<nat>, n: nat) {
    multiset(s) == multiset(Range(n))
  }

  function Factorial(n: nat): nat {
    if n == 0 then 1 else n * Factorial(n - 1)
  }

  /** The nested loops of `find_best_happiness` that build `sequences`. */
  method AllSequences(count: nat) returns (sequences: seq<seq<nat>>)
    ensures sequences == Arrangements(count)
  {
    sequences := [[]];
    for i := 0 to count
      invariant sequences == Arrangements(i)
    {
      var newSequences := [];
      for k := 0 to |sequences|
        invariant newSequences == Expand(sequences[..k], i)
      {
        var sequence := sequences[k];
        for j := 0 to |sequence| + 1
          invariant newSequences == Expand(sequences[..k], i) + InsertAll(sequence, i, j)
        {
          newSequences := newSequences + [Insert(sequence, j, i)];
        }
        assert sequences[..k + 1][..k] == sequences[..k];
      }
      assert sequences[..|sequences|] == sequences;
      sequences := newSequences;
    }
  }

  lemma InsertAllHas(s: seq<nat>, x: nat, k: nat, j: nat)
    requires j < k <= |s| + 1
    ensures Insert(s, j, x) in InsertAll(s, x, k)
  {
  }

  lemma InsertAllFrom(s: seq<nat>, x: nat, k: nat, p: seq<nat>)
    requires k <= |s| + 1 && p in InsertAll(s, x, k)
    ensures exists j: nat :: j < k && p == Insert(s, j, x)
  {
  }

  lemma {:induction false} ExpandHas(seqs: seq<seq<nat>>, x: nat, q: seq<nat>, j: nat)
    requires q in seqs && j <= |q|
    ensures Insert(q, j, x) in Expand(seqs, x)
    decreases |seqs|
  {
    var last := seqs[|seqs| - 1];
    if q == last {
      InsertAllHas(last, x, |last| + 1, j);
    } else {
      assert q in seqs[..|seqs| - 1] by {
        var i :| 0 <= i < |seqs| && seqs[i] == q;
        assert seqs[..|seqs| - 1][i] == q;
      }
      ExpandHas(seqs[..|seqs| - 1], x, q, j);
    }
  }

  lemma {:induction false} ExpandFrom(seqs: seq<seq<nat>>, x: nat, p: seq<nat>)
    requires p in Expand(seqs, x)
    ensures exists q, j: nat :: q in seqs && j <= |q| && p == Insert(q, j, x)
    decreases |seqs|
  {
    var front, last := seqs[..|seqs| - 1], seqs[|seqs| - 1];
    if p in Expand(front, x) {
      ExpandFrom(front, x, p);
      var q, j: nat :| q in front && j <= |q| && p == Insert(q, j, x);
      assert q in seqs by {
        var i :| 0 <= i < |front| && front[i] == q;
        assert seqs[i] == q;
      }
    } else {
      InsertAllFrom(last, x, |last| + 1, p);
    }
  }

  lemma InsertMultiset(q: seq<nat>, j: nat, x: nat)
    requires j <= |q|
    ensures multiset(Insert(q, j, x)) == multiset(q) + multiset{x}
  {
    assert q == q[..j] + q[j..];
  }

  /** Every sequence built is a seating of all `n` guests. */
  lemma {:induction false} ArrangementsAreSeatings(n: nat, p: seq<nat>)
    requires p in Arrangements(n)
    ensures IsSeating(p, n)
  {
    if n > 0 {
      ExpandFrom(Arrangements(n - 1), n - 1, p);
      var q, j: nat :| q in Arrangements(n - 1) && j <= |q| && p == Insert(q, j, n - 1);
      ArrangementsAreSeatings(n - 1, q);
      InsertMultiset(q, j, n - 1);
    }
  }

  /** `p` with its `j`-th guest taken out, and put back. */
  lemma RemoveAt(p: seq<nat>, j: nat) returns (q: seq<nat>)
    requires j < |p|
    ensures j <= |q| && p == Insert(q, j, p[j])
    ensures multiset(q) + multiset{p[j]} == multiset(p)
  {
    q := p[..j] + p[j + 1..];
    assert p == p[..j] + [p[j]] + p[j + 1..];
    assert q[..j] == p[..j] && q[j..] == p[j + 1..];
    InsertMultiset(q, j, p[j]);
  }

  lemma RangeMultiset(n: nat)
    requires n > 0
    ensures multiset(Range(n)) == multiset(Range(n - 1)) + multiset{(n - 1) as nat}
  {
  }

  lemma MultisetCancel(a: multiset<nat>, b: multiset<nat>, x: nat)
    requires a + multiset{x} == b + multiset{x}
    ensures a == b
  {
    assert forall y :: a[y] == (a + multiset{x})[y] - multiset{x}[y];
  }

  /** A seating of `n` guests is one of `n - 1` guests with the last one inserted. */
  lemma SmallerSeating(p: seq<nat>, n: nat) returns (q: seq<nat>, j: nat)
    requires n > 0 && IsSeating(p, n)
    ensures IsSeating(q, n - 1) && j <= |q| && p == Insert(q, j, n - 1)
  {
    RangeMultiset(n);
    assert n - 1 in multiset(p);
    j :| 0 <= j < |p| && p[j] == n - 1;
    q := RemoveAt(p, j);
    MultisetCancel(multiset(q), multiset(Range(n - 1)), n - 1);
  }

  /** Every seating of the `n` guests is among the sequences built. */
  lemma {:induction false} SeatingsAreArrangements(n: nat, p: seq<nat>)
    requires IsSeating(p, n)
    ensures p in Arrangements(n)
  {
    if n == 0 {
      assert |p| == |multiset(p)| == 0;
    } else {
      var q, j := SmallerSeating(p, n);
      SeatingsAreArrangements(n - 1, q);
      ExpandHas(Arrangements(n - 1), n - 1, q, j);
    }
  }

  predicate AllOfLength(seqs: seq<seq<nat>>, m: nat) {
    forall i :: 0 <= i < |seqs| ==> |seqs[i]| == m
  }

  lemma {:induction false} ExpandSize(seqs: seq<seq<nat>>, x: nat, m: nat)
    requires AllOfLength(seqs, m)
    ensures |Expand(seqs, x)| == |seqs| * (m + 1)
    decreases |seqs|
  {
    if seqs != [] {
      var front, last := seqs[..|seqs| - 1], seqs[|seqs| - 1];
      assert AllOfLength(front, m);
      ExpandSize(front, x, m);
      InsertAllSize(last, x, m + 1);
      MulStep(|front|, m + 1);
    }
  }

  lemma MulStep(k: nat, w: nat)
    ensures (k + 1) * w == k * w + w
  {
  }

  lemma InsertAllSize(s: seq<nat>, x: nat, k: nat)
    requires k <= |s| + 1
    ensures |InsertAll(s, x, k)| == k
  {
  }

  /** There are n! sequences, one per seating. */
  lemma {:induction false} ArrangementsCount(n: nat)
    ensures |Arrangements(n)| == Factorial(n)
  {
    if n > 0 {
      var prev := Arrangements(n - 1);
      ArrangementsCount(n - 1);
      ArrangementLengths(n - 1);
      ExpandSize(prev, n - 1, n - 1);
      assert Arrangements(n) == Expand(prev, n - 1);
      assert |prev| * ((n - 1) + 1) == n * Factorial(n - 1);
    }
  }

  lemma ArrangementLengths(n: nat)
    ensures AllOfLength(Arrangements(n), n)
  {
    var all := Arrangements(n);
    forall i | 0 <= i < |all|
      ensures |all[i]| == n
    {
      ArrangementsAreSeatings(n, all[i]);
      SeatingLength(all[i], n);
    }
  }

  lemma SeatingLength(s: seq<nat>, n: nat)
    requires IsSeating(s, n)
    ensures |s| == n
  {
    assert |s| == |multiset(s)| == |multiset(Range(n))|;
    RangeLength(n);
  }

  lemma {:induction false} RangeLength(n: nat)
    ensures |Range(n)| == n
  {
    if n > 0 {
      RangeLength(n - 1);
    }
  }

  // ----- the happiness of a seating -----

  /** The pairs (i, i+1 mod length) for i < k. */
  function HappinessUpTo(chart: Chart, s: seq<nat>, k: nat): int
    requires k <= |s|
  {
    if k == 0 then 0
    else HappinessUpTo(chart, s, k - 1) + PairHappiness(chart, s[k - 1], s[k % |s|])
  }

  /** The happiness of a round table: every neighbouring pair, the last
      guest sitting next to the first. */
  function Happiness(chart: Chart, s: seq<nat>): int {
    HappinessUpTo(chart, s, |s|)
  }

  /** The happiness loop of `find_best_happiness`. */
  method SeatingHappiness(chart: Chart, sequence: seq<nat>) returns (happiness: int)
    ensures happiness == Happiness(chart, sequence)
  {
    happiness := 0;
    for i := 0 to |sequence|
      invariant happiness == HappinessUpTo(chart, sequence, i)
    {
      happiness := happiness + PairHappiness(chart, sequence[i], sequence[(i + 1) % |sequence|]);
    }
  }

  /** `find_best_happiness`: the happiest seating of `count` guests, or
      `i64::MIN` when no seating reaches it. */
  method FindBestHappiness(count: nat, chart: Chart) returns (best: int)
    ensures best >= MinI64
    ensures forall s :: IsSeating(s, count) ==> Happiness(chart, s) <= best
    ensures best == MinI64 || exists s :: IsSeating(s, count) && Happiness(chart, s) == best
  {
    var sequences := AllSequences(count);
    best := MinI64;
    for k := 0 to |sequences|
      invariant best >= MinI64
      invariant forall i :: 0 <= i < k ==> Happiness(chart, sequences[i]) <= best
      invariant best == MinI64 || exists i :: 0 <= i < k && Happiness(chart, sequences[i]) == best
    {
      var happiness := SeatingHappiness(chart, sequences[k]);
      if happiness > best {
        best := happiness;
      }
    }
    forall s | IsSeating(s, count)
      ensures Happiness(chart, s) <= best
    {
      SeatingsAreArrangements(count, s);
    }
    if best != MinI64 {
      var i :| 0 <= i < |sequences| && Happiness(chart, sequences[i]) == best;
      ArrangementsAreSeatings(count, sequences[i]);
    }
  }
}
