/** 2025 day 5: a list of fresh id ranges, then a blank line, then the
    available ingredient ids. The ranges are kept sorted and merged as they
    arrive; the answers are the number of available ingredients that are
    fresh and the number of fresh ids (src/year_2025/day05.rs). Each line
    arrives as its length being zero or as the parses the source makes of
    it: the captures of `([0-9]+)-([0-9]+)` and the whole line as a `u64`. */
module Year2025Day05 {
  import opened Wrappers

  /** An inclusive range of ingredient ids. */
  datatype Range = Range(low: nat, high: nat)

  predicate In(v: Range, x: int) {
    v.low <= x <= v.high
  }

  /** Some range of `r` holds `x`. */
  predicate Covers(r: seq<Range>, x: int) {
    exists k :: 0 <= k < |r| && In(r[k], x)
  }

  /** Sorted by low end. */
  predicate SortedLow(r: seq<Range>) {
    forall a, b :: 0 <= a < b < |r| ==> r[a].low <= r[b].low
  }

  /** Every range non-empty, and each wholly below the ranges after it. */
  predicate Valid(r: seq<Range>) {
    (forall k :: 0 <= k < |r| ==> r[k].low <= r[k].high) &&
    (forall a, b :: 0 <= a < b < |r| ==> r[a].high < r[b].low)
  }

  lemma ValidSorted(r: seq<Range>)
    requires Valid(r)
    ensures SortedLow(r)
  {
    forall a, b | 0 <= a < b < |r|
      ensures r[a].low <= r[b].low
    {
      assert r[a].low <= r[a].high < r[b].low;
    }
  }

  lemma CoversConcat(a: seq<Range>, b: seq<Range>, x: int)
    ensures Covers(a + b, x) <==> Covers(a, x) || Covers(b, x)
  {
    var ab := a + b;
    if Covers(ab, x) {
      var k :| 0 <= k < |ab| && In(ab[k], x);
      if k < |a| {
        assert In(a[k], x);
      } else {
        assert In(b[k - |a|], x);
      }
    }
    if Covers(a, x) {
      var k :| 0 <= k < |a| && In(a[k], x);
      assert ab[k] == a[k];
    }
    if Covers(b, x) {
      var k :| 0 <= k < |b| && In(b[k], x);
      assert ab[|a| + k] == b[k];
    }
  }

  lemma CoversOne(v: Range, x: int)
    ensures Covers([v], x) <==> In(v, x)
  {
    if In(v, x) {
      assert In([v][0], x);
    }
  }

  /** `is_fresh`: walks the ranges until one starts above the id. */
  method IsFresh(r: seq<Range>, x: nat) returns (isFresh: bool)
    ensures isFresh ==> Covers(r, x)
    ensures SortedLow(r) ==> (isFresh <==> Covers(r, x))
  {
    for k := 0 to |r|
      invariant forall m :: 0 <= m < k ==> !In(r[m], x)
    {
      if x < r[k].low {
        break;
      } else if x <= r[k].high {
        return true;
      }
    }
    return false;
  }

  /** Valid, except that the high end of range `i` may reach over the
      ranges after it. */
  predicate MergeReady(r: seq<Range>, i: nat) {
    i < |r| && r[i].low <= r[i].high &&
    (forall k :: 0 <= k < |r| && k != i ==> r[k].low <= r[k].high) &&
    (forall a, b :: 0 <= a < b < |r| && a != i ==> r[a].high < r[b].low) &&
    (forall b :: i < b < |r| ==> r[i].low < r[b].low)
  }

  /** Range `i` with high end `h`, the ranges strictly between `i` and `m`
      dropped. */
  function Splice(r: seq<Range>, i: nat, h: nat, m: nat): (s: seq<Range>)
    requires i < m <= |r|
    ensures |s| == |r| - (m - i - 1) && s[i] == Range(r[i].low, h)
  {
    r[..i] + [Range(r[i].low, h)] + r[m..]
  }

  /** The merge stopped: every dropped range lies below the high end of
      range `i`, and the next one, if any, starts above it. */
  predicate Stopped(r: seq<Range>, i: nat, h: nat, m: nat)
    requires i < m <= |r|
  {
    h == r[i].high &&
    (forall k :: i < k < m ==> r[k].low < r[i].high && r[k].high < r[i].high) &&
    (m == |r| || r[i].high < r[m].low)
  }

  /** The merge took over the high end of range `m - 1`, which overlaps or
      touches range `i`; the ranges before it were dropped. */
  predicate Extended(r: seq<Range>, i: nat, h: nat, m: nat)
    requires i < m <= |r|
  {
    i < m - 1 && h == r[m - 1].high &&
    (forall k :: i < k < m - 1 ==> r[k].low < r[i].high && r[k].high < r[i].high) &&
    (r[m - 1].low == r[i].high || (r[m - 1].low < r[i].high && r[i].high <= r[m - 1].high))
  }

  /** `merge_adjacent`: drops the ranges after `i` that its high end covers,
      then takes over the high end of a range it overlaps, and stops at the
      first range above it. */
  method MergeAdjacent(r: seq<Range>, i: nat) returns (ranges: seq<Range>, ghost m: nat, ghost h: nat)
    requires i < |r|
    ensures i < m <= |r| && ranges == Splice(r, i, h, m)
    ensures Stopped(r, i, h, m) || Extended(r, i, h, m)
  {
    ranges := r;
    var high := r[i].high;
    var j := i + 1;
    m, h := i + 1, high;
    while j < |ranges|
      invariant i < m <= |r| && j == i + 1 && h == high == r[i].high
      invariant ranges == r[..i + 1] + r[m..]
      invariant forall k :: i < k < m ==> r[k].low < high && r[k].high < high
      decreases |ranges| - j
    {
      assert ranges[j] == r[m] && ranges[i] == r[i];
      if high < ranges[j].low {
        break;
      } else if high == ranges[j].low || high <= ranges[j].high {
        ranges := ranges[i := Range(ranges[i].low, ranges[j].high)];
        ranges := ranges[..j] + ranges[j + 1..];
        SpliceExtend(r, i, m);
        assert ranges == Splice(r, i, r[m].high, m + 1);
        m, h := m + 1, r[m].high;
        assert Extended(r, i, h, m);
        break;
      } else {
        ranges := ranges[..j] + ranges[j + 1..];
        SpliceDrop(r, i, m);
        m := m + 1;
      }
    }
    if h == r[i].high {
      SpliceSame(r, i, m);
    }
  }

  lemma SpliceSame(r: seq<Range>, i: nat, m: nat)
    requires i < m <= |r|
    ensures Splice(r, i, r[i].high, m) == r[..i + 1] + r[m..]
  {
    assert r[..i + 1] == r[..i] + [r[i]];
  }

  lemma SpliceDrop(r: seq<Range>, i: nat, m: nat)
    requires i < m < |r|
    ensures var s := r[..i + 1] + r[m..]; s[..i + 1] + s[i + 2..] == r[..i + 1] + r[m + 1..]
  {
    var s := r[..i + 1] + r[m..];
    assert s[i + 2..] == r[m + 1..];
  }

  lemma SpliceExtend(r: seq<Range>, i: nat, m: nat)
    requires i < m < |r|
    ensures var s := (r[..i + 1] + r[m..])[i := Range(r[i].low, r[m].high)];
            s[..i + 1] + s[i + 2..] == Splice(r, i, r[m].high, m + 1)
  {
    var s := (r[..i + 1] + r[m..])[i := Range(r[i].low, r[m].high)];
    assert s[..i + 1] == r[..i] + [Range(r[i].low, r[m].high)];
    assert s[i + 2..] == r[m + 1..];
  }

  /** The ranges the merge leaves, read through the original indices. */
  lemma SpliceAt(r: seq<Range>, i: nat, h: nat, m: nat)
    requires i < m <= |r|
    ensures forall k :: 0 <= k < i ==> Splice(r, i, h, m)[k] == r[k]
    ensures Splice(r, i, h, m)[i] == Range(r[i].low, h)
    ensures forall k :: m <= k < |r| ==> Splice(r, i, h, m)[k - m + i + 1] == r[k]
    ensures forall k :: i < k < |Splice(r, i, h, m)| ==> Splice(r, i, h, m)[k] == r[k - i - 1 + m]
  {
    var s := Splice(r, i, h, m);
    forall k | i < k < |s|
      ensures s[k] == r[k - i - 1 + m]
    {
      assert s[(k - i - 1 + m) - m + i + 1] == r[k - i - 1 + m];
    }
  }

  /** The merged range ends at or after its old high end, and below every
      range kept after it. */
  lemma MergeHigh(r: seq<Range>, i: nat, h: nat, m: nat)
    requires MergeReady(r, i) && i < m <= |r|
    requires Stopped(r, i, h, m) || Extended(r, i, h, m)
    ensures h >= r[i].high
    ensures forall c :: m <= c < |r| ==> h < r[c].low
  {
    if Extended(r, i, h, m) {
      assert r[m - 1].low <= r[m - 1].high;
      forall c | m <= c < |r|
        ensures h < r[c].low
      {
        assert r[m - 1].high < r[c].low;
      }
    } else {
      forall c | m <= c < |r|
        ensures h < r[c].low
      {
        if c > m {
          assert r[m].low <= r[m].high < r[c].low;
        }
      }
    }
  }

  /** What `merge_adjacent` leaves is valid. */
  lemma MergeValid(r: seq<Range>, i: nat, h: nat, m: nat)
    requires MergeReady(r, i) && i < m <= |r|
    requires Stopped(r, i, h, m) || Extended(r, i, h, m)
    ensures Valid(Splice(r, i, h, m)) && h >= r[i].high
  {
    var s := Splice(r, i, h, m);
    SpliceAt(r, i, h, m);
    MergeHigh(r, i, h, m);
    forall a, b | 0 <= a < b < |s|
      ensures s[a].high < s[b].low
    {
      if a > i {
        assert s[a] == r[a - i - 1 + m] && s[b] == r[b - i - 1 + m];
      } else if b > i {
        assert s[b] == r[b - i - 1 + m];
      }
    }
  }

  lemma MergeCoversFrom(r: seq<Range>, i: nat, h: nat, m: nat, x: int)
    requires MergeReady(r, i) && i < m <= |r|
    requires Stopped(r, i, h, m) || Extended(r, i, h, m)
    requires Covers(Splice(r, i, h, m), x)
    ensures Covers(r, x)
  {
    var s := Splice(r, i, h, m);
    SpliceAt(r, i, h, m);
    var k :| 0 <= k < |s| && In(s[k], x);
    if k < i {
      assert In(r[k], x);
    } else if k == i {
      if x <= r[i].high {
        assert In(r[i], x);
      } else {
        assert In(r[m - 1], x);
      }
    } else {
      assert In(r[k - i - 1 + m], x);
    }
  }

  /** The ranges the merge drops or takes over lie within the merged range. */
  lemma MergeWithin(r: seq<Range>, i: nat, h: nat, m: nat, k: nat)
    requires MergeReady(r, i) && i <= k < m <= |r|
    requires Stopped(r, i, h, m) || Extended(r, i, h, m)
    ensures r[i].low <= r[k].low && r[k].high <= h
  {
    if Extended(r, i, h, m) {
      assert r[m - 1].low <= r[m - 1].high;
    }
  }

  lemma MergeCoversTo(r: seq<Range>, i: nat, h: nat, m: nat, x: int)
    requires MergeReady(r, i) && i < m <= |r|
    requires Stopped(r, i, h, m) || Extended(r, i, h, m)
    requires Covers(r, x)
    ensures Covers(Splice(r, i, h, m), x)
  {
    var s := Splice(r, i, h, m);
    SpliceAt(r, i, h, m);
    var k :| 0 <= k < |r| && In(r[k], x);
    if k < i {
      assert In(s[k], x);
    } else if k < m {
      MergeWithin(r, i, h, m, k);
      assert In(s[i], x);
    } else {
      assert In(s[k - m + i + 1], x);
    }
  }

  /** What `merge_adjacent` leaves is valid and holds the same ids. */
  lemma MergeKeeps(r: seq<Range>, i: nat, h: nat, m: nat)
    requires MergeReady(r, i) && i < m <= |r|
    requires Stopped(r, i, h, m) || Extended(r, i, h, m)
    ensures Valid(Splice(r, i, h, m)) && h >= r[i].high
    ensures forall x :: Covers(Splice(r, i, h, m), x) <==> Covers(r, x)
  {
    MergeValid(r, i, h, m);
    forall x
      ensures Covers(Splice(r, i, h, m), x) <==> Covers(r, x)
    {
      if Covers(Splice(r, i, h, m), x) {
        MergeCoversFrom(r, i, h, m, x);
      }
      if Covers(r, x) {
        MergeCoversTo(r, i, h, m, x);
      }
    }
  }

  /** The ranges `s` hold the ids of `r` and the ids from `low` to `high`,
      and no others. */
  ghost predicate Holds(s: seq<Range>, r: seq<Range>, low: int, high: int) {
    forall x :: Covers(s, x) <==> Covers(r, x) || low <= x <= high
  }

  /** Replacing range `i` by a range that holds it and the ids from `low` to
      `high`, and nothing more, adds exactly those ids. */
  lemma Widen(r: seq<Range>, i: nat, v: Range, low: int, high: int)
    requires i < |r|
    requires forall x :: In(v, x) <==> In(r[i], x) || low <= x <= high
    ensures Holds(r[i := v], r, low, high)
  {
    var s := r[i := v];
    forall x
      ensures Covers(s, x) <==> Covers(r, x) || low <= x <= high
    {
      if Covers(s, x) {
        var k :| 0 <= k < |s| && In(s[k], x);
        if k != i {
          assert In(r[k], x);
        }
      }
      if Covers(r, x) {
        var k :| 0 <= k < |r| && In(r[k], x);
        assert In(s[k], x);
      }
      if low <= x <= high {
        assert In(s[i], x);
      }
    }
  }

  lemma InsertBeforeValid(r: seq<Range>, i: nat, low: nat, high: nat)
    requires Valid(r) && low <= high && i <= |r|
    requires forall k :: 0 <= k < i ==> r[k].high < low
    requires i == |r| || high < r[i].low
    ensures Valid(r[..i] + [Range(low, high)] + r[i..])
  {
    var s := r[..i] + [Range(low, high)] + r[i..];
    assert forall k :: 0 <= k < i ==> s[k] == r[k];
    assert s[i] == Range(low, high);
    assert forall k :: i < k < |s| ==> s[k] == r[k - 1];
    forall k | i < k < |s|
      ensures high < s[k].low
    {
      if k > i + 1 {
        assert r[i].low <= r[i].high < r[k - 1].low;
      }
    }
  }

  /** Less than: the new range goes in before range `i`, above the ranges
      before it. */
  lemma InsertBefore(r: seq<Range>, i: nat, low: nat, high: nat)
    requires Valid(r) && low <= high && i <= |r|
    requires forall k :: 0 <= k < i ==> r[k].high < low
    requires i == |r| || high < r[i].low
    ensures Valid(r[..i] + [Range(low, high)] + r[i..])
    ensures Holds(r[..i] + [Range(low, high)] + r[i..], r, low, high)
  {
    InsertBeforeValid(r, i, low, high);
    assert r[..i] + r[i..] == r;
    forall x
      ensures Covers(r[..i] + [Range(low, high)] + r[i..], x) <==> Covers(r, x) || low <= x <= high
    {
      CoversConcat(r[..i] + [Range(low, high)], r[i..], x);
      CoversConcat(r[..i], [Range(low, high)], x);
      CoversOne(Range(low, high), x);
      CoversConcat(r[..i], r[i..], x);
    }
  }

  /** Overlapping low: range `i` takes the new low end. */
  lemma LowerArm(r: seq<Range>, i: nat, low: nat, high: nat)
    requires Valid(r) && i < |r| && low < r[i].low <= high <= r[i].high
    requires forall k :: 0 <= k < i ==> r[k].high < low
    ensures Valid(r[i := Range(low, r[i].high)])
    ensures Holds(r[i := Range(low, r[i].high)], r, low, high)
  {
    Widen(r, i, Range(low, r[i].high), low, high);
  }

  /** Contained: range `i` already holds the new range. */
  lemma ContainedArm(r: seq<Range>, i: nat, low: nat, high: nat)
    requires i < |r| && r[i].low <= low && high <= r[i].high
    ensures Holds(r, r, low, high)
  {
    forall x | low <= x <= high
      ensures Covers(r, x)
    {
      assert In(r[i], x);
    }
  }

  /** A range `w` at index `i` that starts at or below range `i` and above
      the ranges before it leaves the ranges ready for `merge_adjacent`. */
  lemma ReadyAfter(r: seq<Range>, i: nat, w: Range)
    requires Valid(r) && i < |r| && w.low <= w.high && w.low <= r[i].low
    requires forall k :: 0 <= k < i ==> r[k].high < w.low
    ensures MergeReady(r[i := w], i)
  {
    forall b | i < b < |r|
      ensures w.low < r[b].low
    {
      assert r[i].low <= r[i].high < r[b].low;
    }
  }

  /** Containing or overlapping high: range `i` becomes `w`, which holds it
      and the new range, and `merge_adjacent` follows. */
  lemma MergeArm(r: seq<Range>, i: nat, w: Range, low: nat, high: nat, h: nat, m: nat)
    requires Valid(r) && i < |r| && w.low <= w.high && w.low <= r[i].low
    requires forall k :: 0 <= k < i ==> r[k].high < w.low
    requires forall x :: In(w, x) <==> In(r[i], x) || low <= x <= high
    requires i < m <= |r|
    requires Stopped(r[i := w], i, h, m) || Extended(r[i := w], i, h, m)
    ensures Valid(Splice(r[i := w], i, h, m)) && h >= w.high
    ensures Holds(Splice(r[i := w], i, h, m), r, low, high)
  {
    ReadyAfter(r, i, w);
    Widen(r, i, w, low, high);
    MergeKeeps(r[i := w], i, h, m);
    var s := Splice(r[i := w], i, h, m);
    forall x
      ensures Covers(s, x) <==> Covers(r, x) || low <= x <= high
    {
      assert Covers(s, x) <==> Covers(r[i := w], x);
    }
  }

  /** The insertion loop of `main` for a new range from `low` to `high`:
      it walks past the ranges below it, then inserts it, widens the range
      it overlaps, or ignores it when contained, merging what follows. */
  method Insert(r: seq<Range>, low: nat, high: nat) returns (ranges: seq<Range>)
    ensures Valid(r) && low <= high ==> Valid(ranges) && Holds(ranges, r, low, high)
  {
    ghost var ok := Valid(r) && low <= high;
    ranges := r;
    var i := 0;
    ghost var extended := false;
    while i < |ranges|
      invariant i <= |ranges|
      invariant !extended ==> ranges == r
      invariant ok && !extended ==> forall k :: 0 <= k < i ==> r[k].high < low
      invariant ok && extended ==> i < |ranges| && ranges[i].low <= low && high <= ranges[i].high
      invariant ok && extended ==> Valid(ranges) && Holds(ranges, r, low, high)
      decreases |ranges| - i, if i < |ranges| && high <= ranges[i].high then 0 else 1
    {
      var v := ranges[i];
      if low < v.low && high < v.low {
        // less than
        if ok {
          InsertBefore(r, i, low, high);
        }
        ranges := ranges[..i] + [Range(low, high)] + ranges[i..];
        break;
      } else if low > v.high && high > v.high {
        // greater than
        i := i + 1;
      } else if low < v.low && high <= v.high {
        // overlapping low
        if ok {
          LowerArm(r, i, low, high);
        }
        ranges := ranges[i := Range(low, v.high)];
        break;
      } else if low < v.low {
        // containing
        var w := Range(low, high);
        ranges := ranges[i := w];
        ghost var m, h;
        ranges, m, h := MergeAdjacent(ranges, i);
        if ok {
          MergeArm(r, i, w, low, high, h, m);
        }
        break;
      } else if high <= v.high {
        // contained
        if ok && !extended {
          ContainedArm(r, i, low, high);
        }
        break;
      } else {
        // overlapping high: widened and merged; the next pass finds the new
        // range contained
        var w := Range(v.low, high);
        ranges := ranges[i := w];
        ghost var m, h;
        ranges, m, h := MergeAdjacent(ranges, i);
        if ok && !extended {
          MergeArm(r, i, w, low, high, h, m);
        }
        extended := true;
      }
    }
    if i >= |ranges| {
      if ok {
        InsertBefore(r, i, low, high);
        assert r[..i] + [Range(low, high)] + r[i..] == ranges + [Range(low, high)];
      }
      ranges := ranges + [Range(low, high)];
    }
  }

  /** The ids from `low` to `high`. */
  ghost function Interval(low: int, high: int): set<int>
    decreases high - low
  {
    if low > high then {} else Interval(low, high - 1) + {high}
  }

  lemma {:induction false} IntervalHolds(low: int, high: int, x: int)
    ensures x in Interval(low, high) <==> low <= x <= high
    decreases high - low
  {
    if low <= high {
      IntervalHolds(low, high - 1, x);
    }
  }

  lemma {:induction false} IntervalSize(low: int, high: int)
    requires low <= high + 1
    ensures |Interval(low, high)| == high - low + 1
    decreases high - low
  {
    if low <= high {
      IntervalSize(low, high - 1);
      IntervalHolds(low, high - 1, high);
    }
  }

  /** The ids the first `n` ranges hold. */
  ghost function Ids(r: seq<Range>, n: nat): set<int>
    requires n <= |r|
  {
    if n == 0 then {} else Ids(r, n - 1) + Interval(r[n - 1].low, r[n - 1].high)
  }

  lemma {:induction false} IdsCovers(r: seq<Range>, n: nat, x: int)
    requires n <= |r|
    ensures x in Ids(r, n) <==> exists k :: 0 <= k < n && In(r[k], x)
  {
    if n > 0 {
      IdsCovers(r, n - 1, x);
      IntervalHolds(r[n - 1].low, r[n - 1].high, x);
    }
  }

  /** Ranges covering the same ids hold the same set of ids. */
  lemma SameIds(a: seq<Range>, b: seq<Range>)
    requires forall x :: Covers(a, x) <==> Covers(b, x)
    ensures Ids(a, |a|) == Ids(b, |b|)
  {
    forall x
      ensures x in Ids(a, |a|) <==> x in Ids(b, |b|)
    {
      IdsCovers(a, |a|, x);
      IdsCovers(b, |b|, x);
      assert Covers(a, x) <==> Covers(b, x);
    }
  }

  /** The sum of the sizes of the first `n` ranges. */
  function Size(r: seq<Range>, n: nat): int
    requires n <= |r|
  {
    if n == 0 then 0 else Size(r, n - 1) + (r[n - 1].high - r[n - 1].low + 1)
  }

  /** On valid ranges the sizes add up to the number of ids held. */
  lemma {:induction false} SizeCounts(r: seq<Range>, n: nat)
    requires Valid(r) && n <= |r|
    ensures Size(r, n) == |Ids(r, n)|
  {
    if n > 0 {
      SizeCounts(r, n - 1);
      var last := Interval(r[n - 1].low, r[n - 1].high);
      IntervalSize(r[n - 1].low, r[n - 1].high);
      forall x | x in Ids(r, n - 1)
        ensures x !in last
      {
        IdsCovers(r, n - 1, x);
        IntervalHolds(r[n - 1].low, r[n - 1].high, x);
      }
      assert Ids(r, n - 1) * last == {};
    }
  }

  /** The id count of `main`: the sum of the range sizes, which is the
      number of ids the valid ranges hold. */
  method CountIds(r: seq<Range>) returns (count: int)
    ensures count == Size(r, |r|)
    ensures Valid(r) ==> count == |Ids(r, |r|)|
  {
    count := 0;
    for n := 0 to |r|
      invariant count == Size(r, n)
    {
      count := count + (r[n].high - r[n].low + 1);
    }
    if Valid(r) {
      SizeCounts(r, |r|);
    }
  }

  /** A line of input: empty, or the source's two parses of its text. */
  datatype Line = Blank | Text(range: Option<Range>, ingredient: Option<nat>)

  datatype Fault = BadRange | UnexpectedBlank | BadIngredient

  datatype ParseMode = FreshRanges | AvailableIngredients

  /** The first blank line at or after `n`, or the number of lines. */
  function BlankFrom(lines: seq<Line>, n: nat): (k: nat)
    requires n <= |lines|
    ensures n <= k <= |lines|
    ensures forall j :: n <= j < k ==> lines[j].Text?
    ensures k < |lines| ==> lines[k].Blank?
    decreases |lines| - n
  {
    if n == |lines| || lines[n].Blank? then n else BlankFrom(lines, n + 1)
  }

  /** The blank line that ends the ranges, or the number of lines. */
  function FirstBlank(lines: seq<Line>): nat {
    BlankFrom(lines, 0)
  }

  /** What is wrong with line `n` in its section, if anything. */
  function LineFault(lines: seq<Line>, n: nat): Option<Fault>
    requires n < |lines|
  {
    var k := FirstBlank(lines);
    if n < k then (if lines[n].range.None? then Some(BadRange) else None)
    else if n == k then None
    else if lines[n].Blank? then Some(UnexpectedBlank)
    else if lines[n].ingredient.None? then Some(BadIngredient)
    else None
  }

  /** The first `n` lines are ranges. */
  predicate RangesParsed(lines: seq<Line>, n: nat) {
    n <= |lines| && forall j :: 0 <= j < n ==> lines[j].Text? && lines[j].range.Some?
  }

  /** The ranges of the first `n` lines, in input order. */
  function InputRanges(lines: seq<Line>, n: nat): (r: seq<Range>)
    requires RangesParsed(lines, n)
    ensures |r| == n && forall j :: 0 <= j < n ==> r[j] == lines[j].range.value
  {
    if n == 0 then [] else InputRanges(lines, n - 1) + [lines[n - 1].range.value]
  }

  predicate WellFormed(r: seq<Range>) {
    forall k :: 0 <= k < |r| ==> r[k].low <= r[k].high
  }

  /** The ingredient lines after line `k` and before line `n` whose id some
      range of `r` holds. */
  ghost function FreshCount(lines: seq<Line>, k: nat, n: nat, r: seq<Range>): nat
    requires n <= |lines|
  {
    if n <= k + 1 then 0
    else
      var isFresh := lines[n - 1].Text? && lines[n - 1].ingredient.Some? && Covers(r, lines[n - 1].ingredient.value);
      FreshCount(lines, k, n - 1, r) + (if isFresh then 1 else 0)
  }

  /** One more range line adds its range to the input ranges. */
  lemma InputStep(lines: seq<Line>, n: nat)
    requires RangesParsed(lines, n + 1)
    ensures WellFormed(InputRanges(lines, n + 1)) ==>
      WellFormed(InputRanges(lines, n)) && lines[n].range.value.low <= lines[n].range.value.high
    ensures forall x :: Covers(InputRanges(lines, n + 1), x) <==>
      Covers(InputRanges(lines, n), x) || In(lines[n].range.value, x)
  {
    forall x
      ensures Covers(InputRanges(lines, n + 1), x) <==>
        Covers(InputRanges(lines, n), x) || In(lines[n].range.value, x)
    {
      CoversConcat(InputRanges(lines, n), [lines[n].range.value], x);
      CoversOne(lines[n].range.value, x);
    }
  }

  /** Line `n` has fault `f` and no line before it has any. */
  predicate FirstFault(lines: seq<Line>, n: nat, f: Fault) {
    n < |lines| && LineFault(lines, n) == Some(f) &&
    forall j :: 0 <= j < n ==> LineFault(lines, j).None?
  }

  /** `main`: reads ranges up to the blank line, merging each in, then
      counts the fresh ingredients, then the fresh ids. */
  method Solve(lines: seq<Line>) returns (r: Result<(nat, int), Fault>)
    ensures r.Err? <==> exists n :: 0 <= n < |lines| && LineFault(lines, n).Some?
    ensures r.Err? ==> exists n :: FirstFault(lines, n, r.error)
    ensures r.Ok? ==> RangesParsed(lines, FirstBlank(lines))
    ensures r.Ok? && WellFormed(InputRanges(lines, FirstBlank(lines))) ==>
      var input := InputRanges(lines, FirstBlank(lines));
      r.value == (FreshCount(lines, FirstBlank(lines), |lines|, input), |Ids(input, |input|)|)
  {
    var k := FirstBlank(lines);
    var mode := FreshRanges;
    var ranges: seq<Range> := [];
    var available: nat := 0;
    for n := 0 to |lines|
      invariant mode == FreshRanges <==> n <= k
      invariant forall j :: 0 <= j < n ==> LineFault(lines, j).None?
      invariant RangesParsed(lines, if n <= k then n else k)
      invariant var input := InputRanges(lines, if n <= k then n else k);
        WellFormed(input) ==> Valid(ranges) && forall x :: Covers(ranges, x) <==> Covers(input, x)
      invariant n <= k ==> available == 0
      invariant n > k ==> WellFormed(InputRanges(lines, k)) ==> available == FreshCount(lines, k, n, InputRanges(lines, k))
    {
      match (mode, lines[n]) {
        case (FreshRanges, Blank) =>
          mode := AvailableIngredients;
        case (FreshRanges, Text(range, _)) =>
          if range.None? {
            assert FirstFault(lines, n, BadRange);
            return Err(BadRange);
          }
          ghost var before := ranges;
          ranges := Insert(ranges, range.value.low, range.value.high);
          InputStep(lines, n);
          if WellFormed(InputRanges(lines, n + 1)) {
            forall x
              ensures Covers(ranges, x) <==> Covers(InputRanges(lines, n + 1), x)
            {
              assert Covers(ranges, x) <==> Covers(before, x) || In(range.value, x);
            }
          }
        case (AvailableIngredients, Blank) =>
          assert FirstFault(lines, n, UnexpectedBlank);
          return Err(UnexpectedBlank);
        case (AvailableIngredients, Text(_, ingredient)) =>
          if ingredient.None? {
            assert FirstFault(lines, n, BadIngredient);
            return Err(BadIngredient);
          }
          var isFresh := IsFresh(ranges, ingredient.value);
          if WellFormed(InputRanges(lines, k)) {
            ValidSorted(ranges);
          }
          if isFresh {
            available := available + 1;
          }
      }
    }
    var count := CountIds(ranges);
    var input := InputRanges(lines, k);
    if WellFormed(input) {
      SameIds(ranges, input);
    }
    r := Ok((available, count));
  }
}
