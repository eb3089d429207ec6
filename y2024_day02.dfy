/** 2024 day 2: reactor reports. A report is safe when its levels all rise
    or all fall, each step by 1 to 3; it is skip-safe when it is safe or
    becomes safe once one level is left out (src/year_2024/day02.rs). The
    reports arrive already split into their levels. */
module Year2024Day02 {

  datatype Ordering = Less | Equal | Greater

  /** `cmp` on two levels. */
  function Cmp(a: nat, b: nat): Ordering {
    if a < b then Less else if a == b then Equal else Greater
  }

  /** `abs_diff`. */
  function AbsDiff(a: nat, b: nat): nat {
    if a < b then b - a else a - b
  }

  /** Every step rises by 1 to 3. */
  predicate Rising(s: seq<nat>) {
    forall i :: 0 <= i < |s| - 1 ==> s[i] < s[i + 1] <= s[i] + 3
  }

  /** Every step falls by 1 to 3. */
  predicate Falling(s: seq<nat>) {
    forall i :: 0 <= i < |s| - 1 ==> s[i + 1] < s[i] <= s[i + 1] + 3
  }

  /** A safe report: all rising or all falling, by 1 to 3 per step. */
  predicate Safe(s: seq<nat>) {
    Rising(s) || Falling(s)
  }

  /** `is_safe_levels`: walks the adjacent pairs, failing on a step outside
      1 ..= 3 or on a step whose direction differs from the first one. */
  method IsSafeLevels(levels: seq<nat>) returns (safe: bool)
    ensures safe == Safe(levels)
  {
    var existing := Equal;
    safe := true;
    var i := 0;
    while i + 1 < |levels|
      invariant i == 0 || i < |levels|
      invariant existing == Equal <==> i == 0
      invariant existing == Less ==> Rising(levels[..i + 1])
      invariant existing == Greater ==> Falling(levels[..i + 1])
    {
      var left, right := levels[i], levels[i + 1];
      var diff := AbsDiff(left, right);
      if diff < 1 || diff > 3 {
        safe := false;
        assert !Rising(levels) && !Falling(levels) by {
          assert !(left < right <= left + 3) && !(right < left <= right + 3);
        }
        break;
      }
      var ordering := Cmp(left, right);
      if existing == Equal {
        existing := ordering;
      } else if existing != ordering {
        safe := false;
        assert levels[0] == levels[..i + 1][0] && levels[1] == levels[..i + 1][1];
        assert !Rising(levels) && !Falling(levels);
        break;
      }
      i := i + 1;
    }
    if safe {
      if |levels| > 0 {
        assert levels[..i + 1] == levels;
      }
    }
  }

  /** The report with the level at `i` left out. */
  function Without(s: seq<nat>, i: nat): seq<nat>
    requires i < |s|
  {
    s[..i] + s[i + 1..]
  }

  /** Safe, or safe once some level is left out. */
  predicate SkipSafe(s: seq<nat>) {
    Safe(s) || exists i :: 0 <= i < |s| && Safe(Without(s, i))
  }

  /** A rising report stays rising without its first level. */
  lemma RisingTail(s: seq<nat>)
    requires Rising(s) && |s| > 0
    ensures Rising(s[1..])
  {
    var t := s[1..];
    forall k | 0 <= k < |t| - 1
      ensures t[k] < t[k + 1] <= t[k] + 3
    {
      assert s[k + 1] < s[k + 2] <= s[k + 1] + 3;
    }
  }

  /** A falling report stays falling without its first level. */
  lemma FallingTail(s: seq<nat>)
    requires Falling(s) && |s| > 0
    ensures Falling(s[1..])
  {
    var t := s[1..];
    forall k | 0 <= k < |t| - 1
      ensures t[k + 1] < t[k] <= t[k + 1] + 3
    {
      assert s[k + 2] < s[k + 1] <= s[k + 2] + 3;
    }
  }

  /** Leaving out the first level of a safe report keeps it safe, so a safe
      report with levels is also safe with one left out. */
  lemma SafeWithoutFirst(s: seq<nat>)
    requires Safe(s) && |s| > 0
    ensures Safe(Without(s, 0))
  {
    assert Without(s, 0) == s[1..];
    if Rising(s) {
      RisingTail(s);
    } else {
      FallingTail(s);
    }
  }

  /** A report with levels is skip-safe exactly when leaving out some level
      makes it safe. */
  lemma SkipSafeMeaning(s: seq<nat>)
    requires |s| > 0
    ensures SkipSafe(s) <==> exists i :: 0 <= i < |s| && Safe(Without(s, i))
  {
    if Safe(s) {
      SafeWithoutFirst(s);
    }
  }

  /** Fewer than two levels are always safe. */
  lemma ShortSafe(s: seq<nat>)
    requires |s| < 2
    ensures Safe(s)
  {
  }

  /** The skip loop of `main`: tries leaving out each level in turn and stops
      at the first that makes the report safe. */
  method SkipLevelSafe(levels: seq<nat>) returns (found: bool)
    ensures found <==> exists i :: 0 <= i < |levels| && Safe(Without(levels, i))
  {
    found := false;
    for i := 0 to |levels|
      invariant forall k :: 0 <= k < i ==> !Safe(Without(levels, k))
    {
      var safe := IsSafeLevels(Without(levels, i));
      if safe {
        found := true;
        return;
      }
    }
  }

  /** How many reports are safe. */
  function SafeCount(reports: seq<seq<nat>>): nat {
    if reports == [] then 0
    else SafeCount(reports[..|reports| - 1]) + (if Safe(reports[|reports| - 1]) then 1 else 0)
  }

  /** How many reports are skip-safe. */
  function SkipSafeCount(reports: seq<seq<nat>>): nat {
    if reports == [] then 0
    else SkipSafeCount(reports[..|reports| - 1]) + (if SkipSafe(reports[|reports| - 1]) then 1 else 0)
  }

  /** Every safe report is skip-safe, so there are at least as many
      skip-safe reports as safe ones. */
  lemma {:induction false} SafeCountBelow(reports: seq<seq<nat>>)
    ensures SafeCount(reports) <= SkipSafeCount(reports) <= |reports|
  {
    if reports != [] {
      SafeCountBelow(reports[..|reports| - 1]);
    }
  }

  /** `main`: a safe report counts for both totals; otherwise the skip loop
      decides whether it counts for the second. */
  method CountReports(reports: seq<seq<nat>>) returns (safeCount: nat, skipSafeCount: nat)
    ensures safeCount == SafeCount(reports)
    ensures skipSafeCount == SkipSafeCount(reports)
  {
    safeCount, skipSafeCount := 0, 0;
    for n := 0 to |reports|
      invariant safeCount == SafeCount(reports[..n])
      invariant skipSafeCount == SkipSafeCount(reports[..n])
    {
      assert reports[..n + 1][..n] == reports[..n];
      var levels := reports[n];
      var safe := IsSafeLevels(levels);
      if safe {
        safeCount := safeCount + 1;
        skipSafeCount := skipSafeCount + 1;
        continue;
      }
      var skipSafe := SkipLevelSafe(levels);
      if skipSafe {
        skipSafeCount := skipSafeCount + 1;
      }
    }
    assert reports[..|reports|] == reports;
  }
}
