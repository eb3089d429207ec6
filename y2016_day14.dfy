/** 2016 day 14: scanning hex digests for runs of one character
    (src/year_2016/day14.rs). A key candidate is a digest with a run of three;
    it is confirmed by a later digest with a run of five of that character. */
module Year2016Day14 {
  import opened Wrappers

  /** The number of consecutive `ch` from position `i` on. */
  function RunFrom(s: string, i: nat, ch: char): (n: nat)
    ensures i + n <= |s| || n == 0
    decreases |s| - i
  {
    if i < |s| && s[i] == ch then 1 + RunFrom(s, i + 1, ch) else 0
  }

  /** Positions `j` to `j + n` all hold `ch`. */
  predicate AllAre(s: string, j: nat, n: nat, ch: char) {
    j + n <= |s| && forall k :: j <= k < j + n ==> s[k] == ch
  }

  /** A run of three starts at `j`. */
  predicate IsTriple(s: string, j: nat) {
    j < |s| && AllAre(s, j, 3, s[j])
  }

  /** The run from `i` is as long as its characters are `ch`. */
  lemma {:induction false} RunIsAllAre(s: string, i: nat, ch: char, n: nat)
    requires i <= |s|
    ensures RunFrom(s, i, ch) >= n <==> AllAre(s, i, n, ch)
    decreases n
  {
    if n > 0 && i < |s| {
      RunIsAllAre(s, i + 1, ch, n - 1);
      if AllAre(s, i, n, ch) {
        assert s[i] == ch;
        assert AllAre(s, i + 1, n - 1, ch);
        assert RunFrom(s, i, ch) == 1 + RunFrom(s, i + 1, ch);
      }
      if RunFrom(s, i, ch) >= n {
        assert i < |s| && s[i] == ch;
        assert AllAre(s, i + 1, n - 1, ch);
        forall k | i <= k < i + n ensures s[k] == ch {
          if k > i {
            assert i + 1 <= k < i + 1 + (n - 1);
          }
        }
      }
    }
  }

  /** The run from `i` ends with a character other than `ch`, or the string. */
  lemma {:induction false} RunEnds(s: string, i: nat, ch: char)
    requires i <= |s|
    ensures AllAre(s, i, RunFrom(s, i, ch), ch)
    ensures i + RunFrom(s, i, ch) < |s| ==> s[i + RunFrom(s, i, ch)] != ch
    decreases |s| - i
  {
    RunIsAllAre(s, i, ch, RunFrom(s, i, ch));
    if i < |s| && s[i] == ch {
      RunEnds(s, i + 1, ch);
    }
  }

  /** No run of `n` of `ch` starts inside the run from `i` unless the run
      from `i` itself is at least `n` long from that point. */
  lemma RunCovers(s: string, i: nat, ch: char, j: nat, n: nat)
    requires i <= j < i + RunFrom(s, i, ch) && n > 0 && AllAre(s, j, n, ch)
    ensures RunFrom(s, i, ch) >= j - i + n
  {
    RunEnds(s, i, ch);
  }

  // ----- get_triple_char -----

  /** `get_triple_char` from position `i`: the character of the first
      maximal run of length three or more, runs consumed whole. */
  function TripleFrom(s: string, i: nat): Option<char>
    decreases |s| - i
  {
    if i >= |s| then None
    else
      var r := RunFrom(s, i, s[i]);
      if r >= 3 then Some(s[i]) else TripleFrom(s, i + r)
  }

  /** No run of three starts inside a run shorter than three. */
  lemma ShortRunNoTriple(s: string, i: nat)
    requires i < |s| && RunFrom(s, i, s[i]) < 3
    ensures forall k :: i <= k < i + RunFrom(s, i, s[i]) ==> !IsTriple(s, k)
  {
    forall k | i <= k < i + RunFrom(s, i, s[i]) ensures !IsTriple(s, k) {
      if IsTriple(s, k) {
        RunIsAllAre(s, i, s[i], k - i + 1);
        RunCovers(s, i, s[i], k, 3);
      }
    }
  }

  /** Scanning whole runs finds exactly the first position where three equal
      characters start: `None` when there is none. */
  lemma {:induction false} TripleMeaning(s: string, i: nat)
    ensures TripleFrom(s, i).None? <==> forall j :: i <= j ==> !IsTriple(s, j)
    ensures TripleFrom(s, i).Some? ==>
      exists j :: i <= j && IsTriple(s, j) && s[j] == TripleFrom(s, i).value
                  && forall k :: i <= k < j ==> !IsTriple(s, k)
    decreases |s| - i
  {
    if i < |s| {
      var r := RunFrom(s, i, s[i]);
      if r >= 3 {
        RunIsAllAre(s, i, s[i], 3);
        assert IsTriple(s, i);
      } else {
        RunIsAllAre(s, i, s[i], 1);
        ShortRunNoTriple(s, i);
        TripleMeaning(s, i + r);
        assert TripleFrom(s, i) == TripleFrom(s, i + r);
        if TripleFrom(s, i).Some? {
          var j :| i + r <= j && IsTriple(s, j) && s[j] == TripleFrom(s, i).value
                   && forall k :: i + r <= k < j ==> !IsTriple(s, k);
          assert forall k :: i <= k < j ==> !IsTriple(s, k);
        }
      }
    }
  }

  /** `get_triple_char`: the peekable iterator walks one run at a time,
      counting it, and stops at the first count of three or more. */
  method GetTripleChar(s: string) returns (r: Option<char>)
    ensures r == TripleFrom(s, 0)
  {
    var i := 0;
    while i < |s|
      invariant i <= |s| && TripleFrom(s, i) == TripleFrom(s, 0)
      decreases |s| - i
    {
      var ch := s[i];
      var count := CountRun(s, i, ch);
      if count >= 3 {
        return Some(ch);
      }
      i := i + count;
    }
    return None;
  }

  /** The inner loop: `chars.next()` then peek while the next character
      repeats, so the count covers the whole run from `i`. */
  method CountRun(s: string, i: nat, ch: char) returns (count: nat)
    requires i < |s| && s[i] == ch
    ensures count == RunFrom(s, i, ch) && count >= 1
  {
    count := 1;
    var j := i + 1;
    while j < |s| && s[j] == ch
      invariant i < j <= |s| && count == j - i
      invariant RunFrom(s, i, ch) == count + RunFrom(s, j, ch)
      decreases |s| - j
    {
      count := count + 1;
      j := j + 1;
    }
  }

  // ----- check_five -----

  /** A run of five `ch` starts at `j`. */
  predicate IsFive(s: string, j: nat, ch: char) {
    AllAre(s, j, 5, ch)
  }

  /** `check_five` from position `i`: other characters are stepped over
      one at a time, a run of `ch` as a whole. */
  function FiveFrom(s: string, i: nat, ch: char): bool
    decreases |s| - i
  {
    if i >= |s| then false
    else if s[i] != ch then FiveFrom(s, i + 1, ch)
    else
      var r := RunFrom(s, i, ch);
      r >= 5 || FiveFrom(s, i + r, ch)
  }

  /** `check_five(s, ch)` holds exactly when five `ch` in a row appear. */
  lemma {:induction false} FiveMeaning(s: string, i: nat, ch: char)
    ensures FiveFrom(s, i, ch) <==> exists j :: i <= j && IsFive(s, j, ch)
    decreases |s| - i
  {
    if i < |s| {
      if s[i] != ch {
        FiveMeaning(s, i + 1, ch);
        if exists j :: i <= j && IsFive(s, j, ch) {
          var j :| i <= j && IsFive(s, j, ch);
          assert s[j] == ch;
          assert i + 1 <= j;
        }
      } else {
        var r := RunFrom(s, i, ch);
        RunIsAllAre(s, i, ch, 5);
        RunIsAllAre(s, i, ch, 1);
        if r < 5 {
          FiveMeaning(s, i + r, ch);
          assert FiveFrom(s, i, ch) == FiveFrom(s, i + r, ch);
          if exists j :: i <= j && IsFive(s, j, ch) {
            var j :| i <= j && IsFive(s, j, ch);
            if j < i + r {
              RunCovers(s, i, ch, j, 5);
            }
            assert i + r <= j;
          }
        } else {
          assert IsFive(s, i, ch);
        }
      }
    } else {
      forall j | i <= j ensures !IsFive(s, j, ch) {
      }
    }
  }

  /** `check_five`: the outer iterator takes one character; only when it is
      `ch` does the inner loop count the rest of its run. */
  method CheckFive(s: string, ch: char) returns (b: bool)
    ensures b == FiveFrom(s, 0, ch)
  {
    var i := 0;
    while i < |s|
      invariant i <= |s| && FiveFrom(s, i, ch) == FiveFrom(s, 0, ch)
      decreases |s| - i
    {
      if s[i] == ch {
        var count := CountRun(s, i, ch);
        if count >= 5 {
          return true;
        }
        i := i + count;
      } else {
        i := i + 1;
      }
    }
    return false;
  }

  /** Runs are read whole: "aaaa" has a triple of `a`, the
      empty string none; "xaaaaay" has five `a`, "aaaabaaaa" does not. */
  lemma Examples()
    ensures TripleFrom("aaaa", 0) == Some('a')
    ensures TripleFrom("", 0) == None
    ensures FiveFrom("xaaaaay", 0, 'a')
    ensures !FiveFrom("aaaabaaaa", 0, 'a')
  {
    var s := "aaaabaaaa";
    assert RunFrom(s, 0, 'a') == 4 by {
      assert RunFrom(s, 4, 'a') == 0;
    }
    assert RunFrom(s, 5, 'a') == 4 by {
      assert RunFrom(s, 9, 'a') == 0;
    }
    assert FiveFrom(s, 9, 'a') == false;
    assert FiveFrom(s, 4, 'a') == FiveFrom(s, 5, 'a');
    var t := "xaaaaay";
    assert RunFrom(t, 1, 'a') == 5 by {
      assert RunFrom(t, 6, 'a') == 0;
    }
  }
}
