/** 2015 day 1: following parentheses up and down floors (src/year_2015/day01.rs). */
module Year2015Day01 {
  /** The floor change for one character: '(' up, ')' down, anything else stays. */
  function Step(ch: char): int {
    match ch
    case '(' => 1
    case ')' => -1
    case _ => 0
  }

  /** The floor reached after following `s` from floor 0. */
  function FloorAfter(s: string): int {
    if s == [] then 0 else FloorAfter(s[..|s| - 1]) + Step(s[|s| - 1])
  }

  function Occurrences(s: string, c: char): nat {
    if s == [] then 0 else Occurrences(s[..|s| - 1], c) + (if s[|s| - 1] == c then 1 else 0)
  }

  /** The final floor is the number of '(' minus the number of ')'. */
  lemma {:induction false} FloorIsBalance(s: string)
    ensures FloorAfter(s) == Occurrences(s, '(') - Occurrences(s, ')')
  {
    if s != [] {
      FloorIsBalance(s[..|s| - 1]);
    }
  }

  /** The loop of `main`: the final floor, and `pos`, the 1-based position of
      the first character that takes the floor below 0 (0 when it never does). */
  method Floors(input: string) returns (floor: int, pos: nat)
    ensures floor == FloorAfter(input)
    ensures pos <= |input|
    ensures pos == 0 ==> forall k :: 1 <= k <= |input| ==> FloorAfter(input[..k]) >= 0
    ensures pos > 0 ==> FloorAfter(input[..pos]) < 0
                        && forall k :: 1 <= k < pos ==> FloorAfter(input[..k]) >= 0
  {
    floor := 0;
    pos := 0;
    for idx := 0 to |input|
      invariant floor == FloorAfter(input[..idx])
      invariant pos <= idx
      invariant pos == 0 ==> forall k :: 1 <= k <= idx ==> FloorAfter(input[..k]) >= 0
      invariant pos > 0 ==> FloorAfter(input[..pos]) < 0
                            && forall k :: 1 <= k < pos ==> FloorAfter(input[..k]) >= 0
    {
      assert input[..idx + 1][..idx] == input[..idx];
      floor := floor + Step(input[idx]);
      if pos == 0 && floor < 0 {
        pos := idx + 1;
      }
    }
    assert input[..|input|] == input;
  }
}
