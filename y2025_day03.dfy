/** 2025 day 3: each line is a bank of batteries, one digit each; its
    joltage is the largest two-digit number formed by two of its digits in
    their order, and the answer is the total over the banks
    (src/year_2025/day03.rs). */
module Year2025Day03 {
  import opened Wrappers

  datatype Fault = TooFewBatteries | UnexpectedChar(ch: char)

  predicate IsDigit(ch: char) {
    '0' <= ch <= '9'
  }

  /** `char_u32`: the value of a decimal digit character. */
  function CharDigit(ch: char): Result<nat, Fault> {
    if IsDigit(ch) then Ok(ch as int - '0' as int) else Err(UnexpectedChar(ch))
  }

  /** The character of a digit below 10. */
  function DigitChar(d: nat): char
    requires d < 10
  {
    (d + '0' as int) as char
  }

  /** `char_u32` accepts exactly the ten digit characters, each as its value,
      and inverts writing a digit. */
  lemma CharDigitMeaning(ch: char, d: nat)
    ensures CharDigit(ch).Ok? <==> IsDigit(ch)
    ensures CharDigit(ch).Ok? ==> CharDigit(ch).value < 10 && DigitChar(CharDigit(ch).value) == ch
    ensures CharDigit(ch).Err? ==> CharDigit(ch).error == UnexpectedChar(ch)
    ensures d < 10 ==> CharDigit(DigitChar(d)) == Ok(d)
  {
  }

  /** The value of a digit character, 0 for any other. */
  function Value(ch: char): nat {
    if IsDigit(ch) then ch as int - '0' as int else 0
  }

  /** The values of a bank's characters. */
  function Values(bank: string): (d: seq<nat>)
    ensures |d| == |bank|
    ensures forall i :: 0 <= i < |bank| ==> d[i] == Value(bank[i])
  {
    seq(|bank|, i requires 0 <= i < |bank| => Value(bank[i]))
  }

  predicate AllDigits(s: string) {
    forall i :: 0 <= i < |s| ==> IsDigit(s[i])
  }

  /** The position of the first character that is not a digit. */
  function FirstBad(s: string): (r: nat)
    requires !AllDigits(s)
    ensures r < |s| && !IsDigit(s[r])
    ensures forall k :: 0 <= k < r ==> IsDigit(s[k])
  {
    if !IsDigit(s[0]) then 0
    else
      assert !AllDigits(s[1..]) by {
        var i :| 0 <= i < |s| && !IsDigit(s[i]);
        assert s[1..][i - 1] == s[i];
      }
      1 + FirstBad(s[1..])
  }

  function Max(a: nat, b: nat): nat {
    if a < b then b else a
  }

  /** The largest of the first `n` digits. */
  function MaxUpTo(d: seq<nat>, n: nat): nat
    requires 1 <= n <= |d|
  {
    if n == 1 then d[0] else Max(MaxUpTo(d, n - 1), d[n - 1])
  }

  /** The largest two-digit number from two of the first `n` digits in order:
      the best pair among the first `n - 1`, or the largest earlier digit
      followed by the last one. */
  function BestUpTo(d: seq<nat>, n: nat): nat
    requires 2 <= n <= |d|
  {
    if n == 2 then 10 * d[0] + d[1]
    else Max(BestUpTo(d, n - 1), 10 * MaxUpTo(d, n - 1) + d[n - 1])
  }

  /** `v` is the largest `10 * d[i] + d[j]` with `i < j < n`. */
  ghost predicate LargestUpTo(d: seq<nat>, n: nat, v: nat)
    requires n <= |d|
  {
    (exists i, j :: 0 <= i < j < n && v == 10 * d[i] + d[j])
    && forall i, j :: 0 <= i < j < n ==> 10 * d[i] + d[j] <= v
  }

  /** The largest of the first `n` digits bounds them. */
  lemma {:induction false} MaxUpToBounds(d: seq<nat>, n: nat)
    requires 1 <= n <= |d|
    ensures forall k :: 0 <= k < n ==> d[k] <= MaxUpTo(d, n)
  {
    if n > 1 {
      MaxUpToBounds(d, n - 1);
    }
  }

  /** The largest of the first `n` digits is one of them. */
  lemma {:induction false} MaxUpToAttained(d: seq<nat>, n: nat) returns (k: nat)
    requires 1 <= n <= |d|
    ensures k < n && MaxUpTo(d, n) == d[k]
  {
    if n == 1 {
      k := 0;
    } else if MaxUpTo(d, n - 1) < d[n - 1] {
      k := n - 1;
    } else {
      k := MaxUpToAttained(d, n - 1);
    }
  }

  /** The reference joltage is formed by a pair of digits in order. */
  lemma {:induction false} BestUpToAttained(d: seq<nat>, n: nat) returns (i: nat, j: nat)
    requires 2 <= n <= |d|
    ensures i < j < n && BestUpTo(d, n) == 10 * d[i] + d[j]
  {
    if n == 2 {
      i, j := 0, 1;
    } else if BestUpTo(d, n - 1) < 10 * MaxUpTo(d, n - 1) + d[n - 1] {
      i := MaxUpToAttained(d, n - 1);
      j := n - 1;
    } else {
      i, j := BestUpToAttained(d, n - 1);
    }
  }

  /** The reference joltage bounds every pair of digits in order. */
  lemma {:induction false} BestUpToBounds(d: seq<nat>, n: nat)
    requires 2 <= n <= |d|
    ensures forall i, j :: 0 <= i < j < n ==> 10 * d[i] + d[j] <= BestUpTo(d, n)
  {
    if n > 2 {
      BestUpToBounds(d, n - 1);
      MaxUpToBounds(d, n - 1);
    }
  }

  /** The reference joltage is the largest pair. */
  lemma BestUpToLargest(d: seq<nat>, n: nat)
    requires 2 <= n <= |d|
    ensures LargestUpTo(d, n, BestUpTo(d, n))
  {
    var i, j := BestUpToAttained(d, n);
    BestUpToBounds(d, n);
  }

  /** The largest pair is unique. */
  lemma LargestUnique(d: seq<nat>, n: nat, v: nat, w: nat)
    requires n <= |d| && LargestUpTo(d, n, v) && LargestUpTo(d, n, w)
    ensures v == w
  {
    var i, j :| 0 <= i < j < n && v == 10 * d[i] + d[j];
    var i', j' :| 0 <= i' < j' < n && w == 10 * d[i'] + d[j'];
  }

  /** What `max_joltage` returns: the first character that is not a digit
      is an error, then fewer than two batteries, and otherwise the largest
      pair. */
  function Joltage(bank: string): Result<nat, Fault> {
    if !AllDigits(bank) then Err(UnexpectedChar(bank[FirstBad(bank)]))
    else if |bank| < 2 then Err(TooFewBatteries)
    else Ok(BestUpTo(Values(bank), |bank|))
  }

  /** A bank's joltage, when there is one, is the largest two-digit number
      that two of its batteries form in order. */
  lemma JoltageLargest(bank: string)
    requires Joltage(bank).Ok?
    ensures AllDigits(bank) && |bank| >= 2
    ensures LargestUpTo(Values(bank), |bank|, Joltage(bank).value)
  {
    BestUpToLargest(Values(bank), |bank|);
  }

  /** One battery more: the largest pair and the largest digit so far, kept
      as the two digits `tens` and `ones`. */
  lemma Advance(d: seq<nat>, n: nat, tens: nat, ones: nat)
    requires 2 <= n < |d| && tens < 10 && ones < 10 && d[n] < 10
    requires 10 * tens + ones == BestUpTo(d, n) && Max(tens, ones) == MaxUpTo(d, n)
    ensures var (tens', ones') :=
              if 10 * tens + ones < 10 * ones + d[n] then (ones, d[n])
              else if 10 * tens + ones < 10 * tens + d[n] then (tens, d[n])
              else (tens, ones);
            10 * tens' + ones' == BestUpTo(d, n + 1) && Max(tens', ones') == MaxUpTo(d, n + 1)
  {
  }

  /** The loop of `max_joltage` over the batteries after the first two. */
  method Scan(bank: string, first: nat, second: nat) returns (r: Result<nat, Fault>)
    requires |bank| >= 2 && IsDigit(bank[0]) && IsDigit(bank[1])
    requires first == Value(bank[0]) && second == Value(bank[1])
    ensures r == Joltage(bank)
  {
    ghost var d := Values(bank);
    var tens, ones := first, second;
    for n := 2 to |bank|
      invariant forall k :: 0 <= k < n ==> IsDigit(bank[k])
      invariant tens < 10 && ones < 10
      invariant 10 * tens + ones == BestUpTo(d, n) && Max(tens, ones) == MaxUpTo(d, n)
    {
      var battery := CharDigit(bank[n]);
      if battery.Err? {
        assert FirstBad(bank) == n;
        return Err(battery.error);
      }
      assert IsDigit(bank[n]) && d[n] == battery.value;
      Advance(d, n, tens, ones);
      var batteryJoltage := battery.value;
      var current := 10 * tens + ones;
      var withTens := 10 * tens + batteryJoltage;
      var withOnes := 10 * ones + batteryJoltage;
      if current < withOnes {
        tens := ones;
        ones := batteryJoltage;
      } else if current < withTens {
        ones := batteryJoltage;
      }
    }
    return Ok(10 * tens + ones);
  }

  /** `max_joltage`: the first two batteries start the pair; a missing one is
      an error. */
  method MaxJoltage(bank: string) returns (r: Result<nat, Fault>)
    ensures r == Joltage(bank)
  {
    if |bank| == 0 {
      return Err(TooFewBatteries);
    }
    var first := CharDigit(bank[0]);
    if first.Err? {
      assert FirstBad(bank) == 0;
      return Err(first.error);
    }
    if |bank| == 1 {
      return Err(TooFewBatteries);
    }
    var second := CharDigit(bank[1]);
    if second.Err? {
      assert FirstBad(bank) == 1;
      return Err(second.error);
    }
    r := Scan(bank, first.value, second.value);
  }

  /** The banks' total joltage, or the fault of the first bank without one. */
  function Total(banks: seq<string>): Result<nat, Fault> {
    if banks == [] then Ok(0)
    else
      var sum :- Total(banks[..|banks| - 1]);
      var joltage :- Joltage(banks[|banks| - 1]);
      Ok(sum + joltage)
  }

  /** The total fails exactly when some bank has no joltage. */
  lemma {:induction false} TotalFails(banks: seq<string>)
    ensures Total(banks).Ok? <==> forall i :: 0 <= i < |banks| ==> Joltage(banks[i]).Ok?
  {
    if banks != [] {
      var init := banks[..|banks| - 1];
      TotalFails(init);
      assert forall i :: 0 <= i < |init| ==> init[i] == banks[i];
    }
  }

  /** `main`: adds up the joltages, stopping at the first bank in error. */
  method Solve(banks: seq<string>) returns (r: Result<nat, Fault>)
    ensures r == Total(banks)
  {
    var total := 0;
    for n := 0 to |banks|
      invariant Total(banks[..n]) == Ok(total)
    {
      assert banks[..n + 1][..n] == banks[..n];
      var joltage := MaxJoltage(banks[n]);
      if joltage.Err? {
        assert Total(banks[..n + 1]) == Err(joltage.error);
        TotalStops(banks, n + 1);
        return Err(joltage.error);
      }
      total := total + joltage.value;
    }
    assert banks[..|banks|] == banks;
    return Ok(total);
  }

  /** Once a prefix of the banks fails, the whole total fails the same way. */
  lemma {:induction false} TotalStops(banks: seq<string>, n: nat)
    requires n <= |banks| && Total(banks[..n]).Err?
    ensures Total(banks) == Total(banks[..n])
    decreases |banks| - n
  {
    if n < |banks| {
      assert banks[..n + 1][..n] == banks[..n];
      TotalStops(banks, n + 1);
    } else {
      assert banks[..n] == banks;
    }
  }

  /** The first largest digit before the last, followed by the largest digit
      after it, is the joltage. */
  lemma JoltageBy(bank: string, i0: nat, j0: nat)
    requires AllDigits(bank) && i0 < j0 < |bank|
    requires forall k :: 0 <= k < |bank| - 1 ==> bank[k] <= bank[i0]
    requires forall k :: 0 <= k < i0 ==> bank[k] < bank[i0]
    requires forall k :: i0 < k < |bank| ==> bank[k] <= bank[j0]
    ensures Joltage(bank) == Ok(10 * Value(bank[i0]) + Value(bank[j0]))
  {
    var d := Values(bank);
    var v := 10 * d[i0] + d[j0];
    forall i, j | 0 <= i < j < |bank|
      ensures 10 * d[i] + d[j] <= v
    {
      assert d[j] <= 9;
      if i < i0 {
        assert d[i] + 1 <= d[i0];
      }
    }
    BestUpToLargest(d, |bank|);
    LargestUnique(d, |bank|, v, BestUpTo(d, |bank|));
  }

  /** The first bank of the test: 9 then 8. */
  lemma JoltageExample1()
    ensures Joltage("987654321111111") == Ok(98)
  {
    JoltageBy("987654321111111", 0, 1);
  }

  /** The second bank of the test: the first 8 and the last 9. */
  lemma JoltageExample2()
    ensures Joltage("811111111111119") == Ok(89)
  {
    JoltageBy("811111111111119", 0, 14);
  }

  /** The third bank of the test: the last two batteries. */
  lemma JoltageExample3()
    ensures Joltage("234234234234278") == Ok(78)
  {
    JoltageBy("234234234234278", 13, 14);
  }

  /** The fourth bank of the test: the 9 and the 2 after it. */
  lemma JoltageExample4()
    ensures Joltage("818181911112111") == Ok(92)
  {
    JoltageBy("818181911112111", 6, 11);
  }
}
