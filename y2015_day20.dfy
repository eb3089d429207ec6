/** 2015 day 20: elves delivering presents; house `n` gets ten presents per
    divisor of `n`, summed by pairing each divisor up to the square root with
    its cofactor. */
module Year2015Day20 {
  import opened Wrappers

  /** `integer_sqrt`: the largest `r` with r*r <= n. */
  function ISqrt(n: nat): (r: nat)
    ensures r * r <= n < (r + 1) * (r + 1)
  {
    if n == 0 then 0
    else
      var r := ISqrt(n - 1);
      if (r + 1) * (r + 1) <= n then r + 1 else r
  }

  /** The sum of the divisors of `num` in `lo < d <= hi`. */
  function DivSum(num: nat, lo: nat, hi: nat): nat {
    if hi <= lo then 0 else DivSum(num, lo, hi - 1) + (if num % hi == 0 then hi else 0)
  }

  /** The sum of all positive divisors of `num`. */
  function Sigma(num: nat): nat {
    DivSum(num, 0, num)
  }

  /** What one candidate `k` adds: `k` and `num / k` when `k` divides `num`,
      the pair counted once when they are equal. */
  function PairAt(num: nat, k: nat): nat
    requires k > 0
  {
    if num % k == 0 then k + (if num / k != k then num / k else 0) else 0
  }

  /** The pairs of the candidates 1 ..= m. */
  function PairSum(num: nat, m: nat): nat {
    if m == 0 then 0 else PairSum(num, m - 1) + PairAt(num, m)
  }

  /** `sum_of_divisors`: candidates counted down from the square root. */
  method SumOfDivisors(num: nat) returns (sum: nat)
    ensures sum == Sigma(num)
  {
    var n := ISqrt(num);
    sum := 0;
    while n >= 1
      invariant sum + PairSum(num, n) == PairSum(num, ISqrt(num))
    {
      if num % n == 0 {
        sum := sum + n;
        var d := num / n;
        if d != n {
          sum := sum + d;
        }
      }
      n := n - 1;
    }
    PairsAreSigma(num);
  }

  /** `present_count`. */
  method PresentCount(houseNum: nat) returns (count: nat)
    ensures count == 10 * Sigma(houseNum)
  {
    var sum := SumOfDivisors(houseNum);
    count := sum * 10;
  }

  // ----- the pairing argument -----

  lemma {:induction false} DivSumPeel(num: nat, lo: nat, hi: nat)
    requires lo < hi
    ensures DivSum(num, lo, hi) == (if num % (lo + 1) == 0 then lo + 1 else 0) + DivSum(num, lo + 1, hi)
  {
    if hi > lo + 1 {
      DivSumPeel(num, lo, hi - 1);
    }
  }

  lemma {:induction false} DivSumSplit(num: nat, a: nat, b: nat, c: nat)
    requires a <= b <= c
    ensures DivSum(num, a, c) == DivSum(num, a, b) + DivSum(num, b, c)
  {
    if c > b {
      DivSumSplit(num, a, b, c - 1);
    }
  }

  /** When `x` is the only candidate divisor in the window, the window sums to it or to nothing. */
  lemma {:induction false} DivSumOnly(num: nat, lo: nat, hi: nat, x: nat)
    requires forall d :: lo < d <= hi && num % d == 0 ==> d == x
    ensures DivSum(num, lo, hi) == if lo < x <= hi && num % x == 0 then x else 0
  {
    if hi > lo {
      DivSumOnly(num, lo, hi - 1, x);
    }
  }

  lemma MulMono(a: nat, b: nat, c: nat)
    requires a <= b
    ensures a * c <= b * c && c * a <= c * b
  {
    assert b * c == a * c + (b - a) * c;
  }

  /** `num` is `q * k` plus a remainder below `k`. */
  lemma DivParts(num: nat, k: nat)
    requires k > 0
    ensures num / k * k <= num < num / k * k + k
  {
  }

  /** A divisor strictly above num/(m+2) and at most num/(m+1) is num/(m+1) exactly. */
  lemma Window(num: nat, m: nat, d: nat)
    requires d > 0 && num % d == 0 && num / (m + 2) < d <= num / (m + 1)
    ensures d * (m + 1) == num
  {
    var k := num / d;
    DivParts(num, d);
    WindowBelow(num, m + 1, d);
    WindowAbove(num, m + 2, d);
    CofactorIs(num, d, k, m + 1);
  }

  lemma WindowBelow(num: nat, j: nat, d: nat)
    requires j > 0 && d <= num / j
    ensures d * j <= num
  {
    DivParts(num, j);
    MulMono(d, num / j, j);
  }

  lemma WindowAbove(num: nat, j: nat, d: nat)
    requires j > 0 && num / j < d
    ensures num < d * j
  {
    DivParts(num, j);
    MulMono(num / j + 1, d, j);
  }

  /** A strictly smaller product has the smaller factor. */
  lemma MulLessCancel(a: nat, b: nat, c: nat)
    ensures a * c < b * c ==> a < b
  {
    if b <= a {
      MulMono(b, a, c);
    }
  }

  lemma CofactorIs(num: nat, d: nat, k: nat, j: nat)
    requires d > 0 && d * k == num && d * j <= num < d * (j + 1)
    ensures k == j
  {
    assert (k + 1) * d == k * d + d;
    MulLessCancel(j, k + 1, d);
    MulLessCancel(k, j + 1, d);
  }

  lemma DivMonotone(a: nat, b: nat, k: nat)
    requires a <= b && k > 0
    ensures a / k <= b / k
  {
    DivParts(a, k);
    DivParts(b, k);
    assert (b / k + 1) * k == b / k * k + k;
    MulLessCancel(a / k, b / k + 1, k);
  }

  lemma DivAnti(n: nat, j: nat, k: nat)
    requires 0 < j <= k
    ensures n / k <= n / j
  {
    DivParts(n, j);
    DivParts(n, k);
    MulMono(j, k, n / k);
    assert (n / j + 1) * j == n / j * j + j;
    MulLessCancel(n / k, n / j + 1, j);
  }

  /** Moving the candidate from `m` to `m + 1` moves the divisors it pairs
      off out of the middle window. */
  lemma PairStep(num: nat, m: nat)
    requires (m + 1) * (m + 1) <= num
    ensures DivSum(num, m, num / (m + 1)) == PairAt(num, m + 1) + DivSum(num, m + 1, num / (m + 2))
  {
    var c, b := num / (m + 1), num / (m + 2);
    DivParts(num, m + 1);
    DivParts(num, m + 2);
    assert c >= m + 1 by {
      assert (c + 1) * (m + 1) == c * (m + 1) + (m + 1);
      MulLessCancel(m + 1, c + 1, m + 1);
    }
    DivAnti(num, m + 1, m + 2);
    DivSumPeel(num, m, c);
    var b' := if b < m + 1 then m + 1 else b;
    DivSumSplit(num, m + 1, b', c);
    OnlyCofactor(num, m, b', c);
    DivSumOnly(num, b', c, c);
    CofactorInWindow(num, m, b');
  }

  lemma OnlyCofactor(num: nat, m: nat, lo: nat, c: nat)
    requires c == num / (m + 1) && lo >= num / (m + 2)
    ensures forall d :: lo < d <= c && num % d == 0 ==> d == c
  {
    forall d | lo < d <= c && num % d == 0
      ensures d == c
    {
      Window(num, m, d);
      DivExact(num, m + 1, d);
    }
  }

  lemma DivExact(num: nat, k: nat, d: nat)
    requires k > 0 && d * k == num
    ensures num / k == d && num % k == 0
  {
    DivParts(num, k);
    var q := num / k;
    assert (q + 1) * k == q * k + k && (d + 1) * k == d * k + k;
    MulLessCancel(q, d + 1, k);
    MulLessCancel(d, q + 1, k);
  }

  /** The cofactor num/(m+1) lies in the window above `lo` exactly when it is
      a divisor other than m+1 itself. */
  lemma CofactorInWindow(num: nat, m: nat, lo: nat)
    requires num / (m + 1) >= m + 1
    requires lo == if num / (m + 2) < m + 1 then m + 1 else num / (m + 2)
    ensures (lo < num / (m + 1) && num % (num / (m + 1)) == 0) <==> (num % (m + 1) == 0 && num / (m + 1) != m + 1)
  {
    var c := num / (m + 1);
    if num % (m + 1) == 0 {
      DivParts(num, m + 1);
      assert c * (m + 1) == num;
      DivExact(num, c, m + 1);
      if c != m + 1 {
        CofactorAbove(num, m, c);
      }
    } else if lo < c && num % c == 0 {
      Window(num, m, c);
      DivExact(num, m + 1, c);
    }
  }

  lemma CofactorAbove(num: nat, m: nat, c: nat)
    requires c > 0 && c * (m + 1) == num
    ensures num / (m + 2) < c
  {
    DivParts(num, m + 2);
    assert c * (m + 2) == c * (m + 1) + c;
    MulLessCancel(num / (m + 2), c, m + 2);
  }

  /** After the candidates 1 ..= m, the pairs plus the unpaired middle window give all divisors. */
  lemma {:induction false} PairsSoFar(num: nat, m: nat)
    requires m * m <= num
    ensures PairSum(num, m) + DivSum(num, m, num / (m + 1)) == Sigma(num)
  {
    if m > 0 {
      MulMono(m - 1, m, m - 1);
      MulMono(m - 1, m, m);
      PairsSoFar(num, m - 1);
      PairStep(num, m - 1);
    }
  }

  /** Pairing each divisor up to the square root with its cofactor sums every divisor once. */
  lemma PairsAreSigma(num: nat)
    ensures PairSum(num, ISqrt(num)) == Sigma(num)
  {
    var s := ISqrt(num);
    PairsSoFar(num, s);
    DivParts(num, s + 1);
    MulLessCancel(num / (s + 1), s + 1, s + 1);
  }

  /** The test table, numbers 1 to 10. */
  lemma SigmaTableLow()
    ensures Sigma(1) == 1 && Sigma(2) == 3 && Sigma(3) == 4 && Sigma(4) == 7 && Sigma(5) == 6
    ensures Sigma(6) == 12 && Sigma(7) == 8 && Sigma(8) == 15 && Sigma(9) == 13 && Sigma(10) == 18
  {
  }

  /** The test table, numbers 11 to 15. */
  lemma SigmaTableMiddle()
    ensures Sigma(11) == 12 && Sigma(12) == 28 && Sigma(13) == 14 && Sigma(14) == 24 && Sigma(15) == 24
  {
    assert DivSum(14, 0, 7) == 10;
    assert DivSum(15, 0, 7) == 9;
  }

  /** The test table, numbers 16 to 20. */
  lemma SigmaTableHigh()
    ensures Sigma(16) == 31 && Sigma(17) == 18 && Sigma(18) == 39 && Sigma(19) == 20 && Sigma(20) == 42
  {
    assert DivSum(16, 0, 8) == 15;
    assert DivSum(17, 0, 8) == 1;
    assert DivSum(18, 0, 9) == 21;
    assert DivSum(19, 0, 9) == 1;
    assert DivSum(20, 0, 10) == 22;
  }

  lemma {:induction false} SigmaAtLeast(num: nat)
    requires num > 0
    ensures Sigma(num) >= num
  {
    assert DivSum(num, 0, num) == DivSum(num, 0, num - 1) + num;
  }

  /** `main`'s search: the lowest house getting at least `presents` presents. */
  method LowestHouse(presents: nat) returns (r: Option<nat>)
    ensures r.Some? ==> 1 <= r.value <= presents && 10 * Sigma(r.value) >= presents
    ensures r.Some? ==> forall h :: 1 <= h < r.value ==> 10 * Sigma(h) < presents
    ensures r.None? <==> presents == 0
  {
    for houseNum := 1 to presents + 1
      invariant forall h :: 1 <= h < houseNum ==> 10 * Sigma(h) < presents
    {
      var count := PresentCount(houseNum);
      if count >= presents {
        return Some(houseNum);
      }
      SigmaAtLeast(houseNum);
    }
    r := None;
    if presents > 0 {
      SigmaAtLeast(presents);
    }
  }
}
