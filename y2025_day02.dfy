/** 2025 day 2: product ids in ranges are invalid when their decimal form is
    a block of digits written twice, and patterned-invalid when it is a block
    written two or more times (src/year_2025/day02.rs). The ranges arrive as
    the parsed pairs of the regular expression `([0-9]+)-([0-9]+)`. */
module Year2025Day02 {

  /** 10 to the power `k`. */
  function Pow10(k: nat): (r: nat)
    ensures r >= 1
  {
    if k == 0 then 1 else 10 * Pow10(k - 1)
  }

  lemma {:induction false} Pow10Mono(a: nat, b: nat)
    requires a <= b
    ensures Pow10(a) <= Pow10(b)
  {
    if a < b {
      Pow10Mono(a, b - 1);
    }
  }

  /** `n / 10^k`, the part of `n` above its low `k` digits. */
  function High(n: nat, k: nat): nat {
    if k == 0 then n else High(n / 10, k - 1)
  }

  /** `n % 10^k`, the low `k` digits of `n` as a number. */
  function Low(n: nat, k: nat): nat {
    if k == 0 then 0 else n % 10 + 10 * Low(n / 10, k - 1)
  }

  /** One more digit peeled from the top of the low part. */
  lemma {:induction false} HighStep(n: nat, m: nat)
    ensures High(n, m + 1) == High(n, m) / 10
  {
    if m > 0 {
      HighStep(n / 10, m - 1);
    }
  }

  lemma MulTen(x: nat, p: nat)
    ensures x * (10 * p) == 10 * (x * p)
  {
  }

  /** One more digit moved into the low part, at place 10^m. */
  lemma {:induction false} LowStep(n: nat, m: nat)
    ensures Low(n, m + 1) == Low(n, m) + (High(n, m) % 10) * Pow10(m)
  {
    if m > 0 {
      LowStep(n / 10, m - 1);
      var x := High(n, m) % 10;
      MulTen(x, Pow10(m - 1));
    }
  }

  /** The low `k` digits are below 10^k. */
  lemma {:induction false} LowBelow(n: nat, k: nat)
    ensures Low(n, k) < Pow10(k)
  {
    if k > 0 {
      LowBelow(n / 10, k - 1);
    }
  }

  /** The number of decimal digits; none for 0. */
  function NumDigits(n: nat): nat {
    if n == 0 then 0 else 1 + NumDigits(n / 10)
  }

  /** A number between 10^(k-1) and 10^k has `k` digits. */
  lemma {:induction false} NumDigitsBounds(n: nat, k: nat)
    requires k >= 1 && Pow10(k - 1) <= n < Pow10(k)
    ensures NumDigits(n) == k
  {
    if k > 1 {
      assert Pow10(k - 1) == 10 * Pow10(k - 2);
      NumDigitsBounds(n / 10, k - 1);
    }
  }

  /** A positive number lies between 10^(d-1) and 10^d for its digit count d. */
  lemma {:induction false} NumDigitsRange(n: nat)
    requires n > 0
    ensures NumDigits(n) >= 1
    ensures Pow10(NumDigits(n) - 1) <= n < Pow10(NumDigits(n))
  {
    if n >= 10 {
      NumDigitsRange(n / 10);
    }
  }

  /** Peeling `k` digits off a number with more than `k` leaves the rest of
      its digits. */
  lemma {:induction false} HighDigits(n: nat, k: nat)
    requires k <= NumDigits(n)
    ensures NumDigits(High(n, k)) == NumDigits(n) - k
  {
    if k > 0 {
      HighDigits(n / 10, k - 1);
    }
  }

  /** The character of a digit. */
  function Digit(d: nat): char
    requires d < 10
  {
    (48 + d) as char
  }

  /** The low `k` decimal digits of `n`, most significant first, with
      leading zeros. */
  function Padded(n: nat, k: nat): (s: string)
    ensures |s| == k
  {
    if k == 0 then [] else Padded(n / 10, k - 1) + [Digit(n % 10)]
  }

  /** `to_string`: the decimal digits without leading zeros, "0" for 0. */
  function Decimal(n: nat): (s: string)
    ensures |s| >= 1
  {
    if n == 0 then "0" else NumDigitsRange(n); Padded(n, NumDigits(n))
  }

  /** The digits of `n` split where the low `b` digits begin. */
  lemma {:induction false} PaddedSplit(n: nat, a: nat, b: nat)
    ensures Padded(n, a + b) == Padded(High(n, b), a) + Padded(n, b)
  {
    if b > 0 {
      PaddedSplit(n / 10, a, b - 1);
      assert Padded(n, a + b) == Padded(n / 10, a + b - 1) + [Digit(n % 10)];
    }
  }

  /** The low `k` digits are the digits of the low part. */
  lemma {:induction false} PaddedLow(n: nat, k: nat)
    ensures Padded(n, k) == Padded(Low(n, k), k)
  {
    if k > 0 {
      PaddedLow(n / 10, k - 1);
      var m := Low(n, k);
      assert m % 10 == n % 10 && m / 10 == Low(n / 10, k - 1);
    }
  }

  /** Two numbers below 10^k with the same `k` digits are equal. */
  lemma {:induction false} PaddedInjective(x: nat, y: nat, k: nat)
    requires x < Pow10(k) && y < Pow10(k)
    requires Padded(x, k) == Padded(y, k)
    ensures x == y
  {
    if k > 0 {
      assert Padded(x, k)[k - 1] == Digit(x % 10);
      assert Padded(y, k)[k - 1] == Digit(y % 10);
      assert Padded(x, k)[..k - 1] == Padded(x / 10, k - 1);
      assert Padded(y, k)[..k - 1] == Padded(y / 10, k - 1);
      PaddedInjective(x / 10, y / 10, k - 1);
    }
  }

  /** `n` is a `k`-digit block written twice: its part above the low `k`
      digits equals its low `k` digits and has exactly `k` digits. */
  ghost predicate Twice(n: nat, k: nat) {
    High(n, k) == Low(n, k) && NumDigits(High(n, k)) == k
  }

  /** A string whose first half equals its second half. */
  predicate HalvesEqual(s: string) {
    |s| >= 2 && |s| % 2 == 0 && s[..|s| / 2] == s[|s| / 2..]
  }

  /** A number written twice has a decimal form with equal halves. */
  lemma TwiceDecimal(n: nat, k: nat)
    requires k >= 1 && Twice(n, k)
    ensures Decimal(n) == Decimal(High(n, k)) + Decimal(High(n, k))
    ensures HalvesEqual(Decimal(n))
  {
    var h := High(n, k);
    HighAbove(n, k);
    PaddedSplit(n, k, k);
    PaddedLow(n, k);
    assert Decimal(n) == Padded(h, k) + Padded(h, k);
  }

  /** The part above the low `k` digits has the remaining digits, and is not
      0 when some remain. */
  lemma {:induction false} HighAbove(n: nat, k: nat)
    requires NumDigits(High(n, k)) >= 1
    ensures NumDigits(n) == NumDigits(High(n, k)) + k
  {
    if k > 0 {
      HighAbove(n / 10, k - 1);
      assert n > 0;
    }
  }

  /** A decimal form with equal halves is a number written twice. */
  lemma HalvesTwice(n: nat)
    requires n > 0 && HalvesEqual(Decimal(n))
    ensures |Decimal(n)| >= 2 && Twice(n, |Decimal(n)| / 2)
  {
    var k := |Decimal(n)| / 2;
    var h := High(n, k);
    assert NumDigits(n) == 2 * k;
    PaddedSplit(n, k, k);
    PaddedLow(n, k);
    HighDigits(n, k);
    NumDigitsRange(h);
    LowBelow(n, k);
    PaddedInjective(h, Low(n, k), k);
  }

  /** Below the length of the block, the high part of a number written twice
      exceeds its low part. */
  lemma StrictBefore(n: nat, k: nat)
    requires k >= 1 && Twice(n, k)
    ensures forall j :: 0 <= j < k ==> High(n, j) > Low(n, j)
  {
    HighAbove(n, k);
    forall j | 0 <= j < k
      ensures High(n, j) > Low(n, j)
    {
      HighDigits(n, j);
      NumDigitsRange(High(n, j));
      Pow10Mono(j, 2 * k - j - 1);
      LowBelow(n, j);
    }
  }

  /** Where the first loop of `is_invalid` stops, its two halves decide
      whether the decimal form has equal halves. */
  lemma StopDecides(n: nat, k0: nat)
    requires n > 0 && k0 >= 1
    requires High(n, k0) <= Low(n, k0)
    requires forall j :: 0 <= j < k0 ==> High(n, j) > Low(n, j)
    ensures HalvesEqual(Decimal(n)) <==> Twice(n, k0)
  {
    if Twice(n, k0) {
      TwiceDecimal(n, k0);
    }
    if HalvesEqual(Decimal(n)) {
      var k := |Decimal(n)| / 2;
      HalvesTwice(n);
      StrictBefore(n, k);
      assert k0 == k;
    }
  }

  /** The first loop of `is_invalid`: peels low digits of `n` into `right`
      until they reach the high part `left`. */
  method Peel(n: nat) returns (left: nat, right: nat, moved: nat)
    requires n > 0
    ensures moved >= 1 && left == High(n, moved) && right == Low(n, moved) && left <= right
    ensures forall j :: 0 <= j < moved ==> High(n, j) > Low(n, j)
  {
    left, right, moved := n, 0, 0;
    var factor := 1;
    while left > right
      invariant left == High(n, moved) && right == Low(n, moved)
      invariant factor == Pow10(moved)
      invariant forall j :: 0 <= j < moved ==> High(n, j) > Low(n, j)
      decreases left
    {
      HighStep(n, moved);
      LowStep(n, moved);
      right := right + (left % 10) * factor;
      left := left / 10;
      factor := factor * 10;
      moved := moved + 1;
    }
  }

  /** `is_invalid`: after peeling, the two parts must be equal and `left`
      must have as many digits as were peeled. */
  method IsInvalid(n: nat) returns (invalid: bool)
    ensures invalid <==> HalvesEqual(Decimal(n))
  {
    if n < 10 {
      TwoDigitDecimal(n);
      return false;
    }
    var left, right, moved := Peel(n);
    StopDecides(n, moved);
    if left == right {
      ghost var peeled, high := moved, left;
      var count: int := moved;
      while left > 0
        invariant count + NumDigits(high) == peeled + NumDigits(left)
        decreases left
      {
        left := left / 10;
        count := count - 1;
      }
      return count == 0;
    }
    return false;
  }

  /** Every `l`-character chunk from `i` on equals the first `l` characters. */
  predicate Chunks(s: string, l: nat, i: nat)
    requires 0 < l <= |s|
    decreases |s| - i
  {
    i >= |s| || (i + l <= |s| && s[i..i + l] == s[..l] && Chunks(s, l, i + l))
  }

  /** `p` written `m` times. */
  function Repeat(p: string, m: nat): (r: string)
    ensures |r| == m * |p|
  {
    if m == 0 then [] else p + Repeat(p, m - 1)
  }

  /** The chunks from `i` on match exactly when the rest of the string is the
      first chunk repeated. */
  lemma {:induction false} ChunksRepeat(s: string, l: nat, i: nat, m: nat)
    requires 0 < l <= |s| && i + m * l == |s|
    ensures Chunks(s, l, i) <==> s[i..] == Repeat(s[..l], m)
    decreases m
  {
    if m > 0 {
      assert i + l + (m - 1) * l == |s|;
      ChunksRepeat(s, l, i + l, m - 1);
      var r := Repeat(s[..l], m - 1);
      assert s[i..] == s[i..i + l] + s[i + l..];
      if s[i..] == s[..l] + r {
        assert s[i..i + l] == s[i..][..l];
        assert s[i + l..] == s[i..][l..];
      }
    }
  }

  /** The block lengths `l` below `bound` that `is_invalid_patterned` tries,
      for some of which the string is that block repeated. */
  ghost predicate ScannedBelow(s: string, bound: nat) {
    exists l :: 1 <= l < bound && l <= |s| && |s| % l == 0 && Chunks(s, l, l)
  }

  /** A string that is some block of at most half its length repeated. */
  ghost predicate RepeatedBlock(s: string) {
    ScannedBelow(s, |s| / 2 + 1)
  }

  lemma {:induction false} MulAtLeast(d: int, b: int)
    requires d >= 1 && b > 0
    ensures d * b >= b
    decreases d
  {
    if d > 1 {
      MulAtLeast(d - 1, b);
      assert d * b == (d - 1) * b + b;
    }
  }

  /** A quotient and remainder that recompose `a` are the ones of `/` and `%`. */
  lemma DivUnique(a: int, b: int, q: int, r: int)
    requires b > 0 && a == q * b + r && 0 <= r < b
    ensures a / b == q && a % b == r
  {
    var d := q - a / b;
    assert d * b == a % b - r;
    if d >= 1 {
      MulAtLeast(d, b);
    } else if d <= -1 {
      MulAtLeast(-d, b);
    }
  }

  /** The inner loop of `is_invalid_patterned`: compares chunk after chunk
      with the first while they match. */
  method ChunksMatch(s: string, l: nat) returns (matching: bool)
    requires 0 < l <= |s| && |s| % l == 0
    ensures matching <==> Chunks(s, l, l)
  {
    var i := l;
    ghost var rest: nat := |s| / l - 1;
    assert |s| == (|s| / l) * l;
    matching := true;
    while i < |s| && matching
      invariant l <= i <= |s| && |s| - i == rest * l
      invariant matching ==> (Chunks(s, l, l) <==> Chunks(s, l, i))
      invariant !matching ==> !Chunks(s, l, l)
      decreases |s| - i
    {
      MulAtLeast(rest, l);
      assert |s| - i - l == (rest - 1) * l;
      var chunk := s[i..i + l];
      assert Chunks(s, l, i) == (chunk == s[..l] && Chunks(s, l, i + l));
      i := i + l;
      rest := rest - 1;
      matching := s[..l] == chunk;
    }
  }

  /** The loop of `is_invalid_patterned` over block lengths `1..bound`: a
      length dividing the length is a match when every later chunk equals
      the first. */
  method ScanBlocks(s: string, bound: nat) returns (found: bool)
    requires 1 <= bound <= |s| + 1
    ensures found <==> ScannedBelow(s, bound)
  {
    for l := 1 to bound
      invariant forall k :: 1 <= k < l && |s| % k == 0 ==> !Chunks(s, k, k)
    {
      if |s| % l == 0 {
        var matching := ChunksMatch(s, l);
        if matching {
          return true;
        }
      }
    }
    return false;
  }

  /** `is_invalid_patterned` as written: block lengths `1..len / 2`, so the
      length `len / 2` itself is never tried. */
  method IsInvalidPatternedAsWritten(n: nat) returns (invalid: bool)
    ensures invalid <==> ScannedBelow(Decimal(n), |Decimal(n)| / 2)
  {
    if n < 10 {
      TwoDigitDecimal(n);
      return false;
    }
    var s := Decimal(n);
    assert |s| >= 2 by {
      assert n / 10 > 0;
      assert NumDigits(n / 10) >= 1;
    }
    invalid := ScanBlocks(s, |s| / 2);
  }

  /** `is_invalid_patterned` with block lengths `1..=len / 2`: true exactly
      when the decimal form is a block repeated. */
  method IsInvalidPatterned(n: nat) returns (invalid: bool)
    ensures invalid <==> RepeatedBlock(Decimal(n))
  {
    if n < 10 {
      TwoDigitDecimal(n);
      return false;
    }
    var s := Decimal(n);
    invalid := ScanBlocks(s, |s| / 2 + 1);
  }

  /** A string repeating a block of half its length or less is that block
      written two or more times. */
  lemma RepeatedBlockMeaning(s: string, l: nat)
    requires 1 <= l <= |s| / 2 && |s| % l == 0
    ensures |s| / l >= 2
    ensures Chunks(s, l, l) <==> s == Repeat(s[..l], |s| / l)
  {
    var m := |s| / l;
    assert |s| == m * l;
    if m < 2 {
      DivUnique(|s|, l, 1, |s| - l);
    }
    ChunksRepeat(s, l, l, m - 1);
    assert s == s[..l] + s[l..];
  }

  /** A block of characters written two or more times is a repeated block. */
  lemma RepeatIsBlock(p: string, m: nat)
    requires |p| >= 1 && m >= 2
    ensures RepeatedBlock(Repeat(p, m))
  {
    var s := Repeat(p, m);
    var l := |p|;
    assert |s| == m * l;
    DivUnique(|s|, l, m, 0);
    MulAtLeast(m - 1, l);
    assert m * l == (m - 1) * l + l;
    assert s[..l] == p;
    RepeatedBlockMeaning(s, l);
  }

  /** Equal halves are a block written twice. */
  lemma HalvesRepeated(s: string)
    requires HalvesEqual(s)
    ensures RepeatedBlock(s)
  {
    var l := |s| / 2;
    DivUnique(|s|, l, 2, 0);
    assert Chunks(s, l, 2 * l);
    assert Chunks(s, l, l);
  }

  /** An odd length `2l + 1` that `l` divides makes `l` 1. */
  lemma OddHalf(n: nat, l: nat)
    requires 1 <= l && n == 2 * l + 1 && n % l == 0
    ensures l == 1
  {
    if l > 1 {
      DivUnique(n, l, 2, 1);
    }
  }

  /** Apart from three characters, `is_invalid` together with the scan as
      written finds exactly the repeated blocks. */
  lemma AsWrittenAgrees(s: string)
    requires |s| != 3
    ensures (HalvesEqual(s) || ScannedBelow(s, |s| / 2)) <==> RepeatedBlock(s)
  {
    if HalvesEqual(s) {
      HalvesRepeated(s);
    }
    if RepeatedBlock(s) {
      var l :| 1 <= l < |s| / 2 + 1 && l <= |s| && |s| % l == 0 && Chunks(s, l, l);
      if l == |s| / 2 && |s| % 2 == 1 {
        OddHalf(|s|, l);
      }
      if l == |s| / 2 && |s| % 2 == 0 {
        assert Chunks(s, l, 2 * l);
        assert HalvesEqual(s);
      }
    }
  }

  /** As written, the three-digit repeats are missed: `111` is neither an
      even-length double nor found by the scan, though it is `1` three times. */
  lemma ThreeDigitsMissed()
    ensures Decimal(111) == "111"
    ensures !HalvesEqual(Decimal(111))
    ensures !ScannedBelow(Decimal(111), |Decimal(111)| / 2)
    ensures RepeatedBlock(Decimal(111))
  {
    assert NumDigits(111) == 3;
    assert Decimal(111) == Repeat("1", 3);
    RepeatIsBlock("1", 3);
  }

  /** The decimal forms of one and two digits. */
  lemma TwoDigitDecimal(n: nat)
    requires n < 100
    ensures n < 10 ==> |Decimal(n)| == 1
    ensures 10 <= n ==> Decimal(n) == [Digit(n / 10), Digit(n % 10)]
  {
    if 0 < n < 10 {
      NumDigitsBounds(n, 1);
    } else if 10 <= n {
      assert Pow10(2) == 100;
      NumDigitsBounds(n, 2);
      assert Padded(n / 10, 1) == [Digit(n / 10)];
    }
  }

  /** The decimal forms of three and four digits. */
  lemma FourDigitDecimal(n: nat)
    requires 100 <= n < 10000
    ensures n < 1000 ==> |Decimal(n)| == 3
    ensures 1000 <= n ==> Decimal(n) == [Digit(n / 10 / 10 / 10), Digit(n / 10 / 10 % 10), Digit(n / 10 % 10), Digit(n % 10)]
  {
    assert Pow10(2) == 100 && Pow10(3) == 1000 && Pow10(4) == 10000;
    if n < 1000 {
      NumDigitsBounds(n, 3);
    } else {
      NumDigitsBounds(n, 4);
      var m := n / 10 / 10;
      assert Padded(m, 2) == [Digit(m / 10), Digit(m % 10)];
      assert Padded(n / 10, 3) == Padded(m, 2) + [Digit(n / 10 % 10)];
      assert Padded(n, 4) == Padded(n / 10, 3) + [Digit(n % 10)];
    }
  }

  /** A two-digit id is invalid exactly when its digits agree. */
  lemma TwoDigitHalves(n: nat)
    requires 10 <= n < 100
    ensures HalvesEqual(Decimal(n)) <==> n / 10 == n % 10
  {
    TwoDigitDecimal(n);
    var s := Decimal(n);
    assert s[..1] == [s[0]] && s[1..] == [s[1]];
  }

  /** A four-digit id is invalid exactly when its two halves agree. */
  lemma FourDigitHalves(n: nat)
    requires 1000 <= n < 10000
    ensures HalvesEqual(Decimal(n)) <==> n / 100 == n % 100
  {
    FourDigitDecimal(n);
    var s := Decimal(n);
    assert s[..2] == [s[0], s[1]] && s[2..] == [s[2], s[3]];
    assert n / 100 == 10 * (n / 10 / 10 / 10) + n / 10 / 10 % 10;
    assert n % 100 == 10 * (n / 10 % 10) + n % 10;
  }

  /** `is_invalid` on the valid values of its test. */
  lemma IsInvalidValidExamples()
    ensures !HalvesEqual(Decimal(0)) && !HalvesEqual(Decimal(1)) && !HalvesEqual(Decimal(9))
    ensures !HalvesEqual(Decimal(10)) && !HalvesEqual(Decimal(12)) && !HalvesEqual(Decimal(21))
    ensures !HalvesEqual(Decimal(100)) && !HalvesEqual(Decimal(101)) && !HalvesEqual(Decimal(1000))
  {
    TwoDigitDecimal(0);
    TwoDigitDecimal(1);
    TwoDigitDecimal(9);
    TwoDigitHalves(10);
    TwoDigitHalves(12);
    TwoDigitHalves(21);
    FourDigitDecimal(100);
    FourDigitDecimal(101);
    FourDigitHalves(1000);
  }

  /** `is_invalid` on the invalid values of its test. */
  lemma IsInvalidInvalidExamples()
    ensures HalvesEqual(Decimal(11)) && HalvesEqual(Decimal(22))
    ensures HalvesEqual(Decimal(66)) && HalvesEqual(Decimal(1010))
  {
    TwoDigitHalves(11);
    TwoDigitHalves(22);
    TwoDigitHalves(66);
    FourDigitHalves(1010);
  }

  /** A range of ids `from ..= to` as parsed from the input. */
  datatype Span = Span(from: nat, to: nat)

  /** Which ids a sum adds: the invalid ones (`is_invalid`); those `main`
      adds to the patterned sum (`is_invalid`, or else the scan as written);
      or the intended patterned ones (a block repeated). */
  datatype Test = Doubled | Patterned | Repeated

  /** What `main` adds to the patterned sum: an invalid id, or one the scan
      as written finds. */
  ghost predicate PatternedAsWritten(s: string) {
    HalvesEqual(s) || ScannedBelow(s, |s| / 2)
  }

  ghost predicate Passes(n: nat, test: Test) {
    match test
    case Doubled => HalvesEqual(Decimal(n))
    case Patterned => PatternedAsWritten(Decimal(n))
    case Repeated => RepeatedBlock(Decimal(n))
  }

  /** What an id adds to a sum: itself when it passes the test, else 0. */
  ghost function Counted(n: nat, test: Test): nat {
    if Passes(n, test) then n else 0
  }

  /** The sum over the ids from `from` up to, not including, `n`. */
  ghost function SumUpTo(from: nat, n: nat, test: Test): nat
    decreases n
  {
    if n <= from then 0 else SumUpTo(from, n - 1, test) + Counted(n - 1, test)
  }

  /** The sum over all the ranges. */
  ghost function Total(spans: seq<Span>, test: Test): nat {
    if spans == [] then 0
    else
      var last := spans[|spans| - 1];
      Total(spans[..|spans| - 1], test) + SumUpTo(last.from, last.to + 1, test)
  }

  /** Every invalid id is added to the patterned sum, and every id that sum
      adds is a repeated block. */
  lemma PassesBelow(n: nat)
    ensures Passes(n, Doubled) ==> Passes(n, Patterned)
    ensures Passes(n, Patterned) ==> Passes(n, Repeated)
  {
    var s := Decimal(n);
    if HalvesEqual(s) {
      HalvesRepeated(s);
    }
    if ScannedBelow(s, |s| / 2) {
      var l :| 1 <= l < |s| / 2 && l <= |s| && |s| % l == 0 && Chunks(s, l, l);
      assert 1 <= l < |s| / 2 + 1;
    }
  }

  /** Over one range, the sums are ordered as their tests are. */
  lemma {:induction false} SumUpToBelow(from: nat, n: nat)
    ensures SumUpTo(from, n, Doubled) <= SumUpTo(from, n, Patterned) <= SumUpTo(from, n, Repeated)
    decreases n
  {
    if n > from {
      SumUpToBelow(from, n - 1);
      PassesBelow(n - 1);
    }
  }

  /** The sum of invalid ids never exceeds `main`'s patterned sum, which
      never exceeds the sum of the repeated blocks. */
  lemma {:induction false} TotalBelow(spans: seq<Span>)
    ensures Total(spans, Doubled) <= Total(spans, Patterned) <= Total(spans, Repeated)
  {
    if spans != [] {
      var last := spans[|spans| - 1];
      TotalBelow(spans[..|spans| - 1]);
      SumUpToBelow(last.from, last.to + 1);
    }
  }

  /** An id below 100 or from 1000 on does not have three digits. */
  lemma NotThreeDigits(n: nat)
    requires n < 100 || n >= 1000
    ensures |Decimal(n)| != 3
  {
    if 0 < n < 10 {
      NumDigitsBounds(n, 1);
    } else if 10 <= n < 100 {
      NumDigitsBounds(n, 2);
    } else if n >= 1000 {
      var a := n / 10;
      var b := a / 10;
      var m := b / 10;
      assert NumDigits(n) == 1 + NumDigits(a);
      assert NumDigits(a) == 1 + NumDigits(b);
      assert NumDigits(b) == 1 + NumDigits(m);
      NumDigitsRange(m);
    }
  }

  /** No id of the ranges has three digits. */
  predicate NoThreeDigitIds(spans: seq<Span>) {
    forall k :: 0 <= k < |spans| ==> spans[k].to < 100 || spans[k].from >= 1000 || spans[k].to < spans[k].from
  }

  lemma {:induction false} SumUpToAgrees(from: nat, n: nat)
    requires n <= 100 || from >= 1000 || n <= from
    ensures SumUpTo(from, n, Patterned) == SumUpTo(from, n, Repeated)
    decreases n
  {
    if n > from {
      SumUpToAgrees(from, n - 1);
      NotThreeDigits(n - 1);
      AsWrittenAgrees(Decimal(n - 1));
    }
  }

  /** Where no id has three digits, `main`'s patterned sum is the sum of the
      repeated blocks. */
  lemma {:induction false} TotalAgrees(spans: seq<Span>)
    requires NoThreeDigitIds(spans)
    ensures Total(spans, Patterned) == Total(spans, Repeated)
  {
    if spans != [] {
      var last := spans[|spans| - 1];
      assert NoThreeDigitIds(spans[..|spans| - 1]) by {
        forall k | 0 <= k < |spans| - 1
          ensures spans[..|spans| - 1][k] == spans[k]
        {
        }
      }
      TotalAgrees(spans[..|spans| - 1]);
      SumUpToAgrees(last.from, last.to + 1);
    }
  }

  /** On the range `111-111`, `main`'s patterned sum stays 0, where the sum
      of repeated blocks is 111. */
  lemma ThreeDigitSpan()
    ensures Total([Span(111, 111)], Patterned) == 0
    ensures Total([Span(111, 111)], Repeated) == 111
  {
    ThreeDigitsMissed();
    var spans := [Span(111, 111)];
    assert spans[..0] == [];
    assert SumUpTo(111, 111, Patterned) == 0 && SumUpTo(111, 111, Repeated) == 0;
  }

  /** The loop of `main` over one range `from ..= to`. */
  method SumSpan(from: nat, to: nat) returns (sum: nat, sumPatterned: nat)
    ensures sum == SumUpTo(from, to + 1, Doubled)
    ensures sumPatterned == SumUpTo(from, to + 1, Patterned)
  {
    sum, sumPatterned := 0, 0;
    var n := from;
    while n < to + 1
      invariant from <= n && (n <= to + 1 || n == from)
      invariant sum == SumUpTo(from, n, Doubled)
      invariant sumPatterned == SumUpTo(from, n, Patterned)
    {
      var invalid := IsInvalid(n);
      if invalid {
        sum := sum + n;
        sumPatterned := sumPatterned + n;
      } else {
        var patterned := IsInvalidPatternedAsWritten(n);
        if patterned {
          sumPatterned := sumPatterned + n;
        }
      }
      n := n + 1;
    }
  }

  /** `main`: an invalid id adds to both sums; an id that the scan as written
      finds adds to the patterned sum. */
  method SumInvalid(spans: seq<Span>) returns (sum: nat, sumPatterned: nat)
    ensures sum == Total(spans, Doubled)
    ensures sumPatterned == Total(spans, Patterned)
  {
    sum, sumPatterned := 0, 0;
    for k := 0 to |spans|
      invariant sum == Total(spans[..k], Doubled)
      invariant sumPatterned == Total(spans[..k], Patterned)
    {
      assert spans[..k + 1][..k] == spans[..k];
      var spanSum, spanPatterned := SumSpan(spans[k].from, spans[k].to);
      sum := sum + spanSum;
      sumPatterned := sumPatterned + spanPatterned;
    }
    assert spans[..|spans|] == spans;
  }
}
