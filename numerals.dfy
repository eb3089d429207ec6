/** Decimal numerals: Rust's `to_string` on unsigned integers, and the value
    of a run of ASCII digits as `parse` reads it. */
module Numerals {
  import opened Wrappers

  predicate IsDigit(c: char) { '0' <= c <= '9' }

  predicate AllDigits(s: string) {
    forall i :: 0 <= i < |s| ==> IsDigit(s[i])
  }

  /** The number a string of decimal digits denotes. */
  function DecimalValue(s: string): nat
    requires AllDigits(s)
  {
    if s == [] then 0 else 10 * DecimalValue(s[..|s| - 1]) + (s[|s| - 1] as int - '0' as int)
  }

  /** The decimal digits of `n`, most significant first. */
  function Decimal(n: nat): (s: string)
    ensures s != [] && AllDigits(s)
  {
    if n < 10 then [('0' as int + n) as char]
    else Decimal(n / 10) + [('0' as int + n % 10) as char]
  }

  lemma {:induction false} DecimalRoundTrip(n: nat)
    ensures DecimalValue(Decimal(n)) == n
    decreases n
  {
    if n >= 10 {
      DecimalRoundTrip(n / 10);
      var s := Decimal(n);
      assert s[..|s| - 1] == Decimal(n / 10);
    }
  }

  /** `str::parse` for a signed integer type whose values are `lo ..= hi`:
      an optional `+` or `-`, then at least one digit, and a value in range. */
  function ParseSigned(s: string, lo: int, hi: int): (r: Option<int>)
    ensures r.Some? ==> lo <= r.value <= hi
  {
    var negative := |s| > 0 && s[0] == '-';
    var digits := if |s| > 0 && (s[0] == '-' || s[0] == '+') then s[1..] else s;
    if digits == [] || !AllDigits(digits) then None
    else
      var v: int := if negative then 0 - DecimalValue(digits) as int else DecimalValue(digits);
      if lo <= v <= hi then Some(v) else None
  }

  /** Printing a number in range and parsing it back gives the number. */
  lemma SignedRoundTrip(v: int, lo: int, hi: int)
    requires lo <= v <= hi
    ensures v >= 0 ==> ParseSigned(Decimal(v), lo, hi) == Some(v)
    ensures v < 0 ==> ParseSigned("-" + Decimal(-v), lo, hi) == Some(v)
  {
    if v >= 0 {
      DecimalRoundTrip(v);
    } else {
      DecimalRoundTrip(-v);
      assert ("-" + Decimal(-v))[1..] == Decimal(-v);
    }
  }

  /** A string that is not a sign followed by digits never parses. */
  lemma SignedRejects(s: string, lo: int, hi: int)
    requires s == [] || (!IsDigit(s[0]) && s[0] != '-' && s[0] != '+')
    ensures ParseSigned(s, lo, hi) == None
  {
    if s != [] {
      assert !IsDigit(s[0]);
    }
  }

  /** The number a string denotes if it is all decimal digits (the empty
      string denotes 0), or nothing. */
  function DigitsValue(s: string): Option<nat> {
    if s == [] then Some(0)
    else match DigitsValue(s[..|s| - 1])
      case None => None
      case Some(v) => if IsDigit(s[|s| - 1]) then Some(10 * v + (s[|s| - 1] as int - '0' as int)) else None
  }

  /** `DigitsValue` accepts exactly the strings of digits, and reads them as `DecimalValue` does. */
  lemma {:induction false} DigitsValueMeaning(s: string)
    ensures DigitsValue(s).Some? <==> AllDigits(s)
    ensures DigitsValue(s).Some? ==> DigitsValue(s).value == DecimalValue(s)
  {
    if s != [] {
      var init := s[..|s| - 1];
      DigitsValueMeaning(init);
      assert forall i :: 0 <= i < |init| ==> init[i] == s[i];
      if !IsDigit(s[|s| - 1]) {
        assert !AllDigits(s);
      }
    }
  }

  /** `str::parse` for an unsigned integer type whose largest value is `hi`:
      an optional `+`, then at least one digit, and a value in range. */
  function ParseUnsigned(s: string, hi: nat): (r: Option<nat>)
    ensures r.Some? ==> r.value <= hi
  {
    var digits := if |s| > 0 && s[0] == '+' then s[1..] else s;
    if digits == [] then None
    else match DigitsValue(digits)
      case None => None
      case Some(v) => if v <= hi then Some(v) else None
  }

  /** `ParseUnsigned` in terms of the digits after an optional `+`. */
  lemma UnsignedMeaning(s: string, hi: nat)
    ensures var digits := if |s| > 0 && s[0] == '+' then s[1..] else s;
      ParseUnsigned(s, hi) == if digits != [] && AllDigits(digits) && DecimalValue(digits) <= hi
        then Some(DecimalValue(digits)) else None
  {
    DigitsValueMeaning(if |s| > 0 && s[0] == '+' then s[1..] else s);
  }

  /** Printing an unsigned number in range and parsing it back gives the number. */
  lemma UnsignedRoundTrip(v: nat, hi: nat)
    requires v <= hi
    ensures ParseUnsigned(Decimal(v), hi) == Some(v)
  {
    DecimalRoundTrip(v);
    UnsignedMeaning(Decimal(v), hi);
  }

  /** A minus sign, or anything else that is neither `+` nor a digit, is refused. */
  lemma UnsignedRejects(s: string, hi: nat)
    requires s == [] || (!IsDigit(s[0]) && s[0] != '+')
    ensures ParseUnsigned(s, hi) == None
  {
    UnsignedMeaning(s, hi);
    if s != [] {
      assert !IsDigit(s[0]);
    }
  }
}
