/** 2015 day 8: how many characters the escapes of a string literal save in
    memory, and how many re-escaping the literal would cost
    (src/year_2015/day08.rs). */
module Year2015Day08 {
  import opened Wrappers
  import opened IsHex

  type Counts = (nat, nat)

  /** Why a line is not a well-formed literal. */
  datatype Fault = LonesomeQuote | NothingAfterSlash | MissingHexDigits | NotHexDigit | UnexpectedEscape

  /** Which hex-digit test the scan uses: `IsHex` as written (which accepts
      only 'A' and 'B' among upper-case letters), or the repaired
      `IsHexDigit`. */
  datatype HexTest = Written | Repaired

  predicate Accepts(hex: HexTest, ch: char) {
    if hex == Written then IsHex.IsHex(ch) else IsHexDigit(ch)
  }

  /** Adds `(da, db)` to a successful count; an error stays an error. */
  function Plus(r: Result<Counts, Fault>, da: nat, db: nat): Result<Counts, Fault> {
    if r.Err? then r else Ok((r.value.0 + da, r.value.1 + db))
  }

  /** What scanning `line` from index `i` to its end adds to both differences.
      A quote counts only as the first or the last character; after a
      backslash come a quote, a backslash, or `x` and two characters that
      `hex` accepts. `main` scans with the test as written. */
  function Scan(hex: HexTest, line: string, i: nat): Result<Counts, Fault>
    requires 0 < |line| && i <= |line|
    decreases |line| - i
  {
    if i == |line| then Ok((0, 0))
    else if line[i] == '"' then
      if i == 0 || i == |line| - 1 then Plus(Scan(hex, line, i + 1), 1, 2)
      else Err(LonesomeQuote)
    else if line[i] == '\\' then
      if i + 1 == |line| then Err(NothingAfterSlash)
      else if line[i + 1] == '"' || line[i + 1] == '\\' then Plus(Scan(hex, line, i + 2), 1, 2)
      else if line[i + 1] == 'x' then
        if i + 3 >= |line| then Err(MissingHexDigits)
        else if !Accepts(hex, line[i + 2]) || !Accepts(hex, line[i + 3]) then Err(NotHexDigit)
        else Plus(Scan(hex, line, i + 4), 3, 1)
      else Err(UnexpectedEscape)
    else Scan(hex, line, i + 1)
  }

  /** The scan of one line, character by character; a non-empty line is needed
      because the index of its last character is computed first. */
  method ScanLine(hex: HexTest, line: string) returns (r: Result<Counts, Fault>)
    requires |line| > 0
    ensures r == Scan(hex, line, 0)
  {
    var last := |line| - 1;
    var a: nat, b: nat := 0, 0;
    var i := 0;
    while i < |line|
      invariant i <= |line|
      invariant Scan(hex, line, 0) == Plus(Scan(hex, line, i), a, b)
      decreases |line| - i
    {
      var ch := line[i];
      if ch == '"' {
        if i == 0 || i == last {
          a, b := a + 1, b + 2;
        } else {
          return Err(LonesomeQuote);
        }
        i := i + 1;
      } else if ch == '\\' {
        if i + 1 == |line| {
          return Err(NothingAfterSlash);
        }
        var next := line[i + 1];
        if next == '"' || next == '\\' {
          a, b := a + 1, b + 2;
          i := i + 2;
        } else if next == 'x' {
          if i + 3 >= |line| {
            return Err(MissingHexDigits);
          }
          if !Accepts(hex, line[i + 2]) || !Accepts(hex, line[i + 3]) {
            return Err(NotHexDigit);
          }
          a, b := a + 3, b + 1;
          i := i + 4;
        } else {
          return Err(UnexpectedEscape);
        }
      } else {
        i := i + 1;
      }
    }
    r := Ok((a, b));
  }

  /** The differences summed over the lines from `k` on, scanned with `IsHex`
      as written; the first line that fails is the error. */
  function TotalsFrom(lines: seq<string>, k: nat): Result<Counts, Fault>
    requires forall j :: 0 <= j < |lines| ==> |lines[j]| > 0
    requires k <= |lines|
    decreases |lines| - k
  {
    if k == |lines| then Ok((0, 0))
    else
      var line := Scan(Written, lines[k], 0);
      if line.Err? then Err(line.error) else Plus(TotalsFrom(lines, k + 1), line.value.0, line.value.1)
  }

  /** `main`: both differences over all lines, with `IsHex` as written; the
      first bad line is the error. */
  method Totals(lines: seq<string>) returns (r: Result<Counts, Fault>)
    requires forall k :: 0 <= k < |lines| ==> |lines[k]| > 0
    ensures r == TotalsFrom(lines, 0)
    ensures r.Ok? ==> forall k :: 0 <= k < |lines| ==> Scan(Written, lines[k], 0).Ok?
    ensures r.Err? ==> exists k :: 0 <= k < |lines| && Scan(Written, lines[k], 0).Err?
  {
    var a: nat, b: nat := 0, 0;
    for k := 0 to |lines|
      invariant forall j :: 0 <= j < k ==> Scan(Written, lines[j], 0).Ok?
      invariant TotalsFrom(lines, 0) == Plus(TotalsFrom(lines, k), a, b)
    {
      var line := ScanLine(Written, lines[k]);
      if line.Err? {
        return Err(line.error);
      }
      a, b := a + line.value.0, b + line.value.1;
    }
    r := Ok((a, b));
  }

  /** How a string is written as a literal: in quotes, with every quote and
      backslash escaped. */
  function Escape(s: string): (e: string)
    ensures |e| == |s| + Specials(s) + 2
  {
    ['"'] + EscapeBody(s) + ['"']
  }

  function EscapeBody(s: string): (e: string)
    ensures |e| == |s| + Specials(s)
  {
    if s == [] then [] else EscapeChar(s[0]) + EscapeBody(s[1..])
  }

  function EscapeChar(c: char): string {
    if c == '"' || c == '\\' then ['\\', c] else [c]
  }

  /** The number of quotes and backslashes in `s`. */
  function Specials(s: string): nat {
    if s == [] then 0 else (if s[0] == '"' || s[0] == '\\' then 1 else 0) + Specials(s[1..])
  }

  /** Scanning an escaped body that does not reach the last character adds one
      per escape to the memory difference and two to the re-escape difference. */
  lemma {:induction false} ScanBody(hex: HexTest, line: string, i: nat, s: string)
    requires 0 < i && i + |EscapeBody(s)| < |line|
    requires line[i..i + |EscapeBody(s)|] == EscapeBody(s)
    ensures Scan(hex, line, i) == Plus(Scan(hex, line, i + |EscapeBody(s)|), Specials(s), 2 * Specials(s))
    decreases |s|
  {
    if s != [] {
      var head := EscapeChar(s[0]);
      var rest := EscapeBody(s[1..]);
      assert EscapeBody(s) == head + rest;
      Window(line, i, head, rest);
      ScanBody(hex, line, i + |head|, s[1..]);
      ScanBodyCons(hex, line, i, s);
    } else {
      PlusZero(Scan(hex, line, i));
    }
  }

  /** The step of `ScanBody`: the first escaped character, then the rest as
      the hypothesis says. */
  lemma ScanBodyCons(hex: HexTest, line: string, i: nat, s: string)
    requires s != [] && 0 < i && i + |EscapeBody(s)| < |line|
    requires line[i..i + |EscapeBody(s)|] == EscapeBody(s)
    requires var j := i + |EscapeChar(s[0])|;
      j <= |line| && Scan(hex, line, j) == Plus(Scan(hex, line, i + |EscapeBody(s)|), Specials(s[1..]), 2 * Specials(s[1..]))
    ensures Scan(hex, line, i) == Plus(Scan(hex, line, i + |EscapeBody(s)|), Specials(s), 2 * Specials(s))
  {
    var head := EscapeChar(s[0]);
    var rest := EscapeBody(s[1..]);
    assert EscapeBody(s) == head + rest;
    var n := if s[0] == '"' || s[0] == '\\' then 1 else 0;
    assert Specials(s) == n + Specials(s[1..]);
    Window(line, i, head, rest);
    ScanEscapeChar(hex, line, i, s[0]);
    var here, mid, end := Scan(hex, line, i), Scan(hex, line, i + |head|), Scan(hex, line, i + |EscapeBody(s)|);
    Glue(here, mid, end, n, Specials(s[1..]));
  }

  lemma PlusZero(r: Result<Counts, Fault>)
    ensures Plus(r, 0, 0) == r
  {
  }

  /** Two scans in a row add up. */
  lemma Glue(r: Result<Counts, Fault>, r': Result<Counts, Fault>, r'': Result<Counts, Fault>, n: nat, m: nat)
    requires r == Plus(r', n, 2 * n) && r' == Plus(r'', m, 2 * m)
    ensures r == Plus(r'', n + m, 2 * (n + m))
  {
  }


  /** A window of `line` that spells `head + rest` spells `head`, then `rest`. */
  lemma Window(line: string, i: nat, head: string, rest: string)
    requires i + |head| + |rest| <= |line| && line[i..i + |head| + |rest|] == head + rest
    ensures line[i..i + |head|] == head && line[i + |head|..i + |head| + |rest|] == rest
  {
    var window := line[i..i + |head| + |rest|];
    assert line[i..i + |head|] == window[..|head|];
    assert line[i + |head|..i + |head| + |rest|] == window[|head|..];
  }

  /** Scanning one escaped character inside the quotes. */
  lemma ScanEscapeChar(hex: HexTest, line: string, i: nat, c: char)
    requires 0 < i && i + |EscapeChar(c)| < |line|
    requires line[i..i + |EscapeChar(c)|] == EscapeChar(c)
    ensures var n := if c == '"' || c == '\\' then 1 else 0;
      Scan(hex, line, i) == Plus(Scan(hex, line, i + |EscapeChar(c)|), n, 2 * n)
  {
    assert line[i] == EscapeChar(c)[0];
    if c == '"' || c == '\\' {
      assert line[i + 1] == c;
    }
  }

  lemma QuoteAtEnd(hex: HexTest, line: string, i: nat)
    requires i < |line| && (i == 0 || i == |line| - 1) && line[i] == '"'
    ensures Scan(hex, line, i) == Plus(Scan(hex, line, i + 1), 1, 2)
  {
  }

  /** A quoted line whose inside scans to `(k, 2k)` scans to `(k + 2, 2k + 4)`. */
  lemma BetweenQuotes(hex: HexTest, line: string, k: nat)
    requires |line| >= 2 && line[0] == '"' && line[|line| - 1] == '"'
    requires Scan(hex, line, 1) == Plus(Scan(hex, line, |line| - 1), k, 2 * k)
    ensures Scan(hex, line, 0) == Ok((k + 2, 2 * k + 4))
  {
    QuoteAtEnd(hex, line, 0);
    QuoteAtEnd(hex, line, |line| - 1);
  }

  /** The literal of any string scans with a memory difference of its escapes
      plus the two quotes, and a re-escape difference of twice that, whatever
      the hex test: escaping never writes `\x`. */
  lemma EscapedLiteral(hex: HexTest, s: string)
    ensures Scan(hex, Escape(s), 0) == Ok((Specials(s) + 2, 2 * Specials(s) + 4))
  {
    var line := Escape(s);
    var k := Specials(s);
    LiteralShape(s);
    ScanBody(hex, line, 1, s);
    BetweenQuotes(hex, line, k);
  }

  lemma LiteralShape(s: string)
    ensures var line, body := Escape(s), EscapeBody(s);
      && line[0] == '"' && line[|line| - 1] == '"'
      && 1 + |body| == |line| - 1 && line[1..1 + |body|] == body
  {
    var body := EscapeBody(s);
    assert Escape(s) == ['"'] + body + ['"'];
  }

  /** The quoted escape `"\xHH"` of one byte, with the digits taken from
      `digits`. */
  function ByteLiteral(digits: string, b: nat): string
    requires |digits| == 16 && b < 256
  {
    ['"', '\\', 'x', digits[b / 16], digits[b % 16], '"']
  }

  /** A byte literal scans to `(5, 5)` when the test accepts both digits,
      and fails on the first rejected digit otherwise. */
  lemma ScanByte(hex: HexTest, digits: string, b: nat)
    requires |digits| == 16 && b < 256
    ensures Scan(hex, ByteLiteral(digits, b), 0) ==
      if Accepts(hex, digits[b / 16]) && Accepts(hex, digits[b % 16]) then Ok((5, 5)) else Err(NotHexDigit)
  {
    var line := ByteLiteral(digits, b);
    assert Scan(hex, line, 5) == Ok((1, 2));
    assert line[3] == digits[b / 16] && line[4] == digits[b % 16];
    assert Scan(hex, line, 0) == Plus(Scan(hex, line, 1), 1, 2);
  }

  /** With the repaired test every byte escape counts: three characters saved
      in memory, one more to re-escape, plus the quotes, in either case of
      hex digit. */
  lemma ByteEscapeCounts(b: nat, upper: bool)
    requires b < 256
    ensures var digits := if upper then "0123456789ABCDEF" else "0123456789abcdef";
      Scan(Repaired, ByteLiteral(digits, b), 0) == Ok((5, 5))
  {
    var digits := if upper then "0123456789ABCDEF" else "0123456789abcdef";
    ScanByte(Repaired, digits, b);
    assert IsHexDigit(digits[b / 16]) && IsHexDigit(digits[b % 16]);
  }

  /** As written, `main` rejects the escape `\xCF` of a byte whose digits
      are upper-case 'C'..'F' but counts the same byte in lower case. */
  lemma UpperEscapeRejected()
    ensures Scan(Written, ByteLiteral("0123456789ABCDEF", 0xCF), 0) == Err(NotHexDigit)
    ensures Scan(Written, ByteLiteral("0123456789abcdef", 0xCF), 0) == Ok((5, 5))
    ensures Scan(Repaired, ByteLiteral("0123456789ABCDEF", 0xCF), 0) == Ok((5, 5))
  {
    var upper, lower := "0123456789ABCDEF", "0123456789abcdef";
    ScanByte(Written, upper, 0xCF);
    ScanByte(Written, lower, 0xCF);
    ScanByte(Repaired, upper, 0xCF);
    assert upper[12] == 'C' && upper[15] == 'F' && lower[12] == 'c' && lower[15] == 'f';
  }
}
