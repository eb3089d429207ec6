/** Hexadecimal digit test (src/util/is_hex.rs). */
module IsHex {
  /** `IsHex for char`: accepts '0'..'9', 'a'..'f' and, as written, only
      'A' and 'B' among the upper-case letters. */
  predicate IsHex(ch: char) {
    ('a' <= ch <= 'f') || ('A' <= ch <= 'B') || ('0' <= ch <= '9')
  }

  /** The accepted characters, listed. */
  const Accepted: string := "0123456789abcdefAB"

  /** `IsHex` accepts exactly the listed characters: 'C'..'F' are rejected. */
  lemma {:induction false} IsHexExactly(ch: char)
    ensures IsHex(ch) <==> ch in Accepted
  {
    if IsHex(ch) {
      if 'a' <= ch <= 'f' {
        assert Accepted[10 + (ch as int - 'a' as int)] == ch;
      } else if 'A' <= ch <= 'B' {
        assert Accepted[16 + (ch as int - 'A' as int)] == ch;
      } else {
        assert Accepted[ch as int - '0' as int] == ch;
      }
    }
  }

  /** The evidently intended test: the digits and both cases of 'a'..'f'. */
  predicate IsHexDigit(ch: char) {
    ('a' <= ch <= 'f') || ('A' <= ch <= 'F') || ('0' <= ch <= '9')
  }

  const HexDigits: string := "0123456789abcdefABCDEF"

  lemma {:induction false} IsHexDigitExactly(ch: char)
    ensures IsHexDigit(ch) <==> ch in HexDigits
  {
    if IsHexDigit(ch) {
      if 'a' <= ch <= 'f' {
        assert HexDigits[10 + (ch as int - 'a' as int)] == ch;
      } else if 'A' <= ch <= 'F' {
        assert HexDigits[16 + (ch as int - 'A' as int)] == ch;
      } else {
        assert HexDigits[ch as int - '0' as int] == ch;
      }
    }
  }

  /** The two tests differ exactly on 'C'..'F', which the written test rejects. */
  lemma WrittenTestRejectsUpperCToF(ch: char)
    ensures IsHex(ch) != IsHexDigit(ch) <==> 'C' <= ch <= 'F'
    ensures !IsHex('C') && IsHexDigit('C')
  {
  }
}
