/** 2016 day 2: moving a finger over a keypad, one digit per line; the
    expected 3x3 keypad and the actual diamond-shaped one. */
module Year2016Day02 {
  import opened Wrappers

  datatype Keypad = Square | Diamond

  /** The 3x3 keypad's table: 1 2 3 / 4 5 6 / 7 8 9. */
  function MoveSquare(ch: char, key: nat): Option<nat> {
    match (ch, key)
    case ('U', 1) => Some(1)
    case ('U', 2) => Some(2)
    case ('U', 3) => Some(3)
    case ('U', 4) => Some(1)
    case ('U', 5) => Some(2)
    case ('U', 6) => Some(3)
    case ('U', 7) => Some(4)
    case ('U', 8) => Some(5)
    case ('U', 9) => Some(6)
    case ('R', 1) => Some(2)
    case ('R', 2) => Some(3)
    case ('R', 3) => Some(3)
    case ('R', 4) => Some(5)
    case ('R', 5) => Some(6)
    case ('R', 6) => Some(6)
    case ('R', 7) => Some(8)
    case ('R', 8) => Some(9)
    case ('R', 9) => Some(9)
    case ('D', 1) => Some(4)
    case ('D', 2) => Some(5)
    case ('D', 3) => Some(6)
    case ('D', 4) => Some(7)
    case ('D', 5) => Some(8)
    case ('D', 6) => Some(9)
    case ('D', 7) => Some(7)
    case ('D', 8) => Some(8)
    case ('D', 9) => Some(9)
    case ('L', 1) => Some(1)
    case ('L', 2) => Some(1)
    case ('L', 3) => Some(2)
    case ('L', 4) => Some(4)
    case ('L', 5) => Some(4)
    case ('L', 6) => Some(5)
    case ('L', 7) => Some(7)
    case ('L', 8) => Some(7)
    case ('L', 9) => Some(8)
    case _ => None
  }

  /** The diamond keypad's table:
          1
        2 3 4
      5 6 7 8 9
        A B C
          D        */
  function MoveDiamond(ch: char, key: nat): Option<nat> {
    match (ch, key)
    case ('U', 0x1) => Some(0x1)
    case ('U', 0x2) => Some(0x2)
    case ('U', 0x3) => Some(0x1)
    case ('U', 0x4) => Some(0x4)
    case ('U', 0x5) => Some(0x5)
    case ('U', 0x6) => Some(0x2)
    case ('U', 0x7) => Some(0x3)
    case ('U', 0x8) => Some(0x4)
    case ('U', 0x9) => Some(0x9)
    case ('U', 0xA) => Some(0x6)
    case ('U', 0xB) => Some(0x7)
    case ('U', 0xC) => Some(0x8)
    case ('U', 0xD) => Some(0xB)
    case ('R', 0x1) => Some(0x1)
    case ('R', 0x2) => Some(0x3)
    case ('R', 0x3) => Some(0x4)
    case ('R', 0x4) => Some(0x4)
    case ('R', 0x5) => Some(0x6)
    case ('R', 0x6) => Some(0x7)
    case ('R', 0x7) => Some(0x8)
    case ('R', 0x8) => Some(0x9)
    case ('R', 0x9) => Some(0x9)
    case ('R', 0xA) => Some(0xB)
    case ('R', 0xB) => Some(0xC)
    case ('R', 0xC) => Some(0xC)
    case ('R', 0xD) => Some(0xD)
    case ('D', 0x1) => Some(0x3)
    case ('D', 0x2) => Some(0x6)
    case ('D', 0x3) => Some(0x7)
    case ('D', 0x4) => Some(0x8)
    case ('D', 0x5) => Some(0x5)
    case ('D', 0x6) => Some(0xA)
    case ('D', 0x7) => Some(0xB)
    case ('D', 0x8) => Some(0xC)
    case ('D', 0x9) => Some(0x9)
    case ('D', 0xA) => Some(0xA)
    case ('D', 0xB) => Some(0xD)
    case ('D', 0xC) => Some(0xC)
    case ('D', 0xD) => Some(0xD)
    case ('L', 0x1) => Some(0x1)
    case ('L', 0x2) => Some(0x2)
    case ('L', 0x3) => Some(0x2)
    case ('L', 0x4) => Some(0x3)
    case ('L', 0x5) => Some(0x5)
    case ('L', 0x6) => Some(0x5)
    case ('L', 0x7) => Some(0x6)
    case ('L', 0x8) => Some(0x7)
    case ('L', 0x9) => Some(0x8)
    case ('L', 0xA) => Some(0xA)
    case ('L', 0xB) => Some(0xA)
    case ('L', 0xC) => Some(0xB)
    case ('L', 0xD) => Some(0xD)
    case _ => None
  }

  function Move(pad: Keypad, ch: char, key: nat): Option<nat> {
    if pad == Square then MoveSquare(ch, key) else MoveDiamond(ch, key)
  }

  predicate IsDirection(ch: char) {
    ch == 'U' || ch == 'D' || ch == 'L' || ch == 'R'
  }

  /** The keys a keypad has. */
  predicate OnPad(pad: Keypad, key: nat) {
    if pad == Square then 1 <= key <= 9 else 1 <= key <= 0xD
  }

  // ----- the tables against the keypads' geometry -----

  /** A key's place as (row, column); the diamond is centred on (2, 2). */
  function Place(pad: Keypad, key: nat): (int, int)
    requires OnPad(pad, key)
  {
    if pad == Square then ((key - 1) / 3, (key - 1) % 3)
    else if key == 1 then (0, 2)
    else if key <= 4 then (1, key - 1)
    else if key <= 9 then (2, key - 5)
    else if key <= 0xC then (3, key - 9)
    else (4, 2)
  }

  predicate InPad(pad: Keypad, place: (int, int)) {
    if pad == Square then 0 <= place.0 < 3 && 0 <= place.1 < 3
    else Abs(place.0 - 2) + Abs(place.1 - 2) <= 2
  }

  function Abs(x: int): nat {
    if x < 0 then -x else x
  }

  function Shift(ch: char, place: (int, int)): (int, int) {
    match ch
    case 'U' => (place.0 - 1, place.1)
    case 'D' => (place.0 + 1, place.1)
    case 'L' => (place.0, place.1 - 1)
    case _ => (place.0, place.1 + 1)
  }

  /** Every listed move goes one place in its direction when that stays on
      the keypad and stays put otherwise; every other pair is refused. */
  lemma SquareTableIsGeometry(ch: char, key: nat)
    ensures MoveSquare(ch, key).Some? <==> IsDirection(ch) && OnPad(Square, key)
    ensures MoveSquare(ch, key).Some? ==>
      OnPad(Square, MoveSquare(ch, key).value)
      && Place(Square, MoveSquare(ch, key).value)
         == (if InPad(Square, Shift(ch, Place(Square, key))) then Shift(ch, Place(Square, key)) else Place(Square, key))
  {
  }

  lemma DiamondTableIsGeometry(ch: char, key: nat)
    ensures MoveDiamond(ch, key).Some? <==> IsDirection(ch) && OnPad(Diamond, key)
    ensures MoveDiamond(ch, key).Some? ==> DiamondMoveIsGeometry(ch, key)
  {
    if IsDirection(ch) && 1 <= key <= 4 {
      DiamondTop(ch, key);
    } else if IsDirection(ch) && 5 <= key <= 9 {
      DiamondMiddle(ch, key);
    } else if IsDirection(ch) && 10 <= key <= 0xD {
      DiamondBottom(ch, key);
    }
  }

  ghost predicate DiamondMoveIsGeometry(ch: char, key: nat)
    requires MoveDiamond(ch, key).Some?
  {
    OnPad(Diamond, key)
    && OnPad(Diamond, MoveDiamond(ch, key).value)
    && Place(Diamond, MoveDiamond(ch, key).value)
       == (if InPad(Diamond, Shift(ch, Place(Diamond, key))) then Shift(ch, Place(Diamond, key)) else Place(Diamond, key))
  }

  lemma DiamondTop(ch: char, key: nat)
    requires IsDirection(ch) && 1 <= key <= 4
    ensures MoveDiamond(ch, key).Some? && DiamondMoveIsGeometry(ch, key)
  {
  }

  lemma DiamondMiddle(ch: char, key: nat)
    requires IsDirection(ch) && 5 <= key <= 9
    ensures MoveDiamond(ch, key).Some? && DiamondMoveIsGeometry(ch, key)
  {
  }

  lemma DiamondBottom(ch: char, key: nat)
    requires IsDirection(ch) && 10 <= key <= 0xD
    ensures MoveDiamond(ch, key).Some? && DiamondMoveIsGeometry(ch, key)
  {
  }

  lemma MoveStaysOnPad(pad: Keypad, ch: char, key: nat)
    ensures Move(pad, ch, key).Some? ==> OnPad(pad, Move(pad, ch, key).value)
    ensures Move(pad, ch, key).Some? <==> IsDirection(ch) && OnPad(pad, key)
  {
    if pad == Square {
      SquareTableIsGeometry(ch, key);
    } else {
      DiamondTableIsGeometry(ch, key);
    }
  }

  // ----- the lines -----

  /** The key after a line's moves, or `None` at the first refused pair. */
  function Follow(pad: Keypad, line: string, key: nat): Option<nat> {
    if line == [] then Some(key)
    else
      match Follow(pad, line[..|line| - 1], key)
      case None => None
      case Some(k) => Move(pad, line[|line| - 1], k)
  }

  /** The digit of each line, each line starting where the last one ended. */
  function Code(pad: Keypad, lines: seq<string>): Option<seq<nat>> {
    if lines == [] then Some([])
    else
      match Code(pad, lines[..|lines| - 1])
      case None => None
      case Some(code) =>
        var start := if code == [] then 5 else code[|code| - 1];
        match Follow(pad, lines[|lines| - 1], start)
        case None => None
        case Some(k) => Some(code + [k])
  }

  lemma {:induction false} FollowStaysOnPad(pad: Keypad, line: string, key: nat)
    requires OnPad(pad, key)
    ensures Follow(pad, line, key).Some? ==> OnPad(pad, Follow(pad, line, key).value)
    ensures Follow(pad, line, key).Some? <==> forall i :: 0 <= i < |line| ==> IsDirection(line[i])
  {
    if line != [] {
      var init := line[..|line| - 1];
      FollowStaysOnPad(pad, init, key);
      if Follow(pad, init, key).Some? {
        MoveStaysOnPad(pad, line[|line| - 1], Follow(pad, init, key).value);
      }
      assert forall i :: 0 <= i < |init| ==> init[i] == line[i];
    }
  }

  /** Every digit is a key of the keypad, one per line. */
  lemma {:induction false} CodeOnPad(pad: Keypad, lines: seq<string>)
    ensures Code(pad, lines).Some? ==>
      |Code(pad, lines).value| == |lines|
      && forall i :: 0 <= i < |lines| ==> OnPad(pad, Code(pad, lines).value[i])
  {
    if lines != [] {
      var init := lines[..|lines| - 1];
      CodeOnPad(pad, init);
      var code := Code(pad, init);
      if code.Some? {
        var start := if code.value == [] then 5 else code.value[|code.value| - 1];
        assert OnPad(pad, start);
        FollowStaysOnPad(pad, lines[|lines| - 1], start);
      }
    }
  }

  /** `main`'s loops: both keypads from 5, one digit per line after its moves. */
  method BathroomCodes(lines: seq<string>) returns (r: Result<(seq<nat>, seq<nat>), string>)
    ensures r.Ok? <==> Code(Square, lines).Some? && Code(Diamond, lines).Some?
    ensures r.Ok? ==> r.value == (Code(Square, lines).value, Code(Diamond, lines).value)
  {
    var key, keyActual := 5, 5;
    var code, codeActual := [], [];
    for i := 0 to |lines|
      invariant Code(Square, lines[..i]) == Some(code) && Code(Diamond, lines[..i]) == Some(codeActual)
      invariant key == (if code == [] then 5 else code[|code| - 1])
      invariant keyActual == (if codeActual == [] then 5 else codeActual[|codeActual| - 1])
    {
      assert lines[..i + 1][..i] == lines[..i];
      var next := FollowLine(lines[i], key, keyActual);
      if next.Err? {
        if Follow(Square, lines[i], key).None? {
          CodeStopsAt(Square, lines, i);
        } else {
          CodeStopsAt(Diamond, lines, i);
        }
        return Err(next.error);
      }
      key, keyActual := next.value.0, next.value.1;
      code := code + [key];
      codeActual := codeActual + [keyActual];
    }
    assert lines[..|lines|] == lines;
    return Ok((code, codeActual));
  }

  /** The inner loop of `main`: one line's moves on both keypads at once,
      stopping at the first pair either table refuses. */
  method FollowLine(line: string, start: nat, startActual: nat) returns (r: Result<(nat, nat), string>)
    ensures r.Ok? <==> Follow(Square, line, start).Some? && Follow(Diamond, line, startActual).Some?
    ensures r.Ok? ==> r.value == (Follow(Square, line, start).value, Follow(Diamond, line, startActual).value)
  {
    var key, keyActual := start, startActual;
    for j := 0 to |line|
      invariant Follow(Square, line[..j], start) == Some(key)
      invariant Follow(Diamond, line[..j], startActual) == Some(keyActual)
    {
      assert line[..j + 1][..j] == line[..j];
      var next := MoveSquare(line[j], key);
      if next.None? {
        NoLaterRecovery(Square, line, start, j + 1);
        return Err("Unrecognized expected combination");
      }
      key := next.value;
      var nextActual := MoveDiamond(line[j], keyActual);
      if nextActual.None? {
        NoLaterRecovery(Diamond, line, startActual, j + 1);
        return Err("Unrecognized actual combination");
      }
      keyActual := nextActual.value;
    }
    assert line[..|line|] == line;
    return Ok((key, keyActual));
  }

  /** A refused pair ends the line's walk for good. */
  lemma {:induction false} NoLaterRecovery(pad: Keypad, line: string, key: nat, j: nat)
    requires j <= |line| && Follow(pad, line[..j], key).None?
    ensures Follow(pad, line, key).None?
    decreases |line| - j
  {
    if j < |line| {
      assert line[..j + 1][..j] == line[..j];
      NoLaterRecovery(pad, line, key, j + 1);
    } else {
      assert line[..j] == line;
    }
  }

  /** A line that fails fails the whole code. */
  lemma {:induction false} CodeStopsAt(pad: Keypad, lines: seq<string>, i: nat)
    requires i < |lines| && Code(pad, lines[..i]).Some?
    requires var code := Code(pad, lines[..i]).value;
      Follow(pad, lines[i], if code == [] then 5 else code[|code| - 1]).None?
    ensures Code(pad, lines).None?
    decreases |lines| - i
  {
    assert lines[..i + 1][..i] == lines[..i];
    CodeNoneSticks(pad, lines, i + 1);
  }

  lemma {:induction false} CodeNoneSticks(pad: Keypad, lines: seq<string>, i: nat)
    requires i <= |lines| && Code(pad, lines[..i]).None?
    ensures Code(pad, lines).None?
    decreases |lines| - i
  {
    if i < |lines| {
      assert lines[..i + 1][..i] == lines[..i];
      CodeNoneSticks(pad, lines, i + 1);
    } else {
      assert lines[..i] == lines;
    }
  }

  // ----- `format_code` -----

  function HexDigit(d: nat): (c: char)
    requires d < 16
    ensures '0' <= c <= '9' || 'A' <= c <= 'F'
    ensures HexValue(c) == d
  {
    if d < 10 then ('0' as int + d) as char else ('A' as int + d - 10) as char
  }

  function HexValue(c: char): nat {
    if '0' <= c <= '9' then c as int - '0' as int
    else if 'A' <= c <= 'F' then c as int - 'A' as int + 10
    else 0
  }

  /** `format_code`: each key as one uppercase hexadecimal digit. */
  function FormatCode(code: seq<nat>): (s: string)
    requires forall i :: 0 <= i < |code| ==> code[i] < 16
    ensures |s| == |code|
    ensures forall i :: 0 <= i < |code| ==> HexValue(s[i]) == code[i]
    ensures forall i :: 0 <= i < |code| ==> '0' <= s[i] <= '9' || 'A' <= s[i] <= 'F'
  {
    if code == [] then "" else FormatCode(code[..|code| - 1]) + [HexDigit(code[|code| - 1])]
  }
}
