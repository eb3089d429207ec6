/** 2015 day 3: houses visited by Santa alone, and by Santa and Robo-Santa
    taking turns (src/year_2015/day03.rs). */
module Year2015Day03 {
  import opened Point

  /** The move for one character: '^' north (y - 1), 'v' south, '>' east,
      '<' west; any other character stays put. */
  function Vector(ch: char): (int, int) {
    match ch
    case '^' => (0, -1)
    case 'v' => (0, 1)
    case '>' => (1, 0)
    case '<' => (-1, 0)
    case _ => (0, 0)
  }

  const Origin: Point2D := Point2D(0, 0)

  /** Where a santa following every move of `s` ends up. */
  function Position(s: string): Point2D {
    if s == [] then Origin else AddAssign(Position(s[..|s| - 1]), Vector(s[|s| - 1]))
  }

  /** Where the santa taking the moves at indices of parity `turn` ends up after
      the moves of `s` (the other santa's moves are skipped). */
  function TurnPosition(s: string, turn: nat): Point2D {
    if s == [] then Origin
    else if (|s| - 1) % 2 == turn then AddAssign(TurnPosition(s[..|s| - 1], turn), Vector(s[|s| - 1]))
    else TurnPosition(s[..|s| - 1], turn)
  }

  /** Houses visited in year 1 after the moves of `s`: the origin and every
      position reached. */
  function Visited1(s: string): set<Point2D> {
    if s == [] then {Origin} else Visited1(s[..|s| - 1]) + {Position(s)}
  }

  /** Houses visited in year 2 after the moves of `s`: the origin, and after
      each move the position of the santa whose turn it was. */
  function Visited2(s: string): set<Point2D> {
    if s == [] then {Origin} else Visited2(s[..|s| - 1]) + {TurnPosition(s, (|s| - 1) % 2)}
  }

  /** A house is visited in year 1 exactly when it is the origin or where Santa
      stands after some prefix of the moves. */
  lemma {:induction false} Visited1Members(s: string, p: Point2D)
    ensures p in Visited1(s) <==> exists k :: 0 <= k <= |s| && Position(s[..k]) == p
  {
    if s == [] {
      assert Position(s[..0]) == Origin;
    } else {
      var t := s[..|s| - 1];
      Visited1Members(t, p);
      assert forall k :: 0 <= k <= |t| ==> t[..k] == s[..k];
      assert s[..|s|] == s;
    }
  }

  /** The loop of `main`: both visit maps start with the origin; each move
      moves Santa, and the santa whose turn it is by index parity; each map
      counts the houses its santas reach. The results are the numbers of
      distinct houses. */
  method CountHouses(input: string) returns (year1: nat, year2: nat)
    ensures year1 == |Visited1(input)|
    ensures year2 == |Visited2(input)|
  {
    var santa := Origin;
    var santas := [Origin, Origin];
    var visited1: map<Point2D, nat> := map[santa := 1];
    var visited2: map<Point2D, nat> := map[santas[0] := 1];
    for idx := 0 to |input|
      invariant |santas| == 2
      invariant santa == Position(input[..idx])
      invariant santas[0] == TurnPosition(input[..idx], 0) && santas[1] == TurnPosition(input[..idx], 1)
      invariant visited1.Keys == Visited1(input[..idx])
      invariant visited2.Keys == Visited2(input[..idx])
    {
      ghost var prefix := input[..idx + 1];
      assert prefix[..idx] == input[..idx];
      var vector := Vector(input[idx]);
      santa := AddAssign(santa, vector);
      santas := santas[idx % 2 := AddAssign(santas[idx % 2], vector)];
      visited1 := visited1[santa := if santa in visited1 then visited1[santa] + 1 else 1];
      visited2 := visited2[santas[idx % 2] := if santas[idx % 2] in visited2 then visited2[santas[idx % 2]] + 1 else 1];
    }
    assert input[..|input|] == input;
    year1 := |visited1|;
    year2 := |visited2|;
  }
}
