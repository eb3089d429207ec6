/** Compass headings and quarter turns (src/util/cardinal.rs). */
module Cardinal {
  datatype Turn = Right | Left

  datatype Cardinal = North | East | South | West

  /** Position of a heading going clockwise from North. */
  function Clockwise(c: Cardinal): (n: nat)
    ensures n < 4
  {
    match c
    case North => 0
    case East => 1
    case South => 2
    case West => 3
  }

  /** `Cardinal::turn`: a right turn is a quarter turn clockwise, a left turn
      a quarter turn anticlockwise. */
  function TurnTo(c: Cardinal, t: Turn): (r: Cardinal)
    ensures Clockwise(r) == (Clockwise(c) + (if t == Right then 1 else 3)) % 4
  {
    match (c, t)
    case (North, Right) => East
    case (North, Left) => West
    case (East, Right) => South
    case (East, Left) => North
    case (South, Right) => West
    case (South, Left) => East
    case (West, Right) => North
    case (West, Left) => South
  }

  /** Headings are determined by their clockwise position. */
  lemma ClockwiseInjective(a: Cardinal, b: Cardinal)
    requires Clockwise(a) == Clockwise(b)
    ensures a == b
  {
  }

  function Opposite(t: Turn): Turn {
    if t == Right then Left else Right
  }

  /** A turn one way undoes a turn the other way. */
  lemma {:induction false} TurnBack(c: Cardinal, t: Turn)
    ensures TurnTo(TurnTo(c, t), Opposite(t)) == c
  {
    ClockwiseInjective(TurnTo(TurnTo(c, t), Opposite(t)), c);
  }

  /** Four turns the same way come back to the starting heading. */
  lemma {:induction false} FourTurns(c: Cardinal, t: Turn)
    ensures TurnTo(TurnTo(TurnTo(TurnTo(c, t), t), t), t) == c
  {
    ClockwiseInjective(TurnTo(TurnTo(TurnTo(TurnTo(c, t), t), t), t), c);
  }
}
