/** Two-dimensional points and the row-major iterator over an inclusive
    rectangle (src/data/point.rs). Coordinates are unbounded integers. */
module Point {
  import opened Wrappers

  datatype Point2D = Point2D(x: int, y: int)

  /** `AddAssign<(T, T)>`: the point moved by the vector `(dx, dy)`. */
  function AddAssign(p: Point2D, v: (int, int)): (r: Point2D)
    ensures r.x - p.x == v.0 && r.y - p.y == v.1
  {
    Point2D(p.x + v.0, p.y + v.1)
  }

  /** Moving by a vector and then by its negation returns to the point. */
  lemma {:induction false} AddAssignUndo(p: Point2D, v: (int, int))
    ensures AddAssign(AddAssign(p, v), (-v.0, -v.1)) == p
  {
    var q := AddAssign(p, v);
    var r := AddAssign(q, (-v.0, -v.1));
    assert r.x == p.x && r.y == p.y;
  }

  /** The points `(x0, y) .. (x1, y)`, left to right. */
  function RowPoints(x0: int, x1: int, y: int): (r: seq<Point2D>)
    ensures |r| == if x0 <= x1 then x1 - x0 + 1 else 0
    decreases x1 - x0 + 1
  {
    if x0 > x1 then [] else [Point2D(x0, y)] + RowPoints(x0 + 1, x1, y)
  }

  /** The `i`-th point of a row is `i` steps right of its start. */
  lemma {:induction false} RowPointsAt(x0: int, x1: int, y: int, i: nat)
    requires i < |RowPoints(x0, x1, y)|
    ensures RowPoints(x0, x1, y)[i] == Point2D(x0 + i, y)
    decreases i
  {
    if i > 0 {
      RowPointsAt(x0 + 1, x1, y, i - 1);
    }
  }

  /** The inclusive rectangle `x0..=x1` by `y0..=y1` in row-major order. */
  function RectPoints(x0: int, x1: int, y0: int, y1: int): (r: seq<Point2D>)
    decreases y1 - y0 + 1
  {
    if y0 > y1 then [] else RowPoints(x0, x1, y0) + RectPoints(x0, x1, y0 + 1, y1)
  }

  /** A rectangle holds `(x1 - x0 + 1) * (y1 - y0 + 1)` points. */
  lemma {:induction false} RectPointsLength(x0: int, x1: int, y0: int, y1: int)
    requires x0 <= x1 + 1 && y0 <= y1 + 1
    ensures |RectPoints(x0, x1, y0, y1)| == (x1 - x0 + 1) * (y1 - y0 + 1)
    decreases y1 - y0 + 1
  {
    if y0 <= y1 {
      RectPointsLength(x0, x1, y0 + 1, y1);
    }
  }

  /** The rectangle's points are exactly those inside it. */
  lemma {:induction false} RectPointsMembers(x0: int, x1: int, y0: int, y1: int, p: Point2D)
    ensures p in RectPoints(x0, x1, y0, y1) <==> x0 <= p.x <= x1 && y0 <= p.y <= y1
    decreases y1 - y0 + 1
  {
    if y0 <= y1 {
      RectPointsMembers(x0, x1, y0 + 1, y1, p);
      var row := RowPoints(x0, x1, y0);
      if x0 <= p.x <= x1 && p.y == y0 {
        RowPointsAt(x0, x1, y0, p.x - x0);
      }
      if p in row {
        var i :| 0 <= i < |row| && row[i] == p;
        RowPointsAt(x0, x1, y0, i);
      }
    }
  }

  /** No point of the rectangle is listed twice. */
  lemma {:induction false} RectPointsDistinct(x0: int, x1: int, y0: int, y1: int)
    ensures forall i, j :: 0 <= i < j < |RectPoints(x0, x1, y0, y1)| ==>
              RectPoints(x0, x1, y0, y1)[i] != RectPoints(x0, x1, y0, y1)[j]
    decreases y1 - y0 + 1
  {
    if y0 <= y1 {
      RectPointsDistinct(x0, x1, y0 + 1, y1);
      var row, rest := RowPoints(x0, x1, y0), RectPoints(x0, x1, y0 + 1, y1);
      forall k | 0 <= k < |rest| ensures rest[k].y > y0 {
        RectPointsMembers(x0, x1, y0 + 1, y1, rest[k]);
      }
      forall i, j | 0 <= i < j < |row| ensures row[i] != row[j] {
        RowPointsAt(x0, x1, y0, i);
        RowPointsAt(x0, x1, y0, j);
      }
      forall i | 0 <= i < |row| ensures row[i].y == y0 {
        RowPointsAt(x0, x1, y0, i);
      }
    }
  }

  /** The corners `iter_to` normalises to: `(first_x, last_x, first_y, last_y)`
      with the smaller coordinate first, whichever corner is the receiver. */
  function IterBounds(from: Point2D, to: Point2D): (b: (int, int, int, int))
    ensures b.0 <= b.1 && b.2 <= b.3
    ensures {b.0, b.1} == {from.x, to.x} && {b.2, b.3} == {from.y, to.y}
  {
    match (from.x <= to.x, from.y <= to.y)
    case (true, true) => (from.x, to.x, from.y, to.y)
    case (true, false) => (from.x, to.x, to.y, from.y)
    case (false, true) => (to.x, from.x, from.y, to.y)
    case (false, false) => (to.x, from.x, to.y, from.y)
  }

  /** Swapping the two corners gives the same rectangle. */
  lemma {:induction false} IterBoundsSymmetric(a: Point2D, b: Point2D)
    ensures IterBounds(a, b) == IterBounds(b, a)
  {
    var p, q := IterBounds(a, b), IterBounds(b, a);
    assert p.0 == q.0 && p.1 == q.1 && p.2 == q.2 && p.3 == q.3;
  }

  /** The points an iterator at `(x, y)` still yields: the rest of row `y`,
      then the full rows below it down to `lastY`. */
  function Pending(x: int, y: int, firstX: int, lastX: int, lastY: int): seq<Point2D> {
    if y > lastY then [] else RowPoints(x, lastX, y) + RectPoints(firstX, lastX, y + 1, lastY)
  }

  /** The first pending point is the iterator's position; the rest follow it. */
  lemma NextSplit(x: int, y: int, firstX: int, lastX: int, lastY: int)
    requires y <= lastY && x <= lastX
    ensures Pending(x, y, firstX, lastX, lastY)
            == [Point2D(x, y)] + (RowPoints(x + 1, lastX, y) + RectPoints(firstX, lastX, y + 1, lastY))
  {
    var t, r := RowPoints(x + 1, lastX, y), RectPoints(firstX, lastX, y + 1, lastY);
    assert RowPoints(x, lastX, y) == [Point2D(x, y)] + t;
    assert ([Point2D(x, y)] + t) + r == [Point2D(x, y)] + (t + r);
  }

  /** Stepping within a row leaves the rest of the row and the rows below. */
  lemma {:induction false} NextInRow(x: int, y: int, firstX: int, lastX: int, lastY: int)
    requires y <= lastY && x < lastX
    ensures Pending(x, y, firstX, lastX, lastY)[1..] == Pending(x + 1, y, firstX, lastX, lastY)
  {
    NextSplit(x, y, firstX, lastX, lastY);
  }

  /** Stepping past the end of a row wraps to the start of the next one. */
  lemma {:induction false} NextWrap(y: int, firstX: int, lastX: int, lastY: int)
    requires y <= lastY
    ensures Pending(lastX, y, firstX, lastX, lastY)[1..] == Pending(firstX, y + 1, firstX, lastX, lastY)
  {
    NextSplit(lastX, y, firstX, lastX, lastY);
    assert RowPoints(lastX + 1, lastX, y) == [];
  }

  /** `Point2DIterator`. */
  class Point2DIterator {
    var nextX: int
    var nextY: int
    var firstX: int
    var lastX: int
    var lastY: int

    ghost predicate Valid()
      reads this
    {
      firstX <= nextX <= lastX
    }

    /** The points still to come: the rest of the current row, then the
        remaining rows. */
    ghost function Remaining(): seq<Point2D>
      reads this
    {
      Pending(nextX, nextY, firstX, lastX, lastY)
    }

    /** `Point2D::iter_to`: everything in the inclusive rectangle spanned by the
        two corners, row by row. */
    constructor IterTo(from: Point2D, to: Point2D)
      ensures Valid()
      ensures var b := IterBounds(from, to); Remaining() == RectPoints(b.0, b.1, b.2, b.3)
    {
      var b := IterBounds(from, to);
      nextX, firstX, lastX, nextY, lastY := b.0, b.0, b.1, b.2, b.3;
    }

    /** `next`: the first remaining point, or `None` once past the last row. */
    method Next() returns (r: Option<Point2D>)
      requires Valid()
      modifies this
      ensures Valid()
      ensures old(Remaining()) == [] ==> r == None && Remaining() == []
      ensures old(Remaining()) != [] ==> r == Some(old(Remaining())[0]) && Remaining() == old(Remaining())[1..]
    {
      if nextY > lastY {
        return None;
      }
      r := Some(Point2D(nextX, nextY));
      ghost var before := Pending(nextX, nextY, firstX, lastX, lastY);
      NextSplit(nextX, nextY, firstX, lastX, lastY);
      if nextX + 1 > lastX {
        NextWrap(nextY, firstX, lastX, lastY);
      } else {
        NextInRow(nextX, nextY, firstX, lastX, lastY);
      }
      nextX := nextX + 1;
      if nextX > lastX {
        nextX := firstX;
        nextY := nextY + 1;
      }
      assert Remaining() == before[1..];
    }
  }

  /** Draining `iter_to(from, to)`: every point of the normalised rectangle,
      row by row, each exactly once, after which `next` gives `None`. */
  method CollectRectangle(from: Point2D, to: Point2D) returns (points: seq<Point2D>)
    ensures var b := IterBounds(from, to); points == RectPoints(b.0, b.1, b.2, b.3)
  {
    var it := new Point2DIterator.IterTo(from, to);
    ghost var all := it.Remaining();
    points := [];
    while true
      invariant it.Valid() && points + it.Remaining() == all
      decreases |it.Remaining()|
    {
      var r := it.Next();
      if r.None? {
        break;
      }
      points := points + [r.value];
    }
  }
}
