/** 2025 day 9: red tiles on a grid; every two red tiles are the opposite
    corners of a rectangle, and the answer is the largest such rectangle's
    area. The tiles, in input order, also trace a closed outline
    (src/year_2025/day09.rs). Coordinates are unbounded. */
module Year2025Day09 {
  import opened Wrappers
  import opened Pairs

  datatype Tile = Tile(x: nat, y: nat)

  datatype Rectangle = Rectangle(a: Tile, b: Tile)

  datatype Ordering = Less | Equal | Greater

  datatype Fault = NoRedZones

  function AbsDiff(u: nat, v: nat): nat {
    if u < v then v - u else u - v
  }

  /** `area`: the number of tiles in the rectangle, corners included. */
  function Area(r: Rectangle): nat {
    (AbsDiff(r.a.x, r.b.x) + 1) * (AbsDiff(r.a.y, r.b.y) + 1)
  }

  /** The area does not depend on which corner comes first, is at least one,
      and is one exactly when the corners coincide. */
  lemma AreaShape(a: Tile, b: Tile)
    ensures Area(Rectangle(a, b)) == Area(Rectangle(b, a))
    ensures Area(Rectangle(a, b)) >= 1
    ensures Area(Rectangle(a, b)) == 1 <==> a == b
  {
    var w, h := AbsDiff(a.x, b.x) + 1, AbsDiff(a.y, b.y) + 1;
    if w * h == 1 {
      assert w <= w * h && h <= w * h;
    }
  }

  function CompareNat(u: nat, v: nat): Ordering {
    if u < v then Less else if u == v then Equal else Greater
  }

  function Then(first: Ordering, next: Ordering): Ordering {
    if first == Equal then next else first
  }

  /** The derived order of `Point`: by `x`, then by `y`. */
  function CompareTile(p: Tile, q: Tile): Ordering {
    Then(CompareNat(p.x, q.x), CompareNat(p.y, q.y))
  }

  /** `partial_cmp`: by area, then by the first corner, then by the second. */
  function Compare(r: Rectangle, s: Rectangle): Ordering {
    Then(CompareNat(Area(r), Area(s)), Then(CompareTile(r.a, s.a), CompareTile(r.b, s.b)))
  }

  function Flip(o: Ordering): Ordering {
    match o
    case Less => Greater
    case Equal => Equal
    case Greater => Less
  }

  /** The rectangle order is a total order: equal only on equal rectangles,
      antisymmetric, and transitive, so the sort has one answer. */
  lemma CompareTotal(r: Rectangle, s: Rectangle, t: Rectangle)
    ensures Compare(r, s) == Equal <==> r == s
    ensures Compare(s, r) == Flip(Compare(r, s))
    ensures Compare(r, s) == Less && Compare(s, t) == Less ==> Compare(r, t) == Less
  {
  }

  /** A greater area always compares greater, whatever the corners. */
  lemma CompareArea(r: Rectangle, s: Rectangle)
    ensures Area(r) < Area(s) ==> Compare(r, s) == Less
    ensures Compare(r, s) == Less ==> Area(r) <= Area(s)
  {
  }

  /** The closing edge's successor index: the tile after `i`, around the loop. */
  function Next(i: nat, n: nat): nat
    requires i < n
  {
    if i + 1 == n then 0 else i + 1
  }

  /** The rectangles of the pairs of the first `n` tiles, in the order they
      are pushed. */
  ghost predicate ZonesOf(tiles: seq<Tile>, n: nat, zones: seq<Rectangle>)
    requires n <= |tiles|
  {
    |zones| == Slot(n, 0) &&
    forall j: nat, i: nat {:trigger Slot(j, i)} :: 0 <= i < j < n ==> Slot(j, i) < |zones| && zones[Slot(j, i)] == Rectangle(tiles[j], tiles[i])
  }

  /** The rectangles of tile `j` with the tiles before `i`, in order. */
  function Row(tiles: seq<Tile>, j: nat, i: nat): seq<Rectangle>
    requires i <= j < |tiles|
  {
    if i == 0 then [] else Row(tiles, j, i - 1) + [Rectangle(tiles[j], tiles[i - 1])]
  }

  /** The rectangles of the first `n` tiles, each tile after the ones
      before it. */
  function ZoneList(tiles: seq<Tile>, n: nat): seq<Rectangle>
    requires n <= |tiles|
  {
    if n == 0 then [] else ZoneList(tiles, n - 1) + Row(tiles, n - 1, n - 1)
  }

  lemma {:induction false} RowAt(tiles: seq<Tile>, j: nat, i: nat)
    requires i <= j < |tiles|
    ensures |Row(tiles, j, i)| == i
    ensures forall i' :: 0 <= i' < i ==> Row(tiles, j, i)[i'] == Rectangle(tiles[j], tiles[i'])
  {
    if i > 0 {
      RowAt(tiles, j, i - 1);
    }
  }

  /** The list holds the rectangle of tiles `j` and `i` (i < j) at `Slot(j, i)`. */
  lemma {:induction false} ZoneListSlots(tiles: seq<Tile>, n: nat)
    requires n <= |tiles|
    ensures ZonesOf(tiles, n, ZoneList(tiles, n))
  {
    if n == 0 {
      NoZones(tiles);
    } else {
      ZoneListSlots(tiles, n - 1);
      ZonesAppend(tiles, n, ZoneList(tiles, n - 1));
    }
  }

  lemma NoZones(tiles: seq<Tile>)
    ensures ZonesOf(tiles, 0, [])
  {
    assert Slot(0, 0) == 0;
  }

  /** Appending the row of tile `n - 1` extends the layout by one tile. */
  lemma ZonesAppend(tiles: seq<Tile>, n: nat, before: seq<Rectangle>)
    requires 0 < n <= |tiles| && ZonesOf(tiles, n - 1, before)
    ensures ZonesOf(tiles, n, before + Row(tiles, n - 1, n - 1))
  {
    var row := Row(tiles, n - 1, n - 1);
    RowAt(tiles, n - 1, n - 1);
    assert Slot(n, 0) == Slot(n - 1, 0) + (n - 1);
    forall j: nat, i: nat | i < j < n
      ensures Slot(j, i) < |before + row| && (before + row)[Slot(j, i)] == Rectangle(tiles[j], tiles[i])
    {
      if j < n - 1 {
        SlotOrder(j, i);
        SlotMonotone(j + 1, n - 1);
      }
    }
  }

  /** The inner loop: the new tile `j` forms a rectangle with each earlier
      tile, in order. */
  method Spawn(tiles: seq<Tile>, j: nat, red: seq<Tile>, zones0: seq<Rectangle>) returns (zones: seq<Rectangle>)
    requires j < |tiles| && red == tiles[..j]
    requires zones0 == ZoneList(tiles, j)
    ensures zones == ZoneList(tiles, j + 1)
  {
    zones := zones0;
    for i := 0 to |red|
      invariant zones == ZoneList(tiles, j) + Row(tiles, j, i)
    {
      zones := zones + [Rectangle(tiles[j], red[i])];
    }
  }

  /** The outline's first `n` edges: each tile linked to the next. */
  ghost predicate Linked(tiles: seq<Tile>, n: nat, outline: seq<Rectangle>)
    requires n < |tiles|
  {
    |outline| == n && forall i {:trigger outline[i]} :: 0 <= i < n ==> outline[i] == Rectangle(tiles[i], tiles[i + 1])
  }

  lemma LinkStep(tiles: seq<Tile>, n: nat, outline: seq<Rectangle>)
    requires n + 1 < |tiles| && Linked(tiles, n, outline)
    ensures Linked(tiles, n + 1, outline + [Rectangle(tiles[n], tiles[n + 1])])
  {
  }

  lemma LinkClose(tiles: seq<Tile>, outline: seq<Rectangle>)
    requires |tiles| > 0 && Linked(tiles, |tiles| - 1, outline)
    ensures var o := outline + [Rectangle(tiles[|tiles| - 1], tiles[0])];
      |o| == |tiles| && forall i {:trigger o[i]} :: 0 <= i < |tiles| ==> o[i] == Rectangle(tiles[i], tiles[Next(i, |tiles|)])
  {
  }

  /** `main`'s loop: each new tile forms a rectangle with every earlier tile,
      and the outline links each tile to the next and the last back to the
      first. */
  method Zones(tiles: seq<Tile>) returns (zones: seq<Rectangle>, outline: seq<Rectangle>)
    ensures zones == ZoneList(tiles, |tiles|)
    ensures ZonesOf(tiles, |tiles|, zones)
    ensures |outline| == |tiles|
    ensures forall i {:trigger outline[i]} :: 0 <= i < |tiles| ==> outline[i] == Rectangle(tiles[i], tiles[Next(i, |tiles|)])
  {
    var red: seq<Tile> := [];
    zones := [];
    outline := [];
    for j := 0 to |tiles|
      invariant red == tiles[..j]
      invariant zones == ZoneList(tiles, j)
      invariant j > 0 ==> Linked(tiles, j - 1, outline)
      invariant j == 0 ==> outline == []
    {
      var tile := tiles[j];
      zones := Spawn(tiles, j, red, zones);
      if j > 0 {
        LinkStep(tiles, j - 1, outline);
        outline := outline + [Rectangle(red[|red| - 1], tile)];
      }
      red := red + [tile];
    }
    ZoneListSlots(tiles, |tiles|);
    if |red| > 0 {
      LinkClose(tiles, outline);
      outline := outline + [Rectangle(red[|red| - 1], red[0])];
    }
  }

  /** `sort_unstable` then `reverse` then `first`: the rectangle no other
      one compares above. */
  function Greatest(zones: seq<Rectangle>): (g: Rectangle)
    requires |zones| > 0
    ensures g in zones
    ensures forall r :: r in zones ==> Compare(r, g) != Greater
  {
    if |zones| == 1 then zones[0]
    else
      var rest := Greatest(zones[1..]);
      CompareTotal(zones[0], rest, rest);
      if Compare(zones[0], rest) == Greater then
        forall r | r in zones[1..] ensures Compare(r, zones[0]) != Greater {
          CompareTotal(r, rest, zones[0]);
          CompareTotal(rest, zones[0], r);
        }
        zones[0]
      else
        assert zones == [zones[0]] + zones[1..];
        rest
  }

  /** `main`: the area of the largest rectangle with red corners, or the
      "No Red Zones" error when there are fewer than two tiles. */
  method Solve(tiles: seq<Tile>) returns (r: Result<nat, Fault>)
    ensures r.Err? <==> |tiles| < 2
    ensures r.Ok? ==> exists j, i :: 0 <= i < j < |tiles| && r.value == Area(Rectangle(tiles[j], tiles[i]))
    ensures r.Ok? ==> forall j, i :: 0 <= i < j < |tiles| ==> Area(Rectangle(tiles[j], tiles[i])) <= r.value
  {
    var zones, outline := Zones(tiles);
    SlotEmpty(|tiles|);
    if |zones| == 0 {
      return Err(NoRedZones);
    }
    var g := Greatest(zones);
    var k :| 0 <= k < |zones| && zones[k] == g;
    SlotInverse(|tiles|, k);
    forall j, i | 0 <= i < j < |tiles|
      ensures Area(Rectangle(tiles[j], tiles[i])) <= Area(g)
    {
      SlotOrder(j, i);
      SlotMonotone(j + 1, |tiles|);
      assert zones[Slot(j, i)] in zones;
      CompareArea(g, zones[Slot(j, i)]);
    }
    return Ok(Area(g));
  }
}
