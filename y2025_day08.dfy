/** 2025 day 8: junction boxes in space are joined into circuits, closest
    pair first. After the thousandth connection the answer is the product of
    the three largest circuit sizes; the connection that first puts every box
    into one circuit gives the product of its two boxes' x coordinates
    (src/year_2025/day08.rs). Coordinates and products are unbounded. */
module Year2025Day08 {
  import opened Wrappers
  import opened Pairs

  datatype Point = Point(x: nat, y: nat, z: nat)

  function AbsDiff(u: nat, v: nat): nat {
    if u < v then v - u else u - v
  }

  /** `pow(2)`, written as a sum of odd numbers. */
  function Square(d: nat): nat {
    if d == 0 then 0 else Square(d - 1) + 2 * d - 1
  }

  lemma {:induction false} SquareIsProduct(d: nat)
    ensures Square(d) == d * d
  {
    if d > 0 {
      SquareIsProduct(d - 1);
      assert (d - 1) * (d - 1) == d * d - 2 * d + 1;
    }
  }

  /** `abs_distance`: the squared straight-line distance. */
  function AbsDistance(p: Point, q: Point): nat {
    Square(AbsDiff(p.x, q.x)) + Square(AbsDiff(p.y, q.y)) + Square(AbsDiff(p.z, q.z))
  }

  /** The distance is symmetric and is zero exactly between equal points. */
  lemma DistanceShape(p: Point, q: Point)
    ensures AbsDistance(p, q) == AbsDistance(q, p)
    ensures AbsDistance(p, q) == 0 <==> p == q
  {
    if AbsDistance(p, q) == 0 {
      SquareZero(AbsDiff(p.x, q.x));
      SquareZero(AbsDiff(p.y, q.y));
      SquareZero(AbsDiff(p.z, q.z));
    }
  }

  lemma SquareZero(d: nat)
    ensures Square(d) == 0 <==> d == 0
  {
  }

  /** A candidate connection: the distance between boxes `a` and `b`. */
  datatype Distance = Distance(distance: nat, a: nat, b: nat)

  /** The distances of the pairs of the first `n` points, in the order they
      are pushed: the newer box first. */
  ghost predicate PairsOf(points: seq<Point>, n: nat, distances: seq<Distance>)
    requires n <= |points|
  {
    |distances| == Slot(n, 0) &&
    forall j: nat, i: nat {:trigger Slot(j, i)} :: i < j < n ==>
      Slot(j, i) < |distances| && distances[Slot(j, i)] == Distance(AbsDistance(points[j], points[i]), j, i)
  }

  /** The distances from point `j` to the points before `i`, in order. */
  function Row(points: seq<Point>, j: nat, i: nat): seq<Distance>
    requires i <= j < |points|
  {
    if i == 0 then [] else Row(points, j, i - 1) + [Distance(AbsDistance(points[j], points[i - 1]), j, i - 1)]
  }

  /** The distances of the first `n` points, each point after the ones
      before it. */
  function PairList(points: seq<Point>, n: nat): seq<Distance>
    requires n <= |points|
  {
    if n == 0 then [] else PairList(points, n - 1) + Row(points, n - 1, n - 1)
  }

  lemma {:induction false} RowAt(points: seq<Point>, j: nat, i: nat)
    requires i <= j < |points|
    ensures |Row(points, j, i)| == i
    ensures forall i' :: 0 <= i' < i ==> Row(points, j, i)[i'] == Distance(AbsDistance(points[j], points[i']), j, i')
  {
    if i > 0 {
      RowAt(points, j, i - 1);
    }
  }

  /** The list holds the pair of points `j` and `i` (i < j) at `Slot(j, i)`. */
  lemma {:induction false} PairListSlots(points: seq<Point>, n: nat)
    requires n <= |points|
    ensures PairsOf(points, n, PairList(points, n))
  {
    if n == 0 {
      NoPairs(points);
    } else {
      PairListSlots(points, n - 1);
      PairsAppend(points, n, PairList(points, n - 1));
    }
  }

  lemma NoPairs(points: seq<Point>)
    ensures PairsOf(points, 0, [])
  {
    assert Slot(0, 0) == 0;
  }

  /** Appending the row of point `n - 1` extends the layout by one point. */
  lemma PairsAppend(points: seq<Point>, n: nat, before: seq<Distance>)
    requires 0 < n <= |points| && PairsOf(points, n - 1, before)
    ensures PairsOf(points, n, before + Row(points, n - 1, n - 1))
  {
    var row := Row(points, n - 1, n - 1);
    RowAt(points, n - 1, n - 1);
    assert Slot(n, 0) == Slot(n - 1, 0) + (n - 1);
    forall j: nat, i: nat | i < j < n
      ensures Slot(j, i) < |before + row| && (before + row)[Slot(j, i)] == Distance(AbsDistance(points[j], points[i]), j, i)
    {
      if j < n - 1 {
        SlotOrder(j, i);
        SlotMonotone(j + 1, n - 1);
      }
    }
  }

  /** The inner loop: the new point `j` is measured against each earlier one. */
  method MeasureTo(points: seq<Point>, j: nat, distances0: seq<Distance>) returns (distances: seq<Distance>)
    requires j < |points| && distances0 == PairList(points, j)
    ensures distances == PairList(points, j + 1)
  {
    distances := distances0;
    for i := 0 to j
      invariant distances == PairList(points, j) + Row(points, j, i)
    {
      distances := distances + [Distance(AbsDistance(points[j], points[i]), j, i)];
    }
  }

  /** The reading loop of `main`: every box is measured against every earlier
      box, once; by `PairListSlots` the pair of boxes `j` and `i` sits at
      `Slot(j, i)`. */
  method Measure(points: seq<Point>) returns (distances: seq<Distance>)
    ensures distances == PairList(points, |points|)
    ensures PairsOf(points, |points|, distances)
  {
    distances := [];
    for j := 0 to |points|
      invariant distances == PairList(points, j)
    {
      distances := MeasureTo(points, j, distances);
    }
    PairListSlots(points, |points|);
  }

  /** Every entry of the list is a pair of distinct boxes, newer first, with
      their distance. */
  lemma PairsAreEdges(points: seq<Point>, distances: seq<Distance>)
    requires PairsOf(points, |points|, distances)
    ensures Edges(|points|, distances)
    ensures forall k :: 0 <= k < |distances| ==>
      distances[k].distance == AbsDistance(points[distances[k].a], points[distances[k].b])
  {
    forall k | 0 <= k < |distances|
      ensures distances[k].b < distances[k].a < |points|
      ensures distances[k].distance == AbsDistance(points[distances[k].a], points[distances[k].b])
    {
      SlotInverse(|points|, k);
    }
  }

  /** The derived order of `Distance`: by distance, then `a`, then `b`. */
  predicate Before(d: Distance, e: Distance) {
    d.distance < e.distance ||
    (d.distance == e.distance && (d.a < e.a || (d.a == e.a && d.b <= e.b)))
  }

  predicate Ascending(s: seq<Distance>) {
    forall i, j :: 0 <= i < j < |s| ==> Before(s[i], s[j])
  }

  function InsertAscending(d: Distance, s: seq<Distance>): (r: seq<Distance>)
    requires Ascending(s)
    ensures Ascending(r) && multiset(r) == multiset(s) + multiset{d}
  {
    if |s| == 0 then [d]
    else if Before(d, s[0]) then [d] + s
    else
      var rest := InsertAscending(d, s[1..]);
      InsertHead(d, s, rest);
      [s[0]] + rest
  }

  lemma InsertHead(d: Distance, s: seq<Distance>, rest: seq<Distance>)
    requires |s| > 0 && Ascending(s) && !Before(d, s[0])
    requires Ascending(rest) && multiset(rest) == multiset(s[1..]) + multiset{d}
    ensures Ascending([s[0]] + rest) && multiset([s[0]] + rest) == multiset(s) + multiset{d}
  {
    assert s == [s[0]] + s[1..];
    forall i | 0 <= i < |rest|
      ensures Before(s[0], rest[i])
    {
      assert rest[i] in multiset(rest);
      if rest[i] != d {
        assert rest[i] in s[1..];
        var k :| 0 <= k < |s| - 1 && s[1..][k] == rest[i];
        assert s[k + 1] == rest[i];
      }
    }
    var r := [s[0]] + rest;
    forall i, j | 0 <= i < j < |r|
      ensures Before(r[i], r[j])
    {
      if i > 0 {
        assert r[i] == rest[i - 1] && r[j] == rest[j - 1];
      } else {
        assert r[j] == rest[j - 1];
      }
    }
  }

  /** `sort_unstable`: the same distances, ascending. The keys are distinct
      pairs, so every sort gives this order. */
  function SortAscending(s: seq<Distance>): (r: seq<Distance>)
    ensures Ascending(r) && multiset(r) == multiset(s)
  {
    if |s| == 0 then []
    else
      assert s == [s[0]] + s[1..];
      InsertAscending(s[0], SortAscending(s[1..]))
  }

  /** Connections between boxes below `n`, each between two boxes. */
  predicate Edges(n: nat, edges: seq<Distance>) {
    forall k :: 0 <= k < |edges| ==> edges[k].b < edges[k].a < n
  }

  /** Boxes `p` and `q` are joined by the first `k` connections: the
      connection `k - 1` joins everything linked to one of its ends with
      everything linked to the other. */
  ghost predicate Linked(edges: seq<Distance>, k: nat, p: nat, q: nat)
    requires k <= |edges|
  {
    if k == 0 then p == q
    else
      var e := edges[k - 1];
      || Linked(edges, k - 1, p, q)
      || (Linked(edges, k - 1, p, e.a) && Linked(edges, k - 1, e.b, q))
      || (Linked(edges, k - 1, p, e.b) && Linked(edges, k - 1, e.a, q))
  }

  /** Every two of the `n` boxes are joined. */
  ghost predicate AllLinked(edges: seq<Distance>, k: nat, n: nat)
    requires k <= |edges|
  {
    forall p, q :: 0 <= p < n && 0 <= q < n ==> Linked(edges, k, p, q)
  }

  /** A connection never comes undone. */
  lemma {:induction false} LinkedGrows(edges: seq<Distance>, j: nat, k: nat, p: nat, q: nat)
    requires j <= k <= |edges| && Linked(edges, j, p, q)
    ensures Linked(edges, k, p, q)
    decreases k - j
  {
    if j < k {
      LinkedGrows(edges, j + 1, k, p, q);
    }
  }

  lemma {:induction false} LinkedSelf(edges: seq<Distance>, k: nat, p: nat)
    requires k <= |edges|
    ensures Linked(edges, k, p, p)
  {
    if k > 0 {
      LinkedSelf(edges, k - 1, p);
    }
  }

  lemma AllLinkedGrows(edges: seq<Distance>, j: nat, k: nat, n: nat)
    requires j <= k <= |edges| && AllLinked(edges, j, n)
    ensures AllLinked(edges, k, n)
  {
    forall p, q | 0 <= p < n && 0 <= q < n
      ensures Linked(edges, k, p, q)
    {
      LinkedGrows(edges, j, k, p, q);
    }
  }

  /** Connection `k` is the one that first joins all boxes. */
  ghost predicate Completes(edges: seq<Distance>, k: nat, n: nat) {
    k < |edges| && AllLinked(edges, k + 1, n) && !AllLinked(edges, k, n)
  }

  /** If the boxes are apart at first and all joined after `m` connections,
      some connection before `m` completes them. */
  lemma {:induction false} SomeCompletes(edges: seq<Distance>, m: nat, n: nat)
    requires m <= |edges| && !AllLinked(edges, 0, n) && AllLinked(edges, m, n)
    ensures exists k: nat :: k < m && Completes(edges, k, n)
  {
    if m == 0 {
      assert false;
    } else if AllLinked(edges, m - 1, n) {
      SomeCompletes(edges, m - 1, n);
    } else {
      assert Completes(edges, m - 1, n);
    }
  }

  /** Two boxes share a circuit, or are the same box. */
  predicate Same(owner: map<nat, nat>, p: nat, q: nat) {
    p == q || (p in owner && q in owner && owner[p] == owner[q])
  }

  /** `point_to_circuit` tells exactly which boxes the connections so far
      have joined. */
  ghost predicate Tracks(edges: seq<Distance>, k: nat, n: nat, owner: map<nat, nat>)
    requires k <= |edges|
  {
    forall p, q :: 0 <= p < n && 0 <= q < n ==> (Linked(edges, k, p, q) <==> Same(owner, p, q))
  }

  predicate NoDup(s: seq<nat>) {
    forall i, j :: 0 <= i < j < |s| ==> s[i] != s[j]
  }

  /** The circuit state: `circuits`, `reusable_circuits` and
      `point_to_circuit`. */
  datatype State = State(circuits: seq<seq<nat>>, spare: seq<nat>, owner: map<nat, nat>)

  /** Each mapped box sits in the circuit it maps to and only there, no
      circuit repeats a box, and every reusable circuit is empty and listed
      once. */
  ghost predicate Valid(n: nat, s: State) {
    && (forall p :: p in s.owner ==> p < n && s.owner[p] < |s.circuits|)
    && (forall c, p :: 0 <= c < |s.circuits| ==> (p in s.circuits[c] <==> p in s.owner && s.owner[p] == c))
    && (forall c :: 0 <= c < |s.circuits| ==> NoDup(s.circuits[c]))
    && NoDup(s.spare)
    && (forall j :: 0 <= j < |s.spare| ==> s.spare[j] < |s.circuits| && s.circuits[s.spare[j]] == [])
  }

  /** Two unmapped boxes start a circuit. */
  lemma TracksFresh(edges: seq<Distance>, k: nat, n: nat, owner: map<nat, nat>, c: nat)
    requires k < |edges| && edges[k].b < edges[k].a < n
    requires Tracks(edges, k, n, owner)
    requires edges[k].a !in owner && edges[k].b !in owner
    requires forall p :: p in owner ==> owner[p] != c
    ensures Tracks(edges, k + 1, n, owner[edges[k].a := c][edges[k].b := c])
  {
    var a, b := edges[k].a, edges[k].b;
    var owner' := owner[a := c][b := c];
    forall p, q | 0 <= p < n && 0 <= q < n
      ensures Linked(edges, k + 1, p, q) <==> Same(owner', p, q)
    {
      assert Linked(edges, k, p, a) <==> Same(owner, p, a);
      assert Linked(edges, k, b, q) <==> Same(owner, b, q);
      assert Linked(edges, k, p, b) <==> Same(owner, p, b);
      assert Linked(edges, k, a, q) <==> Same(owner, a, q);
      assert Linked(edges, k, p, q) <==> Same(owner, p, q);
    }
  }

  /** A mapped box brings the other end into its circuit. */
  lemma TracksJoin(edges: seq<Distance>, k: nat, n: nat, owner: map<nat, nat>, x: nat, y: nat)
    requires k < |edges| && edges[k].b < edges[k].a < n
    requires (x == edges[k].a && y == edges[k].b) || (x == edges[k].b && y == edges[k].a)
    requires Tracks(edges, k, n, owner)
    requires x in owner && y !in owner
    ensures Tracks(edges, k + 1, n, owner[y := owner[x]])
  {
    var a, b := edges[k].a, edges[k].b;
    var owner' := owner[y := owner[x]];
    forall p, q | 0 <= p < n && 0 <= q < n
      ensures Linked(edges, k + 1, p, q) <==> Same(owner', p, q)
    {
      assert Linked(edges, k, p, a) <==> Same(owner, p, a);
      assert Linked(edges, k, b, q) <==> Same(owner, b, q);
      assert Linked(edges, k, p, b) <==> Same(owner, p, b);
      assert Linked(edges, k, a, q) <==> Same(owner, a, q);
      assert Linked(edges, k, p, q) <==> Same(owner, p, q);
    }
  }

  /** Two circuits become one. */
  lemma TracksMerge(edges: seq<Distance>, k: nat, n: nat, owner: map<nat, nat>, owner': map<nat, nat>)
    requires k < |edges| && edges[k].b < edges[k].a < n
    requires Tracks(edges, k, n, owner)
    requires edges[k].a in owner && edges[k].b in owner
    requires forall p :: p in owner' <==> p in owner
    requires forall p :: p in owner ==>
      owner'[p] == (if owner[p] == owner[edges[k].b] then owner[edges[k].a] else owner[p])
    ensures Tracks(edges, k + 1, n, owner')
  {
    var a, b := edges[k].a, edges[k].b;
    forall p, q | 0 <= p < n && 0 <= q < n
      ensures Linked(edges, k + 1, p, q) <==> Same(owner', p, q)
    {
      assert Linked(edges, k, p, a) <==> Same(owner, p, a);
      assert Linked(edges, k, b, q) <==> Same(owner, b, q);
      assert Linked(edges, k, p, b) <==> Same(owner, p, b);
      assert Linked(edges, k, a, q) <==> Same(owner, a, q);
      assert Linked(edges, k, p, q) <==> Same(owner, p, q);
    }
  }

  /** Boxes already in one circuit: the map is unchanged. */
  lemma TracksSame(edges: seq<Distance>, k: nat, n: nat, owner: map<nat, nat>)
    requires k < |edges| && edges[k].b < edges[k].a < n
    requires Tracks(edges, k, n, owner)
    requires edges[k].a in owner && edges[k].b in owner && owner[edges[k].a] == owner[edges[k].b]
    ensures Tracks(edges, k + 1, n, owner)
  {
    var a, b := edges[k].a, edges[k].b;
    forall p, q | 0 <= p < n && 0 <= q < n
      ensures Linked(edges, k + 1, p, q) <==> Same(owner, p, q)
    {
      assert Linked(edges, k, p, a) <==> Same(owner, p, a);
      assert Linked(edges, k, b, q) <==> Same(owner, b, q);
      assert Linked(edges, k, p, b) <==> Same(owner, p, b);
      assert Linked(edges, k, a, q) <==> Same(owner, a, q);
      assert Linked(edges, k, p, q) <==> Same(owner, p, q);
    }
  }

  /** A list without its `i`-th element. */
  lemma Remove(s: seq<nat>, i: nat)
    requires NoDup(s) && i < |s|
    ensures var t := s[..i] + s[i + 1..];
      && |t| == |s| - 1 && NoDup(t)
      && (forall q :: q in t <==> q in s && q != s[i])
  {
    var t := s[..i] + s[i + 1..];
    assert forall j :: 0 <= j < |t| ==> t[j] == if j < i then s[j] else s[j + 1];
    forall q
      ensures q in t <==> q in s && q != s[i]
    {
      if q in s && q != s[i] {
        var j :| 0 <= j < |s| && s[j] == q;
        assert t[if j < i then j else j - 1] == q;
      }
    }
  }

  /** A circuit of distinct boxes below `n` holds at most `n` boxes, and
      holds `n` exactly when it holds every box. */
  lemma {:induction false} Full(s: seq<nat>, n: nat)
    requires NoDup(s) && forall i :: 0 <= i < |s| ==> s[i] < n
    ensures |s| <= n
    ensures |s| == n <==> forall q :: 0 <= q < n ==> q in s
    decreases n
  {
    if |s| == 0 {
      assert n > 0 ==> 0 !in s;
    } else if n - 1 in s {
      var i :| 0 <= i < |s| && s[i] == n - 1;
      var t := s[..i] + s[i + 1..];
      Remove(s, i);
      forall j | 0 <= j < |t|
        ensures t[j] < n - 1
      {
        assert t[j] in t;
      }
      Full(t, n - 1);
    } else {
      forall j | 0 <= j < |s|
        ensures s[j] < n - 1
      {
        assert s[j] in s;
      }
      Full(s, n - 1);
    }
  }

  /** A circuit holds all `n` boxes exactly when all are joined. */
  lemma DoneMeans(edges: seq<Distance>, k: nat, n: nat, t: State, x: nat)
    requires k <= |edges| && Valid(n, t) && Tracks(edges, k, n, t.owner)
    requires x in t.owner
    ensures |t.circuits[t.owner[x]]| == n <==> AllLinked(edges, k, n)
  {
    var c := t.owner[x];
    assert c < |t.circuits|;
    var s := t.circuits[c];
    forall i | 0 <= i < |s|
      ensures s[i] < n
    {
      assert s[i] in t.circuits[c];
      assert s[i] in t.owner;
    }
    Full(s, n);
    if forall q :: 0 <= q < n ==> q in s {
      forall p, q | 0 <= p < n && 0 <= q < n
        ensures Linked(edges, k, p, q)
      {
        assert p in s && q in s;
        assert p in t.circuits[c] && q in t.circuits[c];
        assert Same(t.owner, p, q);
      }
    }
    if AllLinked(edges, k, n) {
      forall q | 0 <= q < n
        ensures q in s
      {
        assert Linked(edges, k, x, q);
      }
    }
  }

  /** A new, empty circuit at the end of the list. */
  lemma ValidGrow(n: nat, s: State)
    requires Valid(n, s)
    ensures Valid(n, State(s.circuits + [[]], s.spare, s.owner))
    ensures forall p :: p in s.owner ==> s.owner[p] != |s.circuits|
  {
    var t := State(s.circuits + [[]], s.spare, s.owner);
    forall c, p | 0 <= c < |t.circuits|
      ensures p in t.circuits[c] <==> p in t.owner && t.owner[p] == c
    {
      if c < |s.circuits| {
        assert t.circuits[c] == s.circuits[c];
      }
    }
    forall j | 0 <= j < |t.spare|
      ensures t.spare[j] < |t.circuits| && t.circuits[t.spare[j]] == []
    {
      assert t.circuits[t.spare[j]] == s.circuits[t.spare[j]];
    }
  }

  /** The last reusable circuit, taken off the reusable list. */
  lemma ValidPop(n: nat, s: State)
    requires Valid(n, s) && |s.spare| > 0
    ensures var c := s.spare[|s.spare| - 1];
      && Valid(n, State(s.circuits, s.spare[..|s.spare| - 1], s.owner))
      && c < |s.circuits| && s.circuits[c] == [] && c !in s.spare[..|s.spare| - 1]
  {
  }

  /** Two unmapped boxes fill an empty circuit that is not reusable. */
  lemma ValidFill(n: nat, s: State, c: nat, a: nat, b: nat)
    requires Valid(n, s) && c < |s.circuits| && s.circuits[c] == [] && c !in s.spare
    requires a != b && a < n && b < n && a !in s.owner && b !in s.owner
    ensures forall p :: p in s.owner ==> s.owner[p] != c
    ensures Valid(n, State(s.circuits[c := [a, b]], s.spare, s.owner[a := c][b := c]))
  {
    forall p | p in s.owner
      ensures s.owner[p] != c
    {
      assert p in s.circuits[s.owner[p]];
    }
    var t := State(s.circuits[c := [a, b]], s.spare, s.owner[a := c][b := c]);
    forall c', p | 0 <= c' < |t.circuits|
      ensures p in t.circuits[c'] <==> p in t.owner && t.owner[p] == c'
    {
    }
    forall j | 0 <= j < |t.spare|
      ensures t.spare[j] < |t.circuits| && t.circuits[t.spare[j]] == []
    {
      assert t.spare[j] != c;
    }
  }

  /** An unmapped box joins the circuit of box `x`. */
  lemma ValidJoin(n: nat, s: State, x: nat, y: nat)
    requires Valid(n, s) && x in s.owner && y < n && y !in s.owner
    ensures var c := s.owner[x];
      Valid(n, State(s.circuits[c := s.circuits[c] + [y]], s.spare, s.owner[y := c]))
  {
    var c := s.owner[x];
    assert x in s.circuits[c];
    var t := State(s.circuits[c := s.circuits[c] + [y]], s.spare, s.owner[y := c]);
    forall c', p | 0 <= c' < |t.circuits|
      ensures p in t.circuits[c'] <==> p in t.owner && t.owner[p] == c'
    {
    }
    forall j | 0 <= j < |t.spare|
      ensures t.spare[j] < |t.circuits| && t.circuits[t.spare[j]] == []
    {
      assert t.spare[j] != c;
    }
    var grown := s.circuits[c] + [y];
    forall i, j | 0 <= i < j < |grown|
      ensures grown[i] != grown[j]
    {
      if j == |grown| - 1 {
        assert grown[i] in s.circuits[c];
      }
    }
  }

  /** The members of circuit `cb` move to circuit `ca`, `cb` is emptied and
      becomes reusable, and the moved boxes map to `ca`. */
  function MergeState(s: State, ca: nat, cb: nat): State
    requires ca < |s.circuits| && cb < |s.circuits|
  {
    var merged := s.circuits[ca] + s.circuits[cb];
    State(s.circuits[ca := merged][cb := []], s.spare + [cb], s.owner + map p | p in merged :: ca)
  }

  /** Concatenating two disjoint duplicate-free circuits leaves no duplicates. */
  lemma MergeNoDup(n: nat, s: State, ca: nat, cb: nat)
    requires Valid(n, s) && ca < |s.circuits| && cb < |s.circuits| && ca != cb
    ensures NoDup(s.circuits[ca] + s.circuits[cb])
  {
    var merged := s.circuits[ca] + s.circuits[cb];
    var m := |s.circuits[ca]|;
    forall i, j | 0 <= i < j < |merged|
      ensures merged[i] != merged[j]
    {
      if i < m <= j {
        assert merged[i] == s.circuits[ca][i] && merged[j] == s.circuits[cb][j - m];
        assert s.owner[merged[i]] == ca && s.owner[merged[j]] == cb;
      } else if j < m {
        assert merged[i] == s.circuits[ca][i] && merged[j] == s.circuits[ca][j];
      } else {
        assert merged[i] == s.circuits[cb][i - m] && merged[j] == s.circuits[cb][j - m];
      }
    }
  }

  /** After a merge, the boxes of `cb` map to `ca` and every other box keeps
      its circuit. */
  lemma MergeOwner(n: nat, s: State, ca: nat, cb: nat)
    requires Valid(n, s) && ca < |s.circuits| && cb < |s.circuits| && ca != cb
    ensures var t := MergeState(s, ca, cb);
      && (forall p :: p in t.owner <==> p in s.owner)
      && (forall p :: p in s.owner ==> t.owner[p] == if s.owner[p] == cb then ca else s.owner[p])
  {
    var merged := s.circuits[ca] + s.circuits[cb];
    var t := MergeState(s, ca, cb);
    forall p | p in merged
      ensures p in s.owner
    {
      if p in s.circuits[ca] {
      } else {
        assert p in s.circuits[cb];
      }
    }
    forall p | p in s.owner
      ensures t.owner[p] == if s.owner[p] == cb then ca else s.owner[p]
    {
      if s.owner[p] == cb || s.owner[p] == ca {
        assert p in merged;
      } else {
        assert p !in s.circuits[ca] && p !in s.circuits[cb];
      }
    }
  }

  /** A reusable circuit is empty, so a non-empty one is never on the list. */
  lemma SpareEmpty(n: nat, s: State, c: nat, x: nat)
    requires Valid(n, s) && x in s.owner && s.owner[x] == c
    ensures c !in s.spare
  {
    assert x in s.circuits[c];
  }

  /** After a merge, a box is listed in a circuit exactly when it maps to it. */
  lemma MergeMembers(n: nat, s: State, ca: nat, cb: nat)
    requires Valid(n, s) && ca < |s.circuits| && cb < |s.circuits| && ca != cb
    ensures var t := MergeState(s, ca, cb);
      forall c', p :: 0 <= c' < |t.circuits| ==> (p in t.circuits[c'] <==> p in t.owner && t.owner[p] == c')
  {
    var t := MergeState(s, ca, cb);
    MergeOwner(n, s, ca, cb);
    forall c', p | 0 <= c' < |t.circuits|
      ensures p in t.circuits[c'] <==> p in t.owner && t.owner[p] == c'
    {
      if c' == ca {
        assert t.circuits[c'] == s.circuits[ca] + s.circuits[cb];
      } else if c' == cb {
        assert t.circuits[c'] == [];
      } else {
        assert t.circuits[c'] == s.circuits[c'];
      }
    }
  }

  lemma ValidMerge(n: nat, s: State, a: nat, b: nat)
    requires Valid(n, s) && a in s.owner && b in s.owner && s.owner[a] != s.owner[b]
    ensures var t := MergeState(s, s.owner[a], s.owner[b]);
      && Valid(n, t)
      && (forall p :: p in t.owner <==> p in s.owner)
      && (forall p :: p in s.owner ==>
            t.owner[p] == if s.owner[p] == s.owner[b] then s.owner[a] else s.owner[p])
      && t.circuits[s.owner[a]] == s.circuits[s.owner[a]] + s.circuits[s.owner[b]]
  {
    var ca, cb := s.owner[a], s.owner[b];
    var t := MergeState(s, ca, cb);
    MergeNoDup(n, s, ca, cb);
    MergeOwner(n, s, ca, cb);
    MergeMembers(n, s, ca, cb);
    SpareEmpty(n, s, ca, a);
    SpareEmpty(n, s, cb, b);
    forall j | 0 <= j < |t.spare|
      ensures t.spare[j] < |t.circuits| && t.circuits[t.spare[j]] == []
    {
      if j < |s.spare| {
        assert t.spare[j] == s.spare[j] && t.spare[j] != ca;
      }
    }
  }

  /** Boxes the connections have not joined keep the boxes apart. */
  lemma Apart(edges: seq<Distance>, k: nat, n: nat, owner: map<nat, nat>, a: nat, b: nat)
    requires k <= |edges| && a < n && b < n && Tracks(edges, k, n, owner) && !Same(owner, a, b)
    ensures !AllLinked(edges, k, n)
  {
    assert !Linked(edges, k, a, b);
  }

  /** A connection that changes no circuit completes nothing. */
  lemma Unchanged(edges: seq<Distance>, k: nat, n: nat, owner: map<nat, nat>)
    requires k < |edges| && Tracks(edges, k, n, owner) && Tracks(edges, k + 1, n, owner)
    ensures AllLinked(edges, k + 1, n) <==> AllLinked(edges, k, n)
  {
  }

  /** One pass of the connection loop: the connection `e`, which is
      connection `k` of the sorted list, joins its two boxes' circuits;
      `done` reports that one circuit now holds every box. */
  method Join(n: nat, s: State, e: Distance, ghost edges: seq<Distance>, ghost k: nat) returns (t: State, done: bool)
    requires k < |edges| && edges[k] == e && e.b < e.a < n
    requires Valid(n, s) && Tracks(edges, k, n, s.owner)
    ensures Valid(n, t) && Tracks(edges, k + 1, n, t.owner)
    ensures |t.circuits| > 0
    ensures done <==> Completes(edges, k, n)
  {
    var a, b := e.a, e.b;
    if a !in s.owner && b !in s.owner {
      var s0, c;
      if |s.spare| > 0 {
        c := s.spare[|s.spare| - 1];
        ValidPop(n, s);
        s0 := State(s.circuits, s.spare[..|s.spare| - 1], s.owner);
      } else {
        ValidGrow(n, s);
        c := |s.circuits|;
        s0 := State(s.circuits + [[]], s.spare, s.owner);
      }
      ValidFill(n, s0, c, a, b);
      TracksFresh(edges, k, n, s.owner, c);
      t := State(s0.circuits[c := [a, b]], s0.spare, s0.owner[a := c][b := c]);
      done := |t.circuits[c]| == n;
      DoneMeans(edges, k + 1, n, t, a);
      Apart(edges, k, n, s.owner, a, b);
    } else if a in s.owner && b !in s.owner {
      var c := s.owner[a];
      ValidJoin(n, s, a, b);
      TracksJoin(edges, k, n, s.owner, a, b);
      t := State(s.circuits[c := s.circuits[c] + [b]], s.spare, s.owner[b := c]);
      done := |t.circuits[c]| == n;
      DoneMeans(edges, k + 1, n, t, a);
      Apart(edges, k, n, s.owner, a, b);
    } else if a !in s.owner && b in s.owner {
      var c := s.owner[b];
      ValidJoin(n, s, b, a);
      TracksJoin(edges, k, n, s.owner, b, a);
      t := State(s.circuits[c := s.circuits[c] + [a]], s.spare, s.owner[a := c]);
      done := |t.circuits[c]| == n;
      DoneMeans(edges, k + 1, n, t, b);
      Apart(edges, k, n, s.owner, a, b);
    } else if s.owner[a] != s.owner[b] {
      var ca := s.owner[a];
      ValidMerge(n, s, a, b);
      t := MergeState(s, ca, s.owner[b]);
      TracksMerge(edges, k, n, s.owner, t.owner);
      done := |t.circuits[ca]| == n;
      DoneMeans(edges, k + 1, n, t, a);
      Apart(edges, k, n, s.owner, a, b);
    } else {
      t := s;
      done := false;
      TracksSame(edges, k, n, s.owner);
      Unchanged(edges, k, n, s.owner);
    }
  }

  predicate Decreasing(s: seq<nat>) {
    forall i, j :: 0 <= i < j < |s| ==> s[i] >= s[j]
  }

  /** Inserts `x` into a list sorted from largest to smallest. */
  function InsertDescending(x: nat, s: seq<nat>): (r: seq<nat>)
    requires Decreasing(s)
    ensures Decreasing(r) && multiset(r) == multiset(s) + multiset{x}
  {
    if |s| == 0 || x >= s[0] then [x] + s
    else
      var rest := InsertDescending(x, s[1..]);
      InsertBelow(x, s, rest);
      [s[0]] + rest
  }

  lemma InsertBelow(x: nat, s: seq<nat>, rest: seq<nat>)
    requires |s| > 0 && Decreasing(s) && x < s[0]
    requires Decreasing(rest) && multiset(rest) == multiset(s[1..]) + multiset{x}
    ensures Decreasing([s[0]] + rest) && multiset([s[0]] + rest) == multiset(s) + multiset{x}
  {
    assert s == [s[0]] + s[1..];
    forall i | 0 <= i < |rest|
      ensures rest[i] <= s[0]
    {
      assert rest[i] in multiset(rest);
      if rest[i] != x {
        assert rest[i] in s[1..];
        var k :| 0 <= k < |s| - 1 && s[1..][k] == rest[i];
        assert s[k + 1] == rest[i];
      }
    }
    var r := [s[0]] + rest;
    forall i, j | 0 <= i < j < |r|
      ensures r[i] >= r[j]
    {
      assert r[j] == rest[j - 1];
      if i > 0 {
        assert r[i] == rest[i - 1];
      }
    }
  }

  /** `sorted_unstable().rev()`: the same sizes, largest first. */
  function Descending(s: seq<nat>): (r: seq<nat>)
    ensures Decreasing(r) && multiset(r) == multiset(s) && |r| == |s|
  {
    if |s| == 0 then []
    else
      assert s == [s[0]] + s[1..];
      InsertDescending(s[0], Descending(s[1..]))
  }

  function Product(s: seq<nat>): nat {
    if |s| == 0 then 1 else s[0] * Product(s[1..])
  }

  function Min(u: nat, v: nat): nat {
    if u < v then u else v
  }

  /** `take(3)` of the sizes sorted largest first. */
  function Top(sizes: seq<nat>): seq<nat> {
    Descending(sizes)[..Min(3, |sizes|)]
  }

  /** The three kept sizes are taken from the list, and none left behind is
      larger than any kept one. */
  lemma TopLargest(sizes: seq<nat>)
    ensures |Top(sizes)| == Min(3, |sizes|)
    ensures multiset(Top(sizes)) <= multiset(sizes)
    ensures forall x, y :: x in Top(sizes) && y in multiset(sizes) - multiset(Top(sizes)) ==> y <= x
  {
    var d := Descending(sizes);
    var m := Min(3, |sizes|);
    assert d == d[..m] + d[m..];
    forall x, y | x in d[..m] && y in multiset(sizes) - multiset(d[..m])
      ensures y <= x
    {
      assert y in multiset(d[m..]);
      var i :| 0 <= i < m && d[i] == x;
      var j :| 0 <= j < |d| - m && d[m..][j] == y;
      assert d[m + j] == y;
    }
  }

  /** `reduce(|a, b| a * b)`: the product of the kept sizes, or nothing when
      there is no circuit at all. */
  function LargestProduct(sizes: seq<nat>): Option<nat> {
    if |sizes| == 0 then None else Some(Product(Top(sizes)))
  }

  function Lengths(circuits: seq<seq<nat>>): (r: seq<nat>)
    ensures |r| == |circuits|
    ensures forall i :: 0 <= i < |r| ==> r[i] == |circuits[i]|
  {
    if |circuits| == 0 then [] else [|circuits[0]|] + Lengths(circuits[1..])
  }

  /** A non-empty circuit holds exactly the boxes linked to any one of its
      members. */
  lemma CircuitIsClass(edges: seq<Distance>, k: nat, n: nat, s: State, c: nat, p: nat, q: nat)
    requires k <= |edges| && Valid(n, s) && Tracks(edges, k, n, s.owner)
    requires c < |s.circuits| && p in s.circuits[c] && q < n
    ensures q in s.circuits[c] <==> Linked(edges, k, p, q)
  {
    assert p in s.owner && p < n;
    if q in s.owner {
      assert s.owner[q] < |s.circuits|;
    }
    if p == q {
      LinkedSelf(edges, k, p);
    }
  }

  /** The thousandth connection is made exactly when there are at least a
      thousand and the first 999 leave the boxes apart. */
  lemma Reached(edges: seq<Distance>, n: nat, k: nat, stop: bool)
    requires |edges| > 0 && Edges(n, edges) && k <= |edges|
    requires forall j :: 0 <= j < k - 1 ==> !Completes(edges, j, n)
    requires !stop ==> k == |edges| && (k == 0 || !Completes(edges, k - 1, n))
    requires stop ==> k > 0 && Completes(edges, k - 1, n)
    ensures k >= 1000 <==> |edges| >= 1000 && !AllLinked(edges, 999, n)
  {
    if k >= 1000 {
      assert !Linked(edges, 0, edges[0].a, edges[0].b);
      if AllLinked(edges, 999, n) {
        SomeCompletes(edges, 999, n);
        assert false;
      }
    } else if stop && |edges| >= 1000 {
      AllLinkedGrows(edges, k, 999, n);
    }
  }

  /** The connection loop of `main`, over the sorted connections: the
      product of the three largest circuit sizes once the thousandth
      connection is made (zero when the loop stops earlier), and the
      product of the x coordinates of the two boxes of the connection that
      completes one circuit. The "No circuits" error is never taken: a
      circuit exists after the first connection. */
  method Connect(points: seq<Point>, edges: seq<Distance>)
    returns (r: Result<(nat, Option<nat>), string>, ghost snapshot: State)
    requires Edges(|points|, edges)
    ensures r.Ok?
    ensures r.Ok? && |edges| >= 1000 && !AllLinked(edges, 999, |points|) ==>
              && Valid(|points|, snapshot) && Tracks(edges, 1000, |points|, snapshot.owner)
              && Some(r.value.0) == LargestProduct(Lengths(snapshot.circuits))
    ensures r.Ok? && !(|edges| >= 1000 && !AllLinked(edges, 999, |points|)) ==> r.value.0 == 0
    ensures r.Ok? ==> (r.value.1.Some? <==> exists k: nat :: Completes(edges, k, |points|))
    ensures r.Ok? && r.value.1.Some? ==>
      exists k: nat :: Completes(edges, k, |points|) && r.value.1.value == points[edges[k].a].x * points[edges[k].b].x
  {
    var n := |points|;
    var s := State([], [], map[]);
    var largest: nat := 0;
    var last: Option<nat> := None;
    snapshot := s;
    var k := 0;
    var stop := false;
    while k < |edges| && !stop
      invariant k <= |edges|
      invariant Valid(n, s) && Tracks(edges, k, n, s.owner)
      invariant k > 0 ==> |s.circuits| > 0
      invariant stop <==> last.Some?
      invariant forall j :: 0 <= j < k - 1 ==> !Completes(edges, j, n)
      invariant !stop ==> k == 0 || !Completes(edges, k - 1, n)
      invariant stop ==>
                  k > 0 && Completes(edges, k - 1, n) && last.value == points[edges[k - 1].a].x * points[edges[k - 1].b].x
      invariant k >= 1000 ==>
                  Valid(n, snapshot) && Tracks(edges, 1000, n, snapshot.owner) && Some(largest) == LargestProduct(Lengths(snapshot.circuits))
      invariant k < 1000 ==> largest == 0
    {
      var e := edges[k];
      var done;
      s, done := Join(n, s, e, edges, k);
      if k + 1 == 1000 {
        var product := LargestProduct(Lengths(s.circuits));
        if product.None? {
          return Err("No circuits?!"), snapshot;
        }
        largest := product.value;
        snapshot := s;
      }
      if done {
        last := Some(points[e.a].x * points[e.b].x);
        stop := true;
      }
      k := k + 1;
    }
    if |edges| > 0 {
      Reached(edges, n, k, stop);
    }
    return Ok((largest, last)), snapshot;
  }

  /** Every pair of distinct boxes below `n` is one of the connections. */
  ghost predicate Complete(n: nat, edges: seq<Distance>) {
    forall p, q :: 0 <= q < p < n ==> Connects(edges, p, q)
  }

  /** Some connection joins `p` to `q`. */
  ghost predicate Connects(edges: seq<Distance>, p: nat, q: nat) {
    exists k :: 0 <= k < |edges| && edges[k].a == p && edges[k].b == q
  }

  /** When every pair is a connection, the connections end up joining
      every box. */
  lemma CompleteJoins(n: nat, edges: seq<Distance>)
    requires Complete(n, edges)
    ensures AllLinked(edges, |edges|, n)
  {
    forall p, q | 0 <= p < n && 0 <= q < n
      ensures Linked(edges, |edges|, p, q)
    {
      if p == q {
        LinkedSelf(edges, |edges|, p);
      } else {
        var hi, lo := if p < q then q else p, if p < q then p else q;
        assert Connects(edges, hi, lo);
        var k :| 0 <= k < |edges| && edges[k].a == hi && edges[k].b == lo;
        LinkedSelf(edges, k, p);
        LinkedSelf(edges, k, q);
        assert Linked(edges, k + 1, p, q);
        LinkedGrows(edges, k + 1, |edges|, p, q);
      }
    }
  }

  lemma MeasuredComplete(points: seq<Point>, distances: seq<Distance>, sorted: seq<Distance>)
    requires PairsOf(points, |points|, distances) && multiset(sorted) == multiset(distances)
    ensures Edges(|points|, sorted) && Complete(|points|, sorted)
  {
    PairsAreEdges(points, distances);
    forall k | 0 <= k < |sorted|
      ensures sorted[k].b < sorted[k].a < |points|
    {
      assert sorted[k] in multiset(distances);
    }
    forall p, q | 0 <= q < p < |points|
      ensures Connects(sorted, p, q)
    {
      SlotOrder(p, q);
      SlotMonotone(p + 1, |points|);
      var d := distances[Slot(p, q)];
      assert d in multiset(sorted);
      var k :| 0 <= k < |sorted| && sorted[k] == d;
    }
  }

  /** `main`: parse, measure every pair, sort, connect. With at least two
      boxes some connection joins them all, so the second answer is always
      there. */
  method Solve(points: seq<Point>)
    returns (r: Result<(nat, Option<nat>), string>, edges: seq<Distance>, ghost snapshot: State)
    ensures Ascending(edges) && Edges(|points|, edges) && Complete(|points|, edges)
    ensures forall k :: 0 <= k < |edges| ==>
      edges[k].distance == AbsDistance(points[edges[k].a], points[edges[k].b])
    ensures r.Ok?
    ensures r.Ok? && |edges| >= 1000 && !AllLinked(edges, 999, |points|) ==>
              && Valid(|points|, snapshot) && Tracks(edges, 1000, |points|, snapshot.owner)
              && Some(r.value.0) == LargestProduct(Lengths(snapshot.circuits))
    ensures r.Ok? && !(|edges| >= 1000 && !AllLinked(edges, 999, |points|)) ==> r.value.0 == 0
    ensures r.Ok? ==> (r.value.1.Some? <==> exists k: nat :: Completes(edges, k, |points|))
    ensures r.Ok? && r.value.1.Some? ==>
      exists k: nat :: Completes(edges, k, |points|) && r.value.1.value == points[edges[k].a].x * points[edges[k].b].x
    ensures r.Ok? && |points| >= 2 ==> r.value.1.Some?
  {
    var distances := Measure(points);
    edges := SortAscending(distances);
    MeasuredComplete(points, distances, edges);
    PairsAreEdges(points, distances);
    forall k | 0 <= k < |edges|
      ensures edges[k].distance == AbsDistance(points[edges[k].a], points[edges[k].b])
    {
      assert edges[k] in multiset(distances);
    }
    r, snapshot := Connect(points, edges);
    if |points| >= 2 {
      CompleteJoins(|points|, edges);
      assert edges[0].b < edges[0].a;
      assert !Linked(edges, 0, 1, 0);
      SomeCompletes(edges, |edges|, |points|);
    }
  }
}
