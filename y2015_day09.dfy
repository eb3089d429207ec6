/** 2015 day 9: the shortest and the longest route through every location
    exactly once, by exhaustive depth-first search (src/year_2015/day09.rs). */
module Year2015Day09 {
  import opened Wrappers
  import opened StringIdMap
  import Peek

  /** An undirected route between two location ids, stored smaller id first. */
  datatype Route = Route(a: nat, b: nat)

  function NewRoute(a: nat, b: nat): (r: Route)
    ensures r.a <= r.b && {r.a, r.b} == {a, b}
  {
    if a < b then Route(a, b) else Route(b, a)
  }

  /** The order of the two ends does not matter, and two routes are the same
      exactly when they join the same locations. */
  lemma RouteSymmetric(a: nat, b: nat, c: nat, d: nat)
    ensures NewRoute(a, b) == NewRoute(b, a)
    ensures NewRoute(a, b) == NewRoute(c, d) <==> {a, b} == {c, d}
  {
    if {a, b} == {c, d} {
      assert a == c || a == d;
      assert b == c || b == d;
    }
  }

  /** Every connection appears from both ends and has a recorded length. */
  ghost predicate GraphOk(edges: map<Route, nat>, conn: map<nat, seq<nat>>, n: nat) {
    forall x :: x in conn ==> x < n && forall j :: 0 <= j < |conn[x]| ==>
      var y := conn[x][j];
      y < n && y in conn && x in conn[y] && NewRoute(x, y) in edges
  }

  /** Every recorded route appears in the connection lists of both its ends. */
  ghost predicate EdgesConnected(edges: map<Route, nat>, conn: map<nat, seq<nat>>) {
    forall x: nat, y: nat :: NewRoute(x, y) in edges ==> x in conn && y in conn[x]
  }

  /** Line `k` names the same pair of locations as line `j`. */
  predicate SamePair(lines: seq<(string, string, nat)>, j: nat, k: nat)
    requires j < |lines| && k < |lines|
  {
    {lines[j].0, lines[j].1} == {lines[k].0, lines[k].1}
  }

  ghost function RouteOfLine(ids: map<string, nat>, line: (string, string, nat)): Route
    requires line.0 in ids && line.1 in ids
  {
    NewRoute(ids[line.0], ids[line.1])
  }

  /** Appends `y` to the connection list of `x`, creating it if absent. */
  function Connect(conn: map<nat, seq<nat>>, x: nat, y: nat): (c: map<nat, seq<nat>>)
    ensures c.Keys == conn.Keys + {x}
    ensures c[x] == (if x in conn then conn[x] else []) + [y]
    ensures forall z :: z in conn && z != x ==> c[z] == conn[z]
  {
    if x in conn then conn[x := conn[x] + [y]] else conn[x := [y]]
  }

  /** What the reading loop keeps after `i` lines: ids for every name read, a
      consistent graph over them, each line's route recorded (with the first
      line that recorded it), and no pair named twice. */
  ghost predicate ReadSoFar(lines: seq<(string, string, nat)>, i: nat, ids: map<string, nat>, n: nat,
                            edges: map<Route, nat>, conn: map<nat, seq<nat>>, origin: map<Route, nat>)
    requires i <= |lines|
  {
    GraphOk(edges, conn, n) && EdgesConnected(edges, conn) && LinesRead(lines, i, ids, edges, origin)
  }

  /** The line part of `ReadSoFar`: every route recorded comes from the line
      `origin` names, with that line's length. */
  ghost predicate LinesRead(lines: seq<(string, string, nat)>, i: nat, ids: map<string, nat>,
                            edges: map<Route, nat>, origin: map<Route, nat>)
    requires i <= |lines|
  {
    && (forall k :: 0 <= k < i ==> lines[k].0 in ids && lines[k].1 in ids)
    && (forall k :: 0 <= k < i ==>
          RouteOfLine(ids, lines[k]) in edges && edges[RouteOfLine(ids, lines[k])] == lines[k].2)
    && (forall rt :: rt in edges ==>
          (rt in origin && origin[rt] < i && RouteOfLine(ids, lines[origin[rt]]) == rt))
    && (forall j, k :: 0 <= j < k < i ==> !SamePair(lines, j, k))
  }

  /** The names of the first `i` lines. */
  function Names(lines: seq<(string, string, nat)>, i: nat): set<string>
    requires i <= |lines|
  {
    if i == 0 then {} else Names(lines, i - 1) + {lines[i - 1].0, lines[i - 1].1}
  }

  /** What reading the lines yields: `ids` numbers the names of the lines one
      to one from 0, every line's route is recorded with that line's length,
      and every recorded route is the route of some line. */
  ghost predicate ReadFrom(lines: seq<(string, string, nat)>, ids: map<string, nat>, edges: map<Route, nat>) {
    && ids.Keys == Names(lines, |lines|) && (forall s :: s in ids ==> ids[s] < |ids|)
    && (forall s, t :: s in ids && t in ids && ids[s] == ids[t] ==> s == t)
    && (forall k :: 0 <= k < |lines| ==>
          && lines[k].0 in ids && lines[k].1 in ids
          && RouteOfLine(ids, lines[k]) in edges && edges[RouteOfLine(ids, lines[k])] == lines[k].2)
    && (forall rt :: rt in edges ==> exists k :: 0 <= k < |lines| && RouteOfLine(ids, lines[k]) == rt)
  }

  /** Reads the lines `a to b = length`: names become ids, each route is
      recorded once with its length, and both ends learn of each other. */
  method BuildGraph(lines: seq<(string, string, nat)>)
    returns (r: Result<(map<Route, nat>, map<nat, seq<nat>>, nat), string>, ghost ids: map<string, nat>)
    ensures r.Ok? ==> GraphOk(r.value.0, r.value.1, r.value.2) && EdgesConnected(r.value.0, r.value.1)
    ensures r.Ok? ==> r.value.2 == |ids| && ReadFrom(lines, ids, r.value.0)
    ensures r.Ok? <==> forall j, k :: 0 <= j < k < |lines| ==> !SamePair(lines, j, k)
  {
    var destinations := new StringIdMap();
    var duplicate, edges, conn;
    ghost var origin;
    duplicate, edges, conn, origin := ReadLines(destinations, lines);
    ids := destinations.ids;
    if duplicate {
      return Err("Unexpected duplicate route"), ids;
    }
    ReadAll(lines, ids, edges, origin);
    r := Ok((edges, conn, destinations.Count()));
  }

  /** The reading loop: stops at the first line that repeats a pair. */
  method ReadLines(destinations: StringIdMap, lines: seq<(string, string, nat)>)
    returns (duplicate: bool, edges: map<Route, nat>, conn: map<nat, seq<nat>>, ghost origin: map<Route, nat>)
    requires destinations.Valid() && destinations.ids == map[] && destinations.nextId == 0
    modifies destinations
    ensures destinations.Valid()
    ensures duplicate ==> exists j, k :: 0 <= j < k < |lines| && SamePair(lines, j, k)
    ensures !duplicate ==> ReadSoFar(lines, |lines|, destinations.ids, destinations.nextId, edges, conn, origin)
    ensures !duplicate ==> Within(destinations.ids.Keys, lines, |lines|)
  {
    edges, conn, origin := map[], map[], map[];
    for i := 0 to |lines|
      invariant destinations.Valid() && Within(destinations.ids.Keys, lines, i)
      invariant ReadSoFar(lines, i, destinations.ids, destinations.nextId, edges, conn, origin)
    {
      ghost var before, n0 := destinations.ids, destinations.nextId;
      var ia, ib := InternPair(destinations, lines, i);
      duplicate, edges, conn, origin :=
        ReadLine(lines, i, before, n0, destinations.ids, destinations.nextId, edges, conn, origin, ia, ib);
      if duplicate {
        return;
      }
    }
    duplicate := false;
  }

  lemma ReadAll(lines: seq<(string, string, nat)>, ids: map<string, nat>,
                edges: map<Route, nat>, origin: map<Route, nat>)
    requires LinesRead(lines, |lines|, ids, edges, origin)
    requires Within(ids.Keys, lines, |lines|) && forall s :: s in ids ==> ids[s] < |ids|
    requires forall s, t :: s in ids && t in ids && ids[s] == ids[t] ==> s == t
    ensures ReadFrom(lines, ids, edges)
  {
    NamesIn(lines, |lines|, ids);
    WithinNames(ids.Keys, lines, |lines|);
  }

  /** Every name of `keys` is one of the names of the first `i` lines. */
  ghost predicate Within(keys: set<string>, lines: seq<(string, string, nat)>, i: nat)
    requires i <= |lines|
    decreases i
  {
    if i == 0 then keys == {} else Within(keys - {lines[i - 1].0, lines[i - 1].1}, lines, i - 1)
  }

  lemma {:induction false} WithinSmaller(keys: set<string>, keys': set<string>, lines: seq<(string, string, nat)>, i: nat)
    requires i <= |lines| && Within(keys, lines, i) && keys' <= keys
    ensures Within(keys', lines, i)
    decreases i
  {
    if i > 0 {
      var line := lines[i - 1];
      WithinSmaller(keys - {line.0, line.1}, keys' - {line.0, line.1}, lines, i - 1);
    }
  }

  /** Interning the names of line `i` keeps the ids within the names read. */
  lemma WithinStep(before: map<string, nat>, after: map<string, nat>, lines: seq<(string, string, nat)>, i: nat)
    requires i < |lines| && Within(before.Keys, lines, i)
    requires forall s :: s in after ==> s in before || s == lines[i].0 || s == lines[i].1
    ensures Within(after.Keys, lines, i + 1)
  {
    WithinSmaller(before.Keys, after.Keys - {lines[i].0, lines[i].1}, lines, i);
  }

  lemma {:induction false} WithinNames(keys: set<string>, lines: seq<(string, string, nat)>, i: nat)
    requires i <= |lines| && Within(keys, lines, i)
    ensures keys <= Names(lines, i)
    decreases i
  {
    if i > 0 {
      WithinNames(keys - {lines[i - 1].0, lines[i - 1].1}, lines, i - 1);
    }
  }

  lemma {:induction false} NamesIn(lines: seq<(string, string, nat)>, i: nat, ids: map<string, nat>)
    requires i <= |lines| && forall k :: 0 <= k < i ==> lines[k].0 in ids && lines[k].1 in ids
    ensures Names(lines, i) <= ids.Keys
  {
    if i > 0 {
      NamesIn(lines, i - 1, ids);
    }
  }

  /** One line, once both names are interned (`before` and `n0` are the ids
      before, `ids` and `n` after): either report the route as a duplicate or
      record it and connect its ends. */
  method ReadLine(lines: seq<(string, string, nat)>, i: nat, ghost before: map<string, nat>, ghost n0: nat,
                  ghost ids: map<string, nat>, ghost n: nat,
                  edges: map<Route, nat>, conn: map<nat, seq<nat>>, ghost origin: map<Route, nat>, ia: nat, ib: nat)
    returns (duplicate: bool, edges': map<Route, nat>, conn': map<nat, seq<nat>>, ghost origin': map<Route, nat>)
    requires i < |lines| && ReadSoFar(lines, i, before, n0, edges, conn, origin) && n0 <= n
    requires forall s :: s in before ==> s in ids && ids[s] == before[s]
    requires forall s, t :: s in ids && t in ids && ids[s] == ids[t] ==> s == t
    requires lines[i].0 in ids && lines[i].1 in ids && ia == ids[lines[i].0] < n && ib == ids[lines[i].1] < n
    ensures duplicate ==> exists k :: 0 <= k < i && SamePair(lines, k, i)
    ensures !duplicate ==> ReadSoFar(lines, i + 1, ids, n, edges', conn', origin')
  {
    Interned(before, ids, lines, i);
    LinesWider(lines, i, before, ids, edges, origin);
    GraphWider(edges, conn, n0, n);
    duplicate, edges', conn', origin' := RecordRoute(lines, i, ids, n, edges, conn, origin, ia, ib);
  }

  /** `to_route`'s two `to_id` calls, on the two names of line `i`: every id
      is still the id of a name read. */
  method InternPair(destinations: StringIdMap, lines: seq<(string, string, nat)>, i: nat) returns (ia: nat, ib: nat)
    requires destinations.Valid() && i < |lines| && Within(destinations.ids.Keys, lines, i)
    modifies destinations
    ensures destinations.Valid() && old(destinations.nextId) <= destinations.nextId
    ensures forall s :: s in old(destinations.ids) ==>
              s in destinations.ids && destinations.ids[s] == old(destinations.ids)[s]
    ensures lines[i].0 in destinations.ids && lines[i].1 in destinations.ids
    ensures Within(destinations.ids.Keys, lines, i + 1)
    ensures ia == destinations.ids[lines[i].0] < destinations.nextId
    ensures ib == destinations.ids[lines[i].1] < destinations.nextId
  {
    ghost var before := destinations.ids;
    ia := destinations.ToId(lines[i].0);
    ib := destinations.ToId(lines[i].1);
    WithinStep(before, destinations.ids, lines, i);
  }

  /** The route of line `i` is a duplicate, or it is recorded and both ends are
      connected. */
  method RecordRoute(lines: seq<(string, string, nat)>, i: nat, ghost ids: map<string, nat>, ghost n: nat,
                     edges: map<Route, nat>, conn: map<nat, seq<nat>>, ghost origin: map<Route, nat>,
                     ia: nat, ib: nat)
    returns (duplicate: bool, edges': map<Route, nat>, conn': map<nat, seq<nat>>, ghost origin': map<Route, nat>)
    requires i < |lines| && ReadSoFar(lines, i, ids, n, edges, conn, origin)
    requires forall s, t :: s in ids && t in ids && ids[s] == ids[t] ==> s == t
    requires lines[i].0 in ids && lines[i].1 in ids && ia == ids[lines[i].0] < n && ib == ids[lines[i].1] < n
    ensures duplicate ==> exists k :: 0 <= k < i && SamePair(lines, k, i)
    ensures !duplicate ==> ReadSoFar(lines, i + 1, ids, n, edges', conn', origin')
  {
    var route := NewRoute(ia, ib);
    if route in edges {
      SameRouteSamePair(ids, lines, origin[route], i);
      return true, edges, conn, origin;
    }
    NewPair(ids, lines, i, edges);
    Recorded(lines, i, ids, n, edges, conn, origin, lines[i].2);
    duplicate := false;
    edges' := edges[route := lines[i].2];
    origin' := origin[route := i];
    conn' := Connect(conn, ia, ib);
    conn' := Connect(conn', ib, ia);
  }

  lemma LinesWider(lines: seq<(string, string, nat)>, i: nat, before: map<string, nat>, after: map<string, nat>,
                   edges: map<Route, nat>, origin: map<Route, nat>)
    requires i <= |lines| && LinesRead(lines, i, before, edges, origin)
    requires forall k :: 0 <= k < i ==> lines[k].0 in after && lines[k].1 in after
    requires forall k :: 0 <= k < i ==> RouteOfLine(after, lines[k]) == RouteOfLine(before, lines[k])
    ensures LinesRead(lines, i, after, edges, origin)
  {
  }

  lemma GraphWider(edges: map<Route, nat>, conn: map<nat, seq<nat>>, n: nat, n': nat)
    requires GraphOk(edges, conn, n) && n <= n'
    ensures GraphOk(edges, conn, n')
  {
  }

  lemma ConnectBoth(edges: map<Route, nat>, conn: map<nat, seq<nat>>, n: nat, x: nat, y: nat, length: nat)
    requires GraphOk(edges, conn, n) && x < n && y < n
    ensures GraphOk(edges[NewRoute(x, y) := length], Connect(Connect(conn, x, y), y, x), n)
  {
    var c := Connect(Connect(conn, x, y), y, x);
    forall z, j | z in c && 0 <= j < |c[z]|
      ensures var w := c[z][j]; w < n && w in c && z in c[w] && NewRoute(z, w) in edges[NewRoute(x, y) := length]
    {
      ConnectBothAt(edges, conn, n, x, y, length, z, j);
    }
  }

  lemma ConnectBothAt(edges: map<Route, nat>, conn: map<nat, seq<nat>>, n: nat, x: nat, y: nat, length: nat,
                      z: nat, j: nat)
    requires GraphOk(edges, conn, n) && x < n && y < n
    requires var c := Connect(Connect(conn, x, y), y, x); z in c && j < |c[z]|
    ensures var c := Connect(Connect(conn, x, y), y, x); var w := c[z][j];
            w < n && w in c && z in c[w] && NewRoute(z, w) in edges[NewRoute(x, y) := length]
  {
    var c := Connect(Connect(conn, x, y), y, x);
    var w := c[z][j];
    RouteSymmetric(x, y, x, y);
    if z in conn && j < |conn[z]| && conn[z][j] == w {
      assert z in conn[w];
    } else {
      assert (z == x && w == y) || (z == y && w == x);
    }
  }

  lemma Recorded(lines: seq<(string, string, nat)>, i: nat, ids: map<string, nat>, n: nat,
                 edges: map<Route, nat>, conn: map<nat, seq<nat>>, origin: map<Route, nat>, length: nat)
    requires i < |lines| && lines[i].0 in ids && lines[i].1 in ids
    requires ids[lines[i].0] < n && ids[lines[i].1] < n
    requires ReadSoFar(lines, i, ids, n, edges, conn, origin)
    requires forall k :: 0 <= k < i ==> !SamePair(lines, k, i)
    requires RouteOfLine(ids, lines[i]) !in edges && length == lines[i].2
    ensures var rt := RouteOfLine(ids, lines[i]);
            ReadSoFar(lines, i + 1, ids, n, edges[rt := length],
                      Connect(Connect(conn, ids[lines[i].0], ids[lines[i].1]), ids[lines[i].1], ids[lines[i].0]),
                      origin[rt := i])
  {
    ConnectBoth(edges, conn, n, ids[lines[i].0], ids[lines[i].1], length);
    ConnectLinks(edges, conn, ids[lines[i].0], ids[lines[i].1], length);
    RecordedLine(lines, i, ids, edges, origin, length);
  }

  lemma RecordedLine(lines: seq<(string, string, nat)>, i: nat, ids: map<string, nat>,
                     edges: map<Route, nat>, origin: map<Route, nat>, length: nat)
    requires i < |lines| && lines[i].0 in ids && lines[i].1 in ids
    requires LinesRead(lines, i, ids, edges, origin)
    requires forall k :: 0 <= k < i ==> !SamePair(lines, k, i)
    requires RouteOfLine(ids, lines[i]) !in edges && length == lines[i].2
    ensures var rt := RouteOfLine(ids, lines[i]);
            LinesRead(lines, i + 1, ids, edges[rt := length], origin[rt := i])
  {
  }

  lemma ConnectLinks(edges: map<Route, nat>, conn: map<nat, seq<nat>>, x: nat, y: nat, length: nat)
    requires EdgesConnected(edges, conn)
    ensures EdgesConnected(edges[NewRoute(x, y) := length], Connect(Connect(conn, x, y), y, x))
  {
    var c := Connect(Connect(conn, x, y), y, x);
    forall u: nat, v: nat | NewRoute(u, v) in edges[NewRoute(x, y) := length]
      ensures u in c && v in c[u]
    {
      if NewRoute(u, v) == NewRoute(x, y) {
        RouteSymmetric(u, v, x, y);
        assert y in c[x] && x in c[y];
      } else {
        assert v in conn[u];
      }
    }
  }

  lemma Interned(before: map<string, nat>, after: map<string, nat>, lines: seq<(string, string, nat)>, i: nat)
    requires i <= |lines|
    requires forall s :: s in before ==> s in after && after[s] == before[s]
    requires forall k :: 0 <= k < i ==> lines[k].0 in before && lines[k].1 in before
    ensures forall k :: 0 <= k < i ==> lines[k].0 in after && lines[k].1 in after
    ensures forall k :: 0 <= k < i ==> RouteOfLine(after, lines[k]) == RouteOfLine(before, lines[k])
  {
  }

  lemma SameRouteSamePair(ids: map<string, nat>, lines: seq<(string, string, nat)>, k: nat, i: nat)
    requires k < i < |lines|
    requires forall s, t :: s in ids && t in ids && ids[s] == ids[t] ==> s == t
    requires lines[k].0 in ids && lines[k].1 in ids && lines[i].0 in ids && lines[i].1 in ids
    requires RouteOfLine(ids, lines[k]) == RouteOfLine(ids, lines[i])
    ensures SamePair(lines, k, i)
  {
    var (a, b, c, d) := (ids[lines[k].0], ids[lines[k].1], ids[lines[i].0], ids[lines[i].1]);
    RouteSymmetric(a, b, c, d);
    assert {a, b} == {c, d};
  }

  lemma NewPair(ids: map<string, nat>, lines: seq<(string, string, nat)>, i: nat, edges: map<Route, nat>)
    requires i < |lines| && lines[i].0 in ids && lines[i].1 in ids
    requires forall k :: 0 <= k < i ==> lines[k].0 in ids && lines[k].1 in ids
    requires forall k :: 0 <= k < i ==> RouteOfLine(ids, lines[k]) in edges
    requires RouteOfLine(ids, lines[i]) !in edges
    ensures forall k :: 0 <= k < i ==> !SamePair(lines, k, i)
  {
    forall k | 0 <= k < i
      ensures !SamePair(lines, k, i)
    {
      RouteSymmetric(ids[lines[k].0], ids[lines[k].1], ids[lines[i].0], ids[lines[i].1]);
    }
  }

  const UsizeMax: nat := 0xFFFF_FFFF_FFFF_FFFF

  predicate Distinct(p: seq<nat>) {
    forall i, j :: 0 <= i < j < |p| ==> p[i] != p[j]
  }

  /** Consecutive locations of `p` are joined by recorded routes. */
  ghost predicate Walk(edges: map<Route, nat>, p: seq<nat>) {
    forall i :: 0 < i < |p| ==> NewRoute(p[i - 1], p[i]) in edges
  }

  /** The total length of the routes along `p`. */
  ghost function PathCost(edges: map<Route, nat>, p: seq<nat>): nat
    requires Walk(edges, p)
  {
    if |p| < 2 then 0 else PathCost(edges, p[..|p| - 1]) + edges[NewRoute(p[|p| - 2], p[|p| - 1])]
  }

  /** A partial route on the search stack: a non-empty walk that repeats no
      location, with its length so far. */
  ghost predicate Entry(n: nat, edges: map<Route, nat>, e: (seq<nat>, nat)) {
    && |e.0| > 0 && Distinct(e.0) && (forall i :: 0 <= i < |e.0| ==> e.0[i] < n)
    && Walk(edges, e.0) && e.1 == PathCost(edges, e.0)
  }

  /** A route through all `n` locations, each exactly once. */
  ghost predicate IsTour(n: nat, edges: map<Route, nat>, p: seq<nat>) {
    0 < |p| == n && Distinct(p) && (forall i :: 0 <= i < |p| ==> p[i] < n) && Walk(edges, p)
  }

  /** Extending a stack entry by an unvisited neighbour gives a stack entry. */
  lemma {:induction false} ExtendEntry(n: nat, edges: map<Route, nat>, p: seq<nat>, cost: nat, c: nat)
    requires Entry(n, edges, (p, cost)) && c < n && c !in p && NewRoute(p[|p| - 1], c) in edges
    ensures Entry(n, edges, (p + [c], cost + edges[NewRoute(p[|p| - 1], c)]))
  {
    var q := p + [c];
    assert q[..|q| - 1] == p;
    assert forall i :: 0 <= i < |p| ==> q[i] == p[i];
  }

  /** Pushes every unvisited neighbour of the end of `path` onto the stack. */
  method Extend(n: nat, edges: map<Route, nat>, conns: seq<nat>, paths: seq<(seq<nat>, nat)>,
                path: seq<nat>, cost: nat)
    returns (r: Result<seq<(seq<nat>, nat)>, string>)
    requires Entry(n, edges, (path, cost)) && forall j :: 0 <= j < |conns| ==> conns[j] < n
    requires forall k :: 0 <= k < |paths| ==> Entry(n, edges, paths[k])
    ensures r.Ok? ==> forall k :: 0 <= k < |r.value| ==> Entry(n, edges, r.value[k])
    ensures r.Ok? ==> |paths| <= |r.value| && r.value[..|paths|] == paths
    ensures r.Ok? ==> forall j :: 0 <= j < |conns| && conns[j] !in path ==>
              exists k :: |paths| <= k < |r.value| && r.value[k].0 == path + [conns[j]]
  {
    var end := path[|path| - 1];
    var stack: seq<(seq<nat>, nat)> := paths;
    for j := 0 to |conns|
      invariant forall k :: 0 <= k < |stack| ==> Entry(n, edges, stack[k])
      invariant |paths| <= |stack| && stack[..|paths|] == paths
      invariant forall i :: 0 <= i < j && conns[i] !in path ==>
                  exists k :: |paths| <= k < |stack| && stack[k].0 == path + [conns[i]]
    {
      var c := conns[j];
      if c !in path {
        var route := NewRoute(end, c);
        if route !in edges {
          return Err("Edge should always exist");
        }
        ExtendEntry(n, edges, path, cost, c);
        ghost var prev := stack;
        stack := stack + [(path + [c], cost + edges[route])];
        forall i | 0 <= i < j && conns[i] !in path
          ensures exists k :: |paths| <= k < |stack| && stack[k].0 == path + [conns[i]]
        {
          var k :| |paths| <= k < |prev| && prev[k].0 == path + [conns[i]];
          assert stack[k] == prev[k];
        }
        assert stack[|stack| - 1].0 == path + [conns[j]];
      }
    }
    r := Ok(stack);
  }

  /** `p` is the first `|p|` locations of `t`. */
  ghost predicate Prefix(p: seq<nat>, t: seq<nat>) {
    |p| <= |t| && p == t[..|p|]
  }

  /** Some entry of the stack is still on its way to `t`. */
  ghost predicate Pending(paths: seq<(seq<nat>, nat)>, t: seq<nat>) {
    exists k :: 0 <= k < |paths| && Prefix(paths[k].0, t)
  }

  /** The search loop's completeness invariant: every route through all the
      locations is either already within `shortest` and `longest`, or still
      reachable from an entry of the stack. */
  ghost predicate Covered(n: nat, edges: map<Route, nat>, paths: seq<(seq<nat>, nat)>, shortest: nat, longest: nat) {
    forall t :: IsTour(n, edges, t) ==> (shortest <= PathCost(edges, t) <= longest) || Pending(paths, t)
  }

  /** Before the search, each route waits at the entry of its first location. */
  lemma CoveredStart(n: nat, edges: map<Route, nat>, paths: seq<(seq<nat>, nat)>)
    requires |paths| == n && forall id :: 0 <= id < n ==> paths[id].0 == [id]
    ensures Covered(n, edges, paths, UsizeMax, 0)
  {
    forall t | IsTour(n, edges, t)
      ensures Pending(paths, t)
    {
      assert Prefix(paths[t[0]].0, t);
    }
  }

  /** One step of the search keeps `Covered`: popping `top`, counting it when
      it is complete, and pushing its extensions. */
  lemma CoveredStep(n: nat, edges: map<Route, nat>, conn: map<nat, seq<nat>>,
                    rest: seq<(seq<nat>, nat)>, top: (seq<nat>, nat), next: seq<(seq<nat>, nat)>,
                    shortest: nat, longest: nat, shortest': nat, longest': nat)
    requires EdgesConnected(edges, conn) && Entry(n, edges, top)
    requires Covered(n, edges, rest + [top], shortest, longest)
    requires shortest' <= shortest && longest <= longest'
    requires |top.0| == n ==> shortest' <= top.1 <= longest'
    requires top.0[|top.0| - 1] in conn
    requires |rest| <= |next| && next[..|rest|] == rest
    requires var conns := conn[top.0[|top.0| - 1]];
             forall j :: 0 <= j < |conns| && conns[j] !in top.0 ==>
               exists k :: |rest| <= k < |next| && next[k].0 == top.0 + [conns[j]]
    ensures Covered(n, edges, next, shortest', longest')
  {
    var path := top.0;
    var end := path[|path| - 1];
    forall t | IsTour(n, edges, t)
      ensures (shortest' <= PathCost(edges, t) <= longest') || Pending(next, t)
    {
      var k :| shortest <= PathCost(edges, t) <= longest || (0 <= k < |rest + [top]| && Prefix((rest + [top])[k].0, t));
      if shortest <= PathCost(edges, t) <= longest {
      } else if k < |rest| {
        assert next[k] == rest[k];
      } else if |path| == n {
        assert path == t;
      } else {
        var c := t[|path|];
        assert t[|path| - 1] == end;
        assert NewRoute(end, c) in edges;
        var j :| 0 <= j < |conn[end]| && conn[end][j] == c;
        assert c !in path by {
          forall i | 0 <= i < |path|
            ensures path[i] != c
          {
            assert path[i] == t[i];
          }
        }
        var k' :| |rest| <= k' < |next| && next[k'].0 == path + [c];
        assert path + [c] == t[..|path| + 1];
        assert Prefix(next[k'].0, t);
      }
    }
  }

  /** What the search loop keeps: the stack holds partial routes, the two
      lengths are those of complete routes (or still their start values), and
      `Covered`. */
  ghost predicate Searching(n: nat, edges: map<Route, nat>, paths: seq<(seq<nat>, nat)>, shortest: nat, longest: nat,
                            shortestTour: seq<nat>, longestTour: seq<nat>) {
    && (forall k :: 0 <= k < |paths| ==> Entry(n, edges, paths[k]))
    && (shortest == UsizeMax || (IsTour(n, edges, shortestTour) && PathCost(edges, shortestTour) == shortest))
    && (longest == 0 || (IsTour(n, edges, longestTour) && PathCost(edges, longestTour) == longest))
    && (shortest < UsizeMax ==> shortest <= longest)
    && Covered(n, edges, paths, shortest, longest)
  }

  /** The depth-first search from every location: complete routes update the
      shortest and the longest length found. The search is cut off after
      `fuel` steps. */
  method Search(n: nat, edges: map<Route, nat>, conn: map<nat, seq<nat>>, fuel: nat)
    returns (r: Result<(nat, nat), string>, ghost shortestTour: seq<nat>, ghost longestTour: seq<nat>)
    requires GraphOk(edges, conn, n) && EdgesConnected(edges, conn)
    ensures r.Ok? ==> var (shortest, longest) := r.value;
              && (shortest == UsizeMax || (IsTour(n, edges, shortestTour) && PathCost(edges, shortestTour) == shortest))
              && (longest == 0 || (IsTour(n, edges, longestTour) && PathCost(edges, longestTour) == longest))
              && (shortest < UsizeMax ==> shortest <= longest)
    ensures r.Ok? ==> forall t :: IsTour(n, edges, t) ==> r.value.0 <= PathCost(edges, t) <= r.value.1
  {
    var paths := Starts(n, edges);
    var shortest, longest := UsizeMax, 0;
    CoveredStart(n, edges, paths);
    shortestTour, longestTour := [], [];
    var steps := fuel;
    while |paths| > 0
      invariant Searching(n, edges, paths, shortest, longest, shortestTour, longestTour)
      decreases steps
    {
      if steps == 0 {
        return Err("search cut off"), shortestTour, longestTour;
      }
      steps := steps - 1;
      var visited;
      visited, shortestTour, longestTour := Visit(n, edges, conn, paths, shortest, longest, shortestTour, longestTour);
      if visited.Err? {
        return Err(visited.error), shortestTour, longestTour;
      }
      paths, shortest, longest := visited.value.0, visited.value.1, visited.value.2;
    }
    SearchDone(n, edges, shortest, longest, shortestTour, longestTour);
    r := Ok((shortest, longest));
  }

  /** With the stack empty, every route through all the locations lies
      between the two lengths. */
  lemma SearchDone(n: nat, edges: map<Route, nat>, shortest: nat, longest: nat,
                   shortestTour: seq<nat>, longestTour: seq<nat>)
    requires Searching(n, edges, [], shortest, longest, shortestTour, longestTour)
    ensures forall t :: IsTour(n, edges, t) ==> shortest <= PathCost(edges, t) <= longest
  {
    forall t | IsTour(n, edges, t)
      ensures shortest <= PathCost(edges, t) <= longest
    {
      assert !Pending([], t);
    }
  }

  /** The stack the search starts from: one single-location route per location. */
  method Starts(n: nat, ghost edges: map<Route, nat>) returns (paths: seq<(seq<nat>, nat)>)
    ensures |paths| == n
    ensures forall k :: 0 <= k < n ==> Entry(n, edges, paths[k]) && paths[k].0 == [k]
  {
    paths := [];
    for id := 0 to n
      invariant |paths| == id
      invariant forall k :: 0 <= k < |paths| ==> Entry(n, edges, paths[k]) && paths[k].0 == [k]
    {
      paths := paths + [([id], 0)];
    }
  }

  /** One turn of the search loop: pop the top entry, count it when it is
      complete, then push its extensions. */
  method Visit(n: nat, edges: map<Route, nat>, conn: map<nat, seq<nat>>,
               paths: seq<(seq<nat>, nat)>, shortest: nat, longest: nat,
               ghost shortestTour: seq<nat>, ghost longestTour: seq<nat>)
    returns (r: Result<(seq<(seq<nat>, nat)>, nat, nat), string>, ghost shortestTour': seq<nat>, ghost longestTour': seq<nat>)
    requires GraphOk(edges, conn, n) && EdgesConnected(edges, conn) && |paths| > 0
    requires Searching(n, edges, paths, shortest, longest, shortestTour, longestTour)
    ensures r.Ok? ==> Searching(n, edges, r.value.0, r.value.1, r.value.2, shortestTour', longestTour')
  {
    var top := paths[|paths| - 1];
    var rest := paths[..|paths| - 1];
    assert rest + [top] == paths;
    var (path, cost) := top;
    shortestTour', longestTour' := shortestTour, longestTour;
    var end := Peek.Peek(path);
    if end.None? {
      return Err("Path should never be empty"), shortestTour', longestTour';
    }
    var shortest', longest' := shortest, longest;
    if |path| == n {
      if cost < shortest' {
        shortest', shortestTour' := cost, path;
      }
      if cost > longest' {
        longest', longestTour' := cost, path;
      }
    }
    if end.value !in conn {
      return Err("Connections should always exist"), shortestTour', longestTour';
    }
    var extended := Extend(n, edges, conn[end.value], rest, path, cost);
    if extended.Err? {
      return Err(extended.error), shortestTour', longestTour';
    }
    CoveredStep(n, edges, conn, rest, top, extended.value, shortest, longest, shortest', longest');
    r := Ok((extended.value, shortest', longest'));
  }

  /** Reads the routes, then searches: a duplicate route is an error; when the
      search runs to its end, the two lengths are those of actual routes
      through every named location, and every such route lies between them. */
  method Solve(lines: seq<(string, string, nat)>, fuel: nat)
    returns (r: Result<(nat, nat), string>, ghost ids: map<string, nat>, ghost edges: map<Route, nat>,
             ghost shortestTour: seq<nat>, ghost longestTour: seq<nat>)
    ensures (exists j, k :: 0 <= j < k < |lines| && SamePair(lines, j, k)) ==> r.Err?
    ensures r.Ok? ==> ReadFrom(lines, ids, edges)
    ensures r.Ok? ==> var (shortest, longest) := r.value;
              && (shortest == UsizeMax || (IsTour(|ids|, edges, shortestTour) && PathCost(edges, shortestTour) == shortest))
              && (longest == 0 || (IsTour(|ids|, edges, longestTour) && PathCost(edges, longestTour) == longest))
              && (shortest < UsizeMax ==> shortest <= longest)
              && forall t :: IsTour(|ids|, edges, t) ==> shortest <= PathCost(edges, t) <= longest
  {
    var graph;
    graph, ids := BuildGraph(lines);
    if graph.Err? {
      return Err(graph.error), ids, map[], [], [];
    }
    var (routes, conn, n) := graph.value;
    edges := routes;
    r, shortestTour, longestTour := Search(n, routes, conn, fuel);
  }
}
