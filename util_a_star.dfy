/** Best-first (A*) search over caller-supplied neighbour, cost and heuristic
    functions (src/util/a_star.rs). Costs are natural numbers; the cost type's
    default is 0. */
module AStar {
  import opened Wrappers
  import OV = OrderedVec
  import PQ = PriorityQueue

  /** The sum of the step costs along `path`. */
  function PathCost<T>(cost: (T, T) -> nat, path: seq<T>): nat {
    if |path| < 2 then 0 else cost(path[0], path[1]) + PathCost(cost, path[1..])
  }

  /** Every step of `path` goes to a neighbour of the node before it. */
  ghost predicate IsWalk<T>(neighbors: T -> seq<T>, path: seq<T>) {
    forall i :: 0 <= i < |path| - 1 ==> path[i + 1] in neighbors(path[i])
  }

  /** The cost of a walk is the cost up to any of its nodes plus the cost from there. */
  lemma {:induction false} PathCostSplit<T>(cost: (T, T) -> nat, w: seq<T>, j: nat)
    requires j < |w|
    ensures PathCost(cost, w) == PathCost(cost, w[..j + 1]) + PathCost(cost, w[j..])
  {
    if j > 0 {
      PathCostSplit(cost, w[1..], j - 1);
      assert w[1..][..j] == w[..j + 1][1..];
      assert w[1..][j - 1..] == w[j..];
    } else {
      assert w[0..] == w;
    }
  }

  /** A part of a walk is a walk. */
  lemma WalkSlice<T>(neighbors: T -> seq<T>, w: seq<T>, i: nat, j: nat)
    requires IsWalk(neighbors, w) && i <= j <= |w|
    ensures IsWalk(neighbors, w[i..j])
  {
    forall k | 0 <= k < j - i - 1 ensures w[i..j][k + 1] in neighbors(w[i..j][k]) {
      assert w[i + k + 1] in neighbors(w[i + k]);
    }
  }

  /** A heuristic that is never negative and never overestimates: every walk
      from a node to `goal` costs at least the node's estimate. Under such a
      heuristic the first time `goal` is popped its path is a cheapest one. */
  ghost predicate Admissible<T(!new)>(goal: T, neighbors: T -> seq<T>, cost: (T, T) -> nat, heuristic: (T, T) -> int) {
    && (forall n :: 0 <= heuristic(goal, n))
    && (forall w :: |w| >= 1 && w[|w| - 1] == goal && IsWalk(neighbors, w) ==> heuristic(goal, w[0]) <= PathCost(cost, w))
  }

  /** How the search loop ended: `goal` was popped, the frontier ran dry,
      or the loop bound was spent. */
  datatype Outcome = Found | Exhausted | OutOfFuel

  lemma SplitJoin<X>(s: seq<X>, i: nat)
    requires i <= |s|
    ensures s[..i] + s[i..] == s
  {
  }

  /** Every node with a recorded cost is not the goal and has all its
      neighbours recorded: the state once the frontier has run dry. */
  ghost predicate Closed<T>(goal: T, neighbors: T -> seq<T>, csf: map<T, int>) {
    forall n :: n in csf ==> n != goal && forall m :: m in neighbors(n) ==> m in csf
  }

  /** Once nothing is queued, every walk from a recorded node stays among
      recorded nodes, none of them the goal. */
  lemma {:induction false} ClosedWalk<T>(goal: T, neighbors: T -> seq<T>, csf: map<T, int>, w: seq<T>)
    requires Closed(goal, neighbors, csf)
    requires |w| >= 1 && w[0] in csf && IsWalk(neighbors, w)
    ensures w[|w| - 1] in csf && w[|w| - 1] != goal
  {
    if |w| > 1 {
      var w' := w[..|w| - 1];
      WalkSlice(neighbors, w, 0, |w| - 1);
      ClosedWalk(goal, neighbors, csf, w');
      assert w[|w| - 1] in neighbors(w[|w| - 2]);
    }
  }
  /** What the search maps satisfy between relaxations: `cost_so_far` holds
      `start` at 0 and every node with a `came_from` link; a link goes from a
      neighbour whose recorded cost plus the step is at most the node's; and
      following links strictly lowers the pair (recorded cost, time the cost
      was written), which is why walking the links back ends. */
  ghost predicate Consistent<T>(start: T, neighbors: T -> seq<T>, cost: (T, T) -> nat,
                                csf: map<T, int>, cameFrom: map<T, T>, stamp: map<T, nat>, clock: nat)
  {
    && start in csf && csf[start] == 0 && start !in cameFrom
    && (forall n :: n in csf ==> (n == start || n in cameFrom) && n in stamp && csf[n] >= 0 && stamp[n] < clock)
    && (forall n :: n in cameFrom ==> n in csf && LinkOk(neighbors, cost, csf, stamp, cameFrom[n], n))
  }

  ghost predicate LinkOk<T>(neighbors: T -> seq<T>, cost: (T, T) -> nat, csf: map<T, int>, stamp: map<T, nat>, p: T, n: T) {
    && p in csf && n in csf && p in stamp && n in stamp
    && n in neighbors(p)
    && csf[n] >= csf[p] + cost(p, n)
    && (csf[p] < csf[n] || (csf[p] == csf[n] && stamp[p] < stamp[n]))
  }

  /** One relaxation of the edge `current -> next` (the body of the inner loop):
      the cost is written, and the link set, only when `next` has no recorded
      cost or the new cost is strictly smaller. */
  function Relax<T(==)>(csf: map<T, int>, cameFrom: map<T, T>, current: T, next: T, newCost: int)
    : (r: (map<T, int>, map<T, T>, bool))
    ensures r.2 <==> next !in csf || newCost < csf[next]
    ensures r.2 ==> r.0 == csf[next := newCost] && r.1 == cameFrom[next := current]
    ensures forall n :: n in csf ==> n in r.0 && r.0[n] <= csf[n]
    ensures forall n :: n in r.0 && n != next ==> n in csf && r.0[n] == csf[n]
    ensures forall n :: n in r.1 && n != next ==> n in cameFrom && r.1[n] == cameFrom[n]
    ensures !r.2 ==> r.0 == csf && r.1 == cameFrom
  {
    var improve := if next in csf then newCost < csf[next] else true;
    if improve then (csf[next := newCost], cameFrom[next := current], true) else (csf, cameFrom, false)
  }

  /** A relaxation from a node with a recorded cost keeps the maps consistent. */
  lemma RelaxKeepsConsistent<T>(start: T, neighbors: T -> seq<T>, cost: (T, T) -> nat,
                                csf: map<T, int>, cameFrom: map<T, T>, stamp: map<T, nat>, clock: nat,
                                current: T, next: T)
    requires Consistent(start, neighbors, cost, csf, cameFrom, stamp, clock)
    requires current in csf && next in neighbors(current)
    requires next !in csf || csf[current] + cost(current, next) < csf[next]
    ensures Consistent(start, neighbors, cost, csf[next := csf[current] + cost(current, next)],
                       cameFrom[next := current], stamp[next := clock], clock + 1)
  {
    var newCost := csf[current] + cost(current, next);
    var csf', cameFrom', stamp' := csf[next := newCost], cameFrom[next := current], stamp[next := clock];
    assert next != start;
    assert next != current;
    forall n | n in cameFrom' ensures n in csf' && LinkOk(neighbors, cost, csf', stamp', cameFrom'[n], n) {
      if n != next {
        assert LinkOk(neighbors, cost, csf, stamp, cameFrom[n], n);
      }
    }
  }

  /** Walks the `came_from` links back from `goal` (the reconstruction loop). */
  method Reconstruct<T(==)>(start: T, goal: T, neighbors: T -> seq<T>, cost: (T, T) -> nat,
                        cameFrom: map<T, T>, ghost csf: map<T, int>, ghost stamp: map<T, nat>, ghost clock: nat)
    returns (path: seq<T>)
    requires Consistent(start, neighbors, cost, csf, cameFrom, stamp, clock)
    ensures |path| >= 1 && path[|path| - 1] == goal
    ensures forall i :: 0 < i < |path| ==> path[i] in cameFrom && cameFrom[path[i]] == path[i - 1]
    ensures IsWalk(neighbors, path)
    ensures path[0] !in cameFrom
    ensures goal in cameFrom ==> path[0] == start
    ensures goal !in cameFrom ==> path == [goal]
    ensures goal in csf ==> PathCost(cost, path) <= csf[goal]
  {
    var current := goal;
    path := [goal];
    while current in cameFrom
      invariant |path| >= 1 && path[0] == current && path[|path| - 1] == goal
      invariant current != goal ==> current in csf && goal in cameFrom
      invariant forall i :: 0 < i < |path| ==> path[i] in cameFrom && cameFrom[path[i]] == path[i - 1]
      invariant goal !in cameFrom ==> path == [goal]
      invariant goal in csf ==> current in csf && csf[current] + PathCost(cost, path) <= csf[goal]
      decreases if current in csf then csf[current] else 0, if current in stamp then stamp[current] else 0
    {
      var p := cameFrom[current];
      assert LinkOk(neighbors, cost, csf, stamp, p, current);
      assert ([p] + path)[1..] == path;
      path := [p] + path;
      current := p;
    }
    forall i | 0 <= i < |path| - 1 ensures path[i + 1] in neighbors(path[i]) {
      assert LinkOk(neighbors, cost, csf, stamp, cameFrom[path[i + 1]], path[i + 1]);
    }
  }

  /** The estimate an item was pushed with: the frontier holds
      `Reverse(estimate)`, so the highest priority is the lowest estimate. */
  function Estimate<T>(item: PQ.QueueItem<T>): int {
    -item.priority.major
  }

  /** What the search adds to a node's recorded cost in its estimate: `start`
      is pushed with `Reverse(0)`, every other node with its cost plus
      `heuristic(goal, node)`. */
  function Bonus<T(==)>(start: T, goal: T, heuristic: (T, T) -> int, n: T): int {
    if n == start then 0 else heuristic(goal, n)
  }

  /** Every waiting item has a recorded cost, and its estimate is at least
      that cost plus the node's bonus (costs only fall after a push). */
  ghost predicate Bounded<T>(start: T, goal: T, heuristic: (T, T) -> int, csf: map<T, int>, items: seq<PQ.QueueItem<T>>) {
    forall it :: it in items ==> it.value in csf && csf[it.value] + Bonus(start, goal, heuristic, it.value) <= Estimate(it)
  }

  /** `n` waits in the frontier with an item pushed at its current recorded cost. */
  ghost predicate Live<T>(start: T, goal: T, heuristic: (T, T) -> int, csf: map<T, int>, items: seq<PQ.QueueItem<T>>, n: T) {
    n in csf && exists it :: it in items && it.value == n && Estimate(it) <= csf[n] + Bonus(start, goal, heuristic, n)
  }

  /** Every neighbour of `n` is recorded at no more than `n`'s cost plus the step. */
  ghost predicate Relaxed<T>(neighbors: T -> seq<T>, cost: (T, T) -> nat, csf: map<T, int>, n: T) {
    n in csf && forall m :: m in neighbors(n) ==> m in csf && csf[m] <= csf[n] + cost(n, m)
  }

  /** Every recorded node is live in the frontier, or is not the goal and has
      been expanded at its current cost. */
  ghost predicate Settled<T>(start: T, goal: T, neighbors: T -> seq<T>, cost: (T, T) -> nat, heuristic: (T, T) -> int,
                             csf: map<T, int>, items: seq<PQ.QueueItem<T>>)
  {
    forall n :: n in csf ==> Live(start, goal, heuristic, csf, items, n) || (n != goal && Relaxed(neighbors, cost, csf, n))
  }

  /** A live node stays live while its cost is unchanged and no item is lost. */
  lemma LiveKept<T>(start: T, goal: T, heuristic: (T, T) -> int, csf0: map<T, int>, items0: seq<PQ.QueueItem<T>>,
                    csf: map<T, int>, items: seq<PQ.QueueItem<T>>, n: T)
    requires Live(start, goal, heuristic, csf0, items0, n)
    requires n in csf && csf[n] == csf0[n]
    requires forall it :: it in items0 && it.value == n ==> it in items
    ensures Live(start, goal, heuristic, csf, items, n)
  {
    var it :| it in items0 && it.value == n && Estimate(it) <= csf0[n] + Bonus(start, goal, heuristic, n);
    assert it in items;
  }

  /** Along a walk to `goal` from a node recorded at no more than the walk's
      cost so far, some node is live and recorded at no more than the walk's
      cost up to it. */
  lemma {:induction false} LiveOnWalk<T>(start: T, goal: T, neighbors: T -> seq<T>, cost: (T, T) -> nat,
                                         heuristic: (T, T) -> int, csf: map<T, int>, items: seq<PQ.QueueItem<T>>,
                                         w: seq<T>, i: nat)
    returns (j: nat)
    requires Settled(start, goal, neighbors, cost, heuristic, csf, items)
    requires |w| >= 1 && w[|w| - 1] == goal && IsWalk(neighbors, w)
    requires i < |w| && w[i] in csf && csf[w[i]] <= PathCost(cost, w[..i + 1])
    ensures i <= j < |w| && Live(start, goal, heuristic, csf, items, w[j]) && csf[w[j]] <= PathCost(cost, w[..j + 1])
    decreases |w| - i
  {
    if Live(start, goal, heuristic, csf, items, w[i]) {
      j := i;
    } else {
      assert w[i + 1] in neighbors(w[i]);
      PathCostSplit(cost, w[..i + 2], i);
      assert w[..i + 2][..i + 1] == w[..i + 1];
      assert w[..i + 2][i..] == [w[i], w[i + 1]];
      j := LiveOnWalk(start, goal, neighbors, cost, heuristic, csf, items, w, i + 1);
    }
  }

  /** An admissible heuristic never overestimates from a node of a walk to `goal`. */
  lemma AdmissibleAlong<T(!new)>(goal: T, neighbors: T -> seq<T>, cost: (T, T) -> nat, heuristic: (T, T) -> int,
                                 w: seq<T>, j: nat)
    requires Admissible(goal, neighbors, cost, heuristic)
    requires j < |w| && w[|w| - 1] == goal && IsWalk(neighbors, w)
    ensures 0 <= heuristic(goal, w[j]) <= PathCost(cost, w[j..])
  {
    WalkSlice(neighbors, w, j, |w|);
    assert w[j..][0] == w[j] && w[j..][|w[j..]| - 1] == goal;
  }

  /** Some item waiting in the frontier has an estimate no larger than the
      cost of a given walk from `start` to `goal`. */
  lemma WaitingBelowWalk<T(!new)>(start: T, goal: T, neighbors: T -> seq<T>, cost: (T, T) -> nat,
                                  heuristic: (T, T) -> int, csf: map<T, int>, items: seq<PQ.QueueItem<T>>, w: seq<T>)
    returns (it: PQ.QueueItem<T>)
    requires Admissible(goal, neighbors, cost, heuristic)
    requires Settled(start, goal, neighbors, cost, heuristic, csf, items)
    requires start in csf && csf[start] == 0
    requires |w| >= 1 && w[0] == start && w[|w| - 1] == goal && IsWalk(neighbors, w)
    ensures it in items && Estimate(it) <= PathCost(cost, w)
  {
    var j := LiveOnWalk(start, goal, neighbors, cost, heuristic, csf, items, w, 0);
    it :| it in items && it.value == w[j] && Estimate(it) <= csf[w[j]] + Bonus(start, goal, heuristic, w[j]);
    PathCostSplit(cost, w, j);
    AdmissibleAlong(goal, neighbors, cost, heuristic, w, j);
  }

  /** When the item popped is `goal`'s, the goal's recorded cost is at most
      the cost of every walk from `start` to `goal`, if the heuristic is
      admissible: some node on the walk waits with an estimate no larger than
      the walk's cost, and the popped item has the least estimate. */
  lemma PoppedGoalCheapest<T(!new)>(start: T, goal: T, neighbors: T -> seq<T>, cost: (T, T) -> nat,
                              heuristic: (T, T) -> int, csf: map<T, int>, items: seq<PQ.QueueItem<T>>, w: seq<T>)
    requires Admissible(goal, neighbors, cost, heuristic)
    requires Settled(start, goal, neighbors, cost, heuristic, csf, items)
    requires Bounded(start, goal, heuristic, csf, items)
    requires start in csf && csf[start] == 0
    requires |items| >= 1 && items[|items| - 1].value == goal
    requires forall k :: 0 <= k < |items| ==> OV.KeyLe(items[k].priority, items[|items| - 1].priority)
    requires |w| >= 1 && w[0] == start && w[|w| - 1] == goal && IsWalk(neighbors, w)
    ensures goal in csf && csf[goal] <= PathCost(cost, w)
  {
    var it := WaitingBelowWalk(start, goal, neighbors, cost, heuristic, csf, items, w);
    var last := items[|items| - 1];
    assert last in items;
    var k :| 0 <= k < |items| && items[k] == it;
    assert Estimate(last) <= Estimate(it);
    assert 0 <= Bonus(start, goal, heuristic, goal);
  }

  /** After `current`, popped from `before`, is expanded, every recorded node
      is again live or expanded. */
  lemma SettledAfterExpand<T>(start: T, goal: T, neighbors: T -> seq<T>, cost: (T, T) -> nat, heuristic: (T, T) -> int,
                              csf0: map<T, int>, before: seq<PQ.QueueItem<T>>, csf: map<T, int>, items: seq<PQ.QueueItem<T>>,
                              current: T)
    requires Settled(start, goal, neighbors, cost, heuristic, csf0, before)
    requires |before| >= 1 && before[|before| - 1].value == current && current != goal
    requires forall it :: it in before[..|before| - 1] ==> it in items
    requires forall m :: m in csf0 ==> m in csf && csf[m] <= csf0[m]
    requires Relaxed(neighbors, cost, csf, current)
    requires forall m :: m in csf ==> (m in csf0 && csf[m] == csf0[m]) || Live(start, goal, heuristic, csf, items, m)
    ensures Settled(start, goal, neighbors, cost, heuristic, csf, items)
  {
    var rest := before[..|before| - 1];
    assert before == rest + [before[|before| - 1]];
    forall n | n in csf
      ensures Live(start, goal, heuristic, csf, items, n) || (n != goal && Relaxed(neighbors, cost, csf, n))
    {
      if n != current && n in csf0 && csf[n] == csf0[n] {
        if Live(start, goal, heuristic, csf0, before, n) {
          LiveKept(start, goal, heuristic, csf0, before, csf, items, n);
        }
      }
    }
  }

  /** One pass of the inner loop of `a_star`: relaxes the edge `current -> n`
      and, when the cost improved, pushes `n` with priority
      `Reverse(cost + heuristic(goal, n))`. */
  method RelaxEdge<T(==)>(frontier: PQ.PriorityQueue<T>, start: T, goal: T, current: T, n: T,
                          neighbors: T -> seq<T>, cost: (T, T) -> nat, heuristic: (T, T) -> int,
                          csf0: map<T, int>, cameFrom0: map<T, T>, ghost stamp0: map<T, nat>, ghost clock0: nat)
    returns (csf: map<T, int>, cameFrom: map<T, T>, ghost stamp: map<T, nat>, ghost clock: nat)
    requires frontier.Valid() && Bounded(start, goal, heuristic, csf0, frontier.que.items)
    requires Consistent(start, neighbors, cost, csf0, cameFrom0, stamp0, clock0)
    requires current in csf0 && n in neighbors(current)
    modifies frontier.que
    ensures frontier.Valid() && Bounded(start, goal, heuristic, csf, frontier.que.items)
    ensures Consistent(start, neighbors, cost, csf, cameFrom, stamp, clock)
    ensures forall m :: m in csf0 ==> m in csf && csf[m] <= csf0[m]
    ensures current in csf && csf[current] == csf0[current]
    ensures n in csf && csf[n] <= csf[current] + cost(current, n)
    ensures forall it :: it in old(frontier.que.items) ==> it in frontier.que.items
    ensures forall m :: m in csf ==> (m in csf0 && csf[m] == csf0[m]) || Live(start, goal, heuristic, csf, frontier.que.items, m)
  {
    csf, cameFrom, stamp, clock := csf0, cameFrom0, stamp0, clock0;
    var newCost := (if current in csf then csf[current] else 0) + cost(current, n);
    var relaxed := Relax(csf, cameFrom, current, n, newCost);
    if relaxed.2 {
      RelaxKeepsConsistent(start, neighbors, cost, csf, cameFrom, stamp, clock, current, n);
      assert n != start;
      csf := relaxed.0;
      ghost var before := frontier.que.items;
      var priority := OV.ReverseKey(newCost + heuristic(goal, n));
      frontier.Push(n, priority);
      ghost var i := OV.Index(OV.SearchSpec(frontier.que.key, before, priority));
      ghost var item := PQ.QueueItem(n, priority);
      SplitJoin(before, i);
      assert frontier.que.items == before[..i] + [item] + before[i..];
      assert item in frontier.que.items;
      assert Live(start, goal, heuristic, csf, frontier.que.items, n);
      cameFrom := relaxed.1;
      stamp := stamp[n := clock];
      clock := clock + 1;
    }
  }

  /** The inner loop of `a_star`: relaxes the edge from `current` to each of
      `next` in turn. Afterwards `current` is expanded at its cost, and every
      node whose cost changed waits in the frontier at its new cost. */
  method RelaxNeighbors<T(==)>(frontier: PQ.PriorityQueue<T>, start: T, goal: T, current: T, next: seq<T>,
                               neighbors: T -> seq<T>, cost: (T, T) -> nat, heuristic: (T, T) -> int,
                               csf0: map<T, int>, cameFrom0: map<T, T>, ghost stamp0: map<T, nat>, ghost clock0: nat)
    returns (csf: map<T, int>, cameFrom: map<T, T>, ghost stamp: map<T, nat>, ghost clock: nat)
    requires frontier.Valid() && Bounded(start, goal, heuristic, csf0, frontier.que.items)
    requires Consistent(start, neighbors, cost, csf0, cameFrom0, stamp0, clock0)
    requires current in csf0 && next == neighbors(current)
    modifies frontier.que
    ensures frontier.Valid() && Bounded(start, goal, heuristic, csf, frontier.que.items)
    ensures Consistent(start, neighbors, cost, csf, cameFrom, stamp, clock)
    ensures forall m :: m in csf0 ==> m in csf && csf[m] <= csf0[m]
    ensures current in csf && csf[current] == csf0[current]
    ensures Relaxed(neighbors, cost, csf, current)
    ensures forall it :: it in old(frontier.que.items) ==> it in frontier.que.items
    ensures forall m :: m in csf ==> (m in csf0 && csf[m] == csf0[m]) || Live(start, goal, heuristic, csf, frontier.que.items, m)
  {
    csf, cameFrom, stamp, clock := csf0, cameFrom0, stamp0, clock0;
    for j := 0 to |next|
      invariant frontier.Valid() && Bounded(start, goal, heuristic, csf, frontier.que.items)
      invariant Consistent(start, neighbors, cost, csf, cameFrom, stamp, clock)
      invariant forall m :: m in csf0 ==> m in csf && csf[m] <= csf0[m]
      invariant current in csf && csf[current] == csf0[current]
      invariant forall k :: 0 <= k < j ==> next[k] in csf && csf[next[k]] <= csf[current] + cost(current, next[k])
      invariant forall it :: it in old(frontier.que.items) ==> it in frontier.que.items
      invariant forall m :: m in csf ==> (m in csf0 && csf[m] == csf0[m]) || Live(start, goal, heuristic, csf, frontier.que.items, m)
    {
      ghost var csf1, items1 := csf, frontier.que.items;
      csf, cameFrom, stamp, clock :=
        RelaxEdge(frontier, start, goal, current, next[j], neighbors, cost, heuristic, csf, cameFrom, stamp, clock);
      ChangedLive(start, goal, heuristic, csf0, csf1, items1, csf, frontier.que.items);
      forall k | 0 <= k < j ensures next[k] in csf && csf[next[k]] <= csf[current] + cost(current, next[k]) {
        assert next[k] in csf1 && csf[next[k]] <= csf1[next[k]];
      }
    }
  }

  /** Composing two rounds of relaxation: a node whose cost changed since
      `csf0` is live at its current cost. */
  lemma ChangedLive<T>(start: T, goal: T, heuristic: (T, T) -> int, csf0: map<T, int>, csf1: map<T, int>,
                       items1: seq<PQ.QueueItem<T>>, csf: map<T, int>, items: seq<PQ.QueueItem<T>>)
    requires forall m :: m in csf1 ==> (m in csf0 && csf1[m] == csf0[m]) || Live(start, goal, heuristic, csf1, items1, m)
    requires forall it :: it in items1 ==> it in items
    requires forall m :: m in csf ==> (m in csf1 && csf[m] == csf1[m]) || Live(start, goal, heuristic, csf, items, m)
    ensures forall m :: m in csf ==> (m in csf0 && csf[m] == csf0[m]) || Live(start, goal, heuristic, csf, items, m)
  {
    forall m | m in csf
      ensures (m in csf0 && csf[m] == csf0[m]) || Live(start, goal, heuristic, csf, items, m)
    {
      if m in csf1 && csf[m] == csf1[m] && !(m in csf0 && csf[m] == csf0[m]) {
        LiveKept(start, goal, heuristic, csf1, items1, csf, items, m);
      }
    }
  }

  /** `a_star`: pops the lowest estimate `cost + heuristic(goal, node)` first,
      stops when `goal` is popped or nothing is left, relaxes every neighbour,
      and returns the path rebuilt from the links. The outer loop runs at most
      `fuel` times; `outcome` says how it ended. When `goal` was popped and the
      heuristic is admissible, no walk from `start` to `goal` costs less than
      the path returned. */
  method Search<T(==, !new)>(start: T, goal: T, neighbors: T -> seq<T>, cost: (T, T) -> nat,
                   heuristic: (T, T) -> int, fuel: nat)
    returns (path: seq<T>, outcome: Outcome)
    ensures |path| >= 1 && path[|path| - 1] == goal
    ensures IsWalk(neighbors, path)
    ensures path[0] == start || path == [goal]
    ensures forall i :: 0 < i < |path| ==> path[i] != start
    ensures outcome == Found ==> path[0] == start
    ensures outcome == Found && Admissible(goal, neighbors, cost, heuristic) ==>
      forall w :: |w| >= 1 && w[0] == start && w[|w| - 1] == goal && IsWalk(neighbors, w) ==> PathCost(cost, path) <= PathCost(cost, w)
    ensures outcome == Exhausted ==> path == [goal]
    ensures outcome == Exhausted ==> forall w :: |w| >= 1 && w[0] == start && IsWalk(neighbors, w) ==> w[|w| - 1] != goal
  {
    var csf, cameFrom;
    ghost var stamp, clock;
    csf, cameFrom, stamp, clock, outcome := Explore(start, goal, neighbors, cost, heuristic, fuel);
    path := Reconstruct(start, goal, neighbors, cost, cameFrom, csf, stamp, clock);
  }

  /** The main loop of `a_star`, up to the reconstruction: the frontier starts
      with `start` at `Reverse(0)`; each turn pops the highest priority and
      stops on `goal`, or relaxes every neighbour of the node popped. */
  method Explore<T(==, !new)>(start: T, goal: T, neighbors: T -> seq<T>, cost: (T, T) -> nat,
                              heuristic: (T, T) -> int, fuel: nat)
    returns (csf: map<T, int>, cameFrom: map<T, T>, ghost stamp: map<T, nat>, ghost clock: nat, outcome: Outcome)
    ensures Consistent(start, neighbors, cost, csf, cameFrom, stamp, clock)
    ensures outcome == Found ==> goal in csf
    ensures outcome == Found && Admissible(goal, neighbors, cost, heuristic) ==>
      forall w :: |w| >= 1 && w[0] == start && w[|w| - 1] == goal && IsWalk(neighbors, w) ==> csf[goal] <= PathCost(cost, w)
    ensures outcome == Exhausted ==> goal !in csf
    ensures outcome == Exhausted ==> forall w :: |w| >= 1 && w[0] == start && IsWalk(neighbors, w) ==> w[|w| - 1] != goal
  {
    var frontier := new PQ.PriorityQueue<T>();
    frontier.Push(start, OV.ReverseKey(0));
    assert frontier.que.items == [PQ.QueueItem(start, OV.ReverseKey(0))];
    cameFrom := map[];
    csf := map[start := 0];
    stamp := map[start := 0];
    clock := 1;
    assert Live(start, goal, heuristic, csf, frontier.que.items, start) by {
      assert frontier.que.items[0] in frontier.que.items;
    }
    var steps := fuel;
    outcome := OutOfFuel;
    while steps > 0
      invariant fresh(frontier.que) && frontier.Valid()
      invariant Consistent(start, neighbors, cost, csf, cameFrom, stamp, clock)
      invariant Bounded(start, goal, heuristic, csf, frontier.que.items)
      invariant Settled(start, goal, neighbors, cost, heuristic, csf, frontier.que.items)
      invariant outcome == OutOfFuel
    {
      steps := steps - 1;
      ghost var before := frontier.que.items;
      var popped := frontier.Pop();
      if popped.None? {
        outcome := Exhausted;
        ExhaustedUnreachable(start, goal, neighbors, cost, heuristic, csf);
        break;
      }
      var current := popped.value.0;
      ghost var top := before[|before| - 1];
      assert current == top.value;
      assert before == frontier.que.items + [top];
      if current == goal {
        outcome := Found;
        FoundCheapest(start, goal, neighbors, cost, heuristic, csf, frontier.que.items, top);
        break;
      }
      ghost var csf0 := csf;
      csf, cameFrom, stamp, clock :=
        RelaxNeighbors(frontier, start, goal, current, neighbors(current), neighbors, cost, heuristic, csf, cameFrom, stamp, clock);
      SettledAfterExpand(start, goal, neighbors, cost, heuristic, csf0, before, csf, frontier.que.items, current);
    }
  }

  /** The `Found` case: with an admissible heuristic, the goal's recorded cost
      is at most that of every walk from `start` to `goal`. */
  lemma FoundCheapest<T(!new)>(start: T, goal: T, neighbors: T -> seq<T>, cost: (T, T) -> nat,
                               heuristic: (T, T) -> int, csf: map<T, int>, rest: seq<PQ.QueueItem<T>>, top: PQ.QueueItem<T>)
    requires Settled(start, goal, neighbors, cost, heuristic, csf, rest + [top])
    requires Bounded(start, goal, heuristic, csf, rest + [top])
    requires start in csf && csf[start] == 0
    requires top.value == goal
    requires forall k :: 0 <= k < |rest| ==> OV.KeyLe(rest[k].priority, top.priority)
    ensures goal in csf
    ensures Admissible(goal, neighbors, cost, heuristic) ==>
      forall w :: |w| >= 1 && w[0] == start && w[|w| - 1] == goal && IsWalk(neighbors, w) ==> csf[goal] <= PathCost(cost, w)
  {
    var items := rest + [top];
    assert items[|items| - 1] == top && top in items;
    assert forall k :: 0 <= k < |items| ==> OV.KeyLe(items[k].priority, items[|items| - 1].priority) by {
      forall k | 0 <= k < |items| ensures OV.KeyLe(items[k].priority, top.priority) {
        if k < |rest| {
          assert items[k] == rest[k];
        }
      }
    }
    if Admissible(goal, neighbors, cost, heuristic) {
      forall w | |w| >= 1 && w[0] == start && w[|w| - 1] == goal && IsWalk(neighbors, w)
        ensures csf[goal] <= PathCost(cost, w)
      {
        PoppedGoalCheapest(start, goal, neighbors, cost, heuristic, csf, items, w);
      }
    }
  }

  /** The `Exhausted` case: with nothing waiting, no walk from `start` reaches `goal`. */
  lemma ExhaustedUnreachable<T>(start: T, goal: T, neighbors: T -> seq<T>, cost: (T, T) -> nat,
                                heuristic: (T, T) -> int, csf: map<T, int>)
    requires Settled(start, goal, neighbors, cost, heuristic, csf, []) && start in csf
    ensures goal !in csf
    ensures forall w :: |w| >= 1 && w[0] == start && IsWalk(neighbors, w) ==> w[|w| - 1] != goal
  {
    assert Closed(goal, neighbors, csf);
    forall w | |w| >= 1 && w[0] == start && IsWalk(neighbors, w) ensures w[|w| - 1] != goal {
      ClosedWalk(goal, neighbors, csf, w);
    }
  }
}
