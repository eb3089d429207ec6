/** 2015 day 14: reindeer that fly for a while and rest for a while; the
    distance after a number of seconds, and points for leading each second. */
module Year2015Day14 {

  const RaceSeconds: nat := 2503

  datatype Reindeer = Reindeer(flySpeed: nat, flyTimeSeconds: nat, restTimeSeconds: nat)

  /** The division by the cycle length panics on a zero-length cycle. */
  predicate HasCycle(r: Reindeer) {
    r.flyTimeSeconds + r.restTimeSeconds > 0
  }

  /** `distance_at_time`, with full cycles counted first. */
  function DistanceAtTime(r: Reindeer, seconds: nat): nat
    requires HasCycle(r)
  {
    var fullCycleSeconds := r.flyTimeSeconds + r.restTimeSeconds;
    var fullCycles := seconds / fullCycleSeconds;
    var remainingSeconds := seconds % fullCycleSeconds;
    var flyTimeSeconds := if remainingSeconds > r.flyTimeSeconds then r.flyTimeSeconds else remainingSeconds;
    fullCycles * (r.flyTimeSeconds * r.flySpeed) + flyTimeSeconds * r.flySpeed
  }

  /** Whether the reindeer flies during second `k` (counting from 0). */
  predicate FliesDuring(r: Reindeer, k: nat)
    requires HasCycle(r)
  {
    k % (r.flyTimeSeconds + r.restTimeSeconds) < r.flyTimeSeconds
  }

  /** The race second by second: `flySpeed` km for each second spent flying. */
  function Simulated(r: Reindeer, seconds: nat): nat
    requires HasCycle(r)
  {
    if seconds == 0 then 0
    else Simulated(r, seconds - 1) + (if FliesDuring(r, seconds - 1) then r.flySpeed else 0)
  }

  lemma DivModUnique(t: int, c: int, q: int, m: int)
    requires c > 0 && 0 <= m < c && t == q * c + m
    ensures t / c == q && t % c == m
  {
    var d := q - t / c;
    assert d * c == t % c - m by {
      assert t == (t / c) * c + t % c;
      assert q * c - (t / c) * c == d * c;
    }
  }

  lemma {:induction false} DistanceStep(r: Reindeer, t: nat)
    requires HasCycle(r)
    ensures DistanceAtTime(r, t + 1) == DistanceAtTime(r, t) + (if FliesDuring(r, t) then r.flySpeed else 0)
  {
    var c, fly, v := r.flyTimeSeconds + r.restTimeSeconds, r.flyTimeSeconds, r.flySpeed;
    var q, m := t / c, t % c;
    DivModUnique(t, c, q, m);
    if m + 1 < c {
      DivModUnique(t + 1, c, q, m + 1);
    } else {
      DivModUnique(t + 1, c, q + 1, 0);
      assert (q + 1) * (fly * v) == q * (fly * v) + fly * v;
      if r.restTimeSeconds == 0 {
        assert (m + 1) * v == m * v + v;
      }
    }
  }

  /** The closed form agrees with flying the race out second by second. */
  lemma {:induction false} DistanceIsSimulated(r: Reindeer, seconds: nat)
    requires HasCycle(r)
    ensures DistanceAtTime(r, seconds) == Simulated(r, seconds)
  {
    if seconds == 0 {
      DivModUnique(0, r.flyTimeSeconds + r.restTimeSeconds, 0, 0);
    } else {
      DistanceIsSimulated(r, seconds - 1);
      DistanceStep(r, seconds - 1);
    }
  }

  /** A reindeer never goes backwards. */
  lemma {:induction false} DistanceMonotone(r: Reindeer, s: nat, t: nat)
    requires HasCycle(r) && s <= t
    ensures DistanceAtTime(r, s) <= DistanceAtTime(r, t)
    decreases t - s
  {
    if s < t {
      DistanceMonotone(r, s, t - 1);
      DistanceStep(r, t - 1);
    }
  }

  /** Up to the end of its first flight, a reindeer flies at full speed. */
  lemma {:induction false} FirstFlight(r: Reindeer, t: nat)
    requires HasCycle(r) && t <= r.flyTimeSeconds
    ensures DistanceAtTime(r, t) == t * r.flySpeed
  {
    if t == 0 {
      DivModUnique(0, r.flyTimeSeconds + r.restTimeSeconds, 0, 0);
    } else {
      FirstFlight(r, t - 1);
      DistanceStep(r, t - 1);
      DivModUnique(t - 1, r.flyTimeSeconds + r.restTimeSeconds, 0, t - 1);
      assert t * r.flySpeed == (t - 1) * r.flySpeed + r.flySpeed;
    }
  }

  predicate AllCycle(reindeer: seq<Reindeer>) {
    forall i :: 0 <= i < |reindeer| ==> HasCycle(reindeer[i])
  }

  /** The first answer: the best distance after the race, starting from 0. */
  method BestDistance(reindeer: seq<Reindeer>, seconds: nat) returns (best: nat)
    requires AllCycle(reindeer)
    ensures forall i :: 0 <= i < |reindeer| ==> DistanceAtTime(reindeer[i], seconds) <= best
    ensures best == 0 || exists i :: 0 <= i < |reindeer| && DistanceAtTime(reindeer[i], seconds) == best
  {
    best := 0;
    for k := 0 to |reindeer|
      invariant forall i :: 0 <= i < k ==> DistanceAtTime(reindeer[i], seconds) <= best
      invariant best == 0 || exists i :: 0 <= i < k && DistanceAtTime(reindeer[i], seconds) == best
    {
      var distance := DistanceAtTime(reindeer[k], seconds);
      if distance > best {
        best := distance;
      }
    }
  }

  /** Reindeer `i` is (one of) the furthest after `seconds`. */
  predicate Leading(reindeer: seq<Reindeer>, seconds: nat, i: nat)
    requires AllCycle(reindeer) && i < |reindeer|
  {
    forall j :: 0 <= j < |reindeer| ==> DistanceAtTime(reindeer[j], seconds) <= DistanceAtTime(reindeer[i], seconds)
  }

  predicate Increasing(s: seq<nat>) {
    forall a, b :: 0 <= a < b < |s| ==> s[a] < s[b]
  }

  /** The distances of all reindeer after `seconds`. */
  function Distances(reindeer: seq<Reindeer>, seconds: nat): (d: seq<nat>)
    requires AllCycle(reindeer)
    ensures |d| == |reindeer|
    ensures forall i :: 0 <= i < |d| ==> d[i] == DistanceAtTime(reindeer[i], seconds)
  {
    seq(|reindeer|, i requires 0 <= i < |reindeer| => DistanceAtTime(reindeer[i], seconds))
  }

  /** The inner loop's invariant after the first `index` reindeer: the
      leaders so far, in order, and the lead distance. */
  ghost predicate LeadersSoFar(d: seq<nat>, leaderIndex: seq<nat>, leaderDistance: nat, index: nat)
    requires index <= |d|
  {
    && leaderIndex != [] && Increasing(leaderIndex)
    && (forall a :: 0 <= a < |leaderIndex| ==> leaderIndex[a] < index)
    && (forall i: nat :: i in leaderIndex <==> i < index && d[i] == leaderDistance)
    && (forall j :: 0 <= j < index ==> d[j] <= leaderDistance)
  }

  lemma LeadersStep(d: seq<nat>, leaderIndex: seq<nat>, leaderDistance: nat, index: nat)
    requires index < |d| && LeadersSoFar(d, leaderIndex, leaderDistance, index)
    ensures d[index] > leaderDistance ==> LeadersSoFar(d, [index], d[index], index + 1)
    ensures d[index] == leaderDistance ==> LeadersSoFar(d, leaderIndex + [index], leaderDistance, index + 1)
    ensures d[index] < leaderDistance ==> LeadersSoFar(d, leaderIndex, leaderDistance, index + 1)
  {
  }

  /** The inner loop of the points race: the indices of all reindeer tied
      for the lead, each once, in order. */
  method LeaderIndices(reindeer: seq<Reindeer>, seconds: nat) returns (leaderIndex: seq<nat>)
    requires |reindeer| > 0 && AllCycle(reindeer)
    ensures leaderIndex != [] && Increasing(leaderIndex)
    ensures forall i: nat :: i in leaderIndex <==> i < |reindeer| && Leading(reindeer, seconds, i)
  {
    ghost var d := Distances(reindeer, seconds);
    leaderIndex := [0];
    var leaderDistance := DistanceAtTime(reindeer[0], seconds);
    for index := 1 to |reindeer|
      invariant LeadersSoFar(d, leaderIndex, leaderDistance, index)
    {
      var distance := DistanceAtTime(reindeer[index], seconds);
      LeadersStep(d, leaderIndex, leaderDistance, index);
      if distance > leaderDistance {
        leaderIndex := [index];
        leaderDistance := distance;
      } else if distance == leaderDistance {
        leaderIndex := leaderIndex + [index];
      }
    }
    LeadersAreLeading(reindeer, seconds, d, leaderIndex, leaderDistance);
  }

  lemma LeadersAreLeading(reindeer: seq<Reindeer>, seconds: nat, d: seq<nat>, leaderIndex: seq<nat>, leaderDistance: nat)
    requires AllCycle(reindeer) && d == Distances(reindeer, seconds)
    requires LeadersSoFar(d, leaderIndex, leaderDistance, |d|)
    ensures forall i: nat :: i in leaderIndex <==> i < |reindeer| && Leading(reindeer, seconds, i)
  {
    var i0 := leaderIndex[0];
    assert i0 in leaderIndex;
    forall i: nat | i < |reindeer| && Leading(reindeer, seconds, i)
      ensures i in leaderIndex
    {
      assert d[i0] <= d[i];
    }
  }

  /** Seconds 1 ..= `seconds` in which reindeer `i` was leading. */
  function PointsAt(reindeer: seq<Reindeer>, i: nat, seconds: nat): nat
    requires AllCycle(reindeer) && i < |reindeer|
  {
    if seconds == 0 then 0
    else PointsAt(reindeer, i, seconds - 1) + (if Leading(reindeer, seconds, i) then 1 else 0)
  }

  /** The points loop of the race, on the `points` vector. */
  method PointsRace(reindeer: seq<Reindeer>, seconds: nat) returns (points: array<nat>)
    requires |reindeer| > 0 && AllCycle(reindeer)
    ensures points.Length == |reindeer|
    ensures forall i :: 0 <= i < |reindeer| ==> points[i] == PointsAt(reindeer, i, seconds)
  {
    points := new nat[|reindeer|](_ => 0);
    for s := 1 to seconds + 1
      invariant forall i :: 0 <= i < |reindeer| ==> points[i] == PointsAt(reindeer, i, s - 1)
    {
      var leaderIndex := LeaderIndices(reindeer, s);
      AwardPoints(points, leaderIndex, reindeer, s);
    }
  }

  /** The `for index in leader_index` loop: one point to each leader. */
  method AwardPoints(points: array<nat>, leaderIndex: seq<nat>, ghost reindeer: seq<Reindeer>, ghost s: nat)
    requires points.Length == |reindeer| && AllCycle(reindeer) && Increasing(leaderIndex)
    requires forall i: nat :: i in leaderIndex <==> i < |reindeer| && Leading(reindeer, s, i)
    modifies points
    ensures forall i :: 0 <= i < points.Length ==>
      points[i] == old(points[i]) + (if Leading(reindeer, s, i) then 1 else 0)
  {
    for k := 0 to |leaderIndex|
      invariant forall i :: 0 <= i < points.Length ==>
        points[i] == old(points[i]) + (if i in leaderIndex[..k] then 1 else 0)
    {
      assert leaderIndex[k] in leaderIndex;
      assert leaderIndex[k] !in leaderIndex[..k];
      points[leaderIndex[k]] := points[leaderIndex[k]] + 1;
      assert leaderIndex[..k + 1] == leaderIndex[..k] + [leaderIndex[k]];
    }
    assert leaderIndex[..|leaderIndex|] == leaderIndex;
  }

  /** A furthest reindeer after `seconds`. */
  function Furthest(reindeer: seq<Reindeer>, seconds: nat, n: nat): (i: nat)
    requires AllCycle(reindeer) && 0 < n <= |reindeer|
    ensures i < n
    ensures forall j :: 0 <= j < n ==> DistanceAtTime(reindeer[j], seconds) <= DistanceAtTime(reindeer[i], seconds)
  {
    if n == 1 then 0
    else
      var i := Furthest(reindeer, seconds, n - 1);
      if DistanceAtTime(reindeer[n - 1], seconds) > DistanceAtTime(reindeer[i], seconds) then n - 1 else i
  }

  /** The points of the first `n` reindeer after `seconds`. */
  function TotalPoints(reindeer: seq<Reindeer>, seconds: nat, n: nat): nat
    requires AllCycle(reindeer) && n <= |reindeer|
  {
    if n == 0 then 0 else TotalPoints(reindeer, seconds, n - 1) + PointsAt(reindeer, n - 1, seconds)
  }

  /** How many of the first `n` reindeer lead after `seconds`. */
  function LeaderCount(reindeer: seq<Reindeer>, seconds: nat, n: nat): nat
    requires AllCycle(reindeer) && n <= |reindeer|
  {
    if n == 0 then 0 else LeaderCount(reindeer, seconds, n - 1) + (if Leading(reindeer, seconds, n - 1) then 1 else 0)
  }

  lemma {:induction false} TotalStep(reindeer: seq<Reindeer>, seconds: nat, n: nat)
    requires AllCycle(reindeer) && n <= |reindeer| && seconds > 0
    ensures TotalPoints(reindeer, seconds, n) == TotalPoints(reindeer, seconds - 1, n) + LeaderCount(reindeer, seconds, n)
  {
    if n > 0 {
      TotalStep(reindeer, seconds, n - 1);
    }
  }

  lemma {:induction false} CountsLeader(reindeer: seq<Reindeer>, seconds: nat, n: nat, i: nat)
    requires AllCycle(reindeer) && i < n <= |reindeer| && Leading(reindeer, seconds, i)
    ensures LeaderCount(reindeer, seconds, n) >= 1
  {
    if i < n - 1 {
      CountsLeader(reindeer, seconds, n - 1, i);
    }
  }

  /** Every second someone leads, so at least as many points as seconds are handed out. */
  lemma {:induction false} PointsEverySecond(reindeer: seq<Reindeer>, seconds: nat)
    requires |reindeer| > 0 && AllCycle(reindeer)
    ensures TotalPoints(reindeer, seconds, |reindeer|) >= seconds
  {
    if seconds == 0 {
      ZeroPoints(reindeer, |reindeer|);
    } else {
      PointsEverySecond(reindeer, seconds - 1);
      TotalStep(reindeer, seconds, |reindeer|);
      var i := Furthest(reindeer, seconds, |reindeer|);
      CountsLeader(reindeer, seconds, |reindeer|, i);
    }
  }

  lemma {:induction false} ZeroPoints(reindeer: seq<Reindeer>, n: nat)
    requires AllCycle(reindeer) && n <= |reindeer|
    ensures TotalPoints(reindeer, 0, n) == 0
  {
    if n > 0 {
      ZeroPoints(reindeer, n - 1);
    }
  }

  /** `points.iter().max().unwrap()`. */
  method MaxPoints(points: array<nat>) returns (best: nat)
    requires points.Length > 0
    ensures forall i :: 0 <= i < points.Length ==> points[i] <= best
    ensures exists i :: 0 <= i < points.Length && points[i] == best
  {
    best := points[0];
    for k := 1 to points.Length
      invariant forall i :: 0 <= i < k ==> points[i] <= best
      invariant exists i :: 0 <= i < k && points[i] == best
    {
      if points[k] > best {
        best := points[k];
      }
    }
  }
}
