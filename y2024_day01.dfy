/** 2024 day 1: two columns of location IDs. Both columns are kept sorted in
    `OrderedVec`s; the total distance pairs them up in order, and the
    similarity score is found by a merge over the two sorted columns
    (src/year_2024/day01.rs). The lines arrive already split into their
    two numbers. */
module Year2024Day01 {
  import OV = OrderedVec

  /** Ascending order of integers. */
  predicate Ascending(s: seq<int>) {
    forall i, j :: 0 <= i < j < |s| ==> s[i] <= s[j]
  }

  /** A vector sorted by the integer key is ascending. */
  lemma SortedAscending(s: seq<int>)
    requires OV.Sorted(OV.IntKey, s)
    ensures Ascending(s)
  {
    forall i, j | 0 <= i < j < |s|
      ensures s[i] <= s[j]
    {
      assert OV.KeyLe(OV.IntKey(s[i]), OV.IntKey(s[j]));
    }
  }

  /** The left numbers of the lines. */
  function Lefts(pairs: seq<(nat, nat)>): seq<int> {
    seq(|pairs|, i requires 0 <= i < |pairs| => pairs[i].0 as int)
  }

  /** The right numbers of the lines. */
  function Rights(pairs: seq<(nat, nat)>): seq<int> {
    seq(|pairs|, i requires 0 <= i < |pairs| => pairs[i].1 as int)
  }

  /** `push` onto a sorted list of numbers, seen only through what it keeps. */
  method PushNumber(list: OV.OrderedVec<int>, x: int)
    requires list.Valid()
    modifies list
    ensures list.Valid()
    ensures multiset(list.items) == multiset(old(list.items)) + multiset{x}
  {
    var _ := list.Push(x);
  }

  /** The reading loop of `main`: each line's left number is pushed onto the
      left list and its right number onto the right list. */
  method ReadLists(pairs: seq<(nat, nat)>) returns (left: OV.OrderedVec<int>, right: OV.OrderedVec<int>)
    ensures fresh(left) && fresh(right)
    ensures left.Valid() && right.Valid()
    ensures Ascending(left.items) && Ascending(right.items)
    ensures multiset(left.items) == multiset(Lefts(pairs))
    ensures multiset(right.items) == multiset(Rights(pairs))
  {
    left := new OV.OrderedVec(OV.IntKey);
    right := new OV.OrderedVec(OV.IntKey);
    for i := 0 to |pairs|
      invariant left.Valid() && right.Valid() && left != right
      invariant left.key == OV.IntKey && right.key == OV.IntKey
      invariant multiset(left.items) == multiset(Lefts(pairs)[..i])
      invariant multiset(right.items) == multiset(Rights(pairs)[..i])
    {
      assert Lefts(pairs)[..i + 1] == Lefts(pairs)[..i] + [pairs[i].0];
      assert Rights(pairs)[..i + 1] == Rights(pairs)[..i] + [pairs[i].1];
      PushNumber(left, pairs[i].0);
      PushNumber(right, pairs[i].1);
    }
    assert Lefts(pairs)[..|pairs|] == Lefts(pairs);
    assert Rights(pairs)[..|pairs|] == Rights(pairs);
    SortedAscending(left.items);
    SortedAscending(right.items);
  }

  /** `abs_diff`. */
  function AbsDiff(a: int, b: int): nat {
    if a < b then b - a else a - b
  }

  /** The distances of the first `n` pairs, added up. */
  function DistanceUpTo(ls: seq<int>, rs: seq<int>, n: nat): nat
    requires n <= |ls| && n <= |rs|
  {
    if n == 0 then 0 else DistanceUpTo(ls, rs, n - 1) + AbsDiff(ls[n - 1], rs[n - 1])
  }

  /** The distance is zero exactly when the first `n` entries agree. */
  lemma {:induction false} DistanceZero(ls: seq<int>, rs: seq<int>, n: nat)
    requires n <= |ls| && n <= |rs|
    ensures DistanceUpTo(ls, rs, n) == 0 <==> ls[..n] == rs[..n]
  {
    if n > 0 {
      DistanceZero(ls, rs, n - 1);
      assert ls[..n] == ls[..n - 1] + [ls[n - 1]] && rs[..n] == rs[..n - 1] + [rs[n - 1]];
      if ls[..n] == rs[..n] {
        assert ls[..n][..n - 1] == ls[..n - 1] && rs[..n][..n - 1] == rs[..n - 1];
        assert ls[n - 1] == ls[..n][n - 1] == rs[..n][n - 1] == rs[n - 1];
      }
    }
  }

  /** The total distance loop: the lists zipped in order, stopping at the
      shorter one, each pair adding its distance. */
  method TotalDistance(ls: seq<int>, rs: seq<int>) returns (total: nat)
    ensures total == DistanceUpTo(ls, rs, if |ls| < |rs| then |ls| else |rs|)
  {
    var n := if |ls| < |rs| then |ls| else |rs|;
    total := 0;
    for i := 0 to n
      invariant total == DistanceUpTo(ls, rs, i)
    {
      total := total + AbsDiff(ls[i], rs[i]);
    }
  }

  /** How often `v` occurs in `s`. */
  function CountOf(s: seq<int>, v: int): nat {
    if s == [] then 0 else CountOf(s[..|s| - 1], v) + (if s[|s| - 1] == v then 1 else 0)
  }

  /** What the merge adds up: each right number that occurs on the left,
      once per occurrence on the right. */
  function MatchedRightSum(ls: seq<int>, rs: seq<int>): int {
    if rs == [] then 0
    else MatchedRightSum(ls, rs[..|rs| - 1]) + (if rs[|rs| - 1] in ls then rs[|rs| - 1] else 0)
  }

  /** The similarity score: each left number times the number of times it
      occurs on the right. */
  function Similarity(ls: seq<int>, rs: seq<int>): int {
    if ls == [] then 0
    else Similarity(ls[..|ls| - 1], rs) + ls[|ls| - 1] * CountOf(rs, ls[|ls| - 1])
  }

  /** Right numbers that lie above every left number add nothing. */
  lemma {:induction false} MatchedBeyond(ls: seq<int>, rs: seq<int>, j: nat, m: nat)
    requires j <= m <= |rs| && Ascending(rs)
    requires j < |rs| ==> forall k :: 0 <= k < |ls| ==> ls[k] < rs[j]
    ensures MatchedRightSum(ls, rs[..m]) == MatchedRightSum(ls, rs[..j])
  {
    if m > j {
      MatchedBeyond(ls, rs, j, m - 1);
      assert rs[..m][..m - 1] == rs[..m - 1];
      assert rs[m - 1] !in ls;
    }
  }

  /** The similarity merge as written: the smaller side advances, and on a
      tie the right number is added and only the right side advances. */
  method SimilarityAsWritten(ls: seq<int>, rs: seq<int>) returns (total: int)
    requires Ascending(ls) && Ascending(rs)
    ensures total == MatchedRightSum(ls, rs)
  {
    var i, j := 0, 0;
    total := 0;
    while i < |ls| && j < |rs|
      invariant 0 <= i <= |ls| && 0 <= j <= |rs|
      invariant total == MatchedRightSum(ls, rs[..j])
      invariant j < |rs| ==> forall k :: 0 <= k < i ==> ls[k] < rs[j]
      decreases |ls| - i + |rs| - j
    {
      assert rs[..j + 1][..j] == rs[..j];
      if ls[i] < rs[j] {
        i := i + 1;
      } else if ls[i] > rs[j] {
        assert rs[j] !in ls;
        j := j + 1;
      } else {
        total := total + rs[j];
        j := j + 1;
      }
    }
    if j < |rs| {
      MatchedBeyond(ls, rs, j, |rs|);
    }
    assert rs[..|rs|] == rs;
  }

  /** The left list `[3, 3]` and the right list `[3]`: the merge adds 3 once,
      while the similarity score counts the 3 for each of its two left
      occurrences. */
  lemma DuplicateLeftUndercounts()
    ensures MatchedRightSum([3, 3], [3]) == 3
    ensures Similarity([3, 3], [3]) == 6
  {
    assert [3, 3][..1] == [3];
    assert [3][..0] == [];
  }

  /** When `v` occupies exactly the positions `a .. b`, it occurs `b - a` times. */
  lemma {:induction false} CountRun(s: seq<int>, v: int, a: nat, b: nat)
    requires a <= b <= |s|
    requires forall k :: 0 <= k < |s| ==> (s[k] == v <==> a <= k < b)
    ensures CountOf(s, v) == b - a
  {
    if s != [] {
      var n := |s| - 1;
      var b' := if b > n then n else b;
      var a' := if a > b' then b' else a;
      assert forall k :: 0 <= k < n ==> s[..n][k] == s[k];
      CountRun(s[..n], v, a', b');
    }
  }

  /** Left numbers that no right number equals add nothing to the score. */
  lemma {:induction false} SimilarityBeyond(ls: seq<int>, rs: seq<int>, i: nat, m: nat)
    requires i <= m <= |ls|
    requires forall k :: i <= k < |ls| ==> CountOf(rs, ls[k]) == 0
    ensures Similarity(ls[..m], rs) == Similarity(ls[..i], rs)
  {
    if m > i {
      SimilarityBeyond(ls, rs, i, m - 1);
      assert ls[..m][..m - 1] == ls[..m - 1];
    }
  }

  /** The merge the similarity score calls for: on a tie, the run of equal
      right numbers is counted once and every left number of the same value
      adds the value times that count. */
  method SimilarityByRuns(ls: seq<int>, rs: seq<int>) returns (total: int)
    requires Ascending(ls) && Ascending(rs)
    ensures total == Similarity(ls, rs)
  {
    var i, j := 0, 0;
    total := 0;
    while i < |ls| && j < |rs|
      invariant 0 <= i <= |ls| && 0 <= j <= |rs|
      invariant total == Similarity(ls[..i], rs)
      invariant i < |ls| ==> forall k :: 0 <= k < j ==> rs[k] < ls[i]
      decreases |ls| - i + |rs| - j
    {
      if ls[i] < rs[j] {
        CountRun(rs, ls[i], j, j);
        assert ls[..i + 1][..i] == ls[..i];
        i := i + 1;
      } else if ls[i] > rs[j] {
        j := j + 1;
      } else {
        var v, start := ls[i], j;
        while j < |rs| && rs[j] == v
          invariant start <= j <= |rs|
          invariant forall k :: start <= k < j ==> rs[k] == v
        {
          j := j + 1;
        }
        CountRun(rs, v, start, j);
        var n := j - start;
        while i < |ls| && ls[i] == v
          invariant 0 <= i <= |ls|
          invariant total == Similarity(ls[..i], rs)
          invariant i < |ls| ==> ls[i] >= v
          invariant CountOf(rs, v) == n
        {
          assert ls[..i + 1][..i] == ls[..i];
          total := total + v * n;
          i := i + 1;
        }
      }
    }
    if i < |ls| {
      forall k | i <= k < |ls|
        ensures CountOf(rs, ls[k]) == 0
      {
        CountRun(rs, ls[k], j, j);
      }
      SimilarityBeyond(ls, rs, i, |ls|);
    }
    assert ls[..|ls|] == ls;
  }

  /** Strictly ascending: no number repeats. */
  predicate StrictlyAscending(s: seq<int>) {
    forall i, j :: 0 <= i < j < |s| ==> s[i] < s[j]
  }

  /** Without right numbers the score is zero. */
  lemma {:induction false} SimilarityNoRights(ls: seq<int>)
    ensures Similarity(ls, []) == 0
  {
    if ls != [] {
      SimilarityNoRights(ls[..|ls| - 1]);
    }
  }

  /** One more right number `r` adds `r` once for each left occurrence of it. */
  lemma {:induction false} SimilarityAppendRight(ls: seq<int>, rs: seq<int>, r: int)
    ensures Similarity(ls, rs + [r]) == Similarity(ls, rs) + r * CountOf(ls, r)
  {
    if ls != [] {
      var init, l := ls[..|ls| - 1], ls[|ls| - 1];
      SimilarityAppendRight(init, rs, r);
      assert (rs + [r])[..|rs|] == rs;
      assert CountOf(rs + [r], l) == CountOf(rs, l) + (if r == l then 1 else 0);
      if r == l {
        assert l * (CountOf(rs, l) + 1) == l * CountOf(rs, l) + l;
        assert r * (CountOf(init, r) + 1) == r * CountOf(init, r) + r;
      }
    }
  }

  /** In a list without repeats a number occurs once or not at all. */
  lemma {:induction false} CountDistinct(ls: seq<int>, r: int)
    requires StrictlyAscending(ls)
    ensures CountOf(ls, r) == if r in ls then 1 else 0
  {
    if ls != [] {
      var init := ls[..|ls| - 1];
      CountDistinct(init, r);
      assert ls == init + [ls[|ls| - 1]];
    }
  }

  /** When the left list has no repeats, the merge as written does compute the
      similarity score. */
  lemma {:induction false} MatchedWhenDistinct(ls: seq<int>, rs: seq<int>)
    requires StrictlyAscending(ls)
    ensures MatchedRightSum(ls, rs) == Similarity(ls, rs)
  {
    if rs == [] {
      SimilarityNoRights(ls);
    } else {
      var init, r := rs[..|rs| - 1], rs[|rs| - 1];
      MatchedWhenDistinct(ls, init);
      SimilarityAppendRight(ls, init, r);
      CountDistinct(ls, r);
      assert init + [r] == rs;
    }
  }

  /** `main`: the total distance over the sorted lists, and the similarity
      score as the merge writes it. */
  method Solve(pairs: seq<(nat, nat)>) returns (distance: nat, similarity: int)
    ensures exists ls, rs :: Ascending(ls) && Ascending(rs) && |ls| == |rs| == |pairs|
                             && multiset(ls) == multiset(Lefts(pairs)) && multiset(rs) == multiset(Rights(pairs))
                             && distance == DistanceUpTo(ls, rs, |pairs|)
                             && similarity == MatchedRightSum(ls, rs)
  {
    var left, right := ReadLists(pairs);
    var ls, rs := left.items, right.items;
    assert |ls| == |multiset(Lefts(pairs))| == |pairs|;
    assert |rs| == |multiset(Rights(pairs))| == |pairs|;
    distance := TotalDistance(ls, rs);
    similarity := SimilarityAsWritten(ls, rs);
  }
}
