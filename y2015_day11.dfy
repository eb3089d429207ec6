/** 2015 day 11: Santa's next password — increment a lower-case string as a
    base-26 number until it passes three checks (src/year_2015/day11.rs). */
module Year2015Day11 {
  import opened Wrappers

  /** Three consecutive characters ascending by one, such as "abc". */
  predicate HasStraight(p: seq<char>) {
    exists i :: 0 <= i < |p| && StraightAt(p, i)
  }

  predicate StraightAt(p: seq<char>, i: int) {
    0 <= i && i + 2 < |p| && p[i] as int + 1 == p[i + 1] as int && p[i] as int + 2 == p[i + 2] as int
  }

  /** `includes_straight`: scans every start index; the range `0..len - 2`
      needs at least two characters. */
  method IncludesStraight(password: seq<char>) returns (b: bool)
    requires |password| >= 2
    ensures b <==> HasStraight(password)
  {
    for index := 0 to |password| - 2
      invariant forall i :: 0 <= i < index ==> !StraightAt(password, i)
    {
      if password[index] as int + 1 == password[index + 1] as int
         && password[index] as int + 2 == password[index + 2] as int {
        assert StraightAt(password, index);
        return true;
      }
    }
    return false;
  }

  predicate Confusing(ch: char) { ch == 'i' || ch == 'o' || ch == 'l' }

  /** `excludes_confusing_letters`: false as soon as 'i', 'o' or 'l' occurs. */
  method ExcludesConfusingLetters(password: seq<char>) returns (b: bool)
    ensures b <==> forall i :: 0 <= i < |password| ==> !Confusing(password[i])
  {
    for k := 0 to |password|
      invariant forall i :: 0 <= i < k ==> !Confusing(password[i])
    {
      if Confusing(password[k]) {
        return false;
      }
    }
    return true;
  }

  predicate PairAt(p: seq<char>, i: int) {
    0 <= i && i + 1 < |p| && p[i] == p[i + 1]
  }

  /** Two doubled letters that do not overlap; they may be the same letter. */
  ghost predicate TwoPairs(p: seq<char>) {
    exists i, j :: PairAt(p, i) && PairAt(p, j) && i + 2 <= j
  }

  /** `includes_pairs`: reads a character and, when the next one equals it,
      consumes that too as a pair; true at the second pair. Taking pairs
      greedily from the left finds two exactly when two exist. */
  method IncludesPairs(password: seq<char>) returns (b: bool)
    ensures b <==> TwoPairs(password)
  {
    var k := 0;
    var hasFirstPair := false;
    ghost var first := 0;
    while k < |password|
      invariant k <= |password|
      invariant !hasFirstPair ==> forall i :: 0 <= i < k ==> !PairAt(password, i)
      invariant hasFirstPair ==>
                  (first + 2 <= k && PairAt(password, first)
                   && (forall i :: 0 <= i < first ==> !PairAt(password, i))
                   && (forall i :: first + 2 <= i < k ==> !PairAt(password, i)))
      decreases |password| - k
    {
      var ch := password[k];
      if k + 1 < |password| && password[k + 1] == ch {
        if hasFirstPair {
          assert PairAt(password, first) && PairAt(password, k);
          return true;
        }
        hasFirstPair, first := true, k;
        k := k + 2;
      } else {
        k := k + 1;
      }
    }
    if hasFirstPair {
      OnlyOverlapping(password, first);
    }
    return false;
  }

  lemma OnlyOverlapping(p: seq<char>, f: nat)
    requires forall i :: 0 <= i < f ==> !PairAt(p, i)
    requires forall i :: f + 2 <= i < |p| ==> !PairAt(p, i)
    ensures !TwoPairs(p)
  {
  }

  /** `is_good_password`: all three checks. */
  method IsGoodPassword(password: seq<char>) returns (b: bool)
    requires |password| >= 2
    ensures b <==> Good(password)
  {
    var straight := IncludesStraight(password);
    var clear := ExcludesConfusingLetters(password);
    var pairs := IncludesPairs(password);
    b := straight && clear && pairs;
  }

  ghost predicate Good(p: seq<char>) {
    HasStraight(p) && (forall i :: 0 <= i < |p| ==> !Confusing(p[i])) && TwoPairs(p)
  }

  predicate Lower(ch: char) { 'a' <= ch <= 'z' }

  /** The successor of a password: the last letter below 'z' advances, every
      'z' after it becomes 'a'; all 'z' wraps to all 'a'. A character other
      than a lower-case letter reached on the way is an error. */
  function Increment(s: seq<char>): (r: Result<seq<char>, string>)
    ensures r.Ok? ==> |r.value| == |s|
  {
    if s == [] then Ok([])
    else
      var last := s[|s| - 1];
      if 'a' <= last <= 'y' then Ok(s[..|s| - 1] + [(last as int + 1) as char])
      else if last == 'z' then
        var front :- Increment(s[..|s| - 1]);
        Ok(front + ['a'])
      else Err("Unexpected char")
  }

  /** `increment_password`, in place from the last index down. */
  method IncrementPassword(password: array<char>) returns (r: Result<(), string>)
    modifies password
    ensures r.Ok? <==> Increment(old(password[..])).Ok?
    ensures r.Ok? ==> password[..] == Increment(old(password[..])).value
  {
    ghost var original := password[..];
    var index := password.Length;
    CarryNone(original);
    assert original[..index] == original;
    while index > 0
      invariant 0 <= index <= password.Length
      invariant password[..index] == original[..index]
      invariant forall i :: index <= i < password.Length ==> password[i] == 'a'
      invariant Increment(original) == Carry(original[..index], password.Length - index)
      decreases index
    {
      index := index - 1;
      var ch := password[index];
      assert original[..index + 1] == original[..index] + [ch];
      CarryStep(original[..index], ch, password.Length - index - 1);
      if 'a' <= ch <= 'y' {
        password[index] := (ch as int + 1) as char;
        assert password[..] == original[..index] + [(ch as int + 1) as char] + Repeat('a', password.Length - index - 1);
        return Ok(());
      } else if ch == 'z' {
        password[index] := 'a';
      } else {
        return Err("Unexpected char");
      }
    }
    assert password[..] == Repeat('a', password.Length);
    r := Ok(());
  }

  /** What incrementing gives once the last `n` letters, all 'z', were turned
      to 'a' and `front` remains. */
  function Carry(front: seq<char>, n: nat): Result<seq<char>, string> {
    var f :- Increment(front);
    Ok(f + Repeat('a', n))
  }

  function Repeat(ch: char, n: nat): (r: seq<char>)
    ensures |r| == n && forall i :: 0 <= i < n ==> r[i] == ch
  {
    if n == 0 then [] else Repeat(ch, n - 1) + [ch]
  }

  lemma CarryNone(s: seq<char>)
    ensures Increment(s) == Carry(s, 0)
  {
    if Increment(s).Ok? {
      assert Increment(s).value + Repeat('a', 0) == Increment(s).value;
    }
  }

  /** One more letter taken from the front: a 'z' joins the carried letters,
      a letter below 'z' advances and ends the carry. */
  lemma CarryStep(front: seq<char>, ch: char, n: nat)
    ensures ch == 'z' ==> Carry(front + [ch], n) == Carry(front, n + 1)
    ensures 'a' <= ch <= 'y' ==> Carry(front + [ch], n) == Ok(front + [(ch as int + 1) as char] + Repeat('a', n))
  {
    var s := front + [ch];
    assert s[..|s| - 1] == front;
    if ch == 'z' && Increment(front).Ok? {
      var f := Increment(front).value;
      assert ['a'] + Repeat('a', n) == Repeat('a', n + 1);
      assert f + ['a'] + Repeat('a', n) == f + Repeat('a', n + 1);
    }
  }

  predicate AllLower(s: seq<char>) {
    forall i :: 0 <= i < |s| ==> Lower(s[i])
  }

  /** A lower-case password read as a base-26 number, 'a' being 0. */
  function Value26(s: seq<char>): nat
    requires AllLower(s)
  {
    if s == [] then 0 else Value26(s[..|s| - 1]) * 26 + (s[|s| - 1] as int - 'a' as int)
  }

  function Pow26(n: nat): (p: nat)
    ensures p >= 1
  {
    if n == 0 then 1 else 26 * Pow26(n - 1)
  }

  lemma {:induction false} Value26Bound(s: seq<char>)
    requires AllLower(s)
    ensures Value26(s) < Pow26(|s|)
  {
    if s != [] {
      Value26Bound(s[..|s| - 1]);
    }
  }

  lemma Value26Append(f: seq<char>, c: char)
    requires AllLower(f) && Lower(c)
    ensures AllLower(f + [c]) && Value26(f + [c]) == Value26(f) * 26 + (c as int - 'a' as int)
  {
    assert (f + [c])[..|f|] == f;
  }

  lemma ModBelow(x: int, n: int)
    requires 0 <= x < n
    ensures x % n == x
  {
  }

  lemma NoCarry(a: nat, d: nat, m: nat)
    requires a < m && d < 25
    ensures (a * 26 + d + 1) % (m * 26) == a * 26 + d + 1
  {
    ModBelow(a * 26 + d + 1, m * 26);
  }

  lemma WithCarry(a: nat, b: nat, m: nat)
    requires a < m && b == (a + 1) % m
    ensures b * 26 == ((a + 1) * 26) % (m * 26)
  {
    if a + 1 < m {
      ModBelow(a + 1, m);
      ModBelow((a + 1) * 26, m * 26);
    } else {
      assert (a + 1) % m == 0 by { assert a + 1 == m; }
      assert ((a + 1) * 26) % (m * 26) == 0 by { assert (a + 1) * 26 == m * 26; }
    }
  }

  /** On lower-case passwords `Increment` is the successor modulo 26^length. */
  lemma {:induction false} IncrementIsSuccessor(s: seq<char>)
    requires AllLower(s)
    ensures Increment(s).Ok? && AllLower(Increment(s).value)
    ensures Value26(Increment(s).value) == (Value26(s) + 1) % Pow26(|s|)
  {
    if s != [] {
      var front := s[..|s| - 1];
      var last := s[|s| - 1];
      assert s == front + [last];
      Value26Append(front, last);
      Value26Bound(front);
      if last < 'z' {
        Value26Append(front, (last as int + 1) as char);
        NoCarry(Value26(front), last as int - 'a' as int, Pow26(|front|));
      } else {
        IncrementIsSuccessor(front);
        Value26Append(Increment(front).value, 'a');
        WithCarry(Value26(front), Value26(Increment(front).value), Pow26(|front|));
      }
    }
  }

  /** The password after `n` increments of `start`, or the first error. */
  function Successor(start: seq<char>, n: nat): Result<seq<char>, string> {
    if n == 0 then Ok(start)
    else
      var p :- Successor(start, n - 1);
      Increment(p)
  }

  /** Every successor from 1 to `count` exists, and those not picked are not
      good. */
  ghost predicate OthersBad(start: seq<char>, count: nat, picks: seq<nat>) {
    forall m :: 1 <= m <= count ==>
      Successor(start, m).Ok? && (m !in picks ==> !Good(Successor(start, m).value))
  }

  /** The search so far: `good` holds the good successors found among the
      first `count`, at the increasing positions `picks`, and every other one
      is not good. */
  ghost predicate Progress(start: seq<char>, count: nat, picks: seq<nat>, good: seq<seq<char>>) {
    |picks| == |good| <= 2 &&
    (forall k :: 0 <= k < |good| ==> Good(good[k])) &&
    (forall k :: 0 <= k < |good| ==> 1 <= picks[k] <= count && Successor(start, picks[k]) == Ok(good[k])) &&
    (|good| == 2 ==> picks[0] < picks[1] == count) &&
    OthersBad(start, count, picks)
  }

  /** A good successor examined next is picked. */
  lemma ProgressPick(start: seq<char>, count: nat, picks: seq<nat>, good: seq<seq<char>>, next: seq<char>)
    requires Progress(start, count, picks, good) && |good| < 2
    requires Successor(start, count + 1) == Ok(next) && Good(next)
    ensures Progress(start, count + 1, picks + [count + 1], good + [next])
  {
    var p, g := picks + [count + 1], good + [next];
    forall k | 0 <= k < |g|
      ensures Good(g[k])
    {
      if k < |good| {
        assert g[k] == good[k];
      }
    }
    forall k | 0 <= k < |g|
      ensures 1 <= p[k] <= count + 1 && Successor(start, p[k]) == Ok(g[k])
    {
      if k < |good| {
        assert p[k] == picks[k] && g[k] == good[k];
      }
    }
    if |g| == 2 {
      assert p[0] == picks[0] <= count;
    }
    forall m | 1 <= m <= count + 1
      ensures Successor(start, m).Ok? && (m !in p ==> !Good(Successor(start, m).value))
    {
      if m <= count {
        assert m in picks ==> m in p;
      }
    }
  }

  /** A successor that is not good is passed over. */
  lemma ProgressSkip(start: seq<char>, count: nat, picks: seq<nat>, good: seq<seq<char>>, next: seq<char>)
    requires Progress(start, count, picks, good) && |good| < 2
    requires Successor(start, count + 1) == Ok(next) && !Good(next)
    ensures Progress(start, count + 1, picks, good)
  {
  }

  /** A finished search: two good successors, and none between or before
      them. */
  lemma Found(start: seq<char>, count: nat, picks: seq<nat>, good: seq<seq<char>>)
    requires Progress(start, count, picks, good) && |good| == 2
    ensures Good(good[0]) && Good(good[1])
    ensures 1 <= picks[0] < picks[1] && Successor(start, picks[0]) == Ok(good[0])
    ensures Successor(start, picks[1]) == Ok(good[1])
    ensures forall m :: 1 <= m < picks[1] && m != picks[0] ==>
      Successor(start, m).Ok? && !Good(Successor(start, m).value)
  {
    forall m | 1 <= m < picks[1] && m != picks[0]
      ensures Successor(start, m).Ok? && !Good(Successor(start, m).value)
    {
      assert m !in picks;
    }
  }

  /** Increments the password once and reports whether the new one is good. */
  method Advance(password: array<char>, ghost start: seq<char>, ghost count: nat)
    returns (inc: Result<(), string>, ok: bool)
    requires Successor(start, count) == Ok(password[..]) && password.Length >= 2
    modifies password
    ensures inc.Ok? ==> Successor(start, count + 1) == Ok(password[..]) && (ok <==> Good(password[..]))
  {
    ghost var before := password[..];
    inc := IncrementPassword(password);
    if inc.Err? {
      return inc, false;
    }
    assert Successor(start, count + 1) == Increment(before);
    ok := IsGoodPassword(password[..]);
  }

  /** The two next good passwords after `start`, incrementing one step at a
      time: they are the `first`-th and `second`-th successors, and every
      other successor up to the second is not good. The search gives up after
      `fuel` increments. */
  method NextGoodPasswords(start: seq<char>, fuel: nat)
    returns (r: Result<seq<seq<char>>, string>, ghost first: nat, ghost second: nat)
    requires |start| >= 2
    ensures r.Ok? ==> |r.value| == 2 && Good(r.value[0]) && Good(r.value[1])
    ensures r.Ok? ==> 1 <= first < second && Successor(start, first) == Ok(r.value[0])
    ensures r.Ok? ==> Successor(start, second) == Ok(r.value[1])
    ensures r.Ok? ==> forall m :: 1 <= m < second && m != first ==>
      Successor(start, m).Ok? && !Good(Successor(start, m).value)
  {
    var password := new char[|start|](i requires 0 <= i < |start| => start[i]);
    var good: seq<seq<char>> := [];
    var steps := fuel;
    ghost var count: nat := 0;
    ghost var picks: seq<nat> := [];
    assert password[..] == start;
    while |good| < 2
      invariant password.Length == |start|
      invariant Successor(start, count) == Ok(password[..])
      invariant Progress(start, count, picks, good)
      decreases steps
    {
      if steps == 0 {
        return Err("gave up"), 0, 0;
      }
      steps := steps - 1;
      var inc, ok := Advance(password, start, count);
      if inc.Err? {
        return Err(inc.error), 0, 0;
      }
      if ok {
        ProgressPick(start, count, picks, good, password[..]);
        good := good + [password[..]];
        picks := picks + [count + 1];
      } else {
        ProgressSkip(start, count, picks, good, password[..]);
      }
      count := count + 1;
    }
    Found(start, count, picks, good);
    r := Ok(good);
    first, second := picks[0], picks[1];
  }
}
