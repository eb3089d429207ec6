/** 2023 day 4: scratchcards. Each card's score doubles with every matching
    number after the first, and each card wins copies of the cards right
    after it (src/year_2023/day04.rs). A card's line arrives already split:
    the pieces of its body around " | ", each cut into its non-empty words. */
module Year2023Day04 {
  import opened Wrappers
  import opened Numerals

  const MaxU32: nat := 0xffff_ffff

  datatype Fault = MissingWinning | MissingActual | InvalidNumber

  function Pow2(n: nat): nat {
    if n == 0 then 1 else 2 * Pow2(n - 1)
  }

  /** `score_for_count`: nothing for no match, 1 for one, and doubling for each further match. */
  method ScoreForCount(count: nat) returns (score: nat)
    ensures count == 0 ==> score == 0
    ensures count > 0 ==> score == Pow2(count - 1)
  {
    if count == 0 {
      return 0;
    } else if count == 1 {
      return 1;
    }
    score := 1;
    for k := 1 to count
      invariant score == Pow2(k - 1)
    {
      score := score * 2;
    }
  }

  /** The score of a card with `count` matching numbers. */
  function Score(count: nat): nat {
    if count == 0 then 0 else Pow2(count - 1)
  }

  /** One more match doubles a positive score. */
  lemma ScoreDoubles(count: nat)
    requires count > 0
    ensures Score(count + 1) == 2 * Score(count)
  {
  }

  /** The numbers of a list of words, or an error at the first word that is not a `u32`. */
  function ParseNumbers(words: seq<string>): (r: Result<seq<nat>, Fault>)
    ensures r.Ok? ==> |r.value| == |words|
  {
    if words == [] then Ok([])
    else match ParseNumbers(words[..|words| - 1])
      case Err(e) => Err(e)
      case Ok(ns) =>
        match ParseUnsigned(words[|words| - 1], MaxU32)
        case None => Err(InvalidNumber)
        case Some(v) => Ok(ns + [v])
  }

  /** The words parse exactly when each is a `u32`, and each gives its value. */
  lemma {:induction false} ParseNumbersMeaning(words: seq<string>)
    ensures ParseNumbers(words).Ok? <==> forall k :: 0 <= k < |words| ==> ParseUnsigned(words[k], MaxU32).Some?
    ensures ParseNumbers(words).Ok? ==>
      forall k :: 0 <= k < |words| ==> ParseNumbers(words).value[k] == ParseUnsigned(words[k], MaxU32).value
  {
    if words != [] {
      var n := |words| - 1;
      ParseNumbersMeaning(words[..n]);
      assert forall k :: 0 <= k < n ==> words[..n][k] == words[k];
    }
  }

  /** How many of a card's numbers are winning numbers: the size of the
      intersection of the two sets, or the first parse error. The winning
      numbers are parsed before the actual numbers are looked for. */
  function CardWon(pieces: seq<seq<string>>): Result<nat, Fault> {
    if pieces == [] then Err(MissingWinning)
    else match ParseNumbers(pieces[0])
      case Err(e) => Err(e)
      case Ok(winning) =>
        if |pieces| < 2 then Err(MissingActual)
        else match ParseNumbers(pieces[1])
          case Err(e) => Err(e)
          case Ok(actual) => Ok(Matches(winning, actual))
  }

  /** How many distinct numbers are on both lists. */
  function Matches(winning: seq<nat>, actual: seq<nat>): nat {
    |(set n | n in winning) * (set n | n in actual)|
  }

  /** Pieces after the second are never looked at. */
  lemma ExtraPiecesIgnored(pieces: seq<seq<string>>, extra: seq<seq<string>>)
    requires |pieces| >= 2
    ensures CardWon(pieces + extra) == CardWon(pieces)
  {
    assert (pieces + extra)[0] == pieces[0] && (pieces + extra)[1] == pieces[1];
  }

  /** A number counts as won once however often it is listed on either side. */
  lemma WonIgnoresRepeats(winning: seq<string>, actual: seq<string>)
    requires ParseNumbers(winning).Ok? && ParseNumbers(actual).Ok?
    ensures CardWon([winning, actual]) == CardWon([winning + winning, actual + actual])
  {
    var w, a := ParseNumbers(winning).value, ParseNumbers(actual).value;
    ParseNumbersConcat(winning, winning);
    ParseNumbersConcat(actual, actual);
    assert (set n | n in w + w) == set n | n in w;
    assert (set n | n in a + a) == set n | n in a;
  }

  lemma {:induction false} ParseNumbersConcat(a: seq<string>, b: seq<string>)
    requires ParseNumbers(a).Ok? && ParseNumbers(b).Ok?
    ensures ParseNumbers(a + b) == Ok(ParseNumbers(a).value + ParseNumbers(b).value)
  {
    if b != [] {
      var n := |b| - 1;
      assert (a + b)[..|a + b| - 1] == a + b[..n];
      assert (a + b)[|a + b| - 1] == b[n];
      ParseNumbersConcat(a, b[..n]);
      var pa, pb, v := ParseNumbers(a).value, ParseNumbers(b[..n]).value, ParseUnsigned(b[n], MaxU32).value;
      assert ParseNumbers(b).value == pb + [v];
      assert (pa + pb) + [v] == pa + (pb + [v]);
    } else {
      assert a + b == a;
      assert ParseNumbers(a).value + ParseNumbers(b).value == ParseNumbers(a).value;
    }
  }

  // ----- copies -----

  /** How many copies of card `i` there are: the original, plus, for each
      earlier card `j` that wins card `i`, one per copy of `j`. */
  function CopyCount(wons: seq<nat>, i: nat): nat
    requires i < |wons|
    decreases i, 1
  {
    1 + Contrib(wons, i, i)
  }

  /** The copies of card `k` won by cards `0..n`: card `j` wins the `wons[j]`
      cards right after it, one of each for every copy of `j`. */
  function Contrib(wons: seq<nat>, n: nat, k: nat): nat
    requires n <= |wons|
    decreases n, 0
  {
    if n == 0 then 0
    else Contrib(wons, n - 1, k) + (if n - 1 < k <= n - 1 + wons[n - 1] then CopyCount(wons, n - 1) else 0)
  }

  /** The total number of cards among the first `n`, copies included. */
  function CopyTotal(wons: seq<nat>, n: nat): nat
    requires n <= |wons|
  {
    if n == 0 then 0 else CopyTotal(wons, n - 1) + CopyCount(wons, n - 1)
  }

  /** The points of all the cards. */
  function Points(wons: seq<nat>): nat {
    if wons == [] then 0 else Points(wons[..|wons| - 1]) + Score(wons[|wons| - 1])
  }

  /** Copies are decided by the cards before: a later card changes nothing about them. */
  lemma {:induction false} CopyCountStable(wons: seq<nat>, x: nat, i: nat)
    requires i < |wons|
    ensures CopyCount(wons + [x], i) == CopyCount(wons, i)
    decreases i, 1
  {
    ContribStable(wons, x, i, i);
  }

  lemma {:induction false} ContribStable(wons: seq<nat>, x: nat, n: nat, k: nat)
    requires n <= |wons|
    ensures Contrib(wons + [x], n, k) == Contrib(wons, n, k)
    decreases n, 0
  {
    if n > 0 {
      ContribStable(wons, x, n - 1, k);
      CopyCountStable(wons, x, n - 1);
      assert (wons + [x])[n - 1] == wons[n - 1];
    }
  }

  lemma {:induction false} CopyTotalStable(wons: seq<nat>, x: nat, n: nat)
    requires n <= |wons|
    ensures CopyTotal(wons + [x], n) == CopyTotal(wons, n)
  {
    if n > 0 {
      CopyTotalStable(wons, x, n - 1);
      CopyCountStable(wons, x, n - 1);
    }
  }

  /** Cards that win nothing pass on no copies: with no wins at all, every
      card is there once. */
  lemma {:induction false} NoWinsNoCopies(wons: seq<nat>, n: nat)
    requires n <= |wons| && forall j :: 0 <= j < |wons| ==> wons[j] == 0
    ensures CopyTotal(wons, n) == n
    ensures forall k :: Contrib(wons, n, k) == 0
  {
    if n > 0 {
      NoWinsNoCopies(wons, n - 1);
      assert Contrib(wons, n - 1, n - 1) == 0;
      forall k ensures Contrib(wons, n, k) == 0 {
        assert Contrib(wons, n - 1, k) == 0;
      }
    }
  }

  /** A card can only win cards after it: nothing is added to cards `0..=j` by cards from `j` on. */
  lemma {:induction false} ContribOnlyForward(wons: seq<nat>, n: nat, k: nat)
    requires k < n <= |wons|
    ensures Contrib(wons, n, k) == Contrib(wons, k, k)
  {
    if n > k + 1 {
      ContribOnlyForward(wons, n - 1, k);
    }
  }

  /** Grows `copies` to at least `len` entries, each new one set to `fill`. */
  method ExpandWith(copies: seq<nat>, len: nat, fill: nat) returns (r: seq<nat>)
    ensures |r| == if |copies| < len then len else |copies|
    ensures r[..|copies|] == copies
    ensures forall k :: |copies| <= k < |r| ==> r[k] == fill
  {
    r := copies;
    while |r| < len
      invariant |copies| <= |r| && (|copies| < len ==> |r| <= len) && (len <= |copies| ==> r == copies)
      invariant r[..|copies|] == copies
      invariant forall k :: |copies| <= k < |r| ==> r[k] == fill
    {
      r := r + [fill];
    }
  }

  /** `main`'s loop over `1..=won`: each of the `won` cards after card `n`
      gains `count` copies. */
  method AddCopies(copies: seq<nat>, n: nat, won: nat, count: nat) returns (r: seq<nat>)
    requires n + won < |copies|
    ensures |r| == |copies|
    ensures forall k :: 0 <= k < |r| ==> r[k] == copies[k] + (if n < k <= n + won then count else 0)
  {
    r := copies;
    for x := 1 to won + 1
      invariant |r| == |copies|
      invariant forall k :: 0 <= k < |r| ==> r[k] == copies[k] + (if n < k < n + x then count else 0)
    {
      r := r[n + x := r[n + x] + count];
    }
  }

  /** What `main`'s copy table holds before card `n`: entry `k`, from `n` on,
      is the original plus the copies the first `n` cards won of it; cards
      past the table's end have won no copies yet. */
  ghost predicate CopyTable(wons: seq<nat>, copies: seq<nat>)
  {
    (forall k :: |wons| <= k < |copies| ==> copies[k] == 1 + Contrib(wons, |wons|, k))
    && (forall k :: |copies| <= k ==> Contrib(wons, |wons|, k) == 0)
  }

  /** The copy table updated for card `n` with `won` matches. */
  method PassCopies(ghost wons: seq<nat>, n: nat, copies: seq<nat>, won: nat) returns (count: nat, copies': seq<nat>)
    requires n == |wons| && CopyTable(wons, copies)
    ensures count == CopyCount(wons + [won], |wons|)
    ensures CopyTable(wons + [won], copies')
  {
    var expanded := ExpandWith(copies, n + won + 1, 1);
    ghost var ws := wons + [won];
    forall k ensures Contrib(ws, n, k) == Contrib(wons, n, k) {
      ContribStable(wons, won, n, k);
    }
    assert expanded[n] == 1 + Contrib(wons, n, n);
    count := expanded[n];
    copies' := AddCopies(expanded, n, won, count);
  }

  /** `main`'s loop over the cards: the points and the number of cards with
      copies, or the first card's error. */
  method Scratch(cards: seq<seq<seq<string>>>) returns (r: Result<(nat, nat), Fault>)
    ensures r == match AllWon(cards)
      case Err(e) => Err(e)
      case Ok(wons) => Ok((Points(wons), CopyTotal(wons, |wons|)))
  {
    var copies: seq<nat> := [1];
    var points, total := 0, 0;
    ghost var wons: seq<nat> := [];
    for n := 0 to |cards|
      invariant AllWon(cards[..n]) == Ok(wons) && |wons| == n
      invariant CopyTable(wons, copies)
      invariant points == Points(wons) && total == CopyTotal(wons, n)
    {
      var won := CardWon(cards[n]);
      AllWonStep(cards, n);
      if won.Err? {
        AllWonErrorSticks(cards, n + 1);
        return Err(won.error);
      }
      var score := ScoreForCount(won.value);
      var count;
      count, copies := PassCopies(wons, n, copies, won.value);
      SumsStep(wons, won.value);
      points, total := points + score, total + count;
      wons := wons + [won.value];
    }
    assert cards[..|cards|] == cards;
    r := Ok((points, total));
  }

  /** One more card extends the matches, or stops at its error. */
  lemma AllWonStep(cards: seq<seq<seq<string>>>, n: nat)
    requires n < |cards| && AllWon(cards[..n]).Ok?
    ensures CardWon(cards[n]).Ok? ==> AllWon(cards[..n + 1]) == Ok(AllWon(cards[..n]).value + [CardWon(cards[n]).value])
    ensures CardWon(cards[n]).Err? ==> AllWon(cards[..n + 1]) == Err(CardWon(cards[n]).error)
  {
    assert cards[..n + 1][..n] == cards[..n];
  }

  /** One more card adds its score to the points and its copies to the total. */
  lemma SumsStep(wons: seq<nat>, won: nat)
    ensures Points(wons + [won]) == Points(wons) + Score(won)
    ensures CopyTotal(wons + [won], |wons| + 1) == CopyTotal(wons, |wons|) + CopyCount(wons + [won], |wons|)
  {
    assert (wons + [won])[..|wons|] == wons;
    CopyTotalStable(wons, won, |wons|);
  }

  /** Every card's matches, or the first card's error. */
  function AllWon(cards: seq<seq<seq<string>>>): (r: Result<seq<nat>, Fault>)
    ensures r.Ok? ==> |r.value| == |cards|
  {
    if cards == [] then Ok([])
    else match AllWon(cards[..|cards| - 1])
      case Err(e) => Err(e)
      case Ok(ws) =>
        match CardWon(cards[|cards| - 1])
        case Err(e) => Err(e)
        case Ok(w) => Ok(ws + [w])
  }

  /** Once a card is malformed, the whole input is, with that card's error. */
  lemma {:induction false} AllWonErrorSticks(cards: seq<seq<seq<string>>>, n: nat)
    requires n <= |cards| && AllWon(cards[..n]).Err?
    ensures AllWon(cards) == AllWon(cards[..n])
    decreases |cards| - n
  {
    if n < |cards| {
      assert cards[..n + 1][..n] == cards[..n];
      AllWonErrorSticks(cards, n + 1);
    } else {
      assert cards[..n] == cards;
    }
  }

  /** The example's cards win 4, 2, 2, 1, 0 and 0 numbers: 13 points. */
  lemma ExamplePoints(wons: seq<nat>)
    requires wons == [4, 2, 2, 1, 0, 0]
    ensures Points(wons) == 13
  {
    assert wons[..5] == [4, 2, 2, 1, 0] && wons[..5][..4] == [4, 2, 2, 1];
    assert wons[..5][..4][..3] == [4, 2, 2] && wons[..5][..4][..3][..2] == [4, 2];
    assert wons[..5][..4][..3][..2][..1] == [4] && [4][..0] == [];
    assert Points([4]) == 8 && Points([4, 2]) == 10 && Points([4, 2, 2]) == 12;
    assert Points([4, 2, 2, 1]) == 13 && Points([4, 2, 2, 1, 0]) == 13;
  }

  /** The copies of the example's cards: 1, 2, 4, 8, 14 and 1. */
  lemma ExampleCounts(wons: seq<nat>)
    requires wons == [4, 2, 2, 1, 0, 0]
    ensures CopyCount(wons, 0) == 1 && CopyCount(wons, 1) == 2 && CopyCount(wons, 2) == 4
    ensures CopyCount(wons, 3) == 8 && CopyCount(wons, 4) == 14 && CopyCount(wons, 5) == 1
  {
    assert Contrib(wons, 1, 1) == 1;
    assert Contrib(wons, 1, 2) == 1 && Contrib(wons, 2, 2) == 3;
    assert Contrib(wons, 1, 3) == 1 && Contrib(wons, 2, 3) == 3 && Contrib(wons, 3, 3) == 7;
    assert Contrib(wons, 1, 4) == 1 && Contrib(wons, 2, 4) == 1 && Contrib(wons, 3, 4) == 5 && Contrib(wons, 4, 4) == 13;
    assert Contrib(wons, 1, 5) == 0 && Contrib(wons, 2, 5) == 0 && Contrib(wons, 3, 5) == 0;
    assert Contrib(wons, 4, 5) == 0 && Contrib(wons, 5, 5) == 0;
  }

  /** The example ends with 30 cards. */
  lemma ExampleCopies(wons: seq<nat>)
    requires wons == [4, 2, 2, 1, 0, 0]
    ensures CopyTotal(wons, 6) == 30
  {
    ExampleCounts(wons);
    assert CopyTotal(wons, 1) == 1 && CopyTotal(wons, 2) == 3 && CopyTotal(wons, 3) == 7;
    assert CopyTotal(wons, 4) == 15 && CopyTotal(wons, 5) == 29;
  }
}
