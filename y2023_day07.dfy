/** 2023 day 7: Camel Cards. Hands of five cards are classified by their
    groups of equal cards, ordered by type and then card by card, and the
    winnings are each bid times its hand's rank; in the second half Jacks
    become Jokers that join the largest group (src/year_2023/day07.rs).
    Each hand line arrives already split into its hand text and its bid. */
module Year2023Day07 {
  import opened Wrappers

  /** The cards in ascending order; the derived ordering follows it. */
  datatype Card = Joker | Two | Three | Four | Five | Six | Seven | Eight | Nine
                | Ten | Jack | Queen | King | Ace

  /** The hand types in ascending order. */
  datatype HandType = HighCard | OnePair | TwoPair | ThreeOfAKind | FullHouse
                    | FourOfAKind | FiveOfAKind

  datatype Fault = UnexpectedCardChar(ch: char) | UnexpectedLength(length: nat)

  datatype Ordering = Less | Equal | Greater

  /** The card characters, from Two up to Ace. */
  const CardChars: string := "23456789TJQKA"

  /** Every card. */
  const AllCards: set<Card> :=
    {Joker, Two, Three, Four, Five, Six, Seven, Eight, Nine, Ten, Jack, Queen, King, Ace}

  /** A card's position in the declared order, Joker 0 up to Ace 13. */
  function Rank(c: Card): (r: nat)
    ensures r <= 13
  {
    match c
    case Joker => 0
    case Two => 1
    case Three => 2
    case Four => 3
    case Five => 4
    case Six => 5
    case Seven => 6
    case Eight => 7
    case Nine => 8
    case Ten => 9
    case Jack => 10
    case Queen => 11
    case King => 12
    case Ace => 13
  }

  /** The card of a given rank. */
  function CardOfRank(k: nat): (c: Card)
    requires k <= 13
    ensures Rank(c) == k
  {
    if k == 0 then Joker else if k == 1 then Two else if k == 2 then Three
    else if k == 3 then Four else if k == 4 then Five else if k == 5 then Six
    else if k == 6 then Seven else if k == 7 then Eight else if k == 8 then Nine
    else if k == 9 then Ten else if k == 10 then Jack else if k == 11 then Queen
    else if k == 12 then King else Ace
  }

  /** A card is the card of its rank, so different cards have different ranks. */
  lemma RankOfCard(c: Card)
    ensures CardOfRank(Rank(c)) == c
  {
  }

  /** The position of a hand type in the declared order. */
  function TypeRank(t: HandType): nat {
    match t
    case HighCard => 0
    case OnePair => 1
    case TwoPair => 2
    case ThreeOfAKind => 3
    case FullHouse => 4
    case FourOfAKind => 5
    case FiveOfAKind => 6
  }

  /** The derived comparison of two positions. */
  function CompareRanks(a: nat, b: nat): (r: Ordering)
    ensures r == Equal <==> a == b
    ensures r == Less <==> a < b
  {
    if a < b then Less else if a == b then Equal else Greater
  }

  /** The opposite outcome. */
  function Flip(o: Ordering): Ordering {
    match o
    case Less => Greater
    case Equal => Equal
    case Greater => Less
  }

  /** `Card::parse`: the thirteen card characters; never a Joker. */
  function ParseCard(ch: char): (r: Result<Card, Fault>)
    ensures r.Ok? ==> r.value != Joker
    ensures r.Err? ==> r.error == UnexpectedCardChar(ch)
  {
    match ch
    case '2' => Ok(Two)
    case '3' => Ok(Three)
    case '4' => Ok(Four)
    case '5' => Ok(Five)
    case '6' => Ok(Six)
    case '7' => Ok(Seven)
    case '8' => Ok(Eight)
    case '9' => Ok(Nine)
    case 'T' => Ok(Ten)
    case 'J' => Ok(Jack)
    case 'Q' => Ok(Queen)
    case 'K' => Ok(King)
    case 'A' => Ok(Ace)
    case _ => Err(UnexpectedCardChar(ch))
  }

  /** Exactly the thirteen card characters parse, each to the card at its
      place in `CardChars`. */
  lemma ParseCardMeaning(ch: char)
    ensures ParseCard(ch).Ok? <==> ch in CardChars
    ensures ParseCard(ch).Ok? ==> CardChars[Rank(ParseCard(ch).value) - 1] == ch
  {
    if ParseCard(ch).Ok? {
      var i := Rank(ParseCard(ch).value) - 1;
      assert CardChars[i] == ch;
    } else {
      assert forall i :: 0 <= i < 13 ==> CardChars[i] != ch;
    }
  }

  /** The character a card is written with; every card but the Joker has one. */
  function Symbol(c: Card): (ch: char)
    requires c != Joker
    ensures ParseCard(ch) == Ok(c)
  {
    CardChars[Rank(c) - 1]
  }

  /** `Card::to_alt`: the Jack becomes the Joker. */
  function ToAlt(c: Card): (r: Card)
    ensures r != Jack
    ensures r == c <==> c != Jack
    ensures Rank(r) <= Rank(c)
  {
    match c
    case Jack => Joker
    case _ => c
  }

  /** A hand holds exactly five cards, as the source's `[Card; 5]`. */
  type Cards = s: seq<Card> | |s| == 5 witness [Ace, Ace, Ace, Ace, Ace]

  datatype Hand = Hand(cards: Cards)

  /** The cards written by `s`, failing at the first character that is not
      a card. */
  function ParseCards(s: string): (r: Result<seq<Card>, Fault>)
    ensures r.Ok? ==> |r.value| == |s|
    ensures r.Ok? <==> forall k :: 0 <= k < |s| ==> ParseCard(s[k]).Ok?
    ensures r.Ok? ==> forall k :: 0 <= k < |s| ==> ParseCard(s[k]) == Ok(r.value[k])
    ensures r.Err? ==> exists k :: 0 <= k < |s| && ParseCard(s[k]) == Err(r.error)
                                   && forall j :: 0 <= j < k ==> ParseCard(s[j]).Ok?
  {
    if s == [] then Ok([])
    else
      var c :- ParseCard(s[0]);
      var rest :- ParseCards(s[1..]);
      assert forall k :: 1 <= k < |s| ==> s[k] == s[1..][k - 1];
      Ok([c] + rest)
  }

  /** Parsing stops at the first character that is not a card, with its error. */
  lemma {:induction false} FirstBadCard(s: string, i: nat)
    requires i < |s| && ParseCard(s[i]).Err?
    requires forall k :: 0 <= k < i ==> ParseCard(s[k]).Ok?
    ensures ParseCards(s) == Err(ParseCard(s[i]).error)
  {
    if i > 0 {
      assert forall k :: 0 <= k < i - 1 ==> s[1..][k] == s[k + 1];
      FirstBadCard(s[1..], i - 1);
    }
  }

  /** What `Hand::parse` returns for `s`. */
  function HandOf(s: string): Result<Hand, Fault> {
    if |s| != 5 then Err(UnexpectedLength(|s|))
    else
      var cards :- ParseCards(s);
      Ok(Hand(cards))
  }

  /** A hand parses exactly when it is five card characters, and then its
      cards are the ones those characters name. */
  lemma HandOfMeaning(s: string)
    ensures HandOf(s).Ok? <==> |s| == 5 && forall k :: 0 <= k < |s| ==> s[k] in CardChars
    ensures HandOf(s).Ok? ==> forall k :: 0 <= k < 5 ==> Symbol(HandOf(s).value.cards[k]) == s[k]
  {
    forall k | 0 <= k < |s| {
      ParseCardMeaning(s[k]);
    }
  }

  /** `Hand::parse`: exactly five characters, each a card, written into a
      five-slot buffer. */
  method ParseHand(s: string) returns (r: Result<Hand, Fault>)
    ensures r == HandOf(s)
  {
    var cards := new Card[5](_ => Ace);
    if |s| != 5 {
      return Err(UnexpectedLength(|s|));
    }
    for i := 0 to 5
      invariant forall k :: 0 <= k < i ==> ParseCard(s[k]) == Ok(cards[k])
    {
      var c := ParseCard(s[i]);
      if c.Err? {
        FirstBadCard(s, i);
        return Err(c.error);
      }
      cards[i] := c.value;
    }
    var parsed := ParseCards(s);
    assert parsed.Ok? && parsed.value == cards[..];
    r := Ok(Hand(cards[..]));
  }

  /** The hand with every Jack turned into a Joker. */
  function AltHand(hand: Hand): Hand {
    Hand(seq(5, k requires 0 <= k < 5 => ToAlt(hand.cards[k])))
  }

  /** `Hand::to_alt`: every Jack of a copy of the hand becomes a Joker. */
  method HandToAlt(hand: Hand) returns (r: Hand)
    ensures forall k :: 0 <= k < 5 ==> r.cards[k] == ToAlt(hand.cards[k])
    ensures r == AltHand(hand)
  {
    var cards := new Card[5](k requires 0 <= k < 5 => hand.cards[k]);
    for i := 0 to 5
      invariant forall k :: 0 <= k < i ==> cards[k] == ToAlt(hand.cards[k])
      invariant forall k :: i <= k < 5 ==> cards[k] == hand.cards[k]
    {
      cards[i] := ToAlt(cards[i]);
    }
    r := Hand(cards[..]);
  }

  /** How many of `cards` have rank `k`. */
  function CountRank(cards: seq<Card>, k: nat): (r: nat)
    ensures r <= |cards|
  {
    if cards == [] then 0
    else CountRank(cards[..|cards| - 1], k) + (if Rank(cards[|cards| - 1]) == k then 1 else 0)
  }

  /** Over the ranks `1 ..= n` (cards other than the Joker): how many of them
      appear in `cards`. */
  function Groups(cards: seq<Card>, n: nat): nat {
    if n == 0 then 0 else Groups(cards, n - 1) + (if CountRank(cards, n) > 0 then 1 else 0)
  }

  /** Over the ranks `1 ..= n`: the largest number of cards of one rank, 0 if none. */
  function Largest(cards: seq<Card>, n: nat): nat {
    if n == 0 then 0
    else if CountRank(cards, n) > Largest(cards, n - 1) then CountRank(cards, n)
    else Largest(cards, n - 1)
  }

  /** Over the ranks `1 ..= n`: how many cards have one of them. */
  function Covered(cards: seq<Card>, n: nat): nat {
    if n == 0 then 0 else Covered(cards, n - 1) + CountRank(cards, n)
  }

  /** One more group of `x` cards keeps the covered cards within the groups
      times the largest group. */
  lemma CoverStep(g: nat, l: nat, c: nat, x: nat)
    requires c <= g * l
    ensures c + x <= (g + 1) * (if x > l then x else l)
  {
    var top := if x > l then x else l;
    assert g * l <= g * top;
    assert (g + 1) * top == g * top + top;
  }

  /** The counting facts that pin down a hand's groups: each group holds at
      least one card and at most the largest group's size. */
  lemma {:induction false} GroupFacts(cards: seq<Card>, n: nat)
    ensures Groups(cards, n) <= Covered(cards, n)
    ensures Covered(cards, n) <= Groups(cards, n) * Largest(cards, n)
    ensures Groups(cards, n) > 0 ==> Largest(cards, n) + Groups(cards, n) <= Covered(cards, n) + 1
    ensures Groups(cards, n) == 0 ==> Largest(cards, n) == 0 && Covered(cards, n) == 0
  {
    if n > 0 {
      GroupFacts(cards, n - 1);
      var x := CountRank(cards, n);
      if x > 0 {
        CoverStep(Groups(cards, n - 1), Largest(cards, n - 1), Covered(cards, n - 1), x);
      }
    }
  }

  /** No rank's count exceeds the largest. */
  lemma {:induction false} LargestBound(cards: seq<Card>, n: nat, k: nat)
    requires 1 <= k <= n
    ensures CountRank(cards, k) <= Largest(cards, n)
  {
    if k < n {
      LargestBound(cards, n - 1, k);
    }
  }

  /** A positive largest count is some rank's count. */
  lemma {:induction false} LargestAttained(cards: seq<Card>, n: nat) returns (k: nat)
    requires Largest(cards, n) > 0
    ensures 1 <= k <= n && CountRank(cards, k) == Largest(cards, n)
  {
    if CountRank(cards, n) > Largest(cards, n - 1) {
      k := n;
    } else {
      k := LargestAttained(cards, n - 1);
    }
  }

  /** One more card adds one to the covered count exactly when its rank is
      among `1 ..= n`. */
  lemma {:induction false} CoveredStep(cards: seq<Card>, x: Card, n: nat)
    ensures Covered(cards + [x], n) == Covered(cards, n) + (if 1 <= Rank(x) <= n then 1 else 0)
  {
    if n > 0 {
      CoveredStep(cards, x, n - 1);
      assert (cards + [x])[..|cards + [x]| - 1] == cards;
    }
  }

  /** No cards cover no ranks. */
  lemma {:induction false} CoveredNone(n: nat)
    ensures Covered([], n) == 0
  {
    if n > 0 {
      CoveredNone(n - 1);
    }
  }

  /** Every card is either a Joker or has one of the ranks `1 ..= 13`. */
  lemma {:induction false} CoveredAll(cards: seq<Card>)
    ensures Covered(cards, 13) + CountRank(cards, 0) == |cards|
  {
    if cards != [] {
      var prefix, x := cards[..|cards| - 1], cards[|cards| - 1];
      CoveredAll(prefix);
      assert prefix + [x] == cards;
      CoveredStep(prefix, x, 13);
    } else {
      CoveredNone(13);
    }
  }

  /** The `match` of `hand_type` on the number of groups other than Jokers and
      the Jokers plus the largest group; `None` is its panic arm. */
  function Classify(groups: nat, top: nat): Option<HandType> {
    if groups == 0 && top == 5 then Some(FiveOfAKind)
    else if groups == 1 && top == 5 then Some(FiveOfAKind)
    else if groups == 2 && top == 4 then Some(FourOfAKind)
    else if groups == 2 && top == 3 then Some(FullHouse)
    else if groups == 3 && top == 3 then Some(ThreeOfAKind)
    else if groups == 3 && top == 2 then Some(TwoPair)
    else if groups == 4 && top == 2 then Some(OnePair)
    else if groups == 5 && top == 1 then Some(HighCard)
    else None
  }

  /** Every five-card hand reaches one of the classified arms: the panic arm
      of `hand_type` is unreachable. */
  lemma ClassifyTotal(cards: seq<Card>)
    requires |cards| == 5
    ensures Classify(Groups(cards, 13), CountRank(cards, 0) + Largest(cards, 13)).Some?
  {
    GroupFacts(cards, 13);
    CoveredAll(cards);
    var g, l, c, j := Groups(cards, 13), Largest(cards, 13), Covered(cards, 13), CountRank(cards, 0);
    assert c + j == 5 && g <= c;
    if g == 0 {
      assert (g, j + l) == (0, 5);
    } else if g == 1 {
      assert (g, j + l) == (1, 5);
    } else if g == 2 {
      assert 2 * l >= c;
      assert (g, j + l) == (2, 4) || (g, j + l) == (2, 3);
    } else if g == 3 {
      assert 3 * l >= c;
      assert (g, j + l) == (3, 3) || (g, j + l) == (3, 2);
    } else if g == 4 {
      assert 4 * l >= c;
      assert (g, j + l) == (4, 2);
    } else {
      assert (g, j + l) == (5, 1);
    }
  }

  /** The type of a five-card hand. */
  function Kind(cards: Cards): (t: HandType)
    ensures Classify(Groups(cards, 13), CountRank(cards, 0) + Largest(cards, 13)) == Some(t)
  {
    ClassifyTotal(cards);
    Classify(Groups(cards, 13), CountRank(cards, 0) + Largest(cards, 13)).value
  }

  /** Five Jokers are five of a kind. */
  lemma FiveJokers(cards: Cards)
    requires forall k :: 0 <= k < 5 ==> cards[k] == Joker
    ensures Kind(cards) == FiveOfAKind
  {
    AllOfRank(cards, 0);
    CoveredAll(cards);
    GroupFacts(cards, 13);
  }

  /** When every card has rank `k`, all of them are counted for `k`. */
  lemma {:induction false} AllOfRank(cards: seq<Card>, k: nat)
    requires forall i :: 0 <= i < |cards| ==> Rank(cards[i]) == k
    ensures CountRank(cards, k) == |cards|
  {
    if cards != [] {
      AllOfRank(cards[..|cards| - 1], k);
    }
  }

  /** The `counts` map `hand_type` builds: each card present with how often
      it occurs. */
  function Tally(cards: seq<Card>): map<Card, nat> {
    if cards == [] then map[]
    else
      var m := Tally(cards[..|cards| - 1]);
      var x := cards[|cards| - 1];
      m[x := (if x in m then m[x] else 0) + 1]
  }

  /** The tally holds exactly the cards that occur, each with its count. */
  lemma {:induction false} TallyAt(cards: seq<Card>, c: Card)
    ensures c in Tally(cards) <==> CountRank(cards, Rank(c)) > 0
    ensures c in Tally(cards) ==> Tally(cards)[c] == CountRank(cards, Rank(c))
  {
    if cards != [] {
      var x := cards[|cards| - 1];
      TallyAt(cards[..|cards| - 1], c);
      RankOfCard(c);
      RankOfCard(x);
    }
  }

  /** The cards of the ranks `1 ..= n` that occur in `cards`. */
  function PresentUpTo(cards: seq<Card>, n: nat): set<Card>
    requires n <= 13
  {
    set k | 1 <= k <= n && CountRank(cards, k) > 0 :: CardOfRank(k)
  }

  /** The cards present among the ranks `1 ..= n` are as many as the groups. */
  lemma {:induction false} PresentCount(cards: seq<Card>, n: nat)
    requires n <= 13
    ensures |PresentUpTo(cards, n)| == Groups(cards, n)
  {
    if n == 0 {
      assert PresentUpTo(cards, n) == {};
    } else {
      PresentCount(cards, n - 1);
      var c := CardOfRank(n);
      assert c !in PresentUpTo(cards, n - 1);
      if CountRank(cards, n) > 0 {
        assert PresentUpTo(cards, n) == PresentUpTo(cards, n - 1) + {c};
      } else {
        assert PresentUpTo(cards, n) == PresentUpTo(cards, n - 1);
      }
    }
  }

  /** Without its Joker entry, the tally has one entry per group. */
  lemma TallyGroups(cards: seq<Card>)
    ensures |Tally(cards) - {Joker}| == Groups(cards, 13)
  {
    var m := Tally(cards) - {Joker};
    forall c | c in m
      ensures c in PresentUpTo(cards, 13)
    {
      TallyAt(cards, c);
      RankOfCard(c);
    }
    forall c | c in PresentUpTo(cards, 13)
      ensures c in m
    {
      var k :| 1 <= k <= 13 && CountRank(cards, k) > 0 && c == CardOfRank(k);
      TallyAt(cards, c);
    }
    assert m.Keys == PresentUpTo(cards, 13);
    PresentCount(cards, 13);
  }

  /** The largest entry of the tally without its Joker entry, 0 when there is
      none, is the largest group. */
  lemma TallyLargest(cards: seq<Card>, m: map<Card, nat>, top: nat)
    requires m == Tally(cards) - {Joker}
    requires forall c :: c in m ==> m[c] <= top
    requires top == 0 || exists c :: c in m && m[c] == top
    ensures top == Largest(cards, 13)
  {
    if top > 0 {
      var c :| c in m && m[c] == top;
      TallyAt(cards, c);
      RankOfCard(c);
      LargestBound(cards, 13, Rank(c));
    }
    if Largest(cards, 13) > 0 {
      var k := LargestAttained(cards, 13);
      var c := CardOfRank(k);
      TallyAt(cards, c);
      assert c in m && m[c] == Largest(cards, 13);
    }
  }

  /** `counts.values().max().unwrap_or(0)`: the largest count, 0 for none. */
  method LargestValue(counts: map<Card, nat>) returns (top: nat)
    ensures forall c :: c in counts ==> counts[c] <= top
    ensures top == 0 || exists c :: c in counts && counts[c] == top
  {
    top := 0;
    var rest := counts.Keys;
    while rest != {}
      invariant rest <= counts.Keys
      invariant forall c :: c in counts && c !in rest ==> counts[c] <= top
      invariant top == 0 || exists c :: c in counts && counts[c] == top
      decreases |rest|
    {
      var c :| c in rest;
      if counts[c] > top {
        top := counts[c];
      }
      rest := rest - {c};
    }
  }

  /** `Kind` is the classification of the hand's groups and Jokers. */
  lemma KindClassifies(cards: Cards)
    ensures Classify(Groups(cards, 13), CountRank(cards, 0) + Largest(cards, 13)) == Some(Kind(cards))
  {
  }

  /** What `hand_type` computes from its tally classifies the hand as `Kind`. */
  lemma TallyClassify(cards: Cards, m: map<Card, nat>, jokers: nat, top: nat)
    requires m == Tally(cards) - {Joker}
    requires jokers == CountRank(cards, 0)
    requires forall c :: c in m ==> m[c] <= top
    requires top == 0 || exists c :: c in m && m[c] == top
    ensures Classify(|m|, jokers + top) == Some(Kind(cards))
  {
    assert |m| == Groups(cards, 13) by {
      TallyGroups(cards);
    }
    assert top == Largest(cards, 13) by {
      TallyLargest(cards, m, top);
    }
    KindClassifies(cards);
  }

  /** The counting loop of `hand_type`: one entry per card, incremented for
      each occurrence. */
  method TallyCards(cards: Cards) returns (counts: map<Card, nat>)
    ensures counts == Tally(cards)
  {
    counts := map[];
    for i := 0 to 5
      invariant counts == Tally(cards[..i])
    {
      var card := cards[i];
      assert cards[..i + 1][..i] == cards[..i];
      counts := counts[card := (if card in counts then counts[card] else 0) + 1];
    }
    assert cards[..5] == cards;
  }

  /** `Hand::hand_type`: tally the cards, take the Jokers out, and classify
      by the number of other groups and the Jokers plus the largest group. */
  method HandTypeOf(hand: Hand) returns (t: HandType)
    ensures t == Kind(hand.cards)
  {
    var counts := TallyCards(hand.cards);
    var jokers := if Joker in counts then counts[Joker] else 0;
    TallyAt(hand.cards, Joker);
    counts := counts - {Joker};
    var top := LargestValue(counts);
    var groups, most := |counts|, jokers + top;
    TallyClassify(hand.cards, counts, jokers, top);
    match (groups, most)
    case (0, 5) => t := FiveOfAKind;
    case (1, 5) => t := FiveOfAKind;
    case (2, 4) => t := FourOfAKind;
    case (2, 3) => t := FullHouse;
    case (3, 3) => t := ThreeOfAKind;
    case (3, 2) => t := TwoPair;
    case (4, 2) => t := OnePair;
    case (5, 1) => t := HighCard;
    case _ => assert false;
  }

  /** Card by card from the first: the first pair that differs decides. */
  function CompareCards(xs: seq<Card>, ys: seq<Card>): Ordering
    requires |xs| == |ys|
  {
    if xs == [] then Equal
    else if xs[0] != ys[0] then CompareRanks(Rank(xs[0]), Rank(ys[0]))
    else CompareCards(xs[1..], ys[1..])
  }

  /** `Ord for Hand`: by hand type first, then card by card. */
  function Compare(a: Hand, b: Hand): Ordering {
    var byType := CompareRanks(TypeRank(Kind(a.cards)), TypeRank(Kind(b.cards)));
    if byType != Equal then byType else CompareCards(a.cards, b.cards)
  }

  /** Comparing card by card the other way round gives the opposite outcome;
      the outcome is `Equal` only for equal cards. */
  lemma {:induction false} CompareCardsFlip(xs: seq<Card>, ys: seq<Card>)
    requires |xs| == |ys|
    ensures CompareCards(ys, xs) == Flip(CompareCards(xs, ys))
    ensures CompareCards(xs, ys) == Equal <==> xs == ys
  {
    if xs != [] {
      CompareCardsFlip(xs[1..], ys[1..]);
      if xs[0] != ys[0] {
        RankOfCard(xs[0]);
        RankOfCard(ys[0]);
      } else if xs[1..] == ys[1..] {
        assert xs == [xs[0]] + xs[1..] && ys == [ys[0]] + ys[1..];
      }
    }
  }

  /** Card by card, "less than" is transitive. */
  lemma {:induction false} CompareCardsTransitive(xs: seq<Card>, ys: seq<Card>, zs: seq<Card>)
    requires |xs| == |ys| == |zs|
    requires CompareCards(xs, ys) == Less && CompareCards(ys, zs) == Less
    ensures CompareCards(xs, zs) == Less
  {
    if xs[0] == ys[0] && ys[0] == zs[0] {
      CompareCardsTransitive(xs[1..], ys[1..], zs[1..]);
    } else {
      RankOfCard(xs[0]);
      RankOfCard(ys[0]);
      RankOfCard(zs[0]);
    }
  }

  /** Comparing two hands the other way round gives the opposite outcome, and
      only a hand equals itself. */
  lemma CompareFlip(a: Hand, b: Hand)
    ensures Compare(b, a) == Flip(Compare(a, b))
    ensures Compare(a, b) == Equal <==> a == b
  {
    CompareCardsFlip(a.cards, b.cards);
  }

  /** "Less than" between hands is transitive. */
  lemma CompareTransitive(a: Hand, b: Hand, c: Hand)
    requires Compare(a, b) == Less && Compare(b, c) == Less
    ensures Compare(a, c) == Less
  {
    if Kind(a.cards) == Kind(b.cards) == Kind(c.cards) {
      CompareCardsTransitive(a.cards, b.cards, c.cards);
    }
  }

  /** `cmp` of `Ord for Hand`: the hand types, and when they tie the loop over
      the five cards that stops at the first difference. */
  method CompareHands(a: Hand, b: Hand) returns (ord: Ordering)
    ensures ord == Compare(a, b)
  {
    var ta := HandTypeOf(a);
    var tb := HandTypeOf(b);
    ord := CompareRanks(TypeRank(ta), TypeRank(tb));
    if ord != Equal {
      return;
    }
    var i := 0;
    while i < 5
      invariant 0 <= i <= 5
      invariant ord == Equal
      invariant CompareCards(a.cards, b.cards) == CompareCards(a.cards[i..], b.cards[i..])
    {
      ord := CompareRanks(Rank(a.cards[i]), Rank(b.cards[i]));
      if ord != Equal {
        RankOfCard(a.cards[i]);
        return;
      }
      RankOfCard(a.cards[i]);
      RankOfCard(b.cards[i]);
      assert a.cards[i..][1..] == a.cards[i + 1..] && b.cards[i..][1..] == b.cards[i + 1..];
      i := i + 1;
    }
  }

  /** A hand with its bid. */
  type Entry = (Hand, nat)

  /** Each hand sorts no later than every hand after it. */
  predicate SortedByHand(s: seq<Entry>) {
    forall i, j :: 0 <= i < j < |s| ==> Compare(s[i].0, s[j].0) != Greater
  }

  /** Inserts `x` after every entry that does not sort after it. */
  function Insert(s: seq<Entry>, x: Entry): seq<Entry> {
    if s == [] then [x]
    else if Compare(s[|s| - 1].0, x.0) == Greater then Insert(s[..|s| - 1], x) + [s[|s| - 1]]
    else s + [x]
  }

  /** `sort_by_key` on the hands: a stable sort, here by insertion. */
  function SortByHand(s: seq<Entry>): seq<Entry> {
    if s == [] then [] else Insert(SortByHand(s[..|s| - 1]), s[|s| - 1])
  }

  /** Insertion adds exactly `x`. */
  lemma {:induction false} InsertAdds(s: seq<Entry>, x: Entry)
    ensures multiset(Insert(s, x)) == multiset(s) + multiset{x}
  {
    if s != [] {
      var init, last := s[..|s| - 1], s[|s| - 1];
      assert s == init + [last];
      if Compare(last.0, x.0) == Greater {
        InsertAdds(init, x);
      }
    }
  }

  /** An entry that sorts no earlier than all of a sorted sequence extends it. */
  lemma SortedAppend(s: seq<Entry>, x: Entry)
    requires SortedByHand(s)
    requires forall i :: 0 <= i < |s| ==> Compare(s[i].0, x.0) != Greater
    ensures SortedByHand(s + [x])
  {
  }

  /** What sorts no later than `y` before an insertion still does after it. */
  lemma InsertBelow(s: seq<Entry>, x: Entry, y: Entry)
    requires forall i :: 0 <= i < |s| ==> Compare(s[i].0, y.0) != Greater
    requires Compare(x.0, y.0) != Greater
    ensures forall i :: 0 <= i < |Insert(s, x)| ==> Compare(Insert(s, x)[i].0, y.0) != Greater
  {
    var r := Insert(s, x);
    InsertAdds(s, x);
    forall i | 0 <= i < |r|
      ensures Compare(r[i].0, y.0) != Greater
    {
      assert r[i] in multiset(r);
      if r[i] != x {
        assert r[i] in multiset(s);
        var j :| 0 <= j < |s| && s[j] == r[i];
      }
    }
  }

  /** Insertion into a sorted sequence keeps it sorted. */
  lemma {:induction false} InsertSorted(s: seq<Entry>, x: Entry)
    requires SortedByHand(s)
    ensures SortedByHand(Insert(s, x))
  {
    if s != [] {
      var init, last := s[..|s| - 1], s[|s| - 1];
      if Compare(last.0, x.0) == Greater {
        InsertSorted(init, x);
        CompareFlip(last.0, x.0);
        assert forall i :: 0 <= i < |init| ==> init[i] == s[i];
        InsertBelow(init, x, last);
        SortedAppend(Insert(init, x), last);
      } else {
        forall i | 0 <= i < |s|
          ensures Compare(s[i].0, x.0) != Greater
        {
          if i < |s| - 1 {
            NotAfterTransitive(s[i].0, last.0, x.0);
          }
        }
        SortedAppend(s, x);
      }
    }
  }

  /** "Not after" between hands is transitive. */
  lemma NotAfterTransitive(a: Hand, b: Hand, c: Hand)
    requires Compare(a, b) != Greater && Compare(b, c) != Greater
    ensures Compare(a, c) != Greater
  {
    CompareFlip(a, b);
    CompareFlip(b, c);
    CompareFlip(a, c);
    if Compare(a, b) == Less && Compare(b, c) == Less {
      CompareTransitive(a, b, c);
    }
  }

  /** The sorted hands are in order. */
  lemma {:induction false} SortByHandSorted(s: seq<Entry>)
    ensures SortedByHand(SortByHand(s))
  {
    if s != [] {
      SortByHandSorted(s[..|s| - 1]);
      InsertSorted(SortByHand(s[..|s| - 1]), s[|s| - 1]);
    }
  }

  /** The sorted hands are the same hands with the same bids. */
  lemma {:induction false} SortByHandPermutes(s: seq<Entry>)
    ensures multiset(SortByHand(s)) == multiset(s)
  {
    if s != [] {
      var init, last := s[..|s| - 1], s[|s| - 1];
      SortByHandPermutes(init);
      InsertAdds(SortByHand(init), last);
      assert s == init + [last];
    }
  }

  /** The winnings: each bid times its position from 1 in the order given. */
  function Winnings(s: seq<Entry>): nat {
    if s == [] then 0 else Winnings(s[..|s| - 1]) + |s| * s[|s| - 1].1
  }

  /** The two totals of the puzzle: the hands sorted as dealt, and sorted
      again once every Jack is a Joker. */
  method TotalWinnings(hands: seq<Entry>) returns (first: nat, second: nat)
    ensures first == Winnings(SortByHand(hands))
    ensures second == Winnings(SortByHand(seq(|hands|, i requires 0 <= i < |hands| => (AltHand(hands[i].0), hands[i].1))))
  {
    first := Winnings(SortByHand(hands));
    var alt: seq<Entry> := [];
    for i := 0 to |hands|
      invariant alt == seq(i, k requires 0 <= k < i => (AltHand(hands[k].0), hands[k].1))
    {
      var hand := HandToAlt(hands[i].0);
      alt := alt + [(hand, hands[i].1)];
    }
    second := Winnings(SortByHand(alt));
  }
}
