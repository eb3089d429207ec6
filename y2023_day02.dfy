/** 2023 day 2: games of cubes drawn from a bag; which games are possible
    with 12 red, 13 green and 14 blue cubes, and the fewest cubes each game
    needs (src/year_2023/day02.rs). A line arrives already split: the pieces
    around ": ", the last word of the header, and every "count colour" item of every
    pull, itself split on spaces. */
module Year2023Day02 {
  import opened Wrappers
  import opened Numerals

  const MaxU32: nat := 0xffff_ffff

  datatype Colour = Red | Green | Blue

  datatype Fault = NoCountSplit | InvalidCount | UnexpectedColour | NoHeaderSplit | InvalidGameNumber

  /** The cubes of each colour in the bag. */
  function Limit(c: Colour): nat {
    match c
    case Red => 12
    case Green => 13
    case Blue => 14
  }

  /** One game line: how many pieces the split on ": " gave, the last word
      of the first piece (the game number), and the words of every cube count. */
  datatype Line = Line(parts: nat, game: string, items: seq<seq<string>>)

  /** The colour a word names, if any. */
  function ColourName(w: string): (c: Option<Colour>)
    ensures c == Some(Red) <==> w == "red"
    ensures c == Some(Green) <==> w == "green"
    ensures c == Some(Blue) <==> w == "blue"
  {
    if w == "red" then Some(Red)
    else if w == "green" then Some(Green)
    else if w == "blue" then Some(Blue)
    else None
  }

  /** One "count colour" item: exactly two words, a `u32` count and a known colour. */
  function ParseItem(cc: seq<string>): Result<(nat, Colour), Fault> {
    if |cc| != 2 then Err(NoCountSplit)
    else match ParseUnsigned(cc[0], MaxU32)
      case None => Err(InvalidCount)
      case Some(count) =>
        match ColourName(cc[1])
        case Some(c) => Ok((count, c))
        case None => Err(UnexpectedColour)
  }

  /** An item parses exactly when it has two words, the first a count that
      fits in 32 bits and the second a colour, and it gives that count and colour. */
  lemma ParseItemMeaning(cc: seq<string>)
    ensures ParseItem(cc).Ok? <==> |cc| == 2 && ParseUnsigned(cc[0], MaxU32).Some? && ColourName(cc[1]).Some?
    ensures ParseItem(cc).Ok? ==> ParseItem(cc).value == (ParseUnsigned(cc[0], MaxU32).value, ColourName(cc[1]).value)
  {
  }

  /** The word for a colour. */
  function ColourWord(c: Colour): string {
    match c
    case Red => "red"
    case Green => "green"
    case Blue => "blue"
  }

  /** Writing a 32-bit count and a colour out and parsing them back gives them. */
  lemma ItemRoundTrip(count: nat, c: Colour)
    requires count <= MaxU32
    ensures ParseItem([Decimal(count), ColourWord(c)]) == Ok((count, c))
  {
    UnsignedRoundTrip(count, MaxU32);
  }

  /** A parsed item: how many cubes, and of which colour. */
  type Draw = (nat, Colour)

  /** The items parsed in order, or the first item's error. */
  function ParseItems(items: seq<seq<string>>): (r: Result<seq<Draw>, Fault>)
    ensures r.Ok? ==> |r.value| == |items|
  {
    if items == [] then Ok([])
    else match ParseItems(items[..|items| - 1])
      case Err(e) => Err(e)
      case Ok(ds) =>
        match ParseItem(items[|items| - 1])
        case Err(e) => Err(e)
        case Ok(d) => Ok(ds + [d])
  }

  /** The items parse exactly when each of them does, and each parses to its draw. */
  lemma {:induction false} ParseItemsMeaning(items: seq<seq<string>>)
    ensures ParseItems(items).Ok? <==> forall k :: 0 <= k < |items| ==> ParseItem(items[k]).Ok?
    ensures ParseItems(items).Ok? ==> forall k :: 0 <= k < |items| ==> ParseItems(items).value[k] == ParseItem(items[k]).value
  {
    if items != [] {
      var n := |items| - 1;
      ParseItemsMeaning(items[..n]);
      assert forall k :: 0 <= k < n ==> items[..n][k] == items[k];
    }
  }

  /** The game could be played with the bag: no draw shows more cubes of a
      colour than the bag holds. */
  predicate Possible(draws: seq<Draw>) {
    forall k :: 0 <= k < |draws| ==> draws[k].0 <= Limit(draws[k].1)
  }

  /** The fewest cubes of colour `c` that make the game possible: every draw
      of `c` shows at most `m`, and `m` is 0 or shown by some draw. */
  predicate FewestOf(draws: seq<Draw>, c: Colour, m: nat) {
    (forall k :: 0 <= k < |draws| && draws[k].1 == c ==> draws[k].0 <= m)
    && (m == 0 || exists k :: 0 <= k < |draws| && draws[k] == (m, c))
  }

  /** What `main`'s inner loops know after a game's first draws: whether
      they are possible and the fewest cubes of each colour. */
  predicate Summary(draws: seq<Draw>, possible: bool, red: nat, green: nat, blue: nat) {
    possible == Possible(draws)
    && FewestOf(draws, Red, red) && FewestOf(draws, Green, green) && FewestOf(draws, Blue, blue)
  }

  /** The inner loops of `main` for one game: whether it is possible and the
      fewest cubes of each colour, or an error for the first malformed item. */
  method ScoreGame(items: seq<seq<string>>) returns (r: Result<(bool, nat, nat, nat), Fault>)
    ensures r.Err? <==> ParseItems(items).Err?
    ensures r.Err? ==> r.error == ParseItems(items).error
    ensures r.Ok? ==> var draws := ParseItems(items).value;
      r.value == (Possible(draws), Fewest(draws, Red), Fewest(draws, Green), Fewest(draws, Blue))
  {
    var possible := true;
    var minRed, minGreen, minBlue := 0, 0, 0;
    ghost var draws: seq<Draw> := [];
    for n := 0 to |items|
      invariant ParseItems(items[..n]) == Ok(draws)
      invariant Summary(draws, possible, minRed, minGreen, minBlue)
    {
      var item := ParseItem(items[n]);
      ParseItemsStep(items, n);
      if item.Err? {
        ParseItemsErrorSticks(items, n + 1);
        return Err(item.error);
      }
      ghost var d := item.value;
      possible, minRed, minGreen, minBlue := Tally(draws, item.value, possible, minRed, minGreen, minBlue);
      draws := draws + [d];
    }
    assert items[..|items|] == items;
    SummaryFewest(draws, possible, minRed, minGreen, minBlue);
    r := Ok((possible, minRed, minGreen, minBlue));
  }

  /** The body of `main`'s inner loop for one parsed item. */
  method Tally(ghost draws: seq<Draw>, d: Draw, possible: bool, red: nat, green: nat, blue: nat)
    returns (possible': bool, red': nat, green': nat, blue': nat)
    requires Summary(draws, possible, red, green, blue)
    ensures Summary(draws + [d], possible', red', green', blue')
  {
    var (count, colour) := d;
    SummaryStep(draws, d, possible, red, green, blue);
    possible', red', green', blue' := possible && count <= Limit(colour), red, green, blue;
    match colour {
      case Red =>
        if red < count {
          red' := count;
        }
      case Green =>
        if green < count {
          green' := count;
        }
      case Blue =>
        if blue < count {
          blue' := count;
        }
    }
  }

  /** One more draw updates the summary as `main`'s inner loop does. */
  lemma SummaryStep(draws: seq<Draw>, d: Draw, possible: bool, red: nat, green: nat, blue: nat)
    requires Summary(draws, possible, red, green, blue)
    ensures Summary(draws + [d], possible && d.0 <= Limit(d.1),
      if d.1 == Red && red < d.0 then d.0 else red,
      if d.1 == Green && green < d.0 then d.0 else green,
      if d.1 == Blue && blue < d.0 then d.0 else blue)
  {
    PossibleStep(draws, d);
    FewestStep(draws, d, Red);
    FewestStep(draws, d, Green);
    FewestStep(draws, d, Blue);
  }

  /** Parsing one more item extends the draws, or stops at its error. */
  lemma ParseItemsStep(items: seq<seq<string>>, n: nat)
    requires n < |items| && ParseItems(items[..n]).Ok?
    ensures ParseItem(items[n]).Ok? ==> ParseItems(items[..n + 1]) == Ok(ParseItems(items[..n]).value + [ParseItem(items[n]).value])
    ensures ParseItem(items[n]).Err? ==> ParseItems(items[..n + 1]) == Err(ParseItem(items[n]).error)
  {
    assert items[..n + 1][..n] == items[..n];
  }

  /** Once a prefix of the items fails to parse, so do all of them. */
  lemma {:induction false} ParseItemsErrorSticks(items: seq<seq<string>>, n: nat)
    requires n <= |items| && ParseItems(items[..n]).Err?
    ensures ParseItems(items) == ParseItems(items[..n])
    decreases |items| - n
  {
    if n < |items| {
      assert items[..n + 1][..n] == items[..n];
      ParseItemsErrorSticks(items, n + 1);
    } else {
      assert items[..n] == items;
    }
  }

  lemma PossibleStep(draws: seq<Draw>, d: Draw)
    ensures Possible(draws + [d]) == (Possible(draws) && d.0 <= Limit(d.1))
  {
    assert forall k :: 0 <= k < |draws| ==> (draws + [d])[k] == draws[k];
    assert (draws + [d])[|draws|] == d;
  }

  /** Seeing one more draw raises the fewest count of its colour to its
      count when that is larger, and keeps the others. */
  lemma FewestStep(draws: seq<Draw>, d: Draw, c: Colour)
    ensures forall m: nat :: FewestOf(draws, c, m) ==>
      FewestOf(draws + [d], c, if d.1 == c && m < d.0 then d.0 else m)
  {
    var seen := draws + [d];
    assert forall k :: 0 <= k < |draws| ==> seen[k] == draws[k];
    forall m: nat | FewestOf(draws, c, m) ensures FewestOf(seen, c, if d.1 == c && m < d.0 then d.0 else m) {
      if d.1 == c && m < d.0 {
        assert seen[|draws|] == (d.0, c);
      } else if m > 0 {
        var k :| 0 <= k < |draws| && draws[k] == (m, c);
        assert seen[k] == (m, c);
      }
    }
  }

  /** The power of a game: the product of the fewest cubes of each colour. */
  function Power(red: nat, green: nat, blue: nat): nat {
    red * green * blue
  }

  /** What one game line adds to `main`'s two sums: its number when the
      game is possible (else 0) and its power, or the line's error. */
  function GameScore(line: Line): Result<(nat, nat), Fault> {
    if line.parts != 2 then Err(NoHeaderSplit)
    else if ParseUnsigned(line.game, MaxU32).None? then Err(InvalidGameNumber)
    else match ParseItems(line.items)
      case Err(e) => Err(e)
      case Ok(draws) =>
        Ok(((if Possible(draws) then ParseUnsigned(line.game, MaxU32).value else 0),
            Power(Fewest(draws, Red), Fewest(draws, Green), Fewest(draws, Blue))))
  }

  /** Every line's score, in order. */
  function Scores(lines: seq<Line>): (scores: seq<Result<(nat, nat), Fault>>)
    ensures |scores| == |lines|
  {
    if lines == [] then [] else Scores(lines[..|lines| - 1]) + [GameScore(lines[|lines| - 1])]
  }

  lemma {:induction false} ScoresAt(lines: seq<Line>, n: nat)
    requires n < |lines|
    ensures Scores(lines)[n] == GameScore(lines[n])
  {
    if n < |lines| - 1 {
      ScoresAt(lines[..|lines| - 1], n);
    }
  }

  /** What `main` sums over the line scores: the numbers of the possible
      games and the powers of all games, or the first line's error. */
  function Totals(scores: seq<Result<(nat, nat), Fault>>): Result<(nat, nat), Fault> {
    if scores == [] then Ok((0, 0))
    else
      var rest := Totals(scores[..|scores| - 1]);
      if rest.Err? then rest
      else match scores[|scores| - 1]
        case Err(e) => Err(e)
        case Ok(g) => Ok((rest.value.0 + g.0, rest.value.1 + g.1))
  }

  /** The fewest cubes of colour `c` a game needs. */
  function Fewest(draws: seq<Draw>, c: Colour): nat {
    if draws == [] then 0
    else
      var n := |draws| - 1;
      var rest := Fewest(draws[..n], c);
      if draws[n].1 == c && rest < draws[n].0 then draws[n].0 else rest
  }

  /** `Fewest` is the number `FewestOf` describes. */
  lemma {:induction false} FewestMeaning(draws: seq<Draw>, c: Colour)
    ensures FewestOf(draws, c, Fewest(draws, c))
  {
    if draws != [] {
      var n := |draws| - 1;
      FewestMeaning(draws[..n], c);
      FewestStep(draws[..n], draws[n], c);
      assert draws[..n] + [draws[n]] == draws;
    }
  }

  /** `FewestOf` pins down one number. */
  lemma FewestUnique(draws: seq<Draw>, c: Colour, m: nat, m': nat)
    requires FewestOf(draws, c, m) && FewestOf(draws, c, m')
    ensures m == m'
  {
    if m' > 0 {
      var k :| 0 <= k < |draws| && draws[k] == (m', c);
      assert m' <= m;
    }
    if m > 0 {
      var k :| 0 <= k < |draws| && draws[k] == (m, c);
      assert m <= m';
    }
  }

  /** A game is possible exactly when the fewest cubes of every colour it
      needs fit in the bag. */
  lemma PossibleIffWithinLimits(draws: seq<Draw>)
    ensures Possible(draws) <==> forall c: Colour :: Fewest(draws, c) <= Limit(c)
  {
    FewestMeaning(draws, Red);
    FewestMeaning(draws, Green);
    FewestMeaning(draws, Blue);
    if Possible(draws) {
      forall c: Colour ensures Fewest(draws, c) <= Limit(c) {
        var m := Fewest(draws, c);
        if m > 0 {
          var k :| 0 <= k < |draws| && draws[k] == (m, c);
        }
      }
    }
  }

  /** A summary of the draws holds exactly the values `Possible` and `Fewest` give. */
  lemma SummaryFewest(draws: seq<Draw>, possible: bool, red: nat, green: nat, blue: nat)
    requires Summary(draws, possible, red, green, blue)
    ensures possible == Possible(draws)
    ensures red == Fewest(draws, Red) && green == Fewest(draws, Green) && blue == Fewest(draws, Blue)
  {
    FewestMeaning(draws, Red);
    FewestUnique(draws, Red, red, Fewest(draws, Red));
    FewestMeaning(draws, Green);
    FewestUnique(draws, Green, green, Fewest(draws, Green));
    FewestMeaning(draws, Blue);
    FewestUnique(draws, Blue, blue, Fewest(draws, Blue));
  }

  /** The body of `main`'s loop for one line. */
  method ScoreLine(line: Line) returns (r: Result<(nat, nat), Fault>)
    ensures r == GameScore(line)
  {
    if line.parts != 2 {
      return Err(NoHeaderSplit);
    }
    var number := ParseUnsigned(line.game, MaxU32);
    if number.None? {
      return Err(InvalidGameNumber);
    }
    var game := ScoreGame(line.items);
    if game.Err? {
      return Err(game.error);
    }
    var (possible, minRed, minGreen, minBlue) := game.value;
    r := Ok(((if possible then number.value else 0), Power(minRed, minGreen, minBlue)));
  }

  /** `main`'s loop over the game lines. */
  method SumGames(lines: seq<Line>) returns (r: Result<(nat, nat), Fault>)
    ensures r == Totals(Scores(lines))
  {
    ghost var scores := Scores(lines);
    var idSum, powerSum := 0, 0;
    for n := 0 to |lines|
      invariant Totals(scores[..n]) == Ok((idSum, powerSum))
    {
      var score := ScoreLine(lines[n]);
      ScoresAt(lines, n);
      if score.Err? {
        assert scores[..n + 1][..n] == scores[..n];
        TotalsErrorSticks(scores, n + 1);
        return score;
      }
      TotalsStep(scores, n, idSum, powerSum, score.value.0, score.value.1);
      idSum := idSum + score.value.0;
      powerSum := powerSum + score.value.1;
    }
    assert scores[..|scores|] == scores;
    r := Ok((idSum, powerSum));
  }

  /** A line that scores extends the totals of the lines before it. */
  lemma TotalsStep(scores: seq<Result<(nat, nat), Fault>>, n: nat, ids: nat, powers: nat, id: nat, power: nat)
    requires n < |scores| && Totals(scores[..n]) == Ok((ids, powers)) && scores[n] == Ok((id, power))
    ensures Totals(scores[..n + 1]) == Ok((ids + id, powers + power))
  {
    assert scores[..n + 1][..n] == scores[..n];
  }

  /** Once a prefix of the lines is an error, so are all the lines. */
  lemma {:induction false} TotalsErrorSticks(scores: seq<Result<(nat, nat), Fault>>, n: nat)
    requires n <= |scores| && Totals(scores[..n]).Err?
    ensures Totals(scores) == Totals(scores[..n])
    decreases |scores| - n
  {
    if n < |scores| {
      assert scores[..n + 1][..n] == scores[..n];
      TotalsErrorSticks(scores, n + 1);
    } else {
      assert scores[..n] == scores;
    }
  }

  /** The example's first game, 3 blue, 4 red; 1 red, 2 green, 6 blue;
      2 green: possible, and its power is 4 * 2 * 6 = 48. */
  lemma FirstExample(draws: seq<Draw>)
    requires draws == [(3, Blue), (4, Red), (1, Red), (2, Green), (6, Blue), (2, Green)]
    ensures Possible(draws)
    ensures Power(Fewest(draws, Red), Fewest(draws, Green), Fewest(draws, Blue)) == 48
  {
    assert draws[1] == (4, Red) && draws[3] == (2, Green) && draws[4] == (6, Blue);
    FewestMeaning(draws, Red);
    FewestUnique(draws, Red, Fewest(draws, Red), 4);
    FewestMeaning(draws, Green);
    FewestUnique(draws, Green, Fewest(draws, Green), 2);
    FewestMeaning(draws, Blue);
    FewestUnique(draws, Blue, Fewest(draws, Blue), 6);
  }
}
