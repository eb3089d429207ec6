/** Bots that compare microchips and hand them on (src/year_2016/day10.rs).
    A bot's value is worked out on demand: asking a bot for its chips asks
    the bots feeding it, and every answer is written back as a literal so it
    is never worked out twice. */
module Year2016Day10 {
  import opened Wrappers

  /** Where a chip comes from: a literal value, or the high or low chip of
      the bot with the given index. */
  datatype Source = Literal(value: nat) | BotHigh(bot: nat) | BotLow(bot: nat)

  datatype Target = ToOutput | ToBot

  datatype Bot = Bot(inputA: Option<Source>, inputB: Option<Source>,
                     outputHigh: Option<Target>, outputLow: Option<Target>)

  datatype Output = Output(source: Option<Source>)

  /** "Too many sources!", "Too many outputs!", "No input_a available",
      "No input_b available" and "No source found for Output"; `OutOfFuel`
      stands for a chain of requests that does not end. */
  datatype Failure = TooManySources | TooManyOutputs | NoInputA | NoInputB | NoOutputSource | OutOfFuel

  /** `Bot::default()`. */
  const EmptyBot := Bot(None, None, None, None)

  // ----- wiring -----

  /** The sources a bot has been given, in order. */
  function Sources(b: Bot): seq<Source> {
    (if b.inputA.Some? then [b.inputA.value] else []) + (if b.inputB.Some? then [b.inputB.value] else [])
  }

  /** Inputs are filled in order: never a second input without a first. */
  predicate FilledInOrder(b: Bot) {
    b.inputA.None? ==> b.inputB.None?
  }

  /** `add_source`: the first free input takes the source; with both taken
      it is an error. Filling in order, it appends to the bot's sources. */
  function AddSource(b: Bot, source: Source): (r: Result<Bot, Failure>)
    ensures r.Err? <==> |Sources(b)| == 2
    ensures r.Err? ==> r.error == TooManySources
    ensures r.Ok? ==> r.value.outputHigh == b.outputHigh && r.value.outputLow == b.outputLow
    ensures r.Ok? && FilledInOrder(b) ==> FilledInOrder(r.value) && Sources(r.value) == Sources(b) + [source]
  {
    if b.inputA.None? then Ok(b.(inputA := Some(source)))
    else if b.inputB.None? then Ok(b.(inputB := Some(source)))
    else Err(TooManySources)
  }

  /** Starting from a fresh bot, two sources are taken in order and a third
      is refused. */
  lemma TwoSources(s1: Source, s2: Source, s3: Source)
    ensures var b1 := AddSource(EmptyBot, s1);
      b1.Ok? && var b2 := AddSource(b1.value, s2);
      b2.Ok? && Sources(b2.value) == [s1, s2] && AddSource(b2.value, s3) == Err(TooManySources)
  {
  }

  /** `add_output`: only a bot with neither output set takes its outputs. */
  function AddOutput(b: Bot, low: Target, high: Target): (r: Result<Bot, Failure>)
    ensures r.Err? <==> b.outputLow.Some? || b.outputHigh.Some?
    ensures r.Err? ==> r.error == TooManyOutputs
    ensures r.Ok? ==> r.value.outputLow == Some(low) && r.value.outputHigh == Some(high)
    ensures r.Ok? ==> r.value.inputA == b.inputA && r.value.inputB == b.inputB
  {
    if b.outputLow.None? && b.outputHigh.None? then
      Ok(b.(outputLow := Some(low), outputHigh := Some(high)))
    else Err(TooManyOutputs)
  }

  /** A bot's outputs can be set only once. */
  lemma OutputsOnce(b: Bot, low: Target, high: Target, low2: Target, high2: Target)
    requires AddOutput(b, low, high).Ok?
    ensures AddOutput(AddOutput(b, low, high).value, low2, high2) == Err(TooManyOutputs)
  {
  }

  /** `Output::add_source`: an output takes a single source. */
  function OutputAddSource(o: Output, source: Source): (r: Result<Output, Failure>)
    ensures r.Err? <==> o.source.Some?
    ensures r.Err? ==> r.error == TooManySources
    ensures r.Ok? ==> r.value.source == Some(source)
  {
    if o.source.None? then Ok(Output(Some(source))) else Err(TooManySources)
  }

  // ----- evaluation -----

  /** Every bot index a source names is in range (otherwise Rust panics). */
  predicate SourceIn(s: Option<Source>, n: nat) {
    s.None? || s.value.Literal? || s.value.bot < n
  }

  predicate BotIn(b: Bot, n: nat) {
    SourceIn(b.inputA, n) && SourceIn(b.inputB, n)
  }

  predicate Wired(bots: seq<Bot>) {
    forall i :: 0 <= i < |bots| ==> BotIn(bots[i], |bots|)
  }

  /** A source that has been replaced by its value. */
  predicate Resolved(s: Option<Source>) {
    s.Some? && s.value.Literal?
  }

  /** A chip value and the bots after working it out. */
  datatype Fetched = Fetched(value: nat, bots: seq<Bot>)

  /** The answer of `get_values`: the two chips in order, the bot asked
      (with its inputs now literal) and the other bots. */
  datatype Reading = Reading(low: nat, high: nat, self: Bot, bots: seq<Bot>)

  /** One arm of the `match` on an input: a literal is its value; a bot
      source asks a copy of that bot for its chips and writes the copy back. */
  function Fetch(s: Option<Source>, bots: seq<Bot>, fuel: nat, missing: Failure): (r: Result<Fetched, Failure>)
    requires Wired(bots) && SourceIn(s, |bots|)
    ensures s.None? ==> r == Err(missing)
    ensures r.Ok? ==> |r.value.bots| == |bots| && Wired(r.value.bots)
    decreases fuel, 1
  {
    if s.None? then Err(missing)
    else
      match s.value
      case Literal(x) => Ok(Fetched(x, bots))
      case BotHigh(i) =>
        var v := Values(bots[i], bots, fuel);
        if v.Err? then Err(v.error) else Ok(Fetched(v.value.high, v.value.bots[i := v.value.self]))
      case BotLow(i) =>
        var v := Values(bots[i], bots, fuel);
        if v.Err? then Err(v.error) else Ok(Fetched(v.value.low, v.value.bots[i := v.value.self]))
  }

  /** `get_values`: fetch input A and make it literal, then input B, and
      answer the two in ascending order. */
  function Values(self: Bot, bots: seq<Bot>, fuel: nat): (r: Result<Reading, Failure>)
    requires Wired(bots) && BotIn(self, |bots|)
    ensures r.Ok? ==> r.value.low <= r.value.high
    ensures r.Ok? ==> |r.value.bots| == |bots| && Wired(r.value.bots)
    ensures r.Ok? ==> Resolved(r.value.self.inputA) && Resolved(r.value.self.inputB)
    ensures r.Ok? ==> multiset{r.value.low, r.value.high}
                      == multiset{r.value.self.inputA.value.value, r.value.self.inputB.value.value}
    ensures r.Ok? ==> r.value.self.outputLow == self.outputLow && r.value.self.outputHigh == self.outputHigh
    ensures self.inputA.None? && fuel > 0 ==> r == Err(NoInputA)
    decreases fuel, 0
  {
    if fuel == 0 then Err(OutOfFuel)
    else
      var a := Fetch(self.inputA, bots, fuel - 1, NoInputA);
      if a.Err? then Err(a.error)
      else
        var withA := self.(inputA := Some(Literal(a.value.value)));
        var b := Fetch(withA.inputB, a.value.bots, fuel - 1, NoInputB);
        if b.Err? then Err(b.error)
        else
          var withB := withA.(inputB := Some(Literal(b.value.value)));
          if a.value.value < b.value.value then Ok(Reading(a.value.value, b.value.value, withB, b.value.bots))
          else Ok(Reading(b.value.value, a.value.value, withB, b.value.bots))
  }

  function Min(x: nat, y: nat): nat {
    if x < y then x else y
  }

  function Max(x: nat, y: nat): nat {
    if x < y then y else x
  }

  /** A bot whose inputs are both literal answers at once, changing
      nothing. */
  lemma LiteralValues(self: Bot, bots: seq<Bot>, fuel: nat)
    requires Wired(bots) && Resolved(self.inputA) && Resolved(self.inputB) && fuel > 0
    ensures var x, y := self.inputA.value.value, self.inputB.value.value;
      Values(self, bots, fuel) == Ok(Reading(Min(x, y), Max(x, y), self, bots))
  {
  }

  /** Asking a bot a second time, as it was left by the first answer, gives
      the same chips and changes nothing: the answer is memoised. */
  lemma ValuesMemoised(self: Bot, bots: seq<Bot>, fuel: nat, fuel2: nat)
    requires Wired(bots) && BotIn(self, |bots|) && Values(self, bots, fuel).Ok? && fuel2 > 0
    ensures var v := Values(self, bots, fuel).value;
      Values(v.self, v.bots, fuel2) == Ok(v)
  {
    var v := Values(self, bots, fuel).value;
    LiteralValues(v.self, v.bots, fuel2);
  }

  /** What `Output::get_value` answers, with the output and the bots after. */
  datatype Emitted = Emitted(value: nat, output: Output, bots: seq<Bot>)

  /** `Output::get_value`: fetch the source and make it literal. */
  function OutputValue(o: Output, bots: seq<Bot>, fuel: nat): (r: Result<Emitted, Failure>)
    requires Wired(bots) && SourceIn(o.source, |bots|)
    ensures o.source.None? ==> r == Err(NoOutputSource)
    ensures r.Ok? ==> r.value.output.source == Some(Literal(r.value.value))
    ensures r.Ok? ==> |r.value.bots| == |bots| && Wired(r.value.bots)
  {
    var f := Fetch(o.source, bots, fuel, NoOutputSource);
    if f.Err? then Err(f.error)
    else Ok(Emitted(f.value.value, Output(Some(Literal(f.value.value))), f.value.bots))
  }

  /** An output asked again answers the same value and changes nothing. */
  lemma OutputMemoised(o: Output, bots: seq<Bot>, fuel: nat, fuel2: nat)
    requires Wired(bots) && SourceIn(o.source, |bots|) && OutputValue(o, bots, fuel).Ok?
    ensures var e := OutputValue(o, bots, fuel).value;
      OutputValue(e.output, e.bots, fuel2) == Ok(e)
  {
  }

  // ----- the same, in place on the bot vector -----

  /** The `match` arm, reading and writing back `bots[i]` in place. */
  method FetchInPlace(s: Option<Source>, bots: array<Bot>, fuel: nat, missing: Failure) returns (r: Result<nat, Failure>)
    requires Wired(bots[..]) && SourceIn(s, bots.Length)
    modifies bots
    ensures var spec := Fetch(s, old(bots[..]), fuel, missing);
      r.Ok? == spec.Ok? && (r.Ok? ==> r.value == spec.value.value && bots[..] == spec.value.bots)
      && (r.Err? ==> r.error == spec.error)
    decreases fuel, 1
  {
    if s.None? {
      return Err(missing);
    }
    match s.value
    case Literal(x) =>
      return Ok(x);
    case BotHigh(i) =>
      var bot := bots[i];
      var res, updated := GetValues(bot, bots, fuel);
      if res.Err? {
        return Err(res.error);
      }
      bots[i] := updated;
      return Ok(res.value.1);
    case BotLow(i) =>
      var bot := bots[i];
      var res, updated := GetValues(bot, bots, fuel);
      if res.Err? {
        return Err(res.error);
      }
      bots[i] := updated;
      return Ok(res.value.0);
  }

  /** `get_values` on a copy `self` of a bot, with the other bots in place:
      answers (low, high) and the updated copy. */
  method GetValues(self: Bot, bots: array<Bot>, fuel: nat) returns (r: Result<(nat, nat), Failure>, updated: Bot)
    requires Wired(bots[..]) && BotIn(self, bots.Length)
    modifies bots
    ensures var spec := Values(self, old(bots[..]), fuel);
      r.Ok? == spec.Ok?
      && (r.Ok? ==> r.value == (spec.value.low, spec.value.high) && updated == spec.value.self && bots[..] == spec.value.bots)
      && (r.Err? ==> r.error == spec.error)
    decreases fuel, 0
  {
    updated := self;
    if fuel == 0 {
      return Err(OutOfFuel), updated;
    }
    ghost var before := bots[..];
    var a := FetchInPlace(updated.inputA, bots, fuel - 1, NoInputA);
    ghost var fa := Fetch(self.inputA, before, fuel - 1, NoInputA);
    if a.Err? {
      assert Values(self, before, fuel) == Err(fa.error);
      return Err(a.error), updated;
    }
    updated := updated.(inputA := Some(Literal(a.value)));
    ghost var mid := bots[..];
    var b := FetchInPlace(updated.inputB, bots, fuel - 1, NoInputB);
    ghost var fb := Fetch(updated.inputB, mid, fuel - 1, NoInputB);
    assert mid == fa.value.bots;
    if b.Err? {
      assert Values(self, before, fuel) == Err(fb.error);
      return Err(b.error), updated;
    }
    updated := updated.(inputB := Some(Literal(b.value)));
    if a.value < b.value {
      r := Ok((a.value, b.value));
    } else {
      r := Ok((b.value, a.value));
    }
    assert Values(self, before, fuel) == Ok(Reading(r.value.0, r.value.1, updated, bots[..]));
  }

  /** `Output::get_value` in place. */
  method GetOutputValue(o: Output, bots: array<Bot>, fuel: nat) returns (r: Result<nat, Failure>, updated: Output)
    requires Wired(bots[..]) && SourceIn(o.source, bots.Length)
    modifies bots
    ensures var spec := OutputValue(o, old(bots[..]), fuel);
      r.Ok? == spec.Ok?
      && (r.Ok? ==> r.value == spec.value.value && updated == spec.value.output && bots[..] == spec.value.bots)
      && (r.Err? ==> r.error == spec.error)
  {
    updated := o;
    var f := FetchInPlace(o.source, bots, fuel, NoOutputSource);
    if f.Err? {
      return Err(f.error), updated;
    }
    updated := Output(Some(Literal(f.value)));
    r := Ok(f.value);
  }
}
