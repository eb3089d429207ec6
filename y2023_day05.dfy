/** 2023 day 5: seeds sent through seven production maps, each a list of
    rules that shift a source interval to a destination; whole ranges of
    seeds are split into pieces as they cross the rules
    (src/year_2023/day05.rs). A rule line arrives split on spaces. */
module Year2023Day05 {
  import opened Wrappers
  import opened Numerals

  const MaxU64: nat := 0xffff_ffff_ffff_ffff

  /** The seven maps, in the order the almanac lists them. */
  datatype ProdMapName = SeedToSoil | SoilToFertilizer | FertilizerToWater | WaterToLight
                       | LightToTemperature | TemperatureToHumidity | HumidityToLocation

  function First(): ProdMapName { SeedToSoil }

  /** The map after `name`, and nothing after the last one. */
  function Next(name: ProdMapName): Option<ProdMapName> {
    match name
    case SeedToSoil => Some(SoilToFertilizer)
    case SoilToFertilizer => Some(FertilizerToWater)
    case FertilizerToWater => Some(WaterToLight)
    case WaterToLight => Some(LightToTemperature)
    case LightToTemperature => Some(TemperatureToHumidity)
    case TemperatureToHumidity => Some(HumidityToLocation)
    case HumidityToLocation => None
  }

  /** The position of a map in the almanac, from 0. */
  function Position(name: ProdMapName): nat {
    match name
    case SeedToSoil => 0
    case SoilToFertilizer => 1
    case FertilizerToWater => 2
    case WaterToLight => 3
    case LightToTemperature => 4
    case TemperatureToHumidity => 5
    case HumidityToLocation => 6
  }

  /** `next` moves one place along the almanac and stops after the seventh map. */
  lemma NextMeaning(name: ProdMapName)
    ensures Next(name).None? <==> Position(name) == 6
    ensures Next(name).Some? ==> Position(Next(name).value) == Position(name) + 1
  {
  }

  /** The names from `name` on, in the order `next` visits them. */
  function NamesFrom(name: ProdMapName): (r: seq<ProdMapName>)
    ensures |r| == 7 - Position(name)
    decreases 7 - Position(name)
  {
    NextMeaning(name);
    match Next(name)
    case None => [name]
    case Some(n) => [name] + NamesFrom(n)
  }

  /** Starting from the first map, `next` visits all seven maps once each. */
  lemma AllNamesVisited()
    ensures forall name: ProdMapName :: name in NamesFrom(First())
    ensures forall i :: 0 <= i < 7 ==> Position(NamesFrom(First())[i]) == i
  {
    assert NamesFrom(HumidityToLocation) == [HumidityToLocation];
    assert NamesFrom(TemperatureToHumidity) == [TemperatureToHumidity, HumidityToLocation];
    assert NamesFrom(LightToTemperature) == [LightToTemperature, TemperatureToHumidity, HumidityToLocation];
    assert NamesFrom(WaterToLight) == [WaterToLight, LightToTemperature, TemperatureToHumidity, HumidityToLocation];
    assert NamesFrom(FertilizerToWater) == [FertilizerToWater, WaterToLight, LightToTemperature, TemperatureToHumidity, HumidityToLocation];
    assert NamesFrom(SoilToFertilizer) == [SoilToFertilizer, FertilizerToWater, WaterToLight, LightToTemperature, TemperatureToHumidity, HumidityToLocation];
    var names := NamesFrom(First());
    assert names == [SeedToSoil, SoilToFertilizer, FertilizerToWater, WaterToLight,
                     LightToTemperature, TemperatureToHumidity, HumidityToLocation];
    forall name: ProdMapName ensures name in names {
      assert names[Position(name)] == name;
    }
  }

  /** The heading line of a map's section. */
  function ExpectedLabel(name: ProdMapName): string {
    match name
    case SeedToSoil => "seed-to-soil map:"
    case SoilToFertilizer => "soil-to-fertilizer map:"
    case FertilizerToWater => "fertilizer-to-water map:"
    case WaterToLight => "water-to-light map:"
    case LightToTemperature => "light-to-temperature map:"
    case TemperatureToHumidity => "temperature-to-humidity map:"
    case HumidityToLocation => "humidity-to-location map:"
  }

  /** A rule: values `source .. source + length` go to `destination ..`. */
  datatype ProdRange = ProdRange(destination: nat, source: nat, length: nat)

  /** The half-open interval `start .. end`. */
  datatype Span = Span(start: nat, end: nat)

  datatype Fault = MissingDestination | InvalidDestination | MissingSource | InvalidSource
                 | MissingLength | InvalidLength | ExtraPart | Nonsense

  /** `ProdRange::parse`: three `u64` fields, destination, source and length, and nothing after. */
  function Parse(parts: seq<string>): Result<ProdRange, Fault> {
    if |parts| < 1 then Err(MissingDestination)
    else if ParseUnsigned(parts[0], MaxU64).None? then Err(InvalidDestination)
    else if |parts| < 2 then Err(MissingSource)
    else if ParseUnsigned(parts[1], MaxU64).None? then Err(InvalidSource)
    else if |parts| < 3 then Err(MissingLength)
    else if ParseUnsigned(parts[2], MaxU64).None? then Err(InvalidLength)
    else if |parts| > 3 then Err(ExtraPart)
    else Ok(ProdRange(ParseUnsigned(parts[0], MaxU64).value, ParseUnsigned(parts[1], MaxU64).value,
                      ParseUnsigned(parts[2], MaxU64).value))
  }

  /** A rule written out as three decimal numbers parses back to itself. */
  lemma ParseRoundTrip(r: ProdRange)
    requires r.destination <= MaxU64 && r.source <= MaxU64 && r.length <= MaxU64
    ensures Parse([Decimal(r.destination), Decimal(r.source), Decimal(r.length)]) == Ok(r)
  {
    UnsignedRoundTrip(r.destination, MaxU64);
    UnsignedRoundTrip(r.source, MaxU64);
    UnsignedRoundTrip(r.length, MaxU64);
  }

  /** A rule line parses only with exactly three fields. */
  lemma ParseNeedsThree(parts: seq<string>)
    requires Parse(parts).Ok?
    ensures |parts| == 3
  {
  }

  /** Where a value lies against a rule's source interval. */
  datatype Overlap = Before | Inside | After

  function OverlapOf(r: ProdRange, val: nat): Overlap {
    if val >= r.source then
      if val < r.source + r.length then Inside else After
    else Before
  }

  /** The rule shifts `v`: its source interval holds `v`. */
  predicate Covers(r: ProdRange, v: int) {
    r.source <= v < r.source + r.length
  }

  /** Where the rule sends a value it covers. */
  function Shift(r: ProdRange, v: int): int {
    v - r.source + r.destination
  }

  /** `overlap` is Before below the source interval, Inside within it, and After above it. */
  lemma OverlapMeaning(r: ProdRange, val: nat)
    ensures OverlapOf(r, val) == Before <==> val < r.source
    ensures OverlapOf(r, val) == Inside <==> Covers(r, val)
    ensures OverlapOf(r, val) == After <==> val >= r.source + r.length && val >= r.source
  {
  }

  /** `ProdRange::map`: the pieces of a range the rule shifts, and the pieces
      it leaves for later rules; a range ending at 0 would underflow. */
  function MapRange(r: ProdRange, range: Span): (res: Result<(seq<Span>, seq<Span>), Fault>)
    requires 0 < range.end && range.start <= range.end
    ensures res.Ok? ==> Mappable(res.value.1)
  {
    match (OverlapOf(r, range.start), OverlapOf(r, range.end - 1))
    case (Before, Before) => Ok(([], [range]))
    case (After, After) => Ok(([], [range]))
    case (Inside, Inside) =>
      var newStart := range.start - r.source + r.destination;
      Ok(([Span(newStart, newStart + (range.end - range.start))], []))
    case (Before, After) =>
      Ok(([Span(r.destination, r.destination + r.length)],
          [Span(range.start, r.source), Span(r.source + r.length, range.end)]))
    case (Before, Inside) =>
      Ok(([Span(r.destination, r.destination + (range.end - range.start) - (r.source - range.start))],
          [Span(range.start, r.source)]))
    case (Inside, After) =>
      Ok(([Span(range.start - r.source + r.destination, r.destination + r.length)],
          [Span(r.source + r.length, range.end)]))
    case _ => Err(Nonsense)
  }

  /** Every range of the list can be handed to `ProdRange::map`: it does
      not end at 0, where `end - 1` would underflow, nor before its start. */
  predicate Mappable(spans: seq<Span>) {
    forall k :: 0 <= k < |spans| ==> 0 < spans[k].end && spans[k].start <= spans[k].end
  }

  /** How many of `spans` hold `v`. */
  function Count(spans: seq<Span>, v: int): nat {
    if spans == [] then 0
    else Count(spans[..|spans| - 1], v) + (if spans[|spans| - 1].start <= v < spans[|spans| - 1].end then 1 else 0)
  }

  /** The total length of `spans`. */
  function Length(spans: seq<Span>): int {
    if spans == [] then 0 else Length(spans[..|spans| - 1]) + (spans[|spans| - 1].end - spans[|spans| - 1].start)
  }

  lemma {:induction false} CountConcat(a: seq<Span>, b: seq<Span>, v: int)
    ensures Count(a + b, v) == Count(a, v) + Count(b, v)
    ensures Length(a + b) == Length(a) + Length(b)
    decreases |b|
  {
    if b == [] {
      assert a + b == a;
    } else {
      assert (a + b)[..|a + b| - 1] == a + b[..|b| - 1];
      CountConcat(a, b[..|b| - 1], v);
    }
  }

  /** Every span of the list holds at least one value, and ends where a `u64` range can. */
  predicate NonEmpty(spans: seq<Span>) {
    forall k :: 0 <= k < |spans| ==> spans[k].start < spans[k].end
  }

  lemma CountOne(x: Span, v: int)
    ensures Count([x], v) == if x.start <= v < x.end then 1 else 0
    ensures Length([x]) == x.end - x.start
  {
    assert [x][..0] == [];
  }

  lemma CountTwo(x: Span, y: Span, v: int)
    ensures Count([x, y], v) == (if x.start <= v < x.end then 1 else 0) + (if y.start <= v < y.end then 1 else 0)
    ensures Length([x, y]) == (x.end - x.start) + (y.end - y.start)
  {
    assert [x, y][..1] == [x];
    CountOne(x, v);
  }

  /** The pieces of a range against a rule: what `MapRange` gives for a
      non-empty range, stated piece by piece. */
  lemma MapRangeCases(r: ProdRange, range: Span)
    requires range.start < range.end
    ensures MapRange(r, range).Ok?
    ensures var lo, hi := range.start, range.end;
      MapRange(r, range).value ==
        if hi <= r.source || r.source + r.length <= lo then ([], [range])
        else if r.source <= lo && hi <= r.source + r.length then ([Span(Shift(r, lo), Shift(r, hi))], [])
        else if lo < r.source && r.source + r.length < hi then
          ([Span(r.destination, r.destination + r.length)], [Span(lo, r.source), Span(r.source + r.length, hi)])
        else if lo < r.source then ([Span(r.destination, Shift(r, hi))], [Span(lo, r.source)])
        else ([Span(Shift(r, lo), r.destination + r.length)], [Span(r.source + r.length, hi)])
  {
    OverlapMeaning(r, range.start);
    OverlapMeaning(r, range.end - 1);
  }

  /** A value's place among the pieces of a non-empty range: a value the
      rule covers is in no preserved piece, every other value of the range
      is in exactly one, and an updated piece holds exactly the shifted
      values of the range the rule covers. */
  lemma MapRangeAt(r: ProdRange, range: Span, v: int)
    requires range.start < range.end
    ensures MapRange(r, range).Ok?
    ensures Count(MapRange(r, range).value.1, v) == if range.start <= v < range.end && !Covers(r, v) then 1 else 0
    ensures var u := v - r.destination + r.source;
      Count(MapRange(r, range).value.0, v) == if range.start <= u < range.end && Covers(r, u) then 1 else 0
  {
    MapRangeCases(r, range);
    var (done, keep) := MapRange(r, range).value;
    if |keep| == 1 {
      CountOne(keep[0], v);
    } else if |keep| == 2 {
      CountTwo(keep[0], keep[1], v);
    }
    if |done| == 1 {
      CountOne(done[0], v);
    }
  }

  /** The pieces of a non-empty range are non-empty, except an updated
      piece of a rule of length 0, and they are as long as the range. */
  lemma MapRangeLengths(r: ProdRange, range: Span)
    requires range.start < range.end
    ensures MapRange(r, range).Ok?
    ensures var (done, keep) := MapRange(r, range).value;
      Length(done) + Length(keep) == range.end - range.start
      && NonEmpty(keep) && (r.length > 0 ==> NonEmpty(done))
  {
    MapRangeCases(r, range);
    var (done, keep) := MapRange(r, range).value;
    if |keep| == 1 {
      CountOne(keep[0], 0);
    } else if |keep| == 2 {
      CountTwo(keep[0], keep[1], 0);
    }
    if |done| == 1 {
      CountOne(done[0], 0);
    }
  }

  /** Mapping a non-empty range never fails. Every value the rule covers is
      shifted into exactly one updated piece, and every other value stays in
      exactly one preserved piece; an updated piece holds only shifted values
      of the range, and the pieces are as long as the range. */
  lemma MapRangeMeaning(r: ProdRange, range: Span)
    requires range.start < range.end
    ensures MapRange(r, range).Ok?
    ensures var (done, keep) := MapRange(r, range).value;
      (forall v :: Count(keep, v) == (if range.start <= v < range.end && !Covers(r, v) then 1 else 0))
      && (forall v :: range.start <= v < range.end && Covers(r, v) ==> Count(done, Shift(r, v)) == 1)
      && (forall w :: Count(done, w) > 0 ==> var v := w - r.destination + r.source;
            range.start <= v < range.end && Covers(r, v))
      && Length(done) + Length(keep) == range.end - range.start
      && NonEmpty(keep) && (r.length > 0 ==> NonEmpty(done))
  {
    MapRangeLengths(r, range);
    var (done, keep) := MapRange(r, range).value;
    forall v ensures Count(keep, v) == (if range.start <= v < range.end && !Covers(r, v) then 1 else 0) {
      MapRangeAt(r, range, v);
    }
    forall v | range.start <= v < range.end && Covers(r, v) ensures Count(done, Shift(r, v)) == 1 {
      MapRangeAt(r, range, Shift(r, v));
    }
    forall w | Count(done, w) > 0
      ensures var v := w - r.destination + r.source; range.start <= v < range.end && Covers(r, v)
    {
      MapRangeAt(r, range, w);
    }
  }

  // ----- one map: `ProdMap::map` -----

  lemma MappableStep(spans: seq<Span>, x: Span)
    requires Mappable(spans) && Mappable([x])
    ensures Mappable(spans + [x])
  {
    assert forall k :: 0 <= k < |spans| ==> (spans + [x])[k] == spans[k];
    assert (spans + [x])[|spans|] == [x][0];
  }

  lemma NonEmptyConcat(a: seq<Span>, b: seq<Span>)
    requires NonEmpty(a) && NonEmpty(b)
    ensures NonEmpty(a + b)
  {
    assert forall k :: 0 <= k < |a| ==> (a + b)[k] == a[k];
    assert forall k :: |a| <= k < |a + b| ==> (a + b)[k] == b[k - |a|];
  }

  /** The inner loop of `ProdMap::map` for one rule: every waiting piece
      split in turn, the updated pieces and the preserved pieces each
      gathered in order, or the first error. */
  function ApplyRule(rule: ProdRange, procs: seq<Span>): (res: Result<(seq<Span>, seq<Span>), Fault>)
    requires Mappable(procs)
    ensures res.Ok? ==> Mappable(res.value.1)
  {
    if procs == [] then Ok(([], []))
    else
      var n := |procs| - 1;
      assert Mappable(procs[..n]) && 0 < procs[n].end by {
        assert forall k :: 0 <= k < n ==> procs[..n][k] == procs[k];
      }
      match ApplyRule(rule, procs[..n])
      case Err(e) => Err(e)
      case Ok((done, keep)) =>
        match MapRange(rule, procs[n])
        case Err(e) => Err(e)
        case Ok((d, k)) =>
          assert Mappable(keep + k) by {
            assert forall i :: 0 <= i < |keep| ==> (keep + k)[i] == keep[i];
            assert forall i :: |keep| <= i < |keep + k| ==> (keep + k)[i] == k[i - |keep|];
          }
          Ok((done + d, keep + k))
  }

  lemma NonEmptyMappable(spans: seq<Span>)
    requires NonEmpty(spans)
    ensures Mappable(spans)
  {
  }

  /** One rule against non-empty pieces never fails, keeps the total length
      and leaves non-empty pieces waiting. */
  lemma {:induction false} ApplyRuleShape(rule: ProdRange, procs: seq<Span>)
    requires NonEmpty(procs)
    ensures Mappable(procs) && ApplyRule(rule, procs).Ok?
    ensures var (done, keep) := ApplyRule(rule, procs).value;
      Length(done) + Length(keep) == Length(procs) && NonEmpty(keep)
      && (rule.length > 0 ==> NonEmpty(done))
  {
    NonEmptyMappable(procs);
    if procs != [] {
      var n := |procs| - 1;
      assert forall k :: 0 <= k < n ==> procs[..n][k] == procs[k];
      ApplyRuleShape(rule, procs[..n]);
      var (done, keep) := ApplyRule(rule, procs[..n]).value;
      MapRangeLengths(rule, procs[n]);
      var (d, k) := MapRange(rule, procs[n]).value;
      NonEmptyConcat(keep, k);
      if rule.length > 0 {
        NonEmptyConcat(done, d);
      }
      CountConcat(keep, k, 0);
      CountConcat(done, d, 0);
    }
  }

  /** One rule, value by value: a value it covers leaves the waiting pieces
      and its shift joins the updated ones as often as it was waiting; other
      values stay waiting. */
  /** One rule against non-empty pieces never fails. */
  lemma {:induction false} ApplyRuleOk(rule: ProdRange, procs: seq<Span>)
    requires NonEmpty(procs)
    ensures Mappable(procs) && ApplyRule(rule, procs).Ok?
  {
    NonEmptyMappable(procs);
    if procs != [] {
      var n := |procs| - 1;
      assert forall k :: 0 <= k < n ==> procs[..n][k] == procs[k];
      ApplyRuleOk(rule, procs[..n]);
      MapRangeLengths(rule, procs[n]);
    }
  }

  /** `ApplyRule` on non-empty pieces, one step unfolded. */
  lemma ApplyRuleUnfold(rule: ProdRange, procs: seq<Span>)
    requires NonEmpty(procs) && procs != []
    ensures Mappable(procs[..|procs| - 1]) && NonEmpty(procs[..|procs| - 1])
    ensures ApplyRule(rule, procs[..|procs| - 1]).Ok? && MapRange(rule, procs[|procs| - 1]).Ok?
    ensures Mappable(procs) && ApplyRule(rule, procs).Ok?
    ensures ApplyRule(rule, procs).value.0
      == ApplyRule(rule, procs[..|procs| - 1]).value.0 + MapRange(rule, procs[|procs| - 1]).value.0
    ensures ApplyRule(rule, procs).value.1
      == ApplyRule(rule, procs[..|procs| - 1]).value.1 + MapRange(rule, procs[|procs| - 1]).value.1
  {
    var n := |procs| - 1;
    NonEmptyPrefix(procs, n);
    ApplyRuleOk(rule, procs[..n]);
    MapRangeLengths(rule, procs[n]);
    ApplyRuleOk(rule, procs);
  }

  /** One rule, value by value: a value it does not cover stays waiting as
      often as it was waiting; a value it covers leaves. */
  lemma {:induction false} KeptAt(rule: ProdRange, procs: seq<Span>, v: int)
    requires NonEmpty(procs)
    ensures Mappable(procs) && ApplyRule(rule, procs).Ok?
    ensures Count(ApplyRule(rule, procs).value.1, v) == if Covers(rule, v) then 0 else Count(procs, v)
  {
    ApplyRuleOk(rule, procs);
    if procs != [] {
      var n := |procs| - 1;
      ApplyRuleUnfold(rule, procs);
      KeptAt(rule, procs[..n], v);
      MapRangeAt(rule, procs[n], v);
      CountConcat(ApplyRule(rule, procs[..n]).value.1, MapRange(rule, procs[n]).value.1, v);
    }
  }

  /** One rule, value by value: the shift of a value it covers is updated
      as often as the value was waiting. */
  lemma {:induction false} DoneAt(rule: ProdRange, procs: seq<Span>, w: int)
    requires NonEmpty(procs)
    ensures Mappable(procs) && ApplyRule(rule, procs).Ok?
    ensures var u := w - rule.destination + rule.source;
      Count(ApplyRule(rule, procs).value.0, w) == if Covers(rule, u) then Count(procs, u) else 0
  {
    ApplyRuleOk(rule, procs);
    if procs != [] {
      var n := |procs| - 1;
      ApplyRuleUnfold(rule, procs);
      DoneAt(rule, procs[..n], w);
      MapRangeAt(rule, procs[n], w);
      CountConcat(ApplyRule(rule, procs[..n]).value.0, MapRange(rule, procs[n]).value.0, w);
    }
  }

  /** One rule, value by value: both of the above. */
  lemma ApplyRuleAt(rule: ProdRange, procs: seq<Span>, v: int)
    requires NonEmpty(procs)
    ensures Mappable(procs) && ApplyRule(rule, procs).Ok?
    ensures var (done, keep) := ApplyRule(rule, procs).value;
      Count(keep, v) == (if Covers(rule, v) then 0 else Count(procs, v))
      && Count(done, v) == (var u := v - rule.destination + rule.source; if Covers(rule, u) then Count(procs, u) else 0)
  {
    KeptAt(rule, procs, v);
    DoneAt(rule, procs, v);
  }

  /** One rule against non-empty pieces never fails: a value it covers
      leaves the waiting pieces and its shift joins the updated ones as often
      as it was waiting, other values stay waiting, and the length is kept. */
  lemma ApplyRuleMeaning(rule: ProdRange, procs: seq<Span>)
    requires NonEmpty(procs)
    ensures Mappable(procs) && ApplyRule(rule, procs).Ok?
    ensures var (done, keep) := ApplyRule(rule, procs).value;
      (forall v :: Count(keep, v) == if Covers(rule, v) then 0 else Count(procs, v))
      && (forall w :: Count(done, w) ==
            var u := w - rule.destination + rule.source; if Covers(rule, u) then Count(procs, u) else 0)
      && Length(done) + Length(keep) == Length(procs)
      && NonEmpty(keep)
  {
    ApplyRuleShape(rule, procs);
    var (done, keep) := ApplyRule(rule, procs).value;
    forall v ensures Count(keep, v) == if Covers(rule, v) then 0 else Count(procs, v) {
      ApplyRuleAt(rule, procs, v);
    }
    forall w ensures Count(done, w) ==
      var u := w - rule.destination + rule.source; if Covers(rule, u) then Count(procs, u) else 0
    {
      ApplyRuleAt(rule, procs, w);
    }
  }

  /** The outer loop of `ProdMap::map` over the first rules: the resolved
      pieces and the pieces still waiting, or the first error. */
  function ApplyRules(rules: seq<ProdRange>, val: Span): (res: Result<(seq<Span>, seq<Span>), Fault>)
    requires 0 < val.end && val.start <= val.end
    ensures res.Ok? ==> Mappable(res.value.1)
  {
    if rules == [] then Ok(([], [val]))
    else
      match ApplyRules(rules[..|rules| - 1], val)
      case Err(e) => Err(e)
      case Ok((resolved, processing)) =>
        match ApplyRule(rules[|rules| - 1], processing)
        case Err(e) => Err(e)
        case Ok((done, keep)) => Ok((resolved + done, keep))
  }

  /** `ProdMap::map`'s result: the resolved pieces, then the pieces no rule took. */
  function ProdMapResult(rules: seq<ProdRange>, val: Span): Result<seq<Span>, Fault>
    requires 0 < val.end && val.start <= val.end
  {
    match ApplyRules(rules, val)
    case Err(e) => Err(e)
    case Ok((resolved, processing)) => Ok(resolved + processing)
  }

  /** The index of the first rule that covers `v`. */
  function FirstCovering(rules: seq<ProdRange>, v: int): (r: Option<nat>)
    ensures r.Some? ==> r.value < |rules| && Covers(rules[r.value], v)
  {
    if rules == [] then None
    else match FirstCovering(rules[..|rules| - 1], v)
      case Some(j) => Some(j)
      case None => if Covers(rules[|rules| - 1], v) then Some(|rules| - 1) else None
  }

  /** Where the map sends `v`: shifted by the first rule that covers it, or unchanged. */
  function MapValue(rules: seq<ProdRange>, v: int): int {
    match FirstCovering(rules, v)
    case Some(j) => Shift(rules[j], v)
    case None => v
  }

  /** The first rule covering `v` comes before every other rule covering it. */
  lemma {:induction false} FirstCoveringMeaning(rules: seq<ProdRange>, v: int)
    ensures FirstCovering(rules, v).None? <==> forall j :: 0 <= j < |rules| ==> !Covers(rules[j], v)
    ensures FirstCovering(rules, v).Some? ==> forall j :: 0 <= j < FirstCovering(rules, v).value ==> !Covers(rules[j], v)
  {
    if rules != [] {
      var n := |rules| - 1;
      FirstCoveringMeaning(rules[..n], v);
      assert forall j :: 0 <= j < n ==> rules[..n][j] == rules[j];
    }
  }

  /** How many values of `val` rules `0..|rules|` send to `w`: those whose
      first covering rule is rule `j` and whose shift by it is `w`. */
  function Hits(rules: seq<ProdRange>, val: Span, w: int): nat {
    if rules == [] then 0
    else Hits(rules[..|rules| - 1], val, w) + NewHit(rules[..|rules| - 1], rules[|rules| - 1], val, w)
  }

  /** 1 when `rule`, after `earlier`, sends a value of `val` to `w`: the
      value it would send there lies in `val`, and `rule` is the first to
      cover it. */
  function NewHit(earlier: seq<ProdRange>, rule: ProdRange, val: Span, w: int): nat {
    var u := w - rule.destination + rule.source;
    if val.start <= u < val.end && Covers(rule, u) && FirstCovering(earlier, u).None? then 1 else 0
  }

  /** After the first rules, nothing has failed, no length is lost and the
      waiting pieces are non-empty. */
  lemma {:induction false} ApplyRulesShape(rules: seq<ProdRange>, val: Span)
    requires val.start < val.end
    ensures ApplyRules(rules, val).Ok?
    ensures var (resolved, processing) := ApplyRules(rules, val).value;
      Length(resolved) + Length(processing) == val.end - val.start && NonEmpty(processing)
      && (Positive(rules) ==> NonEmpty(resolved))
  {
    if rules == [] {
      CountOne(val, 0);
    } else {
      var n := |rules| - 1;
      ApplyRulesShape(rules[..n], val);
      assert Positive(rules) ==> Positive(rules[..n]) by {
        assert forall k :: 0 <= k < n ==> rules[..n][k] == rules[k];
      }
      var (resolved, processing) := ApplyRules(rules[..n], val).value;
      ApplyRuleShape(rules[n], processing);
      var (done, keep) := ApplyRule(rules[n], processing).value;
      CountConcat(resolved, done, 0);
      if Positive(rules) {
        NonEmptyConcat(resolved, done);
      }
    }
  }

  /** After the first rules, nothing has failed and the waiting pieces are non-empty. */
  lemma {:induction false} ApplyRulesOk(rules: seq<ProdRange>, val: Span)
    requires val.start < val.end
    ensures ApplyRules(rules, val).Ok? && NonEmpty(ApplyRules(rules, val).value.1)
  {
    if rules != [] {
      var n := |rules| - 1;
      ApplyRulesOk(rules[..n], val);
      ApplyRulesUnfold(rules, val);
      ApplyRuleShape(rules[n], ApplyRules(rules[..n], val).value.1);
    }
  }

  /** Every rule of the map covers at least one value. */
  predicate Positive(rules: seq<ProdRange>) {
    forall k :: 0 <= k < |rules| ==> rules[k].length > 0
  }

  /** After the first rules, the waiting pieces hold `v` once if it lies
      in the range and no rule covered it. */
  lemma {:induction false} WaitingAt(rules: seq<ProdRange>, val: Span, v: int)
    requires val.start < val.end
    ensures ApplyRules(rules, val).Ok?
    ensures Count(ApplyRules(rules, val).value.1, v)
      == if val.start <= v < val.end && FirstCovering(rules, v).None? then 1 else 0
  {
    ApplyRulesOk(rules, val);
    if rules == [] {
      CountOne(val, v);
    } else {
      var n := |rules| - 1;
      ApplyRulesOk(rules[..n], val);
      WaitingAt(rules[..n], val, v);
      var processing := ApplyRules(rules[..n], val).value.1;
      KeptAt(rules[n], processing, v);
      ApplyRulesUnfold(rules, val);
    }
  }

  /** After the first rules, the resolved pieces hold `w` as often as a
      value of the range is sent there. */
  lemma {:induction false} ResolvedAt(rules: seq<ProdRange>, val: Span, w: int)
    requires val.start < val.end
    ensures ApplyRules(rules, val).Ok?
    ensures Count(ApplyRules(rules, val).value.0, w) == Hits(rules, val, w)
  {
    ApplyRulesOk(rules, val);
    if rules != [] {
      var n := |rules| - 1;
      var rule, earlier := rules[n], rules[..n];
      var u := w - rule.destination + rule.source;
      ApplyRulesOk(earlier, val);
      ResolvedAt(earlier, val, w);
      WaitingAt(earlier, val, u);
      var resolved := ApplyRules(earlier, val).value.0;
      var processing := ApplyRules(earlier, val).value.1;
      NewlyResolved(earlier, rule, val, processing, w);
      var done := ApplyRule(rule, processing).value.0;
      ApplyRulesUnfold(rules, val);
      CountConcat(resolved, done, w);
    }
  }

  lemma ApplyRulesUnfold(rules: seq<ProdRange>, val: Span)
    requires val.start < val.end && rules != []
    requires ApplyRules(rules[..|rules| - 1], val).Ok?
    requires NonEmpty(ApplyRules(rules[..|rules| - 1], val).value.1)
    ensures Mappable(ApplyRules(rules[..|rules| - 1], val).value.1)
    ensures ApplyRule(rules[|rules| - 1], ApplyRules(rules[..|rules| - 1], val).value.1).Ok?
    ensures ApplyRules(rules, val).Ok?
    ensures ApplyRules(rules, val).value.0
      == ApplyRules(rules[..|rules| - 1], val).value.0
         + ApplyRule(rules[|rules| - 1], ApplyRules(rules[..|rules| - 1], val).value.1).value.0
    ensures ApplyRules(rules, val).value.1
      == ApplyRule(rules[|rules| - 1], ApplyRules(rules[..|rules| - 1], val).value.1).value.1
  {
    ApplyRuleShape(rules[|rules| - 1], ApplyRules(rules[..|rules| - 1], val).value.1);
  }

  /** The step of `ResolvedAt` for one rule: what it resolves at `w` is the
      value it would send there, if that was still waiting. */
  lemma NewlyResolved(earlier: seq<ProdRange>, rule: ProdRange, val: Span, processing: seq<Span>, w: int)
    requires NonEmpty(processing)
    requires var u := w - rule.destination + rule.source;
      Count(processing, u) == if val.start <= u < val.end && FirstCovering(earlier, u).None? then 1 else 0
    ensures ApplyRule(rule, processing).Ok?
    ensures Count(ApplyRule(rule, processing).value.0, w) == NewHit(earlier, rule, val, w)
  {
    ApplyRuleAt(rule, processing, w);
  }

  /** After the first rules, the waiting pieces hold exactly the values of
      the range no rule has covered yet, once each; the resolved pieces hold
      each value as often as a value of the range is sent there; no length
      is lost. */
  lemma ApplyRulesMeaning(rules: seq<ProdRange>, val: Span)
    requires val.start < val.end
    ensures ApplyRules(rules, val).Ok?
    ensures var (resolved, processing) := ApplyRules(rules, val).value;
      (forall v :: Count(processing, v) == if val.start <= v < val.end && FirstCovering(rules, v).None? then 1 else 0)
      && (forall w :: Count(resolved, w) == Hits(rules, val, w))
      && Length(resolved) + Length(processing) == val.end - val.start
      && NonEmpty(processing)
  {
    ApplyRulesShape(rules, val);
    var (resolved, processing) := ApplyRules(rules, val).value;
    forall v ensures Count(processing, v) == if val.start <= v < val.end && FirstCovering(rules, v).None? then 1 else 0 {
      WaitingAt(rules, val, v);
    }
    forall w ensures Count(resolved, w) == Hits(rules, val, w) {
      ResolvedAt(rules, val, w);
    }
  }

  /** `ProdMap::map`: each rule in turn splits the pieces still waiting; what
      it shifts is resolved for good and the rest waits for the next rule;
      what no rule takes comes last, unchanged. */
  method ProdMapMap(rules: seq<ProdRange>, val: Span) returns (r: Result<seq<Span>, Fault>)
    requires 0 < val.end && val.start <= val.end
    ensures r == ProdMapResult(rules, val)
  {
    var processing: seq<Span> := [val];
    var resolved: seq<Span> := [];
    for i := 0 to |rules|
      invariant ApplyRules(rules[..i], val) == Ok((resolved, processing))
    {
      assert rules[..i + 1][..i] == rules[..i];
      var step := SplitPieces(rules[i], processing, resolved);
      if step.Err? {
        assert rules[..i + 1][i] == rules[i];
        assert ApplyRules(rules[..i + 1], val) == Err(step.error);
        ApplyRulesErrorSticks(rules, val, i + 1);
        return Err(step.error);
      }
      resolved, processing := step.value.0, step.value.1;
    }
    assert rules[..|rules|] == rules;
    resolved := resolved + processing;
    return Ok(resolved);
  }

  /** The inner loop of `ProdMap::map`: one rule splits every waiting piece;
      the shifted pieces are appended to `resolved` and the rest gathered
      for the next rule. */
  method SplitPieces(rule: ProdRange, processing: seq<Span>, resolved: seq<Span>)
    returns (r: Result<(seq<Span>, seq<Span>), Fault>)
    requires Mappable(processing)
    ensures r == match ApplyRule(rule, processing)
                 case Err(e) => Err(e)
                 case Ok((done, keep)) => Ok((resolved + done, keep))
  {
    var nextProcessing: seq<Span> := [];
    var res := resolved;
    for j := 0 to |processing|
      invariant Mappable(processing[..j])
      invariant ApplyRule(rule, processing[..j]).Ok?
      invariant ApplyRule(rule, processing[..j]).value.1 == nextProcessing
      invariant resolved + ApplyRule(rule, processing[..j]).value.0 == res
    {
      assert processing[..j + 1][..j] == processing[..j];
      assert Mappable(processing[..j + 1]) by {
        assert forall k :: 0 <= k < j + 1 ==> processing[..j + 1][k] == processing[k];
      }
      match MapRange(rule, processing[j]) {
        case Err(e) =>
          assert processing[..j + 1][j] == processing[j];
          assert ApplyRule(rule, processing[..j + 1]) == Err(e);
          ApplyRuleErrorSticks(rule, processing, j + 1);
          return Err(e);
        case Ok((done, reproc)) =>
          nextProcessing := nextProcessing + reproc;
          res := res + done;
      }
    }
    assert processing[..|processing|] == processing;
    return Ok((res, nextProcessing));
  }

  /** A rule that fails on a piece fails on every longer list of pieces. */
  lemma {:induction false} ApplyRuleErrorSticks(rule: ProdRange, procs: seq<Span>, j: nat)
    requires Mappable(procs) && j <= |procs|
    requires Mappable(procs[..j]) && ApplyRule(rule, procs[..j]).Err?
    ensures ApplyRule(rule, procs) == ApplyRule(rule, procs[..j])
    decreases |procs| - j
  {
    if j < |procs| {
      assert procs[..j + 1][..j] == procs[..j];
      assert Mappable(procs[..j + 1]) by {
        assert forall k :: 0 <= k < j + 1 ==> procs[..j + 1][k] == procs[k];
      }
      ApplyRuleErrorSticks(rule, procs, j + 1);
    } else {
      assert procs[..j] == procs;
    }
  }

  /** A rule that fails fails the whole map. */
  lemma {:induction false} ApplyRulesErrorSticks(rules: seq<ProdRange>, val: Span, i: nat)
    requires 0 < val.end && val.start <= val.end && i <= |rules|
    requires ApplyRules(rules[..i], val).Err?
    ensures ApplyRules(rules, val) == ApplyRules(rules[..i], val)
    decreases |rules| - i
  {
    if i < |rules| {
      assert rules[..i + 1][..i] == rules[..i];
      ApplyRulesErrorSticks(rules, val, i + 1);
    } else {
      assert rules[..i] == rules;
    }
  }

  // ----- what one map does to the values of a range -----

  /** Rule `j` is the first to cover `v` exactly when it covers `v` and no
      earlier rule does. */
  lemma FirstCoveringAt(rules: seq<ProdRange>, j: nat, v: int)
    requires j < |rules|
    ensures FirstCovering(rules, v) == Some(j) <==> Covers(rules[j], v) && FirstCovering(rules[..j], v).None?
  {
    FirstCoveringMeaning(rules, v);
    FirstCoveringMeaning(rules[..j], v);
    assert forall k :: 0 <= k < j ==> rules[..j][k] == rules[k];
  }

  /** Each rule's share is part of the total. */
  lemma {:induction false} HitsFrom(rules: seq<ProdRange>, j: nat, val: Span, w: int)
    requires j < |rules|
    ensures Hits(rules, val, w) >= NewHit(rules[..j], rules[j], val, w)
  {
    var n := |rules| - 1;
    if j < n {
      assert rules[..n][..j] == rules[..j];
      assert rules[..n][j] == rules[j];
      HitsFrom(rules[..n], j, val, w);
    }
  }

  /** A value that is hit is hit by some rule. */
  lemma {:induction false} HitsWitness(rules: seq<ProdRange>, val: Span, w: int) returns (j: nat)
    requires Hits(rules, val, w) > 0
    ensures j < |rules| && NewHit(rules[..j], rules[j], val, w) == 1
  {
    var n := |rules| - 1;
    if NewHit(rules[..n], rules[n], val, w) == 1 {
      j := n;
    } else {
      j := HitsWitness(rules[..n], val, w);
      assert rules[..n][..j] == rules[..j];
      assert rules[..n][j] == rules[j];
    }
  }

  /** `ProdMap::map` of a non-empty range, value by value: every value of
      the range turns up at the place the map sends it. */
  lemma ProdMapForward(rules: seq<ProdRange>, val: Span, v: int)
    requires val.start < val.end && val.start <= v < val.end
    ensures ProdMapResult(rules, val).Ok?
    ensures Count(ProdMapResult(rules, val).value, MapValue(rules, v)) > 0
  {
    ProdMapUnfold(rules, val);
    var w := MapValue(rules, v);
    CountConcat(ApplyRules(rules, val).value.0, ApplyRules(rules, val).value.1, w);
    match FirstCovering(rules, v)
    case None =>
      WaitingAt(rules, val, v);
    case Some(j) =>
      FirstCoveringAt(rules, j, v);
      HitsFrom(rules, j, val, w);
      ResolvedAt(rules, val, w);
  }

  /** `ProdMap::map` of a non-empty range: the resolved pieces, then the
      waiting ones. */
  lemma ProdMapUnfold(rules: seq<ProdRange>, val: Span)
    requires val.start < val.end
    ensures ApplyRules(rules, val).Ok? && ProdMapResult(rules, val).Ok?
    ensures ProdMapResult(rules, val).value == ApplyRules(rules, val).value.0 + ApplyRules(rules, val).value.1
  {
    ApplyRulesOk(rules, val);
  }

  /** `ProdMap::map` of a non-empty range, value by value: every value of
      the result is where the map sends some value of the range. */
  lemma ProdMapBackward(rules: seq<ProdRange>, val: Span, w: int) returns (v: int)
    requires val.start < val.end
    requires ProdMapResult(rules, val).Ok? && Count(ProdMapResult(rules, val).value, w) > 0
    ensures val.start <= v < val.end && MapValue(rules, v) == w
  {
    ProdMapUnfold(rules, val);
    var resolved, processing := ApplyRules(rules, val).value.0, ApplyRules(rules, val).value.1;
    CountConcat(resolved, processing, w);
    WaitingAt(rules, val, w);
    ResolvedAt(rules, val, w);
    if Count(processing, w) > 0 {
      v := w;
    } else {
      var j := HitsWitness(rules, val, w);
      v := w - rules[j].destination + rules[j].source;
      FirstCoveringAt(rules, j, v);
    }
  }

  /** `ProdMap::map` of a non-empty range never fails, loses no length, and
      with rules of positive length leaves no piece empty. */
  lemma ProdMapShape(rules: seq<ProdRange>, val: Span)
    requires val.start < val.end
    ensures ProdMapResult(rules, val).Ok?
    ensures Length(ProdMapResult(rules, val).value) == val.end - val.start
    ensures Positive(rules) ==> NonEmpty(ProdMapResult(rules, val).value)
  {
    ApplyRulesShape(rules, val);
    var (resolved, processing) := ApplyRules(rules, val).value;
    CountConcat(resolved, processing, 0);
    if Positive(rules) {
      NonEmptyConcat(resolved, processing);
    }
  }

  /** `ProdMap::map` of a non-empty range never fails; its pieces hold
      exactly the images of the range's values under the first rule that
      covers each (unchanged when none does), so a value a rule has mapped is
      not remapped by later rules; no length is lost, and with rules of
      positive length no piece is empty. */
  lemma ProdMapMeaning(rules: seq<ProdRange>, val: Span)
    requires val.start < val.end
    ensures ProdMapResult(rules, val).Ok?
    ensures Length(ProdMapResult(rules, val).value) == val.end - val.start
    ensures Positive(rules) ==> NonEmpty(ProdMapResult(rules, val).value)
    ensures forall v :: val.start <= v < val.end ==> Count(ProdMapResult(rules, val).value, MapValue(rules, v)) > 0
    ensures forall w :: Count(ProdMapResult(rules, val).value, w) > 0 ==>
      exists v :: val.start <= v < val.end && MapValue(rules, v) == w
  {
    ProdMapShape(rules, val);
    forall v | val.start <= v < val.end
      ensures Count(ProdMapResult(rules, val).value, MapValue(rules, v)) > 0
    {
      ProdMapForward(rules, val, v);
    }
    forall w | Count(ProdMapResult(rules, val).value, w) > 0
      ensures exists v :: val.start <= v < val.end && MapValue(rules, v) == w
    {
      var v := ProdMapBackward(rules, val, w);
    }
  }

  // ----- a map applied to many pieces, and the seven maps in turn -----

  lemma NonEmptyPrefix(spans: seq<Span>, n: nat)
    requires NonEmpty(spans) && n <= |spans|
    ensures NonEmpty(spans[..n])
  {
    assert forall k :: 0 <= k < n ==> spans[..n][k] == spans[k];
  }

  /** One map applied to each piece in turn, the results joined in order;
      the first error stops it. */
  function MapAll(rules: seq<ProdRange>, ranges: seq<Span>): Result<seq<Span>, Fault>
    requires NonEmpty(ranges)
  {
    if ranges == [] then Ok([])
    else
      var n := |ranges| - 1;
      NonEmptyPrefix(ranges, n);
      match MapAll(rules, ranges[..n])
      case Err(e) => Err(e)
      case Ok(acc) =>
        match ProdMapResult(rules, ranges[n])
        case Err(e) => Err(e)
        case Ok(m) => Ok(acc + m)
  }

  /** A map applied to non-empty pieces never fails, keeps the total length,
      and with rules of positive length leaves no piece empty. */
  lemma {:induction false} MapAllShape(rules: seq<ProdRange>, ranges: seq<Span>)
    requires NonEmpty(ranges)
    ensures MapAll(rules, ranges).Ok?
    ensures Length(MapAll(rules, ranges).value) == Length(ranges)
    ensures Positive(rules) ==> NonEmpty(MapAll(rules, ranges).value)
  {
    if ranges != [] {
      var n := |ranges| - 1;
      MapAllUnfold(rules, ranges);
      MapAllShape(rules, ranges[..n]);
      ProdMapShape(rules, ranges[n]);
      var acc := MapAll(rules, ranges[..n]).value;
      var m := ProdMapResult(rules, ranges[n]).value;
      CountConcat(acc, m, 0);
      assert Length(ranges) == Length(ranges[..n]) + (ranges[n].end - ranges[n].start);
      if Positive(rules) {
        NonEmptyConcat(acc, m);
      }
    }
  }

  /** `MapAll` on non-empty pieces, one step unfolded. */
  lemma MapAllUnfold(rules: seq<ProdRange>, ranges: seq<Span>)
    requires NonEmpty(ranges) && ranges != []
    ensures NonEmpty(ranges[..|ranges| - 1]) && ranges[|ranges| - 1].start < ranges[|ranges| - 1].end
    ensures MapAll(rules, ranges[..|ranges| - 1]).Ok? ==>
      MapAll(rules, ranges).Ok? && MapAll(rules, ranges).value
        == MapAll(rules, ranges[..|ranges| - 1]).value + ProdMapResult(rules, ranges[|ranges| - 1]).value
  {
    NonEmptyPrefix(ranges, |ranges| - 1);
    ProdMapUnfold(rules, ranges[|ranges| - 1]);
  }

  /** A map applied to pieces, value by value: each value held is held,
      mapped, in the result. */
  lemma {:induction false} MapAllForward(rules: seq<ProdRange>, ranges: seq<Span>, v: int)
    requires NonEmpty(ranges) && Count(ranges, v) > 0
    ensures MapAll(rules, ranges).Ok?
    ensures Count(MapAll(rules, ranges).value, MapValue(rules, v)) > 0
  {
    MapAllShape(rules, ranges);
    var n := |ranges| - 1;
    NonEmptyPrefix(ranges, n);
    MapAllShape(rules, ranges[..n]);
    ProdMapShape(rules, ranges[n]);
    var acc := MapAll(rules, ranges[..n]).value;
    var m := ProdMapResult(rules, ranges[n]).value;
    CountConcat(acc, m, MapValue(rules, v));
    if Count(ranges[..n], v) > 0 {
      MapAllForward(rules, ranges[..n], v);
    } else {
      ProdMapForward(rules, ranges[n], v);
    }
  }

  /** A map applied to pieces, value by value: each value of the result
      comes from a value held by the pieces. */
  lemma {:induction false} MapAllBackward(rules: seq<ProdRange>, ranges: seq<Span>, w: int) returns (v: int)
    requires NonEmpty(ranges)
    requires MapAll(rules, ranges).Ok? && Count(MapAll(rules, ranges).value, w) > 0
    ensures Count(ranges, v) > 0 && MapValue(rules, v) == w
  {
    var n := |ranges| - 1;
    NonEmptyPrefix(ranges, n);
    MapAllShape(rules, ranges[..n]);
    ProdMapShape(rules, ranges[n]);
    var acc := MapAll(rules, ranges[..n]).value;
    var m := ProdMapResult(rules, ranges[n]).value;
    CountConcat(acc, m, w);
    if Count(acc, w) > 0 {
      v := MapAllBackward(rules, ranges[..n], w);
    } else {
      v := ProdMapBackward(rules, ranges[n], w);
    }
  }

  /** Every map held has rules of positive length. */
  predicate AllPositive(maps: map<ProdMapName, seq<ProdRange>>) {
    forall name :: name in maps ==> Positive(maps[name])
  }

  /** `ProdMaps::map` over the names still to visit: a map that is present
      is applied to every piece, and a missing one leaves the pieces as they
      are. */
  function MapThrough(maps: map<ProdMapName, seq<ProdRange>>, names: seq<ProdMapName>, res: seq<Span>)
    : Result<seq<Span>, Fault>
    requires NonEmpty(res) && AllPositive(maps)
  {
    if names == [] then Ok(res)
    else if names[0] in maps then
      MapAllShape(maps[names[0]], res);
      match MapAll(maps[names[0]], res)
      case Err(e) => Err(e)
      case Ok(next) => MapThrough(maps, names[1..], next)
    else MapThrough(maps, names[1..], res)
  }

  /** Where the maps `names` send `v` one after another; a missing map sends
      every value to itself. */
  function Chain(maps: map<ProdMapName, seq<ProdRange>>, names: seq<ProdMapName>, v: int): int {
    if names == [] then v
    else Chain(maps, names[1..], if names[0] in maps then MapValue(maps[names[0]], v) else v)
  }

  /** The maps in turn never fail, keep the total length and leave no piece
      empty. */
  lemma {:induction false} MapThroughShape(maps: map<ProdMapName, seq<ProdRange>>, names: seq<ProdMapName>, res: seq<Span>)
    requires NonEmpty(res) && AllPositive(maps)
    ensures MapThrough(maps, names, res).Ok?
    ensures Length(MapThrough(maps, names, res).value) == Length(res)
    ensures NonEmpty(MapThrough(maps, names, res).value)
  {
    if names != [] {
      if names[0] in maps {
        MapAllShape(maps[names[0]], res);
        MapThroughShape(maps, names[1..], MapAll(maps[names[0]], res).value);
      } else {
        MapThroughShape(maps, names[1..], res);
      }
    }
  }

  /** The maps in turn, value by value: each value held reaches the end of
      the chain. */
  lemma {:induction false} MapThroughForward(maps: map<ProdMapName, seq<ProdRange>>, names: seq<ProdMapName>,
                                             res: seq<Span>, v: int)
    requires NonEmpty(res) && AllPositive(maps) && Count(res, v) > 0
    ensures MapThrough(maps, names, res).Ok?
    ensures Count(MapThrough(maps, names, res).value, Chain(maps, names, v)) > 0
  {
    MapThroughShape(maps, names, res);
    if names != [] {
      if names[0] in maps {
        MapAllShape(maps[names[0]], res);
        MapAllForward(maps[names[0]], res, v);
        MapThroughForward(maps, names[1..], MapAll(maps[names[0]], res).value, MapValue(maps[names[0]], v));
      } else {
        MapThroughForward(maps, names[1..], res, v);
      }
    }
  }

  /** The maps in turn, value by value: each value at the end comes from a
      value held at the start. */
  lemma {:induction false} MapThroughBackward(maps: map<ProdMapName, seq<ProdRange>>, names: seq<ProdMapName>,
                                              res: seq<Span>, w: int) returns (v: int)
    requires NonEmpty(res) && AllPositive(maps)
    requires MapThrough(maps, names, res).Ok? && Count(MapThrough(maps, names, res).value, w) > 0
    ensures Count(res, v) > 0 && Chain(maps, names, v) == w
  {
    if names == [] {
      v := w;
    } else if names[0] in maps {
      MapAllShape(maps[names[0]], res);
      var next := MapAll(maps[names[0]], res).value;
      var u := MapThroughBackward(maps, names[1..], next, w);
      v := MapAllBackward(maps[names[0]], res, u);
    } else {
      v := MapThroughBackward(maps, names[1..], res, w);
    }
  }

  /** The almanac: the rules of each map read so far. */
  class ProdMaps {
    var maps: map<ProdMapName, seq<ProdRange>>

    constructor ()
      ensures maps == map[]
    {
      maps := map[];
    }

    /** `ProdMaps::push` and `ProdMap::push`: the rule is appended to its
        map, which is created empty first if missing; other maps are kept. */
    method Push(name: ProdMapName, range: ProdRange)
      modifies this
      ensures maps == old(maps)[name := (if name in old(maps) then old(maps)[name] else []) + [range]]
    {
      var rules := if name in maps then maps[name] else [];
      maps := maps[name := rules + [range]];
    }

    /** `ProdMaps::map`: the seeds go through every map from the first one
        on, following `next`; a missing map leaves the pieces as they are. */
    method Map(seeds: Span) returns (r: Result<seq<Span>, Fault>)
      requires seeds.start < seeds.end && AllPositive(maps)
      ensures r == MapThrough(maps, NamesFrom(First()), [seeds])
    {
      var res: seq<Span> := [seeds];
      var next: Option<ProdMapName> := Some(First());
      ghost var remaining := NamesFrom(First());
      while next.Some?
        invariant NonEmpty(res)
        invariant remaining == if next.Some? then NamesFrom(next.value) else []
        invariant MapThrough(maps, remaining, res) == MapThrough(maps, NamesFrom(First()), [seeds])
        decreases |remaining|
      {
        var name := next.value;
        if name in maps {
          var m := MapEach(maps[name], res);
          if m.Err? {
            return Err(m.error);
          }
          MapAllShape(maps[name], res);
          res := m.value;
        }
        next := Next(name);
        remaining := remaining[1..];
      }
      return Ok(res);
    }
  }

  /** The loop of `ProdMaps::map` over the pieces for one map. */
  method MapEach(rules: seq<ProdRange>, res: seq<Span>) returns (r: Result<seq<Span>, Fault>)
    requires NonEmpty(res)
    ensures r == MapAll(rules, res)
  {
    var newRes: seq<Span> := [];
    for k := 0 to |res|
      invariant NonEmpty(res[..k]) && MapAll(rules, res[..k]) == Ok(newRes)
    {
      assert res[..k + 1][..k] == res[..k];
      NonEmptyPrefix(res, k + 1);
      var m := ProdMapMap(rules, res[k]);
      if m.Err? {
        assert MapAll(rules, res[..k + 1]) == Err(m.error);
        MapAllErrorSticks(rules, res, k + 1);
        return Err(m.error);
      }
      newRes := newRes + m.value;
    }
    assert res[..|res|] == res;
    return Ok(newRes);
  }

  lemma {:induction false} MapAllErrorSticks(rules: seq<ProdRange>, ranges: seq<Span>, k: nat)
    requires NonEmpty(ranges) && k <= |ranges|
    requires NonEmpty(ranges[..k]) && MapAll(rules, ranges[..k]).Err?
    ensures MapAll(rules, ranges) == MapAll(rules, ranges[..k])
    decreases |ranges| - k
  {
    if k < |ranges| {
      assert ranges[..k + 1][..k] == ranges[..k];
      NonEmptyPrefix(ranges, k + 1);
      MapAllErrorSticks(rules, ranges, k + 1);
    } else {
      assert ranges[..k] == ranges;
    }
  }

  /** The seven maps in turn: no length is lost, every seed reaches the end
      of the chain, and everything at the end is where some seed is sent. */
  lemma MapThroughMeaning(maps: map<ProdMapName, seq<ProdRange>>, seeds: Span)
    requires seeds.start < seeds.end && AllPositive(maps)
    ensures MapThrough(maps, NamesFrom(First()), [seeds]).Ok?
    ensures Length(MapThrough(maps, NamesFrom(First()), [seeds]).value) == seeds.end - seeds.start
    ensures forall v :: seeds.start <= v < seeds.end ==>
      Count(MapThrough(maps, NamesFrom(First()), [seeds]).value, Chain(maps, NamesFrom(First()), v)) > 0
    ensures forall w :: Count(MapThrough(maps, NamesFrom(First()), [seeds]).value, w) > 0 ==>
      exists v :: seeds.start <= v < seeds.end && Chain(maps, NamesFrom(First()), v) == w
  {
    var names := NamesFrom(First());
    CountOne(seeds, 0);
    MapThroughShape(maps, names, [seeds]);
    forall v | seeds.start <= v < seeds.end
      ensures Count(MapThrough(maps, names, [seeds]).value, Chain(maps, names, v)) > 0
    {
      CountOne(seeds, v);
      MapThroughForward(maps, names, [seeds], v);
    }
    forall w | Count(MapThrough(maps, NamesFrom(First()), [seeds]).value, w) > 0
      ensures exists v :: seeds.start <= v < seeds.end && Chain(maps, NamesFrom(First()), v) == w
    {
      var v := MapThroughBackward(maps, names, [seeds], w);
      CountOne(seeds, v);
      assert seeds.start <= v < seeds.end && Chain(maps, names, v) == w;
    }
    assert forall w :: Count(MapThrough(maps, NamesFrom(First()), [seeds]).value, w) > 0 ==>
      exists v :: seeds.start <= v < seeds.end && Chain(maps, NamesFrom(First()), v) == w;
  }

  /** Pushing a rule that covers something keeps every map's rules of
      positive length. */
  lemma PushKeepsPositive(maps: map<ProdMapName, seq<ProdRange>>, name: ProdMapName, range: ProdRange)
    requires AllPositive(maps) && range.length > 0
    ensures AllPositive(maps[name := (if name in maps then maps[name] else []) + [range]])
  {
    var rules := if name in maps then maps[name] else [];
    assert forall k :: 0 <= k < |rules| ==> (rules + [range])[k] == rules[k];
    assert (rules + [range])[|rules|] == range;
  }

  // ----- the nearest location -----

  /** The smaller of `lowest` and the starts of `pieces`, found in order. */
  function MinStart(pieces: seq<Span>, lowest: nat): (r: nat)
    ensures r <= lowest
  {
    if pieces == [] then lowest
    else
      var m := MinStart(pieces[..|pieces| - 1], lowest);
      if pieces[|pieces| - 1].start < m then pieces[|pieces| - 1].start else m
  }

  /** Over non-empty pieces, the smallest start is at most every value held. */
  lemma {:induction false} MinStartBelow(pieces: seq<Span>, lowest: nat, v: int)
    requires NonEmpty(pieces) && Count(pieces, v) > 0
    ensures MinStart(pieces, lowest) <= v
  {
    var n := |pieces| - 1;
    NonEmptyPrefix(pieces, n);
    if Count(pieces[..n], v) > 0 {
      MinStartBelow(pieces[..n], lowest, v);
    }
  }

  /** The smallest start is `lowest` or a value the non-empty pieces hold. */
  lemma {:induction false} MinStartHeld(pieces: seq<Span>, lowest: nat)
    requires NonEmpty(pieces)
    ensures MinStart(pieces, lowest) == lowest || Count(pieces, MinStart(pieces, lowest)) > 0
  {
    if pieces != [] {
      var n := |pieces| - 1;
      NonEmptyPrefix(pieces, n);
      MinStartHeld(pieces[..n], lowest);
    }
  }

  /** The loop of `main` that keeps the lowest start: starting from
      `u64::MAX`, every span of seeds goes through the maps and each
      resulting piece may lower it. */
  function LowestOf(maps: map<ProdMapName, seq<ProdRange>>, spans: seq<Span>): Result<nat, Fault>
    requires AllPositive(maps) && NonEmpty(spans)
  {
    if spans == [] then Ok(MaxU64)
    else
      var n := |spans| - 1;
      NonEmptyPrefix(spans, n);
      match LowestOf(maps, spans[..n])
      case Err(e) => Err(e)
      case Ok(low) =>
        match MapThrough(maps, NamesFrom(First()), [spans[n]])
        case Err(e) => Err(e)
        case Ok(res) => Ok(MinStart(res, low))
  }

  /** The lowest location is never above the location of any seed. */
  lemma {:induction false} LowestBelow(maps: map<ProdMapName, seq<ProdRange>>, spans: seq<Span>, k: nat, v: int)
    requires AllPositive(maps) && NonEmpty(spans)
    requires k < |spans| && spans[k].start <= v < spans[k].end
    ensures LowestOf(maps, spans).Ok?
    ensures LowestOf(maps, spans).value <= Chain(maps, NamesFrom(First()), v)
  {
    var n := |spans| - 1;
    NonEmptyPrefix(spans, n);
    LowestOk(maps, spans[..n]);
    MapThroughShape(maps, NamesFrom(First()), [spans[n]]);
    if k == n {
      CountOne(spans[n], v);
      MapThroughForward(maps, NamesFrom(First()), [spans[n]], v);
      MinStartBelow(MapThrough(maps, NamesFrom(First()), [spans[n]]).value, LowestOf(maps, spans[..n]).value,
                    Chain(maps, NamesFrom(First()), v));
    } else {
      assert spans[..n][k] == spans[k];
      LowestBelow(maps, spans[..n], k, v);
    }
  }

  /** The lowest location is never an error. */
  lemma {:induction false} LowestOk(maps: map<ProdMapName, seq<ProdRange>>, spans: seq<Span>)
    requires AllPositive(maps) && NonEmpty(spans)
    ensures LowestOf(maps, spans).Ok?
  {
    if spans != [] {
      var n := |spans| - 1;
      NonEmptyPrefix(spans, n);
      LowestOk(maps, spans[..n]);
      MapThroughShape(maps, NamesFrom(First()), [spans[n]]);
    }
  }

  /** The lowest location, unless no seed lowered `u64::MAX`, is the
      location of some seed. */
  lemma {:induction false} LowestReached(maps: map<ProdMapName, seq<ProdRange>>, spans: seq<Span>) returns (k: nat, v: int)
    requires AllPositive(maps) && NonEmpty(spans)
    requires LowestOf(maps, spans).Ok? && LowestOf(maps, spans).value != MaxU64
    ensures k < |spans| && spans[k].start <= v < spans[k].end
    ensures Chain(maps, NamesFrom(First()), v) == LowestOf(maps, spans).value
  {
    var n := |spans| - 1;
    NonEmptyPrefix(spans, n);
    LowestOk(maps, spans[..n]);
    MapThroughShape(maps, NamesFrom(First()), [spans[n]]);
    var low := LowestOf(maps, spans[..n]).value;
    var res := MapThrough(maps, NamesFrom(First()), [spans[n]]).value;
    MinStartHeld(res, low);
    if MinStart(res, low) == low {
      k, v := LowestReached(maps, spans[..n]);
      assert spans[..n][k] == spans[k];
    } else {
      v := MapThroughBackward(maps, NamesFrom(First()), [spans[n]], MinStart(res, low));
      CountOne(spans[n], v);
      k := n;
    }
  }

  /** The answer of `main`: at most the location of every seed, and equal to
      the location of one of them unless it stayed `u64::MAX`. */
  lemma LowestMeaning(maps: map<ProdMapName, seq<ProdRange>>, spans: seq<Span>)
    requires AllPositive(maps) && NonEmpty(spans)
    ensures LowestOf(maps, spans).Ok?
    ensures forall k, v :: 0 <= k < |spans| && spans[k].start <= v < spans[k].end ==>
      LowestOf(maps, spans).value <= Chain(maps, NamesFrom(First()), v)
    ensures LowestOf(maps, spans).value == MaxU64
      || exists k, v :: 0 <= k < |spans| && spans[k].start <= v < spans[k].end
           && Chain(maps, NamesFrom(First()), v) == LowestOf(maps, spans).value
  {
    LowestOk(maps, spans);
    forall k, v | 0 <= k < |spans| && spans[k].start <= v < spans[k].end
      ensures LowestOf(maps, spans).value <= Chain(maps, NamesFrom(First()), v)
    {
      LowestBelow(maps, spans, k, v);
    }
    if LowestOf(maps, spans).value != MaxU64 {
      var k, v := LowestReached(maps, spans);
    }
  }

  lemma {:induction false} LowestErrorSticks(maps: map<ProdMapName, seq<ProdRange>>, spans: seq<Span>, i: nat)
    requires AllPositive(maps) && NonEmpty(spans) && i <= |spans|
    requires NonEmpty(spans[..i]) && LowestOf(maps, spans[..i]).Err?
    ensures LowestOf(maps, spans) == LowestOf(maps, spans[..i])
    decreases |spans| - i
  {
    if i < |spans| {
      assert spans[..i + 1][..i] == spans[..i];
      NonEmptyPrefix(spans, i + 1);
      LowestErrorSticks(maps, spans, i + 1);
    } else {
      assert spans[..i] == spans;
    }
  }

  /** The lowest-location loop of `main` over spans of seeds. */
  method Lowest(almanac: ProdMaps, spans: seq<Span>) returns (r: Result<nat, Fault>)
    requires AllPositive(almanac.maps) && NonEmpty(spans)
    ensures r == LowestOf(almanac.maps, spans)
  {
    var lowest: nat := MaxU64;
    for i := 0 to |spans|
      invariant NonEmpty(spans[..i]) && LowestOf(almanac.maps, spans[..i]) == Ok(lowest)
    {
      assert spans[..i + 1][..i] == spans[..i];
      NonEmptyPrefix(spans, i + 1);
      var res := almanac.Map(spans[i]);
      if res.Err? {
        assert LowestOf(almanac.maps, spans[..i + 1]) == Err(res.error);
        LowestErrorSticks(almanac.maps, spans, i + 1);
        return Err(res.error);
      }
      ghost var low0 := lowest;
      var pieces := res.value;
      for k := 0 to |pieces|
        invariant lowest == MinStart(pieces[..k], low0)
      {
        assert pieces[..k + 1][..k] == pieces[..k];
        if pieces[k].start < lowest {
          lowest := pieces[k].start;
        }
      }
      assert pieces[..|pieces|] == pieces;
    }
    assert spans[..|spans|] == spans;
    return Ok(lowest);
  }

  /** The first answer takes every seed alone, as the range `seed .. seed + 1`. */
  function SeedSpans(seeds: seq<nat>): (r: seq<Span>)
    ensures |r| == |seeds| && NonEmpty(r)
    ensures forall k :: 0 <= k < |seeds| ==> r[k] == Span(seeds[k], seeds[k] + 1)
  {
    seq(|seeds|, k requires 0 <= k < |seeds| => Span(seeds[k], seeds[k] + 1))
  }

  /** The second answer reads the seeds in pairs, a start and a length; an
      odd last number is dropped. */
  function PairSpans(seeds: seq<nat>): (r: seq<Span>)
    ensures |r| == |seeds| / 2
    decreases |seeds|
  {
    if |seeds| < 2 then [] else [Span(seeds[0], seeds[0] + seeds[1])] + PairSpans(seeds[2..])
  }

  /** Pair `k` starts at seed number `2k` and is as long as seed number `2k + 1`. */
  lemma {:induction false} PairSpansAt(seeds: seq<nat>, k: nat)
    requires k < |seeds| / 2
    ensures PairSpans(seeds)[k] == Span(seeds[2 * k], seeds[2 * k] + seeds[2 * k + 1])
    decreases |seeds|
  {
    if k > 0 {
      PairSpansAt(seeds[2..], k - 1);
      assert seeds[2..][2 * (k - 1)] == seeds[2 * k];
      assert seeds[2..][2 * (k - 1) + 1] == seeds[2 * k + 1];
    }
  }

  /** `main` after reading the almanac: the lowest location for single
      seeds, then for seed ranges. */
  method Solve(almanac: ProdMaps, seeds: seq<nat>) returns (nearest: Result<nat, Fault>, nearestOfRanges: Result<nat, Fault>)
    requires AllPositive(almanac.maps) && NonEmpty(PairSpans(seeds))
    ensures nearest == LowestOf(almanac.maps, SeedSpans(seeds))
    ensures nearestOfRanges == LowestOf(almanac.maps, PairSpans(seeds))
  {
    nearest := Lowest(almanac, SeedSpans(seeds));
    nearestOfRanges := Lowest(almanac, PairSpans(seeds));
  }

  /** The first answer is the smallest location of any seed, or `u64::MAX`
      without seeds. */
  lemma NearestSeed(maps: map<ProdMapName, seq<ProdRange>>, seeds: seq<nat>)
    requires AllPositive(maps)
    ensures LowestOf(maps, SeedSpans(seeds)).Ok?
    ensures forall k :: 0 <= k < |seeds| ==>
      LowestOf(maps, SeedSpans(seeds)).value <= Chain(maps, NamesFrom(First()), seeds[k])
    ensures seeds == [] ==> LowestOf(maps, SeedSpans(seeds)) == Ok(MaxU64)
    ensures LowestOf(maps, SeedSpans(seeds)).value == MaxU64
      || exists k :: 0 <= k < |seeds| && Chain(maps, NamesFrom(First()), seeds[k]) == LowestOf(maps, SeedSpans(seeds)).value
  {
    var spans := SeedSpans(seeds);
    LowestMeaning(maps, spans);
    forall k | 0 <= k < |seeds|
      ensures LowestOf(maps, spans).value <= Chain(maps, NamesFrom(First()), seeds[k])
    {
      assert spans[k].start <= seeds[k] < spans[k].end;
    }
    if seeds == [] {
      assert spans == [];
    }
    if LowestOf(maps, spans).value != MaxU64 {
      var k, v := LowestReached(maps, spans);
      assert v == seeds[k];
    }
  }
}
