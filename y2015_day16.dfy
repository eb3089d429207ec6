/** 2015 day 16: which Aunt Sue sent the present, matching the things each
    aunt is remembered to have against the ticker tape's readings. */
module Year2015Day16 {
  import opened Wrappers
  import opened Numerals

  const MinI32: int := -0x8000_0000
  const MaxI32: int := 0x7fff_ffff

  /** The ten things the ticker tape reports. */
  datatype Stat = Akitas | Cars | Cats | Children | Goldfish | Samoyeds | Trees | Vizslas | Pomeranians | Perfumes

  /** What is known of one aunt; `None` where the count is not remembered. */
  datatype Aunt = Aunt(
    num: int,
    akitas: Option<int>, cars: Option<int>, cats: Option<int>, children: Option<int>, goldfish: Option<int>,
    samoyeds: Option<int>, trees: Option<int>, vizslas: Option<int>, pomeranians: Option<int>, perfumes: Option<int>)

  /** `Aunt::default()`. */
  const Unknown: Aunt := Aunt(0, None, None, None, None, None, None, None, None, None, None)

  function Get(a: Aunt, s: Stat): Option<int> {
    match s
    case Akitas => a.akitas
    case Cars => a.cars
    case Cats => a.cats
    case Children => a.children
    case Goldfish => a.goldfish
    case Samoyeds => a.samoyeds
    case Trees => a.trees
    case Vizslas => a.vizslas
    case Pomeranians => a.pomeranians
    case Perfumes => a.perfumes
  }

  function Set(a: Aunt, s: Stat, v: Option<int>): (r: Aunt)
    ensures r.num == a.num && Get(r, s) == v
    ensures forall t :: t != s ==> Get(r, t) == Get(a, t)
  {
    match s
    case Akitas => a.(akitas := v)
    case Cars => a.(cars := v)
    case Cats => a.(cats := v)
    case Children => a.(children := v)
    case Goldfish => a.(goldfish := v)
    case Samoyeds => a.(samoyeds := v)
    case Trees => a.(trees := v)
    case Vizslas => a.(vizslas := v)
    case Pomeranians => a.(pomeranians := v)
    case Perfumes => a.(perfumes := v)
  }

  /** Rust's order on `Option`: `None` below every `Some`. */
  predicate Below(a: Option<int>, b: Option<int>) {
    match (a, b)
    case (None, Some(_)) => true
    case (Some(x), Some(y)) => x < y
    case _ => false
  }

  /** `eq`: an unknown count matches anything. */
  predicate Eq(expected: Option<int>, actual: Option<int>) {
    actual == None || actual == expected
  }

  /** `gt`: unknown, or more than the reading. */
  predicate Gt(expected: Option<int>, actual: Option<int>) {
    actual == None || Below(expected, actual)
  }

  /** `lt`: unknown, or fewer than the reading. */
  predicate Lt(expected: Option<int>, actual: Option<int>) {
    actual == None || Below(actual, expected)
  }

  /** Against a known reading the comparisons mean what they say. */
  lemma CompareKnown(x: int, actual: Option<int>)
    ensures Eq(Some(x), actual) <==> actual.None? || actual.value == x
    ensures Gt(Some(x), actual) <==> actual.None? || actual.value > x
    ensures Lt(Some(x), actual) <==> actual.None? || actual.value < x
  {
  }

  /** An unknown reading is matched by `gt` whatever is known, and by `lt` only when nothing is. */
  lemma CompareUnknownReading(actual: Option<int>)
    ensures Gt(None, actual)
    ensures Lt(None, actual) <==> actual.None?
  {
  }

  /** `match_simple`. */
  predicate MatchSimple(expected: Aunt, actual: Aunt) {
    && Eq(expected.akitas, actual.akitas)
    && Eq(expected.cars, actual.cars)
    && Eq(expected.cats, actual.cats)
    && Eq(expected.children, actual.children)
    && Eq(expected.goldfish, actual.goldfish)
    && Eq(expected.samoyeds, actual.samoyeds)
    && Eq(expected.trees, actual.trees)
    && Eq(expected.vizslas, actual.vizslas)
    && Eq(expected.pomeranians, actual.pomeranians)
    && Eq(expected.perfumes, actual.perfumes)
  }

  /** `match_complex`. */
  predicate MatchComplex(expected: Aunt, actual: Aunt) {
    && Eq(expected.akitas, actual.akitas)
    && Eq(expected.cars, actual.cars)
    && Gt(expected.cats, actual.cats)
    && Eq(expected.children, actual.children)
    && Lt(expected.goldfish, actual.goldfish)
    && Eq(expected.samoyeds, actual.samoyeds)
    && Gt(expected.trees, actual.trees)
    && Eq(expected.vizslas, actual.vizslas)
    && Lt(expected.pomeranians, actual.pomeranians)
    && Eq(expected.perfumes, actual.perfumes)
  }

  /** How the retroencabulator reading of each thing is to be compared. */
  datatype Rule = Exactly | MoreThan | FewerThan

  function RuleFor(s: Stat): Rule {
    match s
    case Cats | Trees => MoreThan
    case Goldfish | Pomeranians => FewerThan
    case _ => Exactly
  }

  predicate Obeys(rule: Rule, expected: Option<int>, actual: Option<int>) {
    match rule
    case Exactly => Eq(expected, actual)
    case MoreThan => Gt(expected, actual)
    case FewerThan => Lt(expected, actual)
  }

  /** The simple match compares every one of the ten things for equality. */
  lemma SimpleIsEveryStat(expected: Aunt, actual: Aunt)
    ensures MatchSimple(expected, actual) <==> forall s: Stat :: Eq(Get(expected, s), Get(actual, s))
  {
    if !MatchSimple(expected, actual) {
      var s :| s in [Akitas, Cars, Cats, Children, Goldfish, Samoyeds, Trees, Vizslas, Pomeranians, Perfumes]
        && !Eq(Get(expected, s), Get(actual, s));
    }
  }

  /** The complex match compares cats and trees by "more than", goldfish and
      pomeranians by "fewer than", and the rest for equality. */
  lemma ComplexIsEveryRule(expected: Aunt, actual: Aunt)
    ensures MatchComplex(expected, actual) <==> forall s: Stat :: Obeys(RuleFor(s), Get(expected, s), Get(actual, s))
  {
    if !MatchComplex(expected, actual) {
      var s :| s in [Akitas, Cars, Cats, Children, Goldfish, Samoyeds, Trees, Vizslas, Pomeranians, Perfumes]
        && !Obeys(RuleFor(s), Get(expected, s), Get(actual, s));
    }
  }

  /** An aunt nothing is known about matches under both rules. */
  lemma UnknownMatchesBoth(expected: Aunt, actual: Aunt)
    requires forall s: Stat :: Get(actual, s).None?
    ensures MatchSimple(expected, actual) && MatchComplex(expected, actual)
  {
    SimpleIsEveryStat(expected, actual);
    ComplexIsEveryRule(expected, actual);
  }

  /** The ticker tape's readings. */
  const Expected: Aunt := Aunt(-1, Some(0), Some(2), Some(7), Some(3), Some(5), Some(2), Some(3), Some(0), Some(3), Some(1))

  function StatNamed(name: string): Option<Stat> {
    match name
    case "akitas" => Some(Akitas)
    case "cars" => Some(Cars)
    case "cats" => Some(Cats)
    case "children" => Some(Children)
    case "goldfish" => Some(Goldfish)
    case "samoyeds" => Some(Samoyeds)
    case "trees" => Some(Trees)
    case "vizslas" => Some(Vizslas)
    case "pomeranians" => Some(Pomeranians)
    case "perfumes" => Some(Perfumes)
    case _ => None
  }

  /** One `name: count` stat, already split at ": ", recorded on the aunt. */
  function ApplyStat(aunt: Aunt, pair: seq<string>): (r: Result<Aunt, string>)
    ensures r.Ok? <==> |pair| == 2 && ParseSigned(pair[1], MinI32, MaxI32).Some? && StatNamed(pair[0]).Some?
    ensures r.Ok? ==> r.value == Set(aunt, StatNamed(pair[0]).value, ParseSigned(pair[1], MinI32, MaxI32))
  {
    if |pair| != 2 then Err("Expected a name and a count")
    else
      var value := ParseSigned(pair[1], MinI32, MaxI32);
      if value.None? then Err("Bad count")
      else match StatNamed(pair[0]) {
        case None => Err("Unexpected stat name")
        case Some(s) => Ok(Set(aunt, s, value))
      }
  }

  /** The stats of a line applied in order. */
  function ApplyStats(aunt: Aunt, stats: seq<seq<string>>): Result<Aunt, string> {
    if stats == [] then Ok(aunt)
    else
      var a :- ApplyStats(aunt, stats[..|stats| - 1]);
      ApplyStat(a, stats[|stats| - 1])
  }

  /** Reading one aunt: her number and her stats, starting from nothing known. */
  method ReadAunt(num: int, stats: seq<seq<string>>) returns (r: Result<Aunt, string>)
    ensures r == ApplyStats(Unknown.(num := num), stats)
  {
    var aunt := Unknown.(num := num);
    for k := 0 to |stats|
      invariant ApplyStats(Unknown.(num := num), stats[..k]) == Ok(aunt)
    {
      assert stats[..k + 1][..k] == stats[..k];
      var step := ApplyStat(aunt, stats[k]);
      if step.Err? {
        r := Err(step.error);
        assert ApplyStats(Unknown.(num := num), stats[..k + 1]).Err?;
        ErrSticks(Unknown.(num := num), stats, k + 1);
        return;
      }
      aunt := step.value;
    }
    assert stats[..|stats|] == stats;
    r := Ok(aunt);
  }

  lemma {:induction false} ErrSticks(aunt: Aunt, stats: seq<seq<string>>, k: nat)
    requires k <= |stats| && ApplyStats(aunt, stats[..k]).Err?
    ensures ApplyStats(aunt, stats).Err? && ApplyStats(aunt, stats).error == ApplyStats(aunt, stats[..k]).error
    decreases |stats| - k
  {
    if k < |stats| {
      assert stats[..k + 1][..k] == stats[..k];
      ErrSticks(aunt, stats, k + 1);
    } else {
      assert stats[..k] == stats;
    }
  }

  /** The main loop: the numbers of the aunts that match under each rule, in order. */
  method FindAunts(aunts: seq<Aunt>) returns (simple: seq<int>, complex: seq<int>)
    ensures forall n :: n in simple <==> exists a :: a in aunts && a.num == n && MatchSimple(Expected, a)
    ensures forall n :: n in complex <==> exists a :: a in aunts && a.num == n && MatchComplex(Expected, a)
  {
    simple, complex := [], [];
    for k := 0 to |aunts|
      invariant forall n :: n in simple <==> exists a :: a in aunts[..k] && a.num == n && MatchSimple(Expected, a)
      invariant forall n :: n in complex <==> exists a :: a in aunts[..k] && a.num == n && MatchComplex(Expected, a)
    {
      assert aunts[..k + 1] == aunts[..k] + [aunts[k]];
      if MatchSimple(Expected, aunts[k]) {
        simple := simple + [aunts[k].num];
      }
      if MatchComplex(Expected, aunts[k]) {
        complex := complex + [aunts[k].num];
      }
    }
    assert aunts[..|aunts|] == aunts;
  }
}
