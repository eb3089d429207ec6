/** 2023 day 6: boat races. Holding the button for `h` of a race's `time`
    milliseconds makes the boat travel `h * (time - h)` millimetres; a hold
    wins when that beats the champion's distance (src/year_2023/day06.rs).
    The numbers arrive already split out of the two input lines. */
module Year2023Day06 {
  import opened Wrappers
  import opened Numerals

  const MaxU64: nat := 0xffff_ffff_ffff_ffff

  datatype Race = Race(time: nat, championDistance: nat)

  datatype Fault = InvalidLongTime | InvalidLongDistance

  /** How far the boat travels after holding for `hold` milliseconds. */
  function Distance(race: Race, hold: nat): nat
    requires hold <= race.time
  {
    hold * (race.time - hold)
  }

  /** Holding for `hold` milliseconds beats the champion. */
  predicate Wins(race: Race, hold: nat)
    requires hold <= race.time
  {
    Distance(race, hold) > race.championDistance
  }

  /** The number of winning holds among `0 .. n`. */
  function WinCount(race: Race, n: nat): (r: nat)
    requires n <= race.time + 1
    ensures r <= n
  {
    if n == 0 then 0 else WinCount(race, n - 1) + (if Wins(race, n - 1) then 1 else 0)
  }

  /** The number of ways to win: the winning holds among `0 ..= time`. */
  function Ways(race: Race): nat {
    WinCount(race, race.time + 1)
  }

  /** The winning holds among `0 .. n`, as a set. */
  function WinningHolds(race: Race, n: nat): set<nat>
    requires n <= race.time + 1
  {
    set hold: nat | hold < n && Wins(race, hold)
  }

  /** `WinCount` counts exactly the winning holds. */
  lemma {:induction false} WinCountMeaning(race: Race, n: nat)
    requires n <= race.time + 1
    ensures WinCount(race, n) == |WinningHolds(race, n)|
  {
    if n > 0 {
      WinCountMeaning(race, n - 1);
      if Wins(race, n - 1) {
        assert WinningHolds(race, n) == WinningHolds(race, n - 1) + {n - 1};
      } else {
        assert WinningHolds(race, n) == WinningHolds(race, n - 1);
      }
    }
  }

  /** A winning hold among `0 .. n` makes the count positive. */
  lemma {:induction false} WinCounted(race: Race, hold: nat, n: nat)
    requires hold < n <= race.time + 1 && Wins(race, hold)
    ensures WinCount(race, n) > 0
  {
    if hold < n - 1 {
      WinCounted(race, hold, n - 1);
    }
  }

  /** There are at most `time + 1` ways, and none exactly when no hold wins. */
  lemma WaysBounds(race: Race)
    ensures Ways(race) <= race.time + 1
    ensures Ways(race) == 0 <==> forall hold: nat :: hold <= race.time ==> !Wins(race, hold)
  {
    if Ways(race) > 0 {
      var hold := WinWitness(race, race.time + 1);
    }
    forall hold: nat | hold <= race.time && Wins(race, hold) ensures Ways(race) > 0 {
      WinCounted(race, hold, race.time + 1);
    }
  }

  lemma MulNonNegative(x: int, y: int)
    requires x >= 0 && y >= 0
    ensures x * y >= 0
  {
  }

  /** The distance rises and then falls: a hold between two others travels
      at least as far as one of them. */
  lemma {:induction false} Unimodal(race: Race, a: nat, b: nat, c: nat)
    requires a < b < c <= race.time
    ensures Distance(race, b) >= Distance(race, a) || Distance(race, b) >= Distance(race, c)
  {
    var t := race.time;
    assert Distance(race, b) - Distance(race, a) == (b - a) * (t - a - b);
    assert Distance(race, b) - Distance(race, c) == (c - b) * (b + c - t);
    if a + b <= t {
      MulNonNegative(b - a, t - a - b);
    } else {
      MulNonNegative(c - b, b + c - t);
    }
  }

  /** A hold that loses after one that won is followed only by losses. */
  lemma LossIsFinal(race: Race, a: nat, b: nat, c: nat)
    requires a < b < c <= race.time && Wins(race, a) && !Wins(race, b)
    ensures !Wins(race, c)
  {
    Unimodal(race, a, b, c);
  }

  /** Some hold among those counted wins. */
  lemma {:induction false} WinWitness(race: Race, n: nat) returns (hold: nat)
    requires n <= race.time + 1 && WinCount(race, n) > 0
    ensures hold < n && Wins(race, hold)
  {
    if Wins(race, n - 1) {
      hold := n - 1;
    } else {
      hold := WinWitness(race, n - 1);
    }
  }

  /** Once a loss follows a win, no later hold adds a way. */
  lemma {:induction false} CountStops(race: Race, h: nat, n: nat)
    requires h < n <= race.time + 1
    requires WinCount(race, h) > 0 && !Wins(race, h)
    ensures WinCount(race, n) == WinCount(race, h)
  {
    if n - 1 > h {
      CountStops(race, h, n - 1);
      var a := WinWitness(race, h);
      LossIsFinal(race, a, h, n - 1);
    }
  }

  /** `find_ways`: count the winning holds from 0 up, stopping at the first
      loss after a win. */
  method FindWays(race: Race) returns (ways: nat)
    ensures ways == Ways(race)
  {
    ways := 0;
    for hold := 0 to race.time + 1
      invariant ways == WinCount(race, hold)
    {
      if Distance(race, hold) > race.championDistance {
        ways := ways + 1;
      } else if ways > 0 {
        CountStops(race, hold, race.time + 1);
        return;
      }
    }
  }

  /** The decimal numbers written one after another. */
  function Joined(xs: seq<nat>): (s: string)
    ensures AllDigits(s) && (xs != [] ==> s != [])
  {
    if xs == [] then [] else Joined(xs[..|xs| - 1]) + Decimal(xs[|xs| - 1])
  }

  function Pow10(n: nat): (r: nat)
    ensures r >= 1
  {
    if n == 0 then 1 else 10 * Pow10(n - 1)
  }

  /** The number whose digits are those of `xs` in turn: each number shifts
      the earlier ones left by its own digit count. */
  function Concatenated(xs: seq<nat>): nat {
    if xs == [] then 0
    else Concatenated(xs[..|xs| - 1]) * Pow10(|Decimal(xs[|xs| - 1])|) + xs[|xs| - 1]
  }

  /** Appending digits shifts the value left by their number. */
  lemma {:induction false} DecimalValueConcat(a: string, b: string)
    requires AllDigits(a) && AllDigits(b)
    ensures AllDigits(a + b)
    ensures DecimalValue(a + b) == DecimalValue(a) * Pow10(|b|) + DecimalValue(b)
  {
    assert AllDigits(a + b) by {
      forall i | 0 <= i < |a + b| ensures IsDigit((a + b)[i]) {
        if i >= |a| {
          assert (a + b)[i] == b[i - |a|];
        }
      }
    }
    if b != [] {
      var n := |b| - 1;
      var front := b[..n];
      assert AllDigits(front) by {
        assert forall i :: 0 <= i < n ==> front[i] == b[i];
      }
      assert (a + b)[..|a + b| - 1] == a + front;
      assert (a + b)[|a + b| - 1] == b[n];
      DecimalValueConcat(a, front);
      var d := b[n] as int - '0' as int;
      assert DecimalValue(a + b) == 10 * DecimalValue(a + front) + d;
      assert DecimalValue(b) == 10 * DecimalValue(front) + d;
      assert Pow10(|b|) == 10 * Pow10(n);
      ShiftOneDigit(DecimalValue(a), Pow10(n), DecimalValue(front), d);
    } else {
      assert a + b == a;
    }
  }

  lemma ShiftOneDigit(high: int, scale: int, low: int, d: int)
    ensures 10 * (high * scale + low) + d == high * (10 * scale) + (10 * low + d)
  {
  }

  /** The joined digits denote the concatenated number. */
  lemma {:induction false} JoinedValue(xs: seq<nat>)
    ensures DecimalValue(Joined(xs)) == Concatenated(xs)
  {
    if xs != [] {
      var n := |xs| - 1;
      JoinedValue(xs[..n]);
      DecimalValueConcat(Joined(xs[..n]), Decimal(xs[n]));
      DecimalRoundTrip(xs[n]);
    }
  }

  /** The times of the races, in order. */
  function Times(races: seq<Race>): (r: seq<nat>)
    ensures |r| == |races| && forall i :: 0 <= i < |races| ==> r[i] == races[i].time
  {
    if races == [] then [] else Times(races[..|races| - 1]) + [races[|races| - 1].time]
  }

  /** The champion distances of the races, in order. */
  function Distances(races: seq<Race>): (r: seq<nat>)
    ensures |r| == |races| && forall i :: 0 <= i < |races| ==> r[i] == races[i].championDistance
  {
    if races == [] then [] else Distances(races[..|races| - 1]) + [races[|races| - 1].championDistance]
  }

  /** The long race: the times joined into one number, and the distances
      likewise, each parsed back as a `u64`. */
  function LongRace(races: seq<Race>): Result<Race, Fault> {
    match ParseUnsigned(Joined(Times(races)), MaxU64)
    case None => Err(InvalidLongTime)
    case Some(time) =>
      match ParseUnsigned(Joined(Distances(races)), MaxU64)
      case None => Err(InvalidLongDistance)
      case Some(distance) => Ok(Race(time, distance))
  }

  /** The long race's time and distance are the races' numbers written one
      after another; it fails without races, or when either no longer fits
      a `u64`. */
  lemma LongRaceMeaning(races: seq<Race>)
    ensures LongRace(races).Ok? <==>
      races != [] && Concatenated(Times(races)) <= MaxU64 && Concatenated(Distances(races)) <= MaxU64
    ensures LongRace(races).Ok? ==>
      LongRace(races).value == Race(Concatenated(Times(races)), Concatenated(Distances(races)))
  {
    JoinedValue(Times(races));
    JoinedValue(Distances(races));
    UnsignedMeaning(Joined(Times(races)), MaxU64);
    UnsignedMeaning(Joined(Distances(races)), MaxU64);
    if races != [] {
      assert Joined(Times(races))[0] != '+';
      assert Joined(Distances(races))[0] != '+';
    }
  }

  /** The races: times and distances paired in order, the longer list cut short. */
  function Races(times: seq<nat>, distances: seq<nat>): (r: seq<Race>)
    ensures |r| == if |times| < |distances| then |times| else |distances|
    ensures forall i :: 0 <= i < |r| ==> r[i] == Race(times[i], distances[i])
  {
    if times == [] || distances == [] then []
    else [Race(times[0], distances[0])] + Races(times[1..], distances[1..])
  }

  /** The product of the ways to win each race. */
  function ProductOfWays(races: seq<Race>): nat {
    if races == [] then 1 else ProductOfWays(races[..|races| - 1]) * Ways(races[|races| - 1])
  }

  /** The product is zero exactly when some race cannot be won. */
  lemma {:induction false} ProductZero(races: seq<Race>)
    ensures ProductOfWays(races) == 0 <==> exists i :: 0 <= i < |races| && Ways(races[i]) == 0
  {
    if races != [] {
      var n := |races| - 1;
      ProductZero(races[..n]);
      assert forall i :: 0 <= i < n ==> races[..n][i] == races[i];
      if ProductOfWays(races[..n]) != 0 && Ways(races[n]) != 0 {
        MulPositive(ProductOfWays(races[..n]), Ways(races[n]));
      }
    }
  }

  lemma MulPositive(x: nat, y: nat)
    requires x > 0 && y > 0
    ensures x * y > 0
  {
  }

  /** `main` once the numbers are read: the product of the ways over all
      races, then the ways to win the long race. */
  method Solve(times: seq<nat>, distances: seq<nat>) returns (product: nat, longWays: Result<nat, Fault>)
    ensures product == ProductOfWays(Races(times, distances))
    ensures longWays == match LongRace(Races(times, distances))
                        case Err(e) => Err(e)
                        case Ok(race) => Ok(Ways(race))
  {
    var races := Races(times, distances);
    product := 1;
    for i := 0 to |races|
      invariant product == ProductOfWays(races[..i])
    {
      assert races[..i + 1][..i] == races[..i];
      var ways := FindWays(races[i]);
      product := product * ways;
    }
    assert races[..|races|] == races;
    match LongRace(races) {
      case Err(e) =>
        longWays := Err(e);
      case Ok(race) =>
        var ways := FindWays(race);
        longWays := Ok(ways);
    }
  }

  /** The worked example's first race: 7 ms against 9 mm can be won in 4 ways. */
  lemma ExampleWays()
    ensures Ways(Race(7, 9)) == 4
  {
  }
}
