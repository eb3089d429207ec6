/** 2025 day 1: a dial numbered 0 to 99 starts at 50 and is turned left or
    right by each line (src/year_2025/day01.rs). One answer counts the lines
    after which the dial rests at 0, the other what the source calls the
    passes of 0. Each line arrives as its two regular-expression captures:
    the direction text and the parsed magnitude. */
module Year2025Day01 {
  import opened Wrappers

  datatype Fault = UnexpectedDirection

  datatype Rotation = Rotation(direction: string, magnitude: nat)

  /** The dial and the two counters of `main`. */
  datatype Tally = Tally(dial: int, count: nat, countNew: int)

  /** Rust's `/` on `i32`: the quotient rounded toward zero. */
  function Quot(a: int, b: int): int
    requires b > 0
  {
    if a >= 0 then a / b else -((-a) / b)
  }

  /** Rust's `%` on `i32`: the remainder takes the sign of the dividend. */
  function Rem(a: int, b: int): int
    requires b > 0
  {
    if a >= 0 then a % b else -((-a) % b)
  }

  /** The truncating quotient and remainder recompose the dividend, and the
      remainder is below the divisor in size with the dividend's sign. */
  lemma QuotRem(a: int, b: int)
    requires b > 0
    ensures a == Quot(a, b) * b + Rem(a, b)
    ensures -b < Rem(a, b) < b
    ensures a >= 0 ==> Rem(a, b) >= 0
    ensures a < 0 ==> Rem(a, b) <= 0
  {
    if a < 0 {
      assert -a == ((-a) / b) * b + (-a) % b;
    }
  }

  function Abs(a: int): nat {
    if a < 0 then -a else a
  }

  /** The signed turn of a line: left subtracts, right adds. */
  function Delta(r: Rotation): Result<int, Fault> {
    if r.direction == "L" then Ok(0 - r.magnitude)
    else if r.direction == "R" then Ok(r.magnitude)
    else Err(UnexpectedDirection)
  }

  /** What the source adds to `count_new` when the dial at `d` turns by
      `delta`: the truncated hundreds of the new reading, and one more when
      the reading went below 0. */
  function PassesAsWritten(d: int, delta: int): int {
    Abs(Quot(d + delta, 100)) + (if Rem(d + delta, 100) < 0 then 1 else 0)
  }

  /** The body of the loop of `main` after the direction match. */
  function Turn(t: Tally, delta: int): (r: Tally)
    ensures 0 <= r.dial < 100
    ensures r.dial == (t.dial + delta) % 100
    ensures r.count == t.count + (if r.dial == 0 then 1 else 0)
    ensures r.countNew == t.countNew + PassesAsWritten(t.dial, delta)
  {
    var dial := t.dial + delta;
    var countNew := t.countNew + Abs(Quot(dial, 100));
    QuotRem(dial, 100);
    var rest := Rem(dial, 100);
    var (dial', countNew') := if rest < 0 then (rest + 100, countNew + 1) else (rest, countNew);
    Tally(dial', t.count + (if dial' == 0 then 1 else 0), countNew')
  }

  /** The tally after the given lines, or the fault of the first line with
      an unknown direction. */
  function Run(rs: seq<Rotation>): Result<Tally, Fault> {
    if rs == [] then Ok(Tally(50, 0, 0))
    else
      var t :- Run(rs[..|rs| - 1]);
      var delta :- Delta(rs[|rs| - 1]);
      Ok(Turn(t, delta))
  }

  predicate KnownDirections(rs: seq<Rotation>) {
    forall i :: 0 <= i < |rs| ==> Delta(rs[i]).Ok?
  }

  /** One more line: the tally turns by its delta, or the run fails. */
  lemma RunStep(rs: seq<Rotation>, n: nat)
    requires n < |rs|
    ensures Run(rs[..n + 1]) == (
      if Run(rs[..n]).Err? then Run(rs[..n])
      else if Delta(rs[n]).Err? then Err(Delta(rs[n]).error)
      else Ok(Turn(Run(rs[..n]).value, Delta(rs[n]).value)))
  {
    assert rs[..n + 1][..n] == rs[..n];
  }

  /** The sum of the signed turns. */
  function Total(rs: seq<Rotation>): int
    requires KnownDirections(rs)
  {
    if rs == [] then 0 else Total(rs[..|rs| - 1]) + Delta(rs[|rs| - 1]).value
  }

  /** How many prefixes of the lines leave the dial at 0. */
  function Stops(rs: seq<Rotation>): nat
    requires KnownDirections(rs)
  {
    if rs == [] then 0
    else Stops(rs[..|rs| - 1]) + (if (50 + Total(rs)) % 100 == 0 then 1 else 0)
  }

  /** Adding to congruent readings keeps them congruent modulo 100. */
  lemma ModShift(a: int, b: int, c: int)
    requires a == b % 100
    ensures (a + c) % 100 == (b + c) % 100
  {
    assert b == 100 * (b / 100) + a;
  }

  /** The lines fail exactly when one has an unknown direction. */
  lemma {:induction false} RunFails(rs: seq<Rotation>)
    ensures Run(rs).Ok? <==> KnownDirections(rs)
  {
    if rs != [] {
      var n := |rs| - 1;
      var init := rs[..n];
      RunFails(init);
      RunStep(rs, n);
      assert rs[..n + 1] == rs;
      assert forall i :: 0 <= i < |init| ==> init[i] == rs[i];
      if !KnownDirections(init) {
        var i :| 0 <= i < |init| && Delta(init[i]).Err?;
        assert rs[i] == init[i];
      }
    }
  }

  /** Without a fault, the dial reads the starting 50 plus the signed turns
      modulo 100, and `count` is the number of lines after which it reads 0. */
  lemma {:induction false} RunMeaning(rs: seq<Rotation>)
    requires KnownDirections(rs)
    ensures Run(rs).Ok?
    ensures Run(rs).value.dial == (50 + Total(rs)) % 100
    ensures Run(rs).value.count == Stops(rs)
  {
    RunFails(rs);
    if rs != [] {
      var n := |rs| - 1;
      var init := rs[..n];
      assert KnownDirections(init) by {
        assert forall i :: 0 <= i < |init| ==> init[i] == rs[i];
      }
      RunMeaning(init);
      RunStep(rs, n);
      assert rs[..n + 1] == rs;
      ModShift(Run(init).value.dial, 50 + Total(init), Delta(rs[n]).value);
    }
  }

  /** `main`: turns the dial line by line, failing on an unknown direction. */
  method Solve(rs: seq<Rotation>) returns (r: Result<(nat, int), Fault>)
    ensures r.Ok? <==> KnownDirections(rs)
    ensures r.Ok? ==> Run(rs).Ok? && r.value == (Run(rs).value.count, Run(rs).value.countNew)
  {
    var count: nat := 0;
    var countNew := 0;
    var dial := 50;
    for n := 0 to |rs|
      invariant Run(rs[..n]) == Ok(Tally(dial, count, countNew))
    {
      RunStep(rs, n);
      var delta := Delta(rs[n]);
      if delta.Err? {
        RunFails(rs);
        assert Delta(rs[n]).Err?;
        return Err(UnexpectedDirection);
      }
      ghost var next := Turn(Tally(dial, count, countNew), delta.value);
      dial := dial + delta.value;
      QuotRem(dial, 100);
      countNew := countNew + Abs(Quot(dial, 100));
      dial := Rem(dial, 100);
      if dial < 0 {
        dial := dial + 100;
        countNew := countNew + 1;
      }
      if dial == 0 {
        count := count + 1;
      }
      assert Tally(dial, count, countNew) == next;
    }
    assert rs[..|rs|] == rs;
    RunFails(rs);
    r := Ok((count, countNew));
  }

  /** The clicks of a turn by `delta` from `d` that leave the dial at 0: one
      for each of the |delta| positions passed on the way, the last included. */
  function Clicks(d: int, delta: int): nat
    decreases Abs(delta)
  {
    if delta == 0 then 0
    else if delta > 0 then Clicks(d, delta - 1) + (if (d + delta) % 100 == 0 then 1 else 0)
    else Clicks(d, delta + 1) + (if (d + delta) % 100 == 0 then 1 else 0)
  }

  /** The clicks at 0 in closed form: hundreds reached going right, and the
      same for the mirrored dial going left. */
  function ZeroClicks(d: int, delta: int): int {
    if delta >= 0 then (d + delta) / 100 else ((100 - d) % 100 - delta) / 100
  }

  /** A quotient by 100 grows by one exactly at a multiple of 100. */
  lemma DivStep(x: int)
    ensures x / 100 == (x - 1) / 100 + (if x % 100 == 0 then 1 else 0)
  {
  }

  /** Two readings that add to 0 or 100 are multiples of 100 together. */
  lemma MirrorMod(x: int, y: int)
    requires x + y == 0 || x + y == 100
    ensures x % 100 == 0 <==> y % 100 == 0
  {
    assert x == 100 * (x / 100) + x % 100;
    assert y == 100 * (y / 100) + y % 100;
  }

  lemma {:induction false} ClicksRight(d: int, delta: nat)
    requires 0 <= d < 100
    ensures Clicks(d, delta) == (d + delta) / 100
  {
    if delta > 0 {
      ClicksRight(d, delta - 1);
      DivStep(d + delta);
    }
  }

  lemma {:induction false} ClicksLeft(d: int, m: nat)
    requires 0 <= d < 100
    ensures Clicks(d, -(m as int)) == ((100 - d) % 100 + m) / 100
  {
    if m > 0 {
      ClicksLeft(d, m - 1);
      var e := (100 - d) % 100;
      DivStep(e + m);
      MirrorMod(e + m, d - m);
    }
  }

  /** The closed form counts the clicks at 0. */
  lemma ZeroClicksCount(d: int, delta: int)
    requires 0 <= d < 100
    ensures Clicks(d, delta) == ZeroClicks(d, delta)
  {
    if delta >= 0 {
      ClicksRight(d, delta);
    } else {
      ClicksLeft(d, -delta);
    }
  }

  /** The source's count of a turn, in closed form: right turns agree with
      the clicks at 0, left turns count the hundreds below 0 rounded up. */
  lemma PassesAsWrittenClosed(d: int, delta: int)
    requires 0 <= d < 100
    ensures delta >= 0 ==> PassesAsWritten(d, delta) == ZeroClicks(d, delta)
    ensures delta < 0 ==> PassesAsWritten(d, delta) == if d + delta >= 0 then 0 else (99 - d - delta) / 100
  {
    QuotRem(d + delta, 100);
  }

  /** As written, a left turn that stops on 0 is not counted: from 50, `L50`
      reaches 0 but adds nothing, and the next line `R5` adds nothing either,
      though the dial pointed at 0 once. */
  lemma LandingFromLeftMissed()
    ensures PassesAsWritten(50, -50) + PassesAsWritten(0, 5) == 0
    ensures ZeroClicks(50, -50) + ZeroClicks(0, 5) == 1
    ensures Clicks(50, -50) + Clicks(0, 5) == 1
  {
    ZeroClicksCount(50, -50);
    ZeroClicksCount(0, 5);
  }

  /** As written, a left turn that starts on 0 counts a pass it never makes:
      from 0, `L5` adds one though the dial leaves 0 and does not come back. */
  lemma LeavingLeftCounted()
    ensures PassesAsWritten(0, -5) == 1
    ensures Clicks(0, -5) == 0
  {
    ZeroClicksCount(0, -5);
  }
}
