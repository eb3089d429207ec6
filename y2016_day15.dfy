/** 2016 day 15: timing a capsule drop through a stack of spinning discs
    (src/year_2016/day15.rs). Disc `c` (counting from 0) is reached `c + 1`
    seconds after the drop and lets the capsule through at position 0. */
module Year2016Day15 {
  import opened Wrappers

  const MaxUsize: nat := 0xffff_ffff_ffff_ffff

  /** A disc with `positions` slots, at slot `initial` at time 0. */
  datatype Disc = Disc(positions: nat, initial: nat)

  /** Every disc has at least one slot (a zero modulus panics). */
  predicate WellFormed(discs: seq<Disc>) {
    forall c :: 0 <= c < |discs| ==> discs[c].positions > 0
  }

  /** Disc `c` is at slot 0 when a capsule dropped at `time` reaches it. */
  predicate Open(discs: seq<Disc>, c: nat, time: nat)
    requires c < |discs| && discs[c].positions > 0
  {
    (c + 1 + discs[c].initial + time) % discs[c].positions == 0
  }

  /** A capsule dropped at `time` falls through every disc. */
  predicate AllOpen(discs: seq<Disc>, time: nat)
    requires WellFormed(discs)
  {
    forall c :: 0 <= c < |discs| ==> Open(discs, c, time)
  }

  /** The inner loop: the `pass` flag is cleared at the first closed disc. */
  method Passes(discs: seq<Disc>, time: nat) returns (pass: bool)
    requires WellFormed(discs)
    ensures pass <==> AllOpen(discs, time)
  {
    pass := true;
    var c := 0;
    while c < |discs|
      invariant c <= |discs| && pass
      invariant forall k :: 0 <= k < c ==> Open(discs, k, time)
    {
      if (c + 1 + discs[c].initial + time) % discs[c].positions != 0 {
        assert !Open(discs, c, time);
        pass := false;
        return;
      }
      c := c + 1;
    }
  }

  /** `find_drop_time`: the least time in `0..=usize::MAX` at which every
      disc is open, or `None` when no time in that range works. */
  method FindDropTime(discs: seq<Disc>) returns (r: Option<nat>)
    requires WellFormed(discs)
    ensures r.Some? ==> r.value <= MaxUsize && AllOpen(discs, r.value)
    ensures r.Some? ==> forall t :: 0 <= t < r.value ==> !AllOpen(discs, t)
    ensures r.None? <==> forall t :: 0 <= t <= MaxUsize ==> !AllOpen(discs, t)
  {
    var time := 0;
    while time <= MaxUsize
      invariant time <= MaxUsize + 1
      invariant forall t :: 0 <= t < time ==> !AllOpen(discs, t)
      decreases MaxUsize + 1 - time
    {
      var pass := Passes(discs, time);
      if pass {
        return Some(time);
      }
      time := time + 1;
    }
    return None;
  }

  /** With no discs, dropping at once succeeds. */
  lemma NoDiscs()
    ensures AllOpen([], 0)
  {
  }

  /** The product of all slot counts: the pattern of open discs repeats
      with this period. */
  function Period(discs: seq<Disc>): (p: nat)
    requires WellFormed(discs)
    ensures p > 0
    ensures forall c :: 0 <= c < |discs| ==> p % discs[c].positions == 0
  {
    if discs == [] then 1
    else
      var rest := Period(discs[1..]);
      var p := discs[0].positions * rest;
      assert p % discs[0].positions == 0 by {
        MultipleMod(0, discs[0].positions, rest);
      }
      forall c | 1 <= c < |discs| ensures p % discs[c].positions == 0 {
        assert rest % discs[1..][c - 1].positions == 0;
        var q := rest / discs[c].positions;
        assert rest == discs[c].positions * q;
        assert p == discs[c].positions * (discs[0].positions * q);
        MultipleMod(0, discs[c].positions, discs[0].positions * q);
      }
      p
  }

  /** Adding a multiple of `m` does not change a remainder modulo `m`. */
  lemma MultipleMod(x: nat, m: nat, k: nat)
    requires m > 0
    ensures (x + m * k) % m == x % m
  {
    var q, r := x / m, x % m;
    assert x + m * k == m * (q + k) + r;
    RemainderUnique(x + m * k, m, q + k, r);
  }

  /** A division with a remainder in `0..m` gives Dafny's remainder. */
  lemma RemainderUnique(a: int, m: nat, q: int, r: int)
    requires m > 0 && 0 <= r < m && a == m * q + r
    ensures a % m == r
  {
    var q', r' := a / m, a % m;
    assert a == m * q' + r';
    var d := q - q';
    assert m * d == m * q - m * q';
    MulSign(m, d);
  }

  /** A non-zero multiple of `m` is at least `m` away from zero. */
  lemma MulSign(m: nat, d: int)
    ensures d >= 1 ==> m * d >= m
    ensures d <= -1 ==> m * d + m <= 0
  {
    assert m * d == m * (d - 1) + m;
    assert m * d + m == m * (d + 1);
  }

  /** Reducing a time modulo a multiple `p` of `m` keeps it modulo `m`. */
  lemma ReduceModMultiple(x: nat, time: nat, m: nat, p: nat)
    requires m > 0 && p > 0 && p % m == 0
    ensures (x + time) % m == (x + time % p) % m
  {
    var q, n, t0 := p / m, time / p, time % p;
    var k := q * n;
    assert p == m * q;
    assert time == p * n + t0;
    MulAssoc(m, q, n);
    assert p * n == m * k;
    MultipleMod(x + t0, m, k);
  }

  lemma MulAssoc(a: int, b: int, c: int)
    ensures (a * b) * c == a * (b * c)
  {
  }

  /** A time works for disc `c` exactly when its remainder modulo the
      period does. */
  lemma OpenPeriodic(discs: seq<Disc>, c: nat, time: nat)
    requires WellFormed(discs) && c < |discs|
    ensures Open(discs, c, time) <==> Open(discs, c, time % Period(discs))
  {
    ReduceModMultiple(c + 1 + discs[c].initial, time, discs[c].positions, Period(discs));
  }

  /** A time works exactly when its remainder modulo the period does. */
  lemma PeriodicOpen(discs: seq<Disc>, time: nat)
    requires WellFormed(discs)
    ensures AllOpen(discs, time) <==> AllOpen(discs, time % Period(discs))
  {
    forall c | 0 <= c < |discs|
      ensures Open(discs, c, time) <==> Open(discs, c, time % Period(discs))
    {
      OpenPeriodic(discs, c, time);
    }
  }

  /** When the period fits in `usize`, `find_drop_time` never gives up on
      discs that can be passed at some time. */
  lemma FoundWhenSolvable(discs: seq<Disc>, time: nat)
    requires WellFormed(discs) && AllOpen(discs, time) && Period(discs) <= MaxUsize + 1
    ensures exists t :: 0 <= t <= MaxUsize && AllOpen(discs, t)
  {
    PeriodicOpen(discs, time);
    assert AllOpen(discs, time % Period(discs));
  }

  /** The example: discs of 5 slots at 4 and 2 slots at 1 are first passed
      at time 5. */
  lemma Example()
    ensures WellFormed([Disc(5, 4), Disc(2, 1)])
    ensures AllOpen([Disc(5, 4), Disc(2, 1)], 5)
    ensures forall t :: 0 <= t < 5 ==> !AllOpen([Disc(5, 4), Disc(2, 1)], t)
  {
    var discs := [Disc(5, 4), Disc(2, 1)];
    forall t | 0 <= t < 5 ensures !AllOpen(discs, t) {
      if t > 0 {
        assert !Open(discs, 0, t);
      } else {
        assert !Open(discs, 1, t);
      }
    }
  }
}
