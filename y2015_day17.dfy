/** 2015 day 17: the ways of filling containers with exactly 150 litres of
    eggnog, and how many of the smallest such combinations there are. */
module Year2015Day17 {

  const ExpectedNog: nat := 150
  const MaxU32: nat := 0xffff_ffff

  /** (container count, fill amount) of one partial combination. */
  type Fill = (nat, nat)

  /** One container considered against every combination so far: each may
      take it when that stays within 150 litres, and each may leave it. */
  function Step(fills: seq<Fill>, container: nat): (r: seq<Fill>)
    ensures |r| <= 2 * |fills|
  {
    if fills == [] then []
    else
      var (count, fill) := fills[|fills| - 1];
      var sum := fill + container;
      Step(fills[..|fills| - 1], container)
        + (if sum <= ExpectedNog then [(count + 1, sum)] else [])
        + [(count, fill)]
  }

  /** The combinations after the given containers, starting from the empty one. */
  function Fills(containers: seq<nat>): seq<Fill> {
    if containers == [] then [(0, 0)]
    else Step(Fills(containers[..|containers| - 1]), containers[|containers| - 1])
  }

  /** No container is so large that a sum overflows 32 bits. */
  predicate NoOverflow(containers: seq<nat>) {
    forall i :: 0 <= i < |containers| ==> containers[i] + ExpectedNog <= MaxU32
  }

  /** The loop over `fills` for one container, building `new_fills`. */
  method StepFills(fills: seq<Fill>, container: nat) returns (newFills: seq<Fill>)
    ensures newFills == Step(fills, container)
  {
    newFills := [];
    for k := 0 to |fills|
      invariant newFills == Step(fills[..k], container)
    {
      var (count, fill) := fills[k];
      var sum := fill + container;
      assert fills[..k + 1][..k] == fills[..k];
      if sum <= ExpectedNog {
        newFills := newFills + [(count + 1, sum)];
      }
      newFills := newFills + [(count, fill)];
    }
    assert fills[..|fills|] == fills;
  }

  /** The container loop of `main`. */
  method AllFills(containers: seq<nat>) returns (fills: seq<Fill>)
    requires NoOverflow(containers)
    ensures fills == Fills(containers)
  {
    fills := [(0, 0)];
    for k := 0 to |containers|
      invariant fills == Fills(containers[..k])
    {
      assert containers[..k + 1][..k] == containers[..k];
      fills := StepFills(fills, containers[k]);
    }
    assert containers[..|containers|] == containers;
  }

  // ----- what the combinations are -----

  /** Which containers a combination uses. */
  type Mask = seq<bool>

  function Used(m: Mask): nat {
    if m == [] then 0 else Used(m[..|m| - 1]) + (if m[|m| - 1] then 1 else 0)
  }

  function Litres(containers: seq<nat>, m: Mask): nat
    requires |m| == |containers|
  {
    if m == [] then 0
    else Litres(containers[..|m| - 1], m[..|m| - 1]) + (if m[|m| - 1] then containers[|m| - 1] else 0)
  }

  /** `e` is `d`, or `d` with one more container of `container` litres
      that stays within 150. */
  predicate Grows(d: Fill, e: Fill, container: nat) {
    e == d || (e.0 == d.0 + 1 && e.1 == d.1 + container && e.1 <= ExpectedNog)
  }

  lemma {:induction false} StepFrom(fills: seq<Fill>, container: nat, e: Fill) returns (d: Fill)
    requires e in Step(fills, container)
    ensures d in fills && Grows(d, e, container)
  {
    var front := fills[..|fills| - 1];
    StepLast(fills, container);
    if e in Step(front, container) {
      d := StepFrom(front, container, e);
      assert d in fills;
    } else {
      d := fills[|fills| - 1];
      assert e in TailFills(d, container);
    }
  }

  lemma StepHas(fills: seq<Fill>, container: nat, d: Fill)
    requires d in fills
    ensures d in Step(fills, container)
    ensures d.1 + container <= ExpectedNog ==> (d.0 + 1, d.1 + container) in Step(fills, container)
  {
    var front := fills[..|fills| - 1];
    if d != fills[|fills| - 1] {
      assert d in front;
      StepHas(front, container, d);
    }
  }

  /** Every combination kept is some choice of containers, holding at most 150 litres. */
  lemma {:induction false} FillsAreChoices(containers: seq<nat>, e: Fill) returns (m: Mask)
    requires e in Fills(containers)
    ensures e.1 <= ExpectedNog
    ensures |m| == |containers| && Used(m) == e.0 && Litres(containers, m) == e.1
  {
    if containers == [] {
      m := [];
    } else {
      var n := |containers|;
      var front, c := containers[..n - 1], containers[n - 1];
      var d := StepFrom(Fills(front), c, e);
      var pm := FillsAreChoices(front, d);
      m := pm + [e != d];
      assert m[..n - 1] == pm;
      Extend(containers, m);
      ChoiceExtends(e, d, c, Used(m), Litres(containers, m));
    }
  }

  /** The count and volume of a choice extended by the taken or left container. */
  lemma ChoiceExtends(e: Fill, d: Fill, c: nat, used: nat, litres: nat)
    requires Grows(d, e, c) && d.1 <= ExpectedNog
    requires used == d.0 + (if e != d then 1 else 0) && litres == d.1 + (if e != d then c else 0)
    ensures e.1 <= ExpectedNog && used == e.0 && litres == e.1
  {
  }

  lemma {:induction false} LitresOfPrefix(containers: seq<nat>, m: Mask)
    requires |m| == |containers| && m != []
    ensures Litres(containers[..|m| - 1], m[..|m| - 1]) <= Litres(containers, m)
  {
  }

  /** Every choice of containers holding at most 150 litres is among the combinations. */
  lemma {:induction false} ChoicesAreFills(containers: seq<nat>, m: Mask)
    requires |m| == |containers| && Litres(containers, m) <= ExpectedNog
    ensures (Used(m), Litres(containers, m)) in Fills(containers)
  {
    if m != [] {
      var n := |m|;
      var front, c := containers[..n - 1], containers[n - 1];
      var pm := m[..n - 1];
      LitresOfPrefix(containers, m);
      ChoicesAreFills(front, pm);
      var d := (Used(pm), Litres(front, pm));
      StepHas(Fills(front), c, d);
      assert Fills(containers) == Step(Fills(front), c);
      Extend(containers, m);
      if m[n - 1] {
        assert Used(m) == d.0 + 1 && Litres(containers, m) == d.1 + c;
      } else {
        assert Used(m) == d.0 && Litres(containers, m) == d.1;
      }
    }
  }

  // ----- each combination is one choice -----

  /** A choice extended by one more container, taken or left. */
  lemma Extend(containers: seq<nat>, m: Mask)
    requires |m| == |containers| && m != []
    ensures Used(m) == Used(m[..|m| - 1]) + (if m[|m| - 1] then 1 else 0)
    ensures Litres(containers, m) == Litres(containers[..|m| - 1], m[..|m| - 1]) + (if m[|m| - 1] then containers[|m| - 1] else 0)
  {
  }

  /** `Step` on choices: each choice of the earlier containers, in order,
      taking the next one (when that stays within 150 litres) before leaving it. */
  function MaskStep(front: seq<nat>, ms: seq<Mask>, c: nat): (r: seq<Mask>)
    requires forall k :: 0 <= k < |ms| ==> |ms[k]| == |front|
    ensures forall k :: 0 <= k < |r| ==> |r[k]| == |front| + 1
  {
    if ms == [] then []
    else
      MaskStep(front, ms[..|ms| - 1], c) + TailMasks(front, ms[|ms| - 1], c)
  }

  /** One choice taking the next container (when that stays within 150
      litres), then leaving it. */
  function TailMasks(front: seq<nat>, pm: Mask, c: nat): (r: seq<Mask>)
    requires |pm| == |front|
    ensures forall k :: 0 <= k < |r| ==> |r[k]| == |front| + 1
  {
    if Litres(front, pm) + c <= ExpectedNog then [pm + [true], pm + [false]] else [pm + [false]]
  }

  /** The entries `Step` makes of one combination. */
  function TailFills(d: Fill, c: nat): seq<Fill> {
    if d.1 + c <= ExpectedNog then [(d.0 + 1, d.1 + c), d] else [d]
  }

  lemma StepLast(fills: seq<Fill>, c: nat)
    requires fills != []
    ensures Step(fills, c) == Step(fills[..|fills| - 1], c) + TailFills(fills[|fills| - 1], c)
  {
  }

  /** The choices behind `Fills`, in the same order. */
  function Masks(containers: seq<nat>): (r: seq<Mask>)
    ensures forall k :: 0 <= k < |r| ==> |r[k]| == |containers|
  {
    if containers == [] then [[]]
    else
      var n := |containers|;
      MaskStep(containers[..n - 1], Masks(containers[..n - 1]), containers[n - 1])
  }

  /** `fills` records the count and volume of each of the choices `ms`. */
  predicate Records(containers: seq<nat>, ms: seq<Mask>, fills: seq<Fill>)
    requires forall k :: 0 <= k < |ms| ==> |ms[k]| == |containers|
  {
    |fills| == |ms| && forall k :: 0 <= k < |ms| ==> fills[k] == (Used(ms[k]), Litres(containers, ms[k]))
  }

  lemma RecordsAppend(containers: seq<nat>, a: seq<Mask>, b: seq<Mask>, fa: seq<Fill>, fb: seq<Fill>)
    requires forall k :: 0 <= k < |a| ==> |a[k]| == |containers|
    requires forall k :: 0 <= k < |b| ==> |b[k]| == |containers|
    requires Records(containers, a, fa) && Records(containers, b, fb)
    ensures forall k :: 0 <= k < |a + b| ==> |(a + b)[k]| == |containers|
    ensures Records(containers, a + b, fa + fb)
  {
    forall k | 0 <= k < |a + b|
      ensures (fa + fb)[k] == (Used((a + b)[k]), Litres(containers, (a + b)[k]))
    {
      if k >= |a| {
        assert (a + b)[k] == b[k - |a|] && (fa + fb)[k] == fb[k - |a|];
      }
    }
  }

  /** What one recorded choice turns into when the next container is considered. */
  lemma TailRecords(front: seq<nat>, c: nat, pm: Mask, d: Fill)
    requires |pm| == |front| && d == (Used(pm), Litres(front, pm))
    ensures Records(front + [c], TailMasks(front, pm, c), TailFills(d, c))
  {
    var containers := front + [c];
    var n := |containers|;
    assert containers[..n - 1] == front;
    var taken, left := pm + [true], pm + [false];
    assert taken[..n - 1] == pm && left[..n - 1] == pm;
    Extend(containers, taken);
    Extend(containers, left);
    assert Used(taken) == d.0 + 1 && Litres(containers, taken) == d.1 + c;
    assert Used(left) == d.0 && Litres(containers, left) == d.1;
  }

  lemma RecordsPrefix(containers: seq<nat>, ms: seq<Mask>, fills: seq<Fill>)
    requires forall k :: 0 <= k < |ms| ==> |ms[k]| == |containers|
    requires Records(containers, ms, fills) && ms != []
    ensures Records(containers, ms[..|ms| - 1], fills[..|fills| - 1])
  {
  }

  lemma {:induction false} StepRecords(front: seq<nat>, c: nat, ms: seq<Mask>, fills: seq<Fill>)
    requires forall k :: 0 <= k < |ms| ==> |ms[k]| == |front|
    requires Records(front, ms, fills)
    ensures Records(front + [c], MaskStep(front, ms, c), Step(fills, c))
  {
    if ms != [] {
      var pm, pre := ms[|ms| - 1], ms[..|ms| - 1];
      var d, before := fills[|fills| - 1], fills[..|fills| - 1];
      RecordsPrefix(front, ms, fills);
      StepRecords(front, c, pre, before);
      TailRecords(front, c, pm, d);
      StepLast(fills, c);
      RecordsAppend(front + [c], MaskStep(front, pre, c), TailMasks(front, pm, c), Step(before, c), TailFills(d, c));
    }
  }

  /** `Fills` records, entry by entry, the count and volume of `Masks`. */
  lemma {:induction false} FillsRecordMasks(containers: seq<nat>)
    ensures Records(containers, Masks(containers), Fills(containers))
  {
    if containers != [] {
      var n := |containers|;
      var front := containers[..n - 1];
      FillsRecordMasks(front);
      StepRecords(front, containers[n - 1], Masks(front), Fills(front));
      assert front + [containers[n - 1]] == containers;
    }
  }

  predicate Distinct(ms: seq<Mask>) {
    forall i, j :: 0 <= i < j < |ms| ==> ms[i] != ms[j]
  }

  lemma {:induction false} MaskStepMembers(front: seq<nat>, ms: seq<Mask>, c: nat, m: Mask)
    requires forall k :: 0 <= k < |ms| ==> |ms[k]| == |front|
    ensures m in MaskStep(front, ms, c) <==>
      |m| == |front| + 1 && m[..|front|] in ms && (m[|front|] ==> Litres(front, m[..|front|]) + c <= ExpectedNog)
  {
    if ms != [] {
      var pm := ms[|ms| - 1];
      MaskStepMembers(front, ms[..|ms| - 1], c, m);
      if |m| == |front| + 1 {
        assert m == m[..|front|] + [m[|front|]];
        assert m[..|front|] in ms <==> m[..|front|] in ms[..|ms| - 1] || m[..|front|] == pm;
      }
      assert (pm + [true])[..|front|] == pm && (pm + [false])[..|front|] == pm;
    }
  }

  lemma {:induction false} MaskStepDistinct(front: seq<nat>, ms: seq<Mask>, c: nat)
    requires forall k :: 0 <= k < |ms| ==> |ms[k]| == |front|
    requires Distinct(ms)
    ensures Distinct(MaskStep(front, ms, c))
  {
    if ms != [] {
      var pm := ms[|ms| - 1];
      var pre := ms[..|ms| - 1];
      MaskStepDistinct(front, pre, c);
      var head := MaskStep(front, pre, c);
      var tail := TailMasks(front, pm, c);
      assert pm !in pre;
      forall x | x in head
        ensures x[..|front|] != pm
      {
        MaskStepMembers(front, pre, c, x);
      }
      assert (pm + [true])[..|front|] == pm && (pm + [false])[..|front|] == pm;
      var r := head + tail;
      forall i, j | 0 <= i < j < |r|
        ensures r[i] != r[j]
      {
        if j >= |head| && i < |head| {
          assert r[i] in head && r[j][..|front|] == pm;
        }
      }
    }
  }

  /** No choice is in `Masks` twice. */
  lemma {:induction false} MasksDistinct(containers: seq<nat>)
    ensures Distinct(Masks(containers))
  {
    if containers != [] {
      var n := |containers|;
      MasksDistinct(containers[..n - 1]);
      MaskStepDistinct(containers[..n - 1], Masks(containers[..n - 1]), containers[n - 1]);
    }
  }

  /** The choices in `Masks` are exactly those holding at most 150 litres. */
  lemma {:induction false} MasksAreChoices(containers: seq<nat>)
    ensures forall m: Mask :: m in Masks(containers) <==> |m| == |containers| && Litres(containers, m) <= ExpectedNog
  {
    if containers == [] {
      forall m: Mask | |m| == 0
        ensures m in Masks(containers)
      {
        assert m == [];
      }
    } else {
      var n := |containers|;
      var front := containers[..n - 1];
      MasksAreChoices(front);
      forall m: Mask
        ensures m in Masks(containers) <==> |m| == n && Litres(containers, m) <= ExpectedNog
      {
        if |m| == n {
          var pm := m[..n - 1];
          assert pm in Masks(front) <==> |pm| == n - 1 && Litres(front, pm) <= ExpectedNog;
        }
        MaskChoice(containers, m);
      }
    }
  }

  /** One more container keeps `Masks` the choices within 150 litres. */
  lemma MaskChoice(containers: seq<nat>, m: Mask)
    requires containers != []
    requires |m| == |containers| ==>
      (m[..|m| - 1] in Masks(containers[..|m| - 1]) <==> Litres(containers[..|m| - 1], m[..|m| - 1]) <= ExpectedNog)
    ensures m in Masks(containers) <==> |m| == |containers| && Litres(containers, m) <= ExpectedNog
  {
    var n := |containers|;
    var front, c := containers[..n - 1], containers[n - 1];
    assert Masks(containers) == MaskStep(front, Masks(front), c);
    MaskStepMembers(front, Masks(front), c, m);
    if |m| == n {
      Extend(containers, m);
    }
  }

  /** Each combination of `Fills` is the count and volume of one choice of
      containers, and each choice within 150 litres gives exactly one entry:
      the combinations are counted with their multiplicity. */
  lemma FillsAreEachChoiceOnce(containers: seq<nat>)
    ensures |Fills(containers)| == |Masks(containers)| && Distinct(Masks(containers))
    ensures forall k :: 0 <= k < |Fills(containers)| ==>
      Fills(containers)[k] == (Used(Masks(containers)[k]), Litres(containers, Masks(containers)[k]))
    ensures forall m: Mask :: m in Masks(containers) <==> |m| == |containers| && Litres(containers, m) <= ExpectedNog
  {
    FillsRecordMasks(containers);
    MasksDistinct(containers);
    MasksAreChoices(containers);
  }

  function Pow2(n: nat): nat {
    if n == 0 then 1 else 2 * Pow2(n - 1)
  }

  /** There are at most 2^n combinations after n containers. */
  lemma {:induction false} FillsCount(containers: seq<nat>)
    ensures |Fills(containers)| <= Pow2(|containers|)
  {
    if containers != [] {
      FillsCount(containers[..|containers| - 1]);
    }
  }

  // ----- the answers -----

  function Exact(fills: seq<Fill>): (r: seq<Fill>)
    ensures forall e :: e in r <==> e in fills && e.1 == ExpectedNog
  {
    if fills == [] then []
    else Exact(fills[..|fills| - 1]) + (if fills[|fills| - 1].1 == ExpectedNog then [fills[|fills| - 1]] else [])
  }

  /** `fills.retain(...)`: only the combinations of exactly 150 litres, in order. */
  method RetainExact(fills: seq<Fill>) returns (kept: seq<Fill>)
    ensures kept == Exact(fills)
  {
    kept := [];
    for k := 0 to |fills|
      invariant kept == Exact(fills[..k])
    {
      assert fills[..k + 1][..k] == fills[..k];
      if fills[k].1 == ExpectedNog {
        kept := kept + [fills[k]];
      }
    }
    assert fills[..|fills|] == fills;
  }

  /** How many entries use exactly `count` containers. */
  function Occurrences(fills: seq<Fill>, count: nat): nat {
    if fills == [] then 0
    else Occurrences(fills[..|fills| - 1], count) + (if fills[|fills| - 1].0 == count then 1 else 0)
  }

  /** The least container count, or `u32::MAX` if it is not below that. */
  function Fewest(fills: seq<Fill>): (r: nat)
    ensures r <= MaxU32
    ensures forall e :: e in fills ==> r <= e.0
    ensures r == MaxU32 || exists e :: e in fills && e.0 == r
  {
    if fills == [] then MaxU32
    else
      var f := Fewest(fills[..|fills| - 1]);
      var e := fills[|fills| - 1];
      assert forall d :: d in fills ==> d in fills[..|fills| - 1] || d == e;
      if e.0 < f then e.0 else f
  }

  lemma {:induction false} NoneBelow(fills: seq<Fill>, count: nat)
    requires forall e :: e in fills ==> count < e.0
    ensures Occurrences(fills, count) == 0
  {
    if fills != [] {
      assert forall e :: e in fills[..|fills| - 1] ==> e in fills;
      NoneBelow(fills[..|fills| - 1], count);
    }
  }

  lemma TallyStep(fills: seq<Fill>, k: nat, count: nat)
    requires k < |fills|
    ensures Fewest(fills[..k + 1]) == if fills[k].0 < Fewest(fills[..k]) then fills[k].0 else Fewest(fills[..k])
    ensures Occurrences(fills[..k + 1], count) == Occurrences(fills[..k], count) + (if fills[k].0 == count then 1 else 0)
  {
    assert fills[..k + 1][..k] == fills[..k];
  }

  /** The tally loop: the fewest containers and how many combinations use that many. */
  method FewestContainers(fills: seq<Fill>) returns (minContainers: nat, instances: nat)
    ensures minContainers == Fewest(fills)
    ensures instances == Occurrences(fills, minContainers)
  {
    minContainers, instances := MaxU32, 0;
    for k := 0 to |fills|
      invariant minContainers == Fewest(fills[..k])
      invariant instances == Occurrences(fills[..k], minContainers)
    {
      var count := fills[k].0;
      TallyStep(fills, k, minContainers);
      if count < minContainers {
        TallyStep(fills, k, count);
        NoneBelow(fills[..k], count);
        minContainers, instances := count, 1;
      } else if count == minContainers {
        instances := instances + 1;
      }
    }
    assert fills[..|fills|] == fills;
  }
}
