/** Carrying generators and microchips up a four-floor building with a
    two-item elevator (src/year_2016/day11.rs). A microchip is fried when it
    shares a floor with some generator but not with its own. */
module Year2016Day11 {
  import opened Wrappers
  import OV = OrderedVec
  import PQ = PriorityQueue

  datatype Device = Generator(id: nat) | Microchip(id: nat)

  // ----- devices -----

  /** `Ord for Device` as a key: ids first, and on equal ids a microchip
      below its generator. */
  function DeviceKey(d: Device): OV.Key {
    match d
    case Generator(x) => OV.Key(x, 1)
    case Microchip(x) => OV.Key(x, 0)
  }

  /** `Device::cmp`, case by case. */
  function Cmp(a: Device, b: Device): (c: OV.Ordering)
    ensures c == OV.Cmp(DeviceKey(a), DeviceKey(b))
    ensures c == OV.Equal <==> a == b
  {
    match (a, b)
    case (Generator(x), Generator(y)) => IdCmp(x, y)
    case (Microchip(x), Microchip(y)) => IdCmp(x, y)
    case (Generator(x), Microchip(y)) => if x == y then OV.Greater else IdCmp(x, y)
    case (Microchip(x), Generator(y)) => if x == y then OV.Less else IdCmp(x, y)
  }

  function IdCmp(x: nat, y: nat): OV.Ordering {
    if x < y then OV.Less else if x == y then OV.Equal else OV.Greater
  }

  /** Test `device_ordering`. */
  lemma DeviceOrdering()
    ensures Cmp(Generator(1), Microchip(1)) == OV.Greater && Cmp(Microchip(1), Generator(1)) == OV.Less
    ensures Cmp(Generator(1), Generator(2)) == OV.Less && Cmp(Generator(2), Generator(1)) == OV.Greater
    ensures Cmp(Microchip(1), Microchip(2)) == OV.Less && Cmp(Microchip(2), Microchip(1)) == OV.Greater
    ensures Cmp(Generator(1), Generator(1)) == OV.Equal && Cmp(Microchip(1), Microchip(1)) == OV.Equal
  {
  }

  /** `is_pair`: a generator and a microchip of the same element, either way
      round. */
  function IsPair(a: Device, b: Device): (r: bool)
    ensures r ==> a.id == b.id && a != b
  {
    match (a, b)
    case (Generator(x), Microchip(y)) => x == y
    case (Microchip(x), Generator(y)) => x == y
    case _ => false
  }

  /** Pairing does not depend on the order of the two devices. */
  lemma PairSymmetric(a: Device, b: Device)
    ensures IsPair(a, b) == IsPair(b, a)
  {
  }

  /** A microchip's generator is the very next device in key order, so in a
      sorted floor without repeats a microchip is paired exactly when the
      next device is its generator. */
  lemma PairIsNext(a: Device, b: Device)
    requires a.Microchip?
    ensures IsPair(a, b) <==> DeviceKey(b) == OV.Key(a.id, 1)
    ensures OV.KeyLe(DeviceKey(a), DeviceKey(b)) && DeviceKey(a) != DeviceKey(b) ==>
              OV.KeyLe(OV.Key(a.id, 1), DeviceKey(b))
  {
  }

  datatype NormalizedDevice = NGenerator | NMicrochip | NPair

  /** The derived order of `NormalizedDevice`: declaration order. */
  function NormalizedKey(n: NormalizedDevice): OV.Key {
    match n
    case NGenerator => OV.Key(0, 0)
    case NMicrochip => OV.Key(1, 0)
    case NPair => OV.Key(2, 0)
  }

  /** `Device::normalize`: forget the element. */
  function Kind(d: Device): NormalizedDevice {
    if d.Generator? then NGenerator else NMicrochip
  }

  // ----- floors -----

  /** A floor's devices, as its `OrderedVec` keeps them. */
  ghost predicate SortedFloor(f: seq<Device>) {
    OV.Sorted(DeviceKey, f)
  }

  predicate NoRepeats(f: seq<Device>) {
    forall i, j :: 0 <= i < j < |f| ==> f[i] != f[j]
  }

  /** The floor rule as `valid` checks it: a floor of two or more devices is
      unsafe when it holds a generator and some microchip whose next
      neighbour is not its generator. */
  predicate FloorSafe(f: seq<Device>) {
    |f| <= 1 || !(HasGenerator(f) && HasUnpairedAdjacent(f))
  }

  predicate HasGenerator(f: seq<Device>) {
    exists j :: 0 <= j < |f| && f[j].Generator?
  }

  predicate HasUnpairedAdjacent(f: seq<Device>) {
    exists j :: 0 <= j < |f| && Unpaired(f, j)
  }

  predicate Unpaired(f: seq<Device>, j: nat)
    requires j < |f|
  {
    f[j].Microchip? && (j == |f| - 1 || !IsPair(f[j], f[j + 1]))
  }

  /** The rule as the puzzle means it: a microchip is at risk when its own
      generator is elsewhere. */
  predicate HasLoneMicrochip(f: seq<Device>) {
    exists j :: 0 <= j < |f| && f[j].Microchip? && Generator(f[j].id) !in f
  }

  /** On a sorted floor without repeats, the neighbour test is exactly the
      puzzle's rule. */
  lemma UnpairedMeaning(f: seq<Device>)
    requires SortedFloor(f) && NoRepeats(f)
    ensures HasUnpairedAdjacent(f) <==> HasLoneMicrochip(f)
  {
    if HasUnpairedAdjacent(f) {
      var j :| 0 <= j < |f| && Unpaired(f, j);
      GeneratorFollows(f, j);
      assert f[j].Microchip? && Generator(f[j].id) !in f;
    }
    if HasLoneMicrochip(f) {
      var j :| 0 <= j < |f| && f[j].Microchip? && Generator(f[j].id) !in f;
      assert Unpaired(f, j);
    }
  }

  /** A microchip whose generator is on the floor has it as next device. */
  lemma GeneratorFollows(f: seq<Device>, j: nat)
    requires SortedFloor(f) && NoRepeats(f) && j < |f| && f[j].Microchip?
    ensures Generator(f[j].id) in f ==> j + 1 < |f| && IsPair(f[j], f[j + 1])
  {
    if Generator(f[j].id) in f {
      var k :| 0 <= k < |f| && f[k] == Generator(f[j].id);
      assert j < k;
      assert OV.KeyLe(DeviceKey(f[j + 1]), DeviceKey(f[k]));
      assert OV.KeyLe(DeviceKey(f[j]), DeviceKey(f[j + 1]));
      assert f[j] != f[j + 1];
      PairIsNext(f[j], f[j + 1]);
    }
  }

  /** The `valid` scan of one floor: `has_generator` and
      `has_unpaired_microchip` are set as the devices go by. */
  method CheckFloor(f: seq<Device>) returns (safe: bool)
    ensures safe == FloorSafe(f)
  {
    if |f| <= 1 {
      return true;
    }
    var hasGenerator := false;
    var hasUnpaired := false;
    for j := 0 to |f|
      invariant hasGenerator <==> exists k :: 0 <= k < j && f[k].Generator?
      invariant hasUnpaired <==> exists k :: 0 <= k < j && Unpaired(f, k)
    {
      match f[j]
      case Generator(_) =>
        hasGenerator := true;
        assert !Unpaired(f, j);
      case Microchip(_) =>
        hasUnpaired := if hasUnpaired || j >= |f| - 1 then true else !IsPair(f[j], f[j + 1]);
        assert hasUnpaired <==> (exists k :: 0 <= k < j && Unpaired(f, k)) || Unpaired(f, j);
    }
    return !(hasGenerator && hasUnpaired);
  }

  // ----- states -----

  datatype State = State(floors: seq<seq<Device>>, elevator: nat)

  /** Every floor sorted and the elevator on a floor. */
  ghost predicate WellFormed(s: State) {
    s.elevator < |s.floors| && forall k :: 0 <= k < |s.floors| ==> SortedFloor(s.floors[k])
  }

  predicate StateValid(s: State) {
    forall k :: 0 <= k < |s.floors| ==> FloorSafe(s.floors[k])
  }

  /** `valid`: every floor passes the scan. */
  method Valid(s: State) returns (b: bool)
    ensures b == StateValid(s)
  {
    for i := 0 to |s.floors|
      invariant forall k :: 0 <= k < i ==> FloorSafe(s.floors[k])
    {
      var safe := CheckFloor(s.floors[i]);
      if !safe {
        return false;
      }
    }
    return true;
  }

  /** All floors below the top are empty and the elevator is on the top. */
  predicate IsComplete(s: State)
    requires |s.floors| > 0
  {
    (forall k :: 0 <= k < |s.floors| - 1 ==> s.floors[k] == []) && s.elevator == |s.floors| - 1
  }

  /** `complete`; `floors.len() - 1` needs at least one floor. */
  method Complete(s: State) returns (b: bool)
    requires |s.floors| > 0
    ensures b == IsComplete(s)
  {
    var lastFloor := |s.floors| - 1;
    for i := 0 to lastFloor
      invariant forall k :: 0 <= k < i ==> s.floors[k] == []
    {
      if s.floors[i] != [] {
        return false;
      }
    }
    return s.elevator == lastFloor;
  }

  /** Tests `state_complete`, `state_incomplete`, `state_valid` and
      `state_invalid`. */
  lemma StateExamples()
    ensures IsComplete(State([[], [], [], [Microchip(1), Generator(1)]], 3))
    ensures !IsComplete(State([[Generator(1)], [Microchip(1)], [Microchip(2), Generator(2)], []], 1))
    ensures StateValid(State([[Generator(1)], [Microchip(1)], [Microchip(2), Generator(2)], []], 1))
    ensures !StateValid(State([[], [Generator(1), Microchip(2)], [Microchip(1), Generator(2)], []], 1))
  {
    var good := State([[Generator(1)], [Microchip(1)], [Microchip(2), Generator(2)], []], 1);
    assert FloorSafe(good.floors[2]) by {
      assert !Unpaired(good.floors[2], 0) && !Unpaired(good.floors[2], 1);
    }
    var bad := State([[], [Generator(1), Microchip(2)], [Microchip(1), Generator(2)], []], 1);
    assert Unpaired(bad.floors[1], 1) && bad.floors[1][0].Generator?;
  }

  // ----- normalisation -----

  /** `normalize_devices` as the puzzle means it: an adjacent pair becomes
      `Pair`, any other device its kind; listed in scan order. */
  function Normalized(d: seq<Device>): (r: seq<NormalizedDevice>)
    ensures |r| <= |d|
  {
    if |d| >= 2 && IsPair(d[0], d[1]) then [NPair] + Normalized(d[2..])
    else if d != [] then [Kind(d[0])] + Normalized(d[1..])
    else []
  }

  /** `normalize_devices` as written: in the unpaired branch the index is
      advanced before the device is read, so the next device's kind is
      recorded instead of the current one's. */
  function NormalizedAsWritten(d: seq<Device>): seq<NormalizedDevice> {
    if |d| >= 2 && IsPair(d[0], d[1]) then [NPair] + NormalizedAsWritten(d[2..])
    else if |d| >= 2 then [Kind(d[1])] + NormalizedAsWritten(d[1..])
    else if d != [] then [Kind(d[0])]
    else []
  }

  function Count(d: seq<Device>, k: NormalizedDevice): nat {
    if d == [] then 0 else (if Kind(d[0]) == k then 1 else 0) + Count(d[1..], k)
  }

  /** Each pair stands for one generator and one microchip: the normalised
      floor keeps the floor's numbers of generators and of microchips. */
  lemma {:induction false} NormalizedKeepsKinds(d: seq<Device>)
    ensures var m := multiset(Normalized(d));
      m[NPair] + m[NGenerator] == Count(d, NGenerator) && m[NPair] + m[NMicrochip] == Count(d, NMicrochip)
  {
    if |d| >= 2 && IsPair(d[0], d[1]) {
      NormalizedKeepsKinds(d[2..]);
      assert d[1..][1..] == d[2..];
    } else if d != [] {
      NormalizedKeepsKinds(d[1..]);
    }
  }

  /** The written version loses a microchip: a microchip followed by an
      unrelated generator is recorded as two generators. */
  lemma AsWrittenMiscounts()
    ensures var d := [Microchip(1), Generator(2)];
      NormalizedAsWritten(d) == [NGenerator, NGenerator] && Count(d, NGenerator) == 1
      && multiset(Normalized(d)) == multiset{NMicrochip, NGenerator}
  {
    var d := [Microchip(1), Generator(2)];
    assert d[1..] == [Generator(2)];
    assert d[1..][1..] == [];
  }

  /** Both readings pair the same devices: the two lists have the same
      length and a `Pair` in the same places; only the kinds recorded for
      unpaired devices differ. */
  lemma {:induction false} SamePairing(d: seq<Device>)
    ensures |NormalizedAsWritten(d)| == |Normalized(d)|
    ensures forall j :: 0 <= j < |Normalized(d)| ==> (Normalized(d)[j] == NPair <==> NormalizedAsWritten(d)[j] == NPair)
  {
    if |d| >= 2 && IsPair(d[0], d[1]) {
      SamePairing(d[2..]);
    } else if |d| >= 2 {
      SamePairing(d[1..]);
    }
  }

  /** The written normalisation gives a floor holding a microchip and a
      floor holding only generators the same normalised form, so the search
      treats them as one seen state; the intended forms differ. */
  lemma AsWrittenMergesFloors()
    ensures var a, b := [Microchip(1), Generator(2)], [Generator(3), Generator(2)];
      NormalizeFloor(a) == NormalizeFloor(b) && IntendedFloor(a) != IntendedFloor(b)
  {
    var a, b := [Microchip(1), Generator(2)], [Generator(3), Generator(2)];
    assert a[1..] == [Generator(2)] && b[1..] == [Generator(2)];
    assert a[1..][1..] == [] && b[1..][1..] == [];
    assert NormalizedAsWritten(a) == NormalizedAsWritten(b);
    assert multiset(IntendedFloor(a))[NMicrochip] == 1;
    assert multiset(IntendedFloor(b))[NMicrochip] == 0;
  }

  /** Pushing every item, in order, into an `OrderedVec` holding `acc`. */
  function PushAll(acc: seq<NormalizedDevice>, items: seq<NormalizedDevice>): (r: seq<NormalizedDevice>)
    requires OV.Sorted(NormalizedKey, acc)
    ensures OV.Sorted(NormalizedKey, r) && multiset(r) == multiset(acc) + multiset(items)
    decreases |items|
  {
    if items == [] then acc
    else
      assert items == [items[0]] + items[1..];
      PushAll(OV.Pushed(NormalizedKey, acc, items[0]), items[1..])
  }

  /** The normalised floor `normalize_devices` builds: its
      `OrderedVec<NormalizedDevice>`, as written. */
  function NormalizeFloor(d: seq<Device>): (r: seq<NormalizedDevice>)
    ensures OV.Sorted(NormalizedKey, r) && multiset(r) == multiset(NormalizedAsWritten(d))
  {
    PushAll([], NormalizedAsWritten(d))
  }

  /** The normalised floor as the puzzle means it. */
  function IntendedFloor(d: seq<Device>): (r: seq<NormalizedDevice>)
    ensures OV.Sorted(NormalizedKey, r) && multiset(r) == multiset(Normalized(d))
  {
    PushAll([], Normalized(d))
  }

  /** The `normalize_devices` loop: a pair is pushed as `Pair`; otherwise
      the index moves on first and the device it then points at is pushed. */
  method NormalizeDevices(d: seq<Device>) returns (res: seq<NormalizedDevice>)
    ensures res == NormalizeFloor(d)
  {
    if |d| <= 1 {
      ShortFloor(d);
      if |d| == 0 {
        return [];
      }
      return [Kind(d[0])];
    }
    res := [];
    var i := 0;
    while i < |d| - 1
      invariant i <= |d| && OV.Sorted(NormalizedKey, res)
      invariant PushAll(res, NormalizedAsWritten(d[i..])) == NormalizeFloor(d)
    {
      NormalizedStep(d, i, res);
      if IsPair(d[i], d[i + 1]) {
        i := i + 2;
        res := OV.Pushed(NormalizedKey, res, NPair);
      } else {
        i := i + 1;
        res := OV.Pushed(NormalizedKey, res, Kind(d[i]));
      }
    }
    if i < |d| {
      NormalizedStep(d, i, res);
      res := OV.Pushed(NormalizedKey, res, Kind(d[i]));
    } else {
      assert d[i..] == [];
    }
  }

  /** The empty and one-device floors. */
  lemma ShortFloor(d: seq<Device>)
    requires |d| <= 1
    ensures NormalizeFloor(d) == if d == [] then [] else [Kind(d[0])]
  {
    if d != [] {
      assert NormalizedAsWritten(d) == [Kind(d[0])];
      PushOne(Kind(d[0]));
    }
  }

  lemma PushOne(k: NormalizedDevice)
    ensures PushAll([], [k]) == [k]
  {
    assert [k][1..] == [];
    assert OV.Pushed(NormalizedKey, [], k) == [k];
  }

  /** One turn of the loop: what is pushed for the devices left from `i`. */
  lemma NormalizedStep(d: seq<Device>, i: nat, acc: seq<NormalizedDevice>)
    requires i < |d| && OV.Sorted(NormalizedKey, acc)
    ensures PushAll(acc, NormalizedAsWritten(d[i..])) ==
        if i + 1 < |d| && IsPair(d[i], d[i + 1]) then PushAll(OV.Pushed(NormalizedKey, acc, NPair), NormalizedAsWritten(d[i + 2..]))
        else if i + 1 < |d| then PushAll(OV.Pushed(NormalizedKey, acc, Kind(d[i + 1])), NormalizedAsWritten(d[i + 1..]))
        else OV.Pushed(NormalizedKey, acc, Kind(d[i]))
  {
    var rest := d[i..];
    assert rest[1..] == d[i + 1..];
    if i + 1 < |d| {
      assert rest[2..] == d[i + 2..];
    } else {
      assert NormalizedAsWritten(rest) == [Kind(d[i])];
      assert [Kind(d[i])][1..] == [];
    }
  }

  datatype NormalizedState = NormalizedState(floors: seq<seq<NormalizedDevice>>, elevator: nat)

  /** `State::normalize`: every floor normalised, the elevator kept. */
  function Normalize(s: State): (n: NormalizedState)
    ensures |n.floors| == |s.floors| && n.elevator == s.elevator
    ensures forall k :: 0 <= k < |s.floors| ==> n.floors[k] == NormalizeFloor(s.floors[k])
  {
    NormalizedState(seq(|s.floors|, k requires 0 <= k < |s.floors| => NormalizeFloor(s.floors[k])), s.elevator)
  }

  /** `State::normalize` as the puzzle means it. */
  function IntendedNormalize(s: State): (n: NormalizedState)
    ensures |n.floors| == |s.floors| && n.elevator == s.elevator
    ensures forall k :: 0 <= k < |s.floors| ==> n.floors[k] == IntendedFloor(s.floors[k])
  {
    NormalizedState(seq(|s.floors|, k requires 0 <= k < |s.floors| => IntendedFloor(s.floors[k])), s.elevator)
  }

  // ----- moves -----

  /** `OrderedVec::remove(k)` on a floor. */
  function RemoveAt(f: seq<Device>, k: nat): (r: seq<Device>)
    requires k < |f|
    ensures |r| == |f| - 1
  {
    if k == 0 then f[1..] else [f[0]] + RemoveAt(f[1..], k - 1)
  }

  /** `Vec::remove` closes the gap: what is left is the items before and
      after `k`, so the multiset loses `f[k]` and the order is kept. */
  lemma {:induction false} RemoveAtSplices(f: seq<Device>, k: nat)
    requires k < |f|
    ensures RemoveAt(f, k) == f[..k] + f[k + 1..]
  {
    if k > 0 {
      RemoveAtSplices(f[1..], k - 1);
      assert [f[0]] + f[1..][..k - 1] == f[..k];
    }
  }

  lemma RemoveAtKeeps(f: seq<Device>, k: nat)
    requires k < |f|
    ensures multiset(RemoveAt(f, k)) + multiset{f[k]} == multiset(f)
    ensures SortedFloor(f) ==> SortedFloor(RemoveAt(f, k))
  {
    RemoveAtSplices(f, k);
    SpliceCounts(f, k);
    if SortedFloor(f) {
      SpliceSorted(f, k);
    }
  }

  lemma SpliceCounts(f: seq<Device>, k: nat)
    requires k < |f|
    ensures multiset(f[..k] + f[k + 1..]) + multiset{f[k]} == multiset(f)
  {
    assert f == f[..k] + [f[k]] + f[k + 1..];
  }

  lemma SpliceSorted(f: seq<Device>, k: nat)
    requires k < |f| && SortedFloor(f)
    ensures SortedFloor(f[..k] + f[k + 1..])
  {
    var r := f[..k] + f[k + 1..];
    forall a | 0 <= a < |r| ensures r[a] == f[a + (if a < k then 0 else 1)] {
    }
  }

  /** The items after `OrderedVec::push(d)`: `d` goes after every device not
      above it. */
  function Insert(f: seq<Device>, d: Device): (r: seq<Device>)
    ensures |r| == |f| + 1
    decreases |f|
  {
    if f == [] || OV.KeyLe(DeviceKey(f[|f| - 1]), DeviceKey(d)) then f + [d]
    else Insert(f[..|f| - 1], d) + [f[|f| - 1]]
  }

  lemma DeviceKeyInjective(a: Device, b: Device)
    requires DeviceKey(a) == DeviceKey(b)
    ensures a == b
  {
  }

  /** On a sorted floor `Insert` places `d` at the split point of the devices
      not above it. */
  lemma {:induction false} InsertSplits(f: seq<Device>, d: Device)
    requires SortedFloor(f)
    ensures var m := OV.CountNotAbove(DeviceKey, f, DeviceKey(d));
      Insert(f, d) == f[..m] + [d] + f[m..]
  {
    var m := OV.CountNotAbove(DeviceKey, f, DeviceKey(d));
    OV.CountNotAboveSplits(DeviceKey, f, DeviceKey(d));
    if f == [] {
    } else if OV.KeyLe(DeviceKey(f[|f| - 1]), DeviceKey(d)) {
      assert |f| - 1 < m;
      assert f[..m] == f && f[m..] == [];
    } else {
      var g := f[..|f| - 1];
      InsertSplits(g, d);
      OV.CountNotAboveSplits(DeviceKey, g, DeviceKey(d));
      var mg := OV.CountNotAbove(DeviceKey, g, DeviceKey(d));
      OV.CountAtSplit(DeviceKey, f, DeviceKey(d), mg);
      assert m < |f|;
      DropLastSlices(f, m);
    }
  }

  lemma DropLastSlices(f: seq<Device>, m: nat)
    requires m < |f|
    ensures f[..|f| - 1][..m] == f[..m] && f[..|f| - 1][m..] + [f[|f| - 1]] == f[m..]
  {
    var g := f[..|f| - 1];
    assert f == g + [f[|f| - 1]];
  }

  /** `Insert` is what `OrderedVec::push` leaves: appended when `d` is not
      below the last device, otherwise inserted where the binary search
      lands. Devices with equal keys are equal, so the search's choice among
      equal items does not show. */
  lemma InsertIsPush(f: seq<Device>, d: Device)
    requires SortedFloor(f)
    ensures Insert(f, d) == OV.Pushed(DeviceKey, f, d)
  {
    InsertSplits(f, d);
    var m := OV.CountNotAbove(DeviceKey, f, DeviceKey(d));
    if f != [] && OV.KeyLe(DeviceKey(f[|f| - 1]), DeviceKey(d)) {
      assert OV.Pushed(DeviceKey, f, d) == f + [d];
      assert Insert(f, d) == f + [d];
    } else {
      var i := OV.Index(OV.SearchSpec(DeviceKey, f, DeviceKey(d)));
      assert OV.Pushed(DeviceKey, f, d) == f[..i] + [d] + f[i..];
      if OV.HasEqual(DeviceKey, f, DeviceKey(d)) {
        EqualBeforeSplit(f, d);
      }
    }
  }

  /** When the floor holds a device with `d`'s key, it is `d` itself and it
      sits just before the split point, so inserting before or after it is
      the same. */
  lemma EqualBeforeSplit(f: seq<Device>, d: Device)
    requires SortedFloor(f) && OV.HasEqual(DeviceKey, f, DeviceKey(d))
    ensures var m := OV.CountNotAbove(DeviceKey, f, DeviceKey(d));
      0 < m && f[..m - 1] + [d] + f[m - 1..] == f[..m] + [d] + f[m..]
  {
    var m := OV.CountNotAbove(DeviceKey, f, DeviceKey(d));
    OV.CountNotAboveSplits(DeviceKey, f, DeviceKey(d));
    var k :| 0 <= k < |f| && DeviceKey(f[k]) == DeviceKey(d);
    assert k < m;
    EqualIsLastNotAbove(f, d, k, m);
    SplitAround(f, m - 1);
  }

  lemma EqualIsLastNotAbove(f: seq<Device>, d: Device, k: nat, m: nat)
    requires SortedFloor(f) && k < m <= |f| && DeviceKey(f[k]) == DeviceKey(d)
    requires OV.KeyLe(DeviceKey(f[m - 1]), DeviceKey(d))
    ensures f[m - 1] == d
  {
    assert OV.KeyLe(DeviceKey(f[k]), DeviceKey(f[m - 1]));
    DeviceKeyInjective(f[m - 1], d);
  }

  lemma SplitAround(f: seq<Device>, i: nat)
    requires i < |f|
    ensures f[..i] + [f[i]] + f[i..] == f[..i + 1] + [f[i]] + f[i + 1..]
  {
    assert f[..i + 1] == f[..i] + [f[i]];
    assert f[i..] == [f[i]] + f[i + 1..];
  }

  /** Pushing keeps a floor sorted and adds `d` to its devices. */
  lemma InsertKeeps(f: seq<Device>, d: Device)
    requires SortedFloor(f)
    ensures SortedFloor(Insert(f, d)) && multiset(Insert(f, d)) == multiset(f) + multiset{d}
  {
    InsertIsPush(f, d);
  }

  /** A clone with device `i` of the elevator's floor carried to `target`. */
  function MoveOne(s: State, i: nat, target: nat): State
    requires s.elevator < |s.floors| && i < |s.floors[s.elevator]| && target < |s.floors| && target != s.elevator
  {
    var f := s.floors[s.elevator];
    State(s.floors[s.elevator := RemoveAt(f, i)][target := Insert(s.floors[target], f[i])], target)
  }

  /** A clone with two devices carried to `target`: `remove(j)`, then
      `remove(i)` from what is left, then both pushed. */
  function MovePair(s: State, i: nat, j: nat, target: nat): State
    requires s.elevator < |s.floors| && i <= j < |s.floors[s.elevator]| && i + 1 < |s.floors[s.elevator]|
    requires target < |s.floors| && target != s.elevator
  {
    var f := s.floors[s.elevator];
    var rest := RemoveAt(f, j);
    State(s.floors[s.elevator := RemoveAt(rest, i)][target := Insert(Insert(s.floors[target], rest[i]), f[j])], target)
  }

  /** The shape of every move: the elevator goes one floor up or down
      carrying one or two devices from its floor, nothing else changes, and
      the result is still well formed with the elevator's floor occupied. */
  ghost predicate Moved(s: State, t: State) {
    WellFormed(s) && WellFormed(t) && |t.floors| == |s.floors|
    && (t.elevator == s.elevator + 1 || t.elevator + 1 == s.elevator)
    && (forall k :: 0 <= k < |s.floors| && k != s.elevator && k != t.elevator ==> t.floors[k] == s.floors[k])
    && t.floors[t.elevator] != []
    && var carried := multiset(s.floors[s.elevator]) - multiset(t.floors[s.elevator]);
       1 <= |carried| <= 2
       && multiset(t.floors[s.elevator]) + carried == multiset(s.floors[s.elevator])
       && multiset(t.floors[t.elevator]) == multiset(s.floors[t.elevator]) + carried
  }

  /** A move the search may take. */
  ghost predicate Step(s: State, t: State) {
    Moved(s, t) && StateValid(t)
  }

  predicate Adjacent(s: State, target: nat) {
    target == s.elevator + 1 || target + 1 == s.elevator
  }

  /** The shape of a move, stated on the two floors it touches. */
  lemma MovedFrom(s: State, t: State, carried: multiset<Device>)
    requires WellFormed(s) && |t.floors| == |s.floors| && t.elevator < |t.floors| && Adjacent(s, t.elevator)
    requires forall k :: 0 <= k < |s.floors| && k != s.elevator && k != t.elevator ==> t.floors[k] == s.floors[k]
    requires SortedFloor(t.floors[s.elevator]) && SortedFloor(t.floors[t.elevator]) && t.floors[t.elevator] != []
    requires 1 <= |carried| <= 2
    requires multiset(t.floors[s.elevator]) + carried == multiset(s.floors[s.elevator])
    requires multiset(t.floors[t.elevator]) == multiset(s.floors[t.elevator]) + carried
    ensures Moved(s, t)
  {
    assert multiset(s.floors[s.elevator]) - multiset(t.floors[s.elevator]) == carried;
  }

  lemma MoveOneMoved(s: State, i: nat, target: nat)
    requires WellFormed(s) && i < |s.floors[s.elevator]| && target < |s.floors| && Adjacent(s, target)
    ensures Moved(s, MoveOne(s, i, target))
  {
    var f := s.floors[s.elevator];
    var t := MoveOne(s, i, target);
    RemoveAtKeeps(f, i);
    InsertKeeps(s.floors[target], f[i]);
    assert t.floors[s.elevator] == RemoveAt(f, i);
    assert t.floors[target] == Insert(s.floors[target], f[i]);
    MovedFrom(s, t, multiset{f[i]});
  }

  lemma MovePairMoved(s: State, i: nat, j: nat, target: nat)
    requires WellFormed(s) && i <= j < |s.floors[s.elevator]| && i + 1 < |s.floors[s.elevator]|
    requires target < |s.floors| && Adjacent(s, target)
    ensures Moved(s, MovePair(s, i, j, target))
  {
    var f := s.floors[s.elevator];
    var rest := RemoveAt(f, j);
    var t := MovePair(s, i, j, target);
    PairRemoved(f, i, j);
    PairInserted(s.floors[target], rest[i], f[j]);
    assert t.floors[s.elevator] == RemoveAt(rest, i);
    assert t.floors[target] == Insert(Insert(s.floors[target], rest[i]), f[j]);
    assert |multiset{rest[i], f[j]}| == 2;
    MovedFrom(s, t, multiset{rest[i], f[j]});
  }

  lemma PairRemoved(f: seq<Device>, i: nat, j: nat)
    requires SortedFloor(f) && i <= j < |f| && i + 1 < |f|
    ensures var rest := RemoveAt(f, j);
      SortedFloor(RemoveAt(rest, i)) && multiset(RemoveAt(rest, i)) + multiset{rest[i], f[j]} == multiset(f)
  {
    RemoveAtKeeps(f, j);
    RemoveAtKeeps(RemoveAt(f, j), i);
  }

  lemma PairInserted(g: seq<Device>, a: Device, b: Device)
    requires SortedFloor(g)
    ensures SortedFloor(Insert(Insert(g, a), b)) && multiset(Insert(Insert(g, a), b)) == multiset(g) + multiset{a, b}
  {
    InsertKeeps(g, a);
    InsertKeeps(Insert(g, a), b);
  }

  /** Is anything on the floors below `e`? (`is_empty` in `move_each`.) */
  predicate BelowEmpty(s: State)
    requires s.elevator <= |s.floors|
  {
    forall k :: 0 <= k < s.elevator ==> s.floors[k] == []
  }

  function Up(s: State): nat {
    s.elevator + 1
  }

  function Down(s: State): nat
    requires s.elevator > 0
  {
    s.elevator - 1
  }

  /** The single moves to `target`, one per device of the elevator's floor,
      in order. */
  function SingleMoves(s: State, target: nat): seq<State>
    requires WellFormed(s) && target < |s.floors| && target != s.elevator
  {
    var n := |s.floors[s.elevator]|;
    seq(n, a requires 0 <= a < n => MoveOne(s, a, target))
  }

  /** The first `j` of a pairs loop's row `a`: `a + 1` going up, `a` going
      down. */
  function First(a: nat, fromSelf: bool): nat {
    if fromSelf then a else a + 1
  }

  /** Row `a` of a pairs loop: the moves of `(a, b)` for `lo <= b` up to the
      end of the floor. */
  function PairRow(s: State, target: nat, a: nat, lo: nat): seq<State>
    requires WellFormed(s) && a + 1 < |s.floors[s.elevator]| && a <= lo <= a + 1
    requires target < |s.floors| && target != s.elevator
  {
    var n := |s.floors[s.elevator]|;
    seq(n - lo, k requires 0 <= k < n - lo => MovePair(s, a, lo + k, target))
  }

  /** The rows of a pairs loop, one per device but the last. */
  function PairRows(s: State, target: nat, fromSelf: bool): seq<seq<State>>
    requires WellFormed(s) && s.floors[s.elevator] != [] && target < |s.floors| && target != s.elevator
  {
    var n := |s.floors[s.elevator]|;
    seq(n - 1, a requires 0 <= a < n - 1 => PairRow(s, target, a, First(a, fromSelf)))
  }

  /** The valid candidates below `n`, in order: what a loop that clones
      each candidate and keeps it when `valid` collects. */
  function Kept(cands: seq<State>, n: nat): (r: seq<State>)
    requires n <= |cands|
    ensures |r| <= n
  {
    if n == 0 then [] else Kept(cands, n - 1) + if StateValid(cands[n - 1]) then [cands[n - 1]] else []
  }

  /** `Kept` over the rows `0 .. n` of a pairs loop, row after row. */
  function KeptRows(rows: seq<seq<State>>, n: nat): (r: seq<State>)
    requires n <= |rows|
  {
    if n == 0 then [] else KeptRows(rows, n - 1) + Kept(rows[n - 1], |rows[n - 1]|)
  }

  lemma {:induction false} KeptSound(cands: seq<State>, n: nat, t: State)
    requires n <= |cands| && t in Kept(cands, n)
    ensures StateValid(t) && exists a :: 0 <= a < n && cands[a] == t
  {
    if t !in Kept(cands, n - 1) {
      assert t == cands[n - 1];
    } else {
      KeptSound(cands, n - 1, t);
    }
  }

  lemma {:induction false} KeptComplete(cands: seq<State>, n: nat, a: nat)
    requires a < n <= |cands| && StateValid(cands[a])
    ensures cands[a] in Kept(cands, n)
  {
    if a < n - 1 {
      KeptComplete(cands, n - 1, a);
    }
  }

  lemma {:induction false} KeptEmpty(cands: seq<State>, n: nat)
    requires n <= |cands|
    ensures Kept(cands, n) == [] <==> forall a :: 0 <= a < n ==> !StateValid(cands[a])
  {
    if n > 0 {
      KeptEmpty(cands, n - 1);
    }
  }

  lemma {:induction false} KeptRowsSound(rows: seq<seq<State>>, n: nat, t: State)
    requires n <= |rows| && t in KeptRows(rows, n)
    ensures StateValid(t) && exists a, k :: 0 <= a < n && 0 <= k < |rows[a]| && rows[a][k] == t
  {
    if t in Kept(rows[n - 1], |rows[n - 1]|) {
      KeptSound(rows[n - 1], |rows[n - 1]|, t);
      var k :| 0 <= k < |rows[n - 1]| && rows[n - 1][k] == t;
    } else {
      KeptRowsSound(rows, n - 1, t);
    }
  }

  lemma {:induction false} KeptRowsComplete(rows: seq<seq<State>>, n: nat, a: nat, k: nat)
    requires a < n <= |rows| && k < |rows[a]| && StateValid(rows[a][k])
    ensures rows[a][k] in KeptRows(rows, n)
  {
    if a < n - 1 {
      KeptRowsComplete(rows, n - 1, a, k);
    } else {
      KeptComplete(rows[a], |rows[a]|, k);
    }
  }

  lemma {:induction false} KeptRowsEmpty(rows: seq<seq<State>>, n: nat)
    requires n <= |rows|
    ensures KeptRows(rows, n) == [] <==>
      forall a, k :: 0 <= a < n && 0 <= k < |rows[a]| ==> !StateValid(rows[a][k])
  {
    if n > 0 {
      KeptRowsEmpty(rows, n - 1);
      KeptEmpty(rows[n - 1], |rows[n - 1]|);
    }
  }

  /** The states `move_each` returns going up: the valid pair moves, or when
      there is none the valid single moves. */
  function UpMoves(s: State): seq<State>
    requires WellFormed(s) && s.floors[s.elevator] != []
  {
    var n := |s.floors[s.elevator]|;
    if Up(s) < |s.floors| then
      var pairs := KeptRows(PairRows(s, Up(s), false), n - 1);
      if pairs == [] then Kept(SingleMoves(s, Up(s)), n) else pairs
    else []
  }

  /** The states `move_each` returns going down: nothing when every floor
      below is empty, else the valid single moves, or when there is none
      the valid pair moves. */
  function DownMoves(s: State): seq<State>
    requires WellFormed(s) && s.floors[s.elevator] != []
  {
    var n := |s.floors[s.elevator]|;
    if s.elevator > 0 && !BelowEmpty(s) then
      var singles := Kept(SingleMoves(s, Down(s)), n);
      if singles == [] then KeptRows(PairRows(s, Down(s), true), n - 1) else singles
    else []
  }

  function Successors(s: State): seq<State>
    requires WellFormed(s) && s.floors[s.elevator] != []
  {
    UpMoves(s) + DownMoves(s)
  }

  /** `cands` holds the single moves to `target`, device by device. */
  ghost predicate SingleCands(s: State, target: nat, cands: seq<State>)
    requires s.elevator < |s.floors| && target < |s.floors| && target != s.elevator
  {
    |cands| == |s.floors[s.elevator]|
    && forall a {:trigger MoveOne(s, a, target)} :: 0 <= a < |cands| ==> cands[a] == MoveOne(s, a, target)
  }

  /** `rows` holds the pair moves to `target` of a pairs loop, row `a`
      trying `b` from `First(a, fromSelf)` to the end of the floor. */
  ghost predicate PairCands(s: State, target: nat, fromSelf: bool, rows: seq<seq<State>>)
    requires s.elevator < |s.floors| && s.floors[s.elevator] != [] && target < |s.floors| && target != s.elevator
  {
    var n := |s.floors[s.elevator]|;
    |rows| == n - 1
    && (forall a :: 0 <= a < |rows| ==> |rows[a]| == n - First(a, fromSelf))
    && forall a, b {:trigger MovePair(s, a, b, target)} :: 0 <= a < n - 1 && First(a, fromSelf) <= b < n ==>
         rows[a][b - First(a, fromSelf)] == MovePair(s, a, b, target)
  }

  lemma SingleMovesAre(s: State, target: nat)
    requires WellFormed(s) && target < |s.floors| && target != s.elevator
    ensures SingleCands(s, target, SingleMoves(s, target))
  {
    var n := |s.floors[s.elevator]|;
    forall a | 0 <= a < n ensures SingleMoves(s, target)[a] == MoveOne(s, a, target) {
    }
  }

  lemma PairRowsAre(s: State, target: nat, fromSelf: bool)
    requires WellFormed(s) && s.floors[s.elevator] != [] && target < |s.floors| && target != s.elevator
    ensures PairCands(s, target, fromSelf, PairRows(s, target, fromSelf))
  {
    var n := |s.floors[s.elevator]|;
    var rows := PairRows(s, target, fromSelf);
    forall a, b | 0 <= a < n - 1 && First(a, fromSelf) <= b < n
      ensures rows[a][b - First(a, fromSelf)] == MovePair(s, a, b, target)
    {
    }
  }

  lemma SinglesAreSteps(s: State, target: nat, cands: seq<State>, t: State)
    requires WellFormed(s) && target < |s.floors| && Adjacent(s, target) && SingleCands(s, target, cands)
    requires t in Kept(cands, |cands|)
    ensures Step(s, t)
  {
    KeptSound(cands, |cands|, t);
    var a :| 0 <= a < |cands| && cands[a] == t;
    assert cands[a] == MoveOne(s, a, target);
    MoveOneMoved(s, a, target);
  }

  lemma PairsAreSteps(s: State, target: nat, fromSelf: bool, rows: seq<seq<State>>, t: State)
    requires WellFormed(s) && s.floors[s.elevator] != [] && target < |s.floors| && Adjacent(s, target)
    requires PairCands(s, target, fromSelf, rows) && t in KeptRows(rows, |rows|)
    ensures Step(s, t)
  {
    KeptRowsSound(rows, |rows|, t);
    var a, k :| 0 <= a < |rows| && 0 <= k < |rows[a]| && rows[a][k] == t;
    var b := First(a, fromSelf) + k;
    assert rows[a][b - First(a, fromSelf)] == MovePair(s, a, b, target);
    MovePairMoved(s, a, b, target);
  }

  /** Every state `move_each` returns is a legal step. */
  lemma SuccessorsAreSteps(s: State)
    requires WellFormed(s) && s.floors[s.elevator] != []
    ensures forall t :: t in Successors(s) ==> Step(s, t)
  {
    UpSteps(s);
    DownSteps(s);
  }

  lemma UpSteps(s: State)
    requires WellFormed(s) && s.floors[s.elevator] != []
    ensures forall t :: t in UpMoves(s) ==> Step(s, t)
  {
    if Up(s) < |s.floors| {
      var n := |s.floors[s.elevator]|;
      var rows := PairRows(s, Up(s), false);
      var cands := SingleMoves(s, Up(s));
      SingleMovesAre(s, Up(s));
      PairRowsAre(s, Up(s), false);
      forall t | t in UpMoves(s) ensures Step(s, t) {
        if KeptRows(rows, n - 1) == [] {
          SinglesAreSteps(s, Up(s), cands, t);
        } else {
          PairsAreSteps(s, Up(s), false, rows, t);
        }
      }
    }
  }

  lemma DownSteps(s: State)
    requires WellFormed(s) && s.floors[s.elevator] != []
    ensures forall t :: t in DownMoves(s) ==> Step(s, t)
  {
    if s.elevator > 0 && !BelowEmpty(s) {
      var n := |s.floors[s.elevator]|;
      var rows := PairRows(s, Down(s), true);
      var cands := SingleMoves(s, Down(s));
      SingleMovesAre(s, Down(s));
      PairRowsAre(s, Down(s), true);
      forall t | t in DownMoves(s) ensures Step(s, t) {
        if Kept(cands, n) == [] {
          PairsAreSteps(s, Down(s), true, rows, t);
        } else {
          SinglesAreSteps(s, Down(s), cands, t);
        }
      }
    }
  }

  /** A valid pair move `(a, b)` of a pairs loop is kept. */
  lemma PairKept(s: State, target: nat, fromSelf: bool, rows: seq<seq<State>>, a: nat, b: nat)
    requires WellFormed(s) && a + 1 < |s.floors[s.elevator]| && First(a, fromSelf) <= b < |s.floors[s.elevator]|
    requires target < |s.floors| && target != s.elevator && PairCands(s, target, fromSelf, rows)
    requires StateValid(MovePair(s, a, b, target))
    ensures MovePair(s, a, b, target) in KeptRows(rows, |rows|)
  {
    KeptRowsComplete(rows, |rows|, a, b - First(a, fromSelf));
  }

  /** When no pair move is kept, none is valid. */
  lemma PairsNoneKept(s: State, target: nat, fromSelf: bool, rows: seq<seq<State>>, a: nat, b: nat)
    requires WellFormed(s) && a + 1 < |s.floors[s.elevator]| && First(a, fromSelf) <= b < |s.floors[s.elevator]|
    requires target < |s.floors| && target != s.elevator && PairCands(s, target, fromSelf, rows)
    requires KeptRows(rows, |rows|) == []
    ensures !StateValid(MovePair(s, a, b, target))
  {
    KeptRowsEmpty(rows, |rows|);
    assert !StateValid(rows[a][b - First(a, fromSelf)]);
  }

  /** When no pair move of a pairs loop is valid, none is kept. */
  lemma PairsNoneValid(s: State, target: nat, fromSelf: bool, rows: seq<seq<State>>)
    requires WellFormed(s) && s.floors[s.elevator] != [] && target < |s.floors| && target != s.elevator
    requires PairCands(s, target, fromSelf, rows)
    requires forall a, b :: 0 <= a < b < |s.floors[s.elevator]| ==> !StateValid(MovePair(s, a, b, target))
    requires fromSelf ==> forall a :: 0 <= a < |s.floors[s.elevator]| - 1 ==> !StateValid(MovePair(s, a, a, target))
    ensures KeptRows(rows, |rows|) == []
  {
    forall a, k | 0 <= a < |rows| && 0 <= k < |rows[a]| ensures !StateValid(rows[a][k]) {
      PairCandInvalid(s, target, fromSelf, rows, a, k);
    }
    KeptRowsEmpty(rows, |rows|);
  }

  lemma PairCandInvalid(s: State, target: nat, fromSelf: bool, rows: seq<seq<State>>, a: nat, k: nat)
    requires WellFormed(s) && s.floors[s.elevator] != [] && target < |s.floors| && target != s.elevator
    requires PairCands(s, target, fromSelf, rows) && a < |rows| && k < |rows[a]|
    requires forall a, b :: 0 <= a < b < |s.floors[s.elevator]| ==> !StateValid(MovePair(s, a, b, target))
    requires fromSelf ==> forall a :: 0 <= a < |s.floors[s.elevator]| - 1 ==> !StateValid(MovePair(s, a, a, target))
    ensures !StateValid(rows[a][k])
  {
    var b := First(a, fromSelf) + k;
    assert rows[a][b - First(a, fromSelf)] == MovePair(s, a, b, target);
  }

  /** When no single move is valid, none is kept. */
  lemma SinglesNoneValid(s: State, target: nat, cands: seq<State>)
    requires WellFormed(s) && target < |s.floors| && target != s.elevator && SingleCands(s, target, cands)
    requires forall a :: 0 <= a < |s.floors[s.elevator]| ==> !StateValid(MoveOne(s, a, target))
    ensures Kept(cands, |cands|) == []
  {
    forall a | 0 <= a < |cands| ensures !StateValid(cands[a]) {
      assert cands[a] == MoveOne(s, a, target);
    }
    KeptEmpty(cands, |cands|);
  }

  lemma SingleKept(s: State, target: nat, cands: seq<State>, a: nat)
    requires WellFormed(s) && a < |s.floors[s.elevator]| && target < |s.floors| && target != s.elevator
    requires SingleCands(s, target, cands) && StateValid(MoveOne(s, a, target))
    ensures MoveOne(s, a, target) in Kept(cands, |cands|)
  {
    KeptComplete(cands, |cands|, a);
  }

  lemma SinglesNoneKept(s: State, target: nat, cands: seq<State>, a: nat)
    requires WellFormed(s) && a < |s.floors[s.elevator]| && target < |s.floors| && target != s.elevator
    requires SingleCands(s, target, cands) && Kept(cands, |cands|) == []
    ensures !StateValid(MoveOne(s, a, target))
  {
    KeptEmpty(cands, |cands|);
    assert !StateValid(cands[a]);
  }

  /** Going up, every valid pair move is returned, and when there is none
      every valid single move is. */
  lemma UpComplete(s: State)
    requires WellFormed(s) && s.floors[s.elevator] != [] && Up(s) < |s.floors|
    ensures forall a, b :: 0 <= a < b < |s.floors[s.elevator]| && StateValid(MovePair(s, a, b, Up(s))) ==>
      MovePair(s, a, b, Up(s)) in Successors(s)
    ensures (forall a, b :: 0 <= a < b < |s.floors[s.elevator]| ==> !StateValid(MovePair(s, a, b, Up(s)))) ==>
      forall a :: 0 <= a < |s.floors[s.elevator]| && StateValid(MoveOne(s, a, Up(s))) ==> MoveOne(s, a, Up(s)) in Successors(s)
  {
    var n := |s.floors[s.elevator]|;
    var rows := PairRows(s, Up(s), false);
    var cands := SingleMoves(s, Up(s));
    PairRowsAre(s, Up(s), false);
    SingleMovesAre(s, Up(s));
    assert UpMoves(s) == if KeptRows(rows, n - 1) == [] then Kept(cands, n) else KeptRows(rows, n - 1);
    forall a, b | 0 <= a < b < n && StateValid(MovePair(s, a, b, Up(s)))
      ensures MovePair(s, a, b, Up(s)) in Successors(s)
    {
      PairKept(s, Up(s), false, rows, a, b);
    }
    if forall a, b :: 0 <= a < b < n ==> !StateValid(MovePair(s, a, b, Up(s))) {
      PairsNoneValid(s, Up(s), false, rows);
      forall a | 0 <= a < n && StateValid(MoveOne(s, a, Up(s)))
        ensures MoveOne(s, a, Up(s)) in Successors(s)
      {
        SingleKept(s, Up(s), cands, a);
      }
    }
  }

  /** Going down, when some floor below holds a device, every valid single
      move is returned, and when there is none every valid pair move is
      (`(a, a)` carries devices `a` and `a + 1`). */
  lemma DownComplete(s: State)
    requires WellFormed(s) && s.floors[s.elevator] != [] && s.elevator > 0 && !BelowEmpty(s)
    ensures forall a :: 0 <= a < |s.floors[s.elevator]| && StateValid(MoveOne(s, a, Down(s))) ==>
      MoveOne(s, a, Down(s)) in Successors(s)
    ensures (forall a :: 0 <= a < |s.floors[s.elevator]| ==> !StateValid(MoveOne(s, a, Down(s)))) ==>
      forall a, b ::
        (0 <= a <= b < |s.floors[s.elevator]| && a + 1 < |s.floors[s.elevator]| && StateValid(MovePair(s, a, b, Down(s))))
        ==> MovePair(s, a, b, Down(s)) in Successors(s)
  {
    var n := |s.floors[s.elevator]|;
    var rows := PairRows(s, Down(s), true);
    var cands := SingleMoves(s, Down(s));
    PairRowsAre(s, Down(s), true);
    SingleMovesAre(s, Down(s));
    assert DownMoves(s) == if Kept(cands, n) == [] then KeptRows(rows, n - 1) else Kept(cands, n);
    forall a | 0 <= a < n && StateValid(MoveOne(s, a, Down(s)))
      ensures MoveOne(s, a, Down(s)) in Successors(s)
    {
      SingleKept(s, Down(s), cands, a);
    }
    if forall a :: 0 <= a < n ==> !StateValid(MoveOne(s, a, Down(s))) {
      SinglesNoneValid(s, Down(s), cands);
      forall a, b | 0 <= a <= b < n && a + 1 < n && StateValid(MovePair(s, a, b, Down(s)))
        ensures MovePair(s, a, b, Down(s)) in Successors(s)
      {
        PairKept(s, Down(s), true, rows, a, b);
      }
    }
  }

  /** `move_each`. */
  method MoveEach(s: State) returns (r: seq<State>)
    requires WellFormed(s) && s.floors[s.elevator] != []
    ensures r == Successors(s)
  {
    var up := MovesUp(s);
    var down := MovesDown(s);
    r := up + down;
  }

  /** The first half of `move_each`: pairs up, then singles up when no pair
      went up. */
  method MovesUp(s: State) returns (r: seq<State>)
    requires WellFormed(s) && s.floors[s.elevator] != []
    ensures r == UpMoves(s)
  {
    r := [];
    var floorLen := |s.floors[s.elevator]|;
    if s.elevator < |s.floors| - 1 {
      var upper := s.elevator + 1;
      var pairsMoved;
      r, pairsMoved := Pairs(s, upper, false);
      if pairsMoved == 0 {
        var singlesMoved;
        r, singlesMoved := Singles(s, upper);
      }
    }
  }

  /** The second half of `move_each`: when some floor below holds a device,
      singles down, then pairs down when no single went down. */
  method MovesDown(s: State) returns (r: seq<State>)
    requires WellFormed(s) && s.floors[s.elevator] != []
    ensures r == DownMoves(s)
  {
    r := [];
    var floorLen := |s.floors[s.elevator]|;
    if s.elevator > 0 {
      var lower := s.elevator - 1;
      var isEmpty := LowerFloorsEmpty(s);
      if !isEmpty {
        var singlesMoved;
        r, singlesMoved := Singles(s, lower);
        if singlesMoved == 0 {
          var pairsMoved;
          r, pairsMoved := Pairs(s, lower, true);
        }
      }
    }
  }

  /** The `is_empty` scan of the floors below the elevator, stopping at the
      first device. */
  method LowerFloorsEmpty(s: State) returns (isEmpty: bool)
    requires 0 < s.elevator < |s.floors|
    ensures isEmpty == BelowEmpty(s)
  {
    isEmpty := true;
    for i := 0 to s.elevator
      invariant isEmpty == forall k :: 0 <= k < i ==> s.floors[k] == []
    {
      if s.floors[i] != [] {
        isEmpty := false;
        break;
      }
    }
  }

  /** A singles loop: each device of the elevator's floor carried alone to
      `target`, the clone kept when valid; `moved` counts them. */
  method Singles(s: State, target: nat) returns (r: seq<State>, moved: nat)
    requires WellFormed(s) && target < |s.floors| && target != s.elevator
    ensures r == Kept(SingleMoves(s, target), |s.floors[s.elevator]|)
    ensures moved == |r|
  {
    ghost var cands := SingleMoves(s, target);
    r, moved := [], 0;
    for i := 0 to |s.floors[s.elevator]|
      invariant r == Kept(cands, i) && moved == |r|
    {
      var newState := MoveOne(s, i, target);
      var ok := Valid(newState);
      if ok {
        r := r + [newState];
        moved := moved + 1;
      }
    }
  }

  /** A pairs loop: row `i` tries `j` from `First(i, fromSelf)` up; `moved`
      counts the states kept. */
  method Pairs(s: State, target: nat, fromSelf: bool) returns (r: seq<State>, moved: nat)
    requires WellFormed(s) && s.floors[s.elevator] != [] && target < |s.floors| && target != s.elevator
    ensures r == KeptRows(PairRows(s, target, fromSelf), |s.floors[s.elevator]| - 1)
    ensures moved == |r|
  {
    var floorLen := |s.floors[s.elevator]|;
    ghost var rows := PairRows(s, target, fromSelf);
    r, moved := [], 0;
    for i := 0 to floorLen - 1
      invariant r == KeptRows(rows, i) && moved == |r|
    {
      var row, rowMoved := PairsRow(s, target, i, First(i, fromSelf));
      r, moved := r + row, moved + rowMoved;
    }
  }

  /** Row `i` of a pairs loop: `j` from `lo` to the end of the floor. */
  method PairsRow(s: State, target: nat, i: nat, lo: nat) returns (r: seq<State>, moved: nat)
    requires WellFormed(s) && i + 1 < |s.floors[s.elevator]| && i <= lo <= i + 1
    requires target < |s.floors| && target != s.elevator
    ensures var row := PairRow(s, target, i, lo); r == Kept(row, |row|)
    ensures moved == |r|
  {
    var floorLen := |s.floors[s.elevator]|;
    ghost var row := PairRow(s, target, i, lo);
    r, moved := [], 0;
    for j := lo to floorLen
      invariant r == Kept(row, j - lo) && moved == |r|
    {
      var newState := MovePair(s, i, j, target);
      var ok := Valid(newState);
      if ok {
        r := r + [newState];
        moved := moved + 1;
      }
    }
  }

  // ----- closeness and priority -----

  /** The number of empty floors at the bottom of the building. */
  function EmptyPrefix(floors: seq<seq<Device>>): (n: nat)
    ensures n <= |floors|
    ensures forall k :: 0 <= k < n ==> floors[k] == []
    ensures n < |floors| ==> floors[n] != []
  {
    if floors == [] || floors[0] != [] then 0 else 1 + EmptyPrefix(floors[1..])
  }

  /** Each device scores twice its floor's number, counting floors from one. */
  function FloorScore(floors: seq<seq<Device>>): nat {
    if floors == [] then 0
    else FloorScore(floors[..|floors| - 1]) + |floors| * 2 * |floors[|floors| - 1]|
  }

  function DeviceCount(floors: seq<seq<Device>>): nat {
    if floors == [] then 0 else DeviceCount(floors[..|floors| - 1]) + |floors[|floors| - 1]|
  }

  /** `closeness`: ten thousand per empty floor at the bottom, plus the floor
      score. */
  function ClosenessOf(s: State): nat {
    EmptyPrefix(s.floors) * 10000 + FloorScore(s.floors)
  }

  /** No device at all exactly when every floor is empty. */
  lemma {:induction false} NoDevices(floors: seq<seq<Device>>)
    ensures DeviceCount(floors) == 0 <==> forall k :: 0 <= k < |floors| ==> floors[k] == []
  {
    if floors != [] {
      var g := floors[..|floors| - 1];
      NoDevices(g);
      assert forall k :: 0 <= k < |g| ==> g[k] == floors[k];
    }
  }

  /** The floor score is at most twice the number of floors per device, and
      reaches it exactly when every device is on the top floor. */
  lemma {:induction false} ScoreBound(floors: seq<seq<Device>>)
    ensures FloorScore(floors) <= 2 * |floors| * DeviceCount(floors)
    ensures FloorScore(floors) == 2 * |floors| * DeviceCount(floors) <==>
      forall k :: 0 <= k < |floors| - 1 ==> floors[k] == []
  {
    if floors != [] {
      var n := |floors|;
      var g := floors[..n - 1];
      ScoreBound(g);
      NoDevices(g);
      assert forall k :: 0 <= k < |g| ==> g[k] == floors[k];
      ScoreArith(FloorScore(g), DeviceCount(g), n, |floors[n - 1]|);
    }
  }

  lemma ScoreArith(a: nat, d: nat, n: nat, l: nat)
    requires n >= 1 && a <= 2 * (n - 1) * d
    ensures a + n * 2 * l <= 2 * n * (d + l)
    ensures a + n * 2 * l == 2 * n * (d + l) <==> d == 0 && a == 0
  {
    assert 2 * n * (d + l) == 2 * n * d + n * 2 * l;
    assert 2 * (n - 1) * d == 2 * n * d - 2 * d;
  }

  /** The `closeness` loops: the empty floors counted until the first
      device, then the floor score summed. */
  method Closeness(s: State) returns (c: nat)
    ensures c == ClosenessOf(s)
  {
    var emptyFloorCount := 0;
    var i := 0;
    while i < |s.floors|
      invariant i <= |s.floors| && emptyFloorCount == i
      invariant EmptyPrefix(s.floors[i..]) + i == EmptyPrefix(s.floors)
    {
      if s.floors[i] == [] {
        assert s.floors[i..][1..] == s.floors[i + 1..];
        emptyFloorCount := emptyFloorCount + 1;
        i := i + 1;
      } else {
        break;
      }
    }
    assert emptyFloorCount == EmptyPrefix(s.floors);
    var floorScore := 0;
    for k := 0 to |s.floors|
      invariant floorScore == FloorScore(s.floors[..k])
    {
      assert s.floors[..k + 1][..k] == s.floors[..k];
      floorScore := floorScore + (k + 1) * 2 * |s.floors[k]|;
    }
    assert s.floors[..|s.floors|] == s.floors;
    c := emptyFloorCount * 10000 + floorScore;
  }

  datatype StatePriority = StatePriority(closeness: nat, steps: nat)

  /** `StatePriority` as an `OrderedVec` key: fewer steps rank higher, then
      higher closeness. */
  function PriorityKey(p: StatePriority): OV.Key {
    OV.Key(-(p.steps as int), p.closeness)
  }

  /** `Ord for StatePriority`, branch by branch; it orders as the key. */
  function PriorityCmp(a: StatePriority, b: StatePriority): (c: OV.Ordering)
    ensures c == OV.Cmp(PriorityKey(a), PriorityKey(b))
  {
    if a.steps == b.steps then
      if a.closeness == b.closeness then OV.Equal
      else if a.closeness < b.closeness then OV.Less
      else OV.Greater
    else if a.steps < b.steps then OV.Greater
    else OV.Less
  }

  /** Test `priority_ordering_bug_fix`: one step with closeness 38 outranks
      two steps with closeness 42. */
  lemma PriorityOrderingBugFix()
    ensures PriorityCmp(StatePriority(38, 1), StatePriority(42, 2)) == OV.Greater
    ensures OV.KeyLe(PriorityKey(StatePriority(42, 2)), PriorityKey(StatePriority(38, 1)))
  {
  }

  // ----- the search -----

  /** `t` is reached from `init` by exactly `n` legal moves. */
  ghost predicate Reaches(init: State, t: State, n: nat)
    decreases n
  {
    if n == 0 then t == init else exists u :: Reaches(init, u, n - 1) && Step(u, t)
  }

  /** A queued state with its priority: reached in the priority's step count,
      and with devices on the elevator's floor. */
  ghost predicate Searchable(init: State, t: State, p: StatePriority) {
    Reaches(init, t, p.steps) && WellFormed(t) && t.floors[t.elevator] != []
  }

  /** The queue holds each state with its `StatePriority`, ordered by the
      priority's key. */
  type Queue = PQ.PriorityQueue<(State, StatePriority)>

  ghost predicate QueueSound(q: Queue, init: State)
    reads q, q.que
  {
    forall k :: 0 <= k < |q.que.items| ==> Searchable(init, q.que.items[k].value.0, q.que.items[k].value.1)
  }

  /** What `minimum_steps` returns: a step count, or `usize::MAX` once the
      queue runs dry; `OutOfFuel` when the loop bound is spent. */
  datatype Search = Found(steps: nat) | Exhausted | OutOfFuel

  /** `states.push(new_state, p)` keeps every queued state sound. */
  method PushSound(q: Queue, init: State, t: State, p: StatePriority)
    requires q.Valid() && QueueSound(q, init) && Searchable(init, t, p)
    modifies q.que
    ensures q.Valid() && QueueSound(q, init)
  {
    ghost var before := q.que.items;
    var key := PriorityKey(p);
    q.Push((t, p), key);
    ghost var i := OV.Index(OV.SearchSpec(q.que.key, before, key));
    forall j | 0 <= j < |q.que.items|
      ensures Searchable(init, q.que.items[j].value.0, q.que.items[j].value.1)
    {
      if j > i {
        assert q.que.items[j] == before[j - 1];
      } else if j < i {
        assert q.que.items[j] == before[j];
      }
    }
  }

  /** A legal move ends with devices on the elevator's floor. */
  lemma StepLands(u: State, t: State)
    requires Step(u, t)
    ensures WellFormed(t) && t.floors[t.elevator] != []
  {
  }

  /** A move from a state queued at step count `n` may be queued at `n + 1`. */
  lemma StepOn(init: State, u: State, t: State, p: StatePriority, c: nat)
    requires Searchable(init, u, p) && Step(u, t)
    ensures Searchable(init, t, StatePriority(c, p.steps + 1))
  {
    StepLands(u, t);
    ReachesNext(init, u, t, p.steps);
  }

  lemma ReachesNext(init: State, u: State, t: State, n: nat)
    requires Reaches(init, u, n) && Step(u, t)
    ensures Reaches(init, t, n + 1)
  {
  }

  /** `state.move_each()` at the search: every state returned is a legal move. */
  method NextStates(state: State) returns (next: seq<State>)
    requires WellFormed(state) && state.floors[state.elevator] != []
    ensures forall t :: t in next ==> Step(state, t)
  {
    next := MoveEach(state);
    SuccessorsAreSteps(state);
  }

  /** The `move_each` loop of `minimum_steps`: every new state queued one
      step further on, with its closeness. */
  method PushMoves(q: Queue, init: State, state: State, priority: StatePriority)
    requires q.Valid() && QueueSound(q, init) && Searchable(init, state, priority)
    modifies q.que
    ensures q.Valid() && QueueSound(q, init)
  {
    var next := NextStates(state);
    for i := 0 to |next|
      invariant q.Valid() && QueueSound(q, init)
    {
      var c := Closeness(next[i]);
      StepOn(init, state, next[i], priority, c);
      PushSound(q, init, next[i], StatePriority(c, priority.steps + 1));
    }
  }

  /** `states.pop()`: the popped state and what stays queued are sound. */
  method PopSound(q: Queue, init: State) returns (r: Option<((State, StatePriority), OV.Key)>)
    requires q.Valid() && QueueSound(q, init)
    modifies q.que
    ensures q.Valid() && QueueSound(q, init)
    ensures r.None? <==> old(q.que.items) == []
    ensures r.Some? ==> Searchable(init, r.value.0.0, r.value.0.1)
  {
    ghost var before := q.que.items;
    r := q.Pop();
    if r.Some? {
      assert r.value == (before[|before| - 1].value, before[|before| - 1].priority);
    }
    forall k | 0 <= k < |q.que.items|
      ensures Searchable(init, q.que.items[k].value.0, q.que.items[k].value.1)
    {
      assert q.que.items[k] == before[k];
    }
  }

  /** The queue holding the initial state with the default priority. */
  method StartQueue(init: State) returns (q: Queue)
    requires WellFormed(init) && init.floors[init.elevator] != []
    ensures fresh(q.que) && q.Valid() && QueueSound(q, init)
  {
    q := new PQ.PriorityQueue<(State, StatePriority)>();
    var p := StatePriority(0, 0);
    q.Push((init, p), PriorityKey(p));
    assert q.que.items == [PQ.QueueItem((init, p), PriorityKey(p))];
    assert Reaches(init, init, 0);
  }

  /** One turn of the `minimum_steps` loop after the pop: a normalised
      state already seen is skipped; otherwise it is marked seen, and either
      it is complete and its step count is the answer, or its moves are
      queued. */
  method Visit(q: Queue, init: State, seen: set<NormalizedState>, state: State, priority: StatePriority)
    returns (seen': set<NormalizedState>, found: Option<nat>)
    requires q.Valid() && QueueSound(q, init) && Searchable(init, state, priority)
    modifies q.que
    ensures q.Valid() && QueueSound(q, init)
    ensures seen' == seen + {Normalize(state)}
    ensures Normalize(state) in seen ==> found == None && q.que.items == old(q.que.items)
    ensures found.Some? ==> found.value == priority.steps && IsComplete(state)
  {
    var normalized := Normalize(state);
    if normalized in seen {
      return seen, None;
    }
    seen' := seen + {normalized};
    var done := Complete(state);
    if done {
      return seen', Some(priority.steps);
    }
    PushMoves(q, init, state, priority);
    found := None;
  }

  /** `minimum_steps`: pops the highest priority, skips normalised states
      already seen, stops at a complete state, else queues its moves. The
      loop runs at most `fuel` times. A count returned is the number of legal
      moves that really lead from the initial state to a complete one. */
  method MinimumSteps(init: State, fuel: nat) returns (r: Search)
    requires WellFormed(init) && init.floors[init.elevator] != []
    ensures r.Found? ==> exists t :: Reaches(init, t, r.steps) && IsComplete(t)
  {
    var seen: set<NormalizedState> := {};
    var states := StartQueue(init);
    var budget := fuel;
    while budget > 0
      invariant fresh(states.que) && states.Valid() && QueueSound(states, init)
    {
      budget := budget - 1;
      var popped := PopSound(states, init);
      if popped.None? {
        return Exhausted;
      }
      var (state, priority) := popped.value.0;
      var found;
      seen, found := Visit(states, init, seen, state, priority);
      if found.Some? {
        assert Reaches(init, state, found.value) && IsComplete(state);
        return Found(found.value);
      }
    }
    r := OutOfFuel;
  }
}
