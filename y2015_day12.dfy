/** 2015 day 12: summing the numbers of a JSON document, once in full and
    once ignoring every object that has the string "red" as a value. */
module Year2015Day12 {
  import opened Wrappers

  const MinI64: int := -0x8000_0000_0000_0000
  const MaxI64: int := 0x7fff_ffff_ffff_ffff

  /** A JSON number: an integer, or one with a fraction or exponent. */
  datatype Number = Integer(value: int) | Float

  datatype Json =
    | Null
    | Bool(b: bool)
    | Num(n: Number)
    | Str(s: string)
    | Array(items: seq<Json>)
    | Object(entries: seq<(string, Json)>)

  /** `as_i64`: the number, when it is an integer that fits in 64 signed bits. */
  function AsI64(n: Number): (r: Option<int>)
    ensures r.Some? <==> n.Integer? && MinI64 <= n.value <= MaxI64
    ensures r.Some? ==> r.value == n.value
  {
    match n
    case Integer(i) => if MinI64 <= i <= MaxI64 then Some(i) else None
    case Float => None
  }

  /** `SometimesRed`: (sum of all numbers, sum of numbers outside red objects). */
  type SometimesRed = (int, int)

  function Add(a: SometimesRed, b: SometimesRed): SometimesRed {
    (a.0 + b.0, a.1 + b.1)
  }

  /** `sum_numbers`, as a specification. */
  function SumNumbers(v: Json): SometimesRed
    decreases v, 1
  {
    match v
    case Num(n) => (match AsI64(n) case Some(i) => (i, i) case None => (0, 0))
    case Array(items) => SumItems(v, |items|)
    case Object(entries) =>
      var (left, right, red) := SumEntries(v, |entries|);
      (left, if red then 0 else right)
    case _ => (0, 0)
  }

  /** The componentwise sum of the first `k` array elements. */
  function SumItems(v: Json, k: nat): SometimesRed
    requires v.Array? && k <= |v.items|
    decreases v, 0, k
  {
    if k == 0 then (0, 0) else Add(SumItems(v, k - 1), SumNumbers(v.items[k - 1]))
  }

  /** The object loop over the first `k` entries: the two sums of the
      non-string values, and whether a value was the string "red". */
  function SumEntries(v: Json, k: nat): (int, int, bool)
    requires v.Object? && k <= |v.entries|
    decreases v, 0, k
  {
    if k == 0 then (0, 0, false)
    else
      var (left, right, red) := SumEntries(v, k - 1);
      var value := v.entries[k - 1].1;
      if value.Str? then (left, right, red || value.s == "red")
      else
        var nums := SumNumbers(value);
        (left + nums.0, right + nums.1, red)
  }

  /** `sum_numbers`, recursing over the tree with the accumulator loops of
      `Sum::sum` (arrays) and of the object case. */
  method SumTree(v: Json) returns (r: SometimesRed)
    ensures r == SumNumbers(v)
    decreases v, 1
  {
    match v {
      case Num(n) =>
        match AsI64(n) {
          case Some(i) => r := (i, i);
          case None => r := (0, 0);
        }
      case Array(items) =>
        var left, right := 0, 0;
        var k := 0;
        while k < |items|
          invariant k <= |items| && (left, right) == SumItems(v, k)
        {
          var item := SumTree(items[k]);
          left, right := left + item.0, right + item.1;
          k := k + 1;
        }
        r := (left, right);
      case Object(entries) =>
        var hasRed, left, right := false, 0, 0;
        var k := 0;
        while k < |entries|
          invariant k <= |entries| && (left, right, hasRed) == SumEntries(v, k)
        {
          var value := entries[k].1;
          if value.Str? {
            if value.s == "red" {
              hasRed := true;
            }
          } else {
            var nums := SumTree(value);
            left, right := left + nums.0, right + nums.1;
          }
          k := k + 1;
        }
        if hasRed {
          right := 0;
        }
        r := (left, right);
      case _ =>
        r := (0, 0);
    }
  }

  /** Every number of the document that fits in 64 signed bits, in document order. */
  function Numbers(v: Json): seq<int>
    decreases v, 1
  {
    match v
    case Num(n) => (match AsI64(n) case Some(i) => [i] case None => [])
    case Array(items) => ItemNumbers(v, |items|)
    case Object(entries) => EntryNumbers(v, |entries|)
    case _ => []
  }

  function ItemNumbers(v: Json, k: nat): seq<int>
    requires v.Array? && k <= |v.items|
    decreases v, 0, k
  {
    if k == 0 then [] else ItemNumbers(v, k - 1) + Numbers(v.items[k - 1])
  }

  function EntryNumbers(v: Json, k: nat): seq<int>
    requires v.Object? && k <= |v.entries|
    decreases v, 0, k
  {
    if k == 0 then [] else EntryNumbers(v, k - 1) + Numbers(v.entries[k - 1].1)
  }

  function Total(s: seq<int>): int {
    if s == [] then 0 else Total(s[..|s| - 1]) + s[|s| - 1]
  }

  lemma {:induction false} TotalAppend(a: seq<int>, b: seq<int>)
    ensures Total(a + b) == Total(a) + Total(b)
    decreases |b|
  {
    if b == [] {
      assert a + b == a;
    } else {
      assert (a + b)[..|a + b| - 1] == a + b[..|b| - 1];
      TotalAppend(a, b[..|b| - 1]);
    }
  }

  /** The first answer is the sum of every 64-bit number in the document,
      wherever it stands. */
  lemma {:induction false} LeftIsTotal(v: Json)
    ensures SumNumbers(v).0 == Total(Numbers(v))
    decreases v, 1
  {
    match v {
      case Num(n) =>
      case Array(items) => ItemsLeft(v, |items|);
      case Object(entries) => EntriesLeft(v, |entries|);
      case _ =>
    }
  }

  lemma {:induction false} ItemsLeft(v: Json, k: nat)
    requires v.Array? && k <= |v.items|
    ensures SumItems(v, k).0 == Total(ItemNumbers(v, k))
    decreases v, 0, k
  {
    if k > 0 {
      ItemsLeft(v, k - 1);
      LeftIsTotal(v.items[k - 1]);
      TotalAppend(ItemNumbers(v, k - 1), Numbers(v.items[k - 1]));
    }
  }

  lemma {:induction false} EntriesLeft(v: Json, k: nat)
    requires v.Object? && k <= |v.entries|
    ensures SumEntries(v, k).0 == Total(EntryNumbers(v, k))
    decreases v, 0, k
  {
    if k > 0 {
      EntriesLeft(v, k - 1);
      var value := v.entries[k - 1].1;
      LeftIsTotal(value);
      TotalAppend(EntryNumbers(v, k - 1), Numbers(value));
      if value.Str? {
        assert Numbers(value) == [];
      }
    }
  }

  /** Whether some object of the document has the string "red" as a value. */
  predicate HasRed(v: Json)
    decreases v, 1
  {
    match v
    case Array(items) => ItemsHaveRed(v, |items|)
    case Object(entries) => EntriesHaveRed(v, |entries|)
    case _ => false
  }

  predicate ItemsHaveRed(v: Json, k: nat)
    requires v.Array? && k <= |v.items|
    decreases v, 0, k
  {
    k > 0 && (ItemsHaveRed(v, k - 1) || HasRed(v.items[k - 1]))
  }

  predicate EntriesHaveRed(v: Json, k: nat)
    requires v.Object? && k <= |v.entries|
    decreases v, 0, k
  {
    k > 0 && (EntriesHaveRed(v, k - 1) || v.entries[k - 1].1 == Str("red") || HasRed(v.entries[k - 1].1))
  }

  /** Without a red object anywhere, both answers agree. */
  lemma {:induction false} NoRedSameSums(v: Json)
    requires !HasRed(v)
    ensures SumNumbers(v).0 == SumNumbers(v).1
    decreases v, 1
  {
    match v {
      case Num(n) =>
      case Array(items) => ItemsNoRed(v, |items|);
      case Object(entries) => EntriesNoRed(v, |entries|);
      case _ =>
    }
  }

  lemma {:induction false} ItemsNoRed(v: Json, k: nat)
    requires v.Array? && k <= |v.items| && !ItemsHaveRed(v, k)
    ensures SumItems(v, k).0 == SumItems(v, k).1
    decreases v, 0, k
  {
    if k > 0 {
      ItemsNoRed(v, k - 1);
      NoRedSameSums(v.items[k - 1]);
    }
  }

  lemma {:induction false} EntriesNoRed(v: Json, k: nat)
    requires v.Object? && k <= |v.entries| && !EntriesHaveRed(v, k)
    ensures SumEntries(v, k).0 == SumEntries(v, k).1 && !SumEntries(v, k).2
    decreases v, 0, k
  {
    if k > 0 {
      EntriesNoRed(v, k - 1);
      NoRedSameSums(v.entries[k - 1].1);
    }
  }

  /** An object with "red" among its values counts for nothing in the second
      answer, however deep its numbers are. */
  lemma {:induction false} RedObjectIgnored(v: Json, k: nat)
    requires v.Object? && k < |v.entries| && v.entries[k].1 == Str("red")
    ensures SumNumbers(v).1 == 0
  {
    RedSticks(v, k, |v.entries|);
  }

  lemma {:induction false} RedSticks(v: Json, k: nat, n: nat)
    requires v.Object? && k < n <= |v.entries| && v.entries[k].1 == Str("red")
    ensures SumEntries(v, n).2
    decreases n
  {
    if n - 1 > k {
      RedSticks(v, k, n - 1);
    }
  }

  /** A "red" string directly inside an array changes neither answer. */
  lemma RedInArrayIgnored(items: seq<Json>)
    ensures SumNumbers(Array(items + [Str("red")])) == SumNumbers(Array(items))
  {
    var v, w := Array(items + [Str("red")]), Array(items);
    assert v.items[..|items|] == w.items[..|items|];
    SameItemPrefix(v, w, |items|);
    assert SumNumbers(v.items[|items|]) == (0, 0);
  }

  lemma {:induction false} SameItemPrefix(v: Json, w: Json, k: nat)
    requires v.Array? && w.Array? && k <= |v.items| && k <= |w.items|
    requires v.items[..k] == w.items[..k]
    ensures SumItems(v, k) == SumItems(w, k)
  {
    if k > 0 {
      assert v.items[..k - 1] == w.items[..k - 1] by {
        assert v.items[..k - 1] == v.items[..k][..k - 1];
        assert w.items[..k - 1] == w.items[..k][..k - 1];
      }
      assert v.items[k - 1] == v.items[..k][k - 1];
      SameItemPrefix(v, w, k - 1);
    }
  }
}
