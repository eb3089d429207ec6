/** A vector kept sorted ascending (src/util/ordered_vec.rs). */
module OrderedVec {
  import opened Wrappers

  /** Every `Ord` type the repository stores in an `OrderedVec` (integers,
      `Reverse` of integers, and the two-field `StatePriority`) orders like a
      lexicographic pair of integers; `Key` is that pair. */
  datatype Key = Key(major: int, minor: int)

  predicate KeyLe(a: Key, b: Key) {
    a.major < b.major || (a.major == b.major && a.minor <= b.minor)
  }

  datatype Ordering = Less | Equal | Greater

  /** Rust's `a.cmp(b)` on keys. */
  function Cmp(a: Key, b: Key): (c: Ordering)
    ensures c == Greater <==> !KeyLe(a, b)
    ensures c == Equal <==> a == b
    ensures c == Less <==> KeyLe(a, b) && a != b
  {
    if a.major < b.major then Less
    else if a.major > b.major then Greater
    else if a.minor < b.minor then Less
    else if a.minor > b.minor then Greater
    else Equal
  }

  /** The integer order as a key: `OrderedVec<u32>` and plain integer priorities. */
  function IntKey(n: int): Key {
    Key(n, 0)
  }

  /** `std::cmp::Reverse` of an integer as a key: larger integers order lower. */
  function ReverseKey(n: int): Key {
    Key(-n, 0)
  }

  ghost predicate Sorted<T>(key: T -> Key, s: seq<T>) {
    forall i, j :: 0 <= i < j < |s| ==> KeyLe(key(s[i]), key(s[j]))
  }

  /** The index carried by either side of a search result (`Ok(i) | Err(i) => i`). */
  function Index(r: Result<nat, nat>): nat {
    match r
    case Ok(i) => i
    case Err(i) => i
  }

  /** The number of items not above `x`. */
  function CountNotAbove<T>(key: T -> Key, s: seq<T>, x: Key): (n: nat)
    ensures n <= |s|
    ensures n == 0 ==> forall k :: 0 <= k < |s| ==> !KeyLe(key(s[k]), x)
  {
    if s == [] then 0
    else (if KeyLe(key(s[0]), x) then 1 else 0) + CountNotAbove(key, s[1..], x)
  }

  /** On a sorted sequence the items not above `x` are exactly a prefix. */
  lemma {:induction false} CountNotAboveSplits<T>(key: T -> Key, s: seq<T>, x: Key)
    requires Sorted(key, s)
    ensures forall k :: 0 <= k < |s| ==> (k < CountNotAbove(key, s, x) <==> KeyLe(key(s[k]), x))
  {
    if s != [] {
      CountNotAboveSplits(key, s[1..], x);
      if !KeyLe(key(s[0]), x) {
        assert forall k :: 0 < k < |s| ==> KeyLe(key(s[0]), key(s[k]));
      }
    }
  }

  /** Conversely, a split point of `s` around `x` is the count of items not above `x`. */
  lemma {:induction false} CountAtSplit<T>(key: T -> Key, s: seq<T>, x: Key, split: nat)
    requires split <= |s|
    requires forall k :: 0 <= k < split ==> KeyLe(key(s[k]), x)
    requires forall k :: split <= k < |s| ==> !KeyLe(key(s[k]), x)
    ensures CountNotAbove(key, s, x) == split
  {
    if s != [] {
      CountAtSplit(key, s[1..], x, if split == 0 then 0 else split - 1);
    }
  }

  predicate HasEqual<T>(key: T -> Key, s: seq<T>, x: Key) {
    exists k :: 0 <= k < |s| && key(s[k]) == x
  }

  /** What `slice::binary_search` returns on a sorted slice: `Ok` at the last
      item equal to `x` when there is one, otherwise `Err` at the number of
      items below `x`. */
  function SearchSpec<T>(key: T -> Key, s: seq<T>, x: Key): Result<nat, nat> {
    var n := CountNotAbove(key, s, x);
    if HasEqual(key, s, x) then Ok(n - 1) else Err(n)
  }

  /** `slice::binary_search`: the halving loop narrows `[base, base + size)`
      to one item, then compares it with `x`. */
  method BinarySearch<T>(key: T -> Key, s: seq<T>, x: Key) returns (r: Result<nat, nat>)
    requires Sorted(key, s)
    ensures r == SearchSpec(key, s, x)
  {
    var size := |s|;
    if size == 0 {
      return Err(0);
    }
    var base := 0;
    while size > 1
      invariant 1 <= size && base + size <= |s|
      invariant forall k :: 0 <= k < base ==> KeyLe(key(s[k]), x)
      invariant forall k :: base + size <= k < |s| ==> !KeyLe(key(s[k]), x)
      invariant base > 0 ==> KeyLe(key(s[base]), x)
    {
      var half := size / 2;
      var mid := base + half;
      if Cmp(key(s[mid]), x) == Greater {
        forall k | mid < k < |s| ensures !KeyLe(key(s[k]), x) {
          assert KeyLe(key(s[mid]), key(s[k]));
        }
      } else {
        forall k | 0 <= k < mid ensures KeyLe(key(s[k]), x) {
          assert KeyLe(key(s[k]), key(s[mid]));
        }
        base := mid;
      }
      size := size - half;
    }
    var c := Cmp(key(s[base]), x);
    var n := CountNotAbove(key, s, x);
    CountAtSplit(key, s, x, if c == Greater then base else base + 1);
    if c == Equal {
      assert HasEqual(key, s, x);
      r := Ok(base);
    } else {
      forall k | 0 <= k < |s| ensures key(s[k]) != x {
        if k < base {
          assert KeyLe(key(s[k]), key(s[base]));
        }
      }
      r := if c == Less then Err(base + 1) else Err(base);
    }
  }

  /** Placing `x` at a split point of a sorted sequence keeps it sorted. */
  lemma InsertAtSplitSorted<T>(key: T -> Key, s: seq<T>, index: nat, x: T)
    requires Sorted(key, s)
    requires index <= |s|
    requires forall k :: 0 <= k < index ==> KeyLe(key(s[k]), key(x))
    requires forall k :: index <= k < |s| ==> KeyLe(key(x), key(s[k]))
    ensures Sorted(key, s[..index] + [x] + s[index..])
  {
    var t := s[..index] + [x] + s[index..];
    forall i, j | 0 <= i < j < |t| ensures KeyLe(key(t[i]), key(t[j])) {
      if j < index {
        assert t[i] == s[i] && t[j] == s[j];
      } else if j == index {
        assert t[i] == s[i] && t[j] == x;
      } else if i == index {
        assert t[j] == s[j - 1];
      } else if i < index {
        assert t[i] == s[i] && t[j] == s[j - 1];
      } else {
        assert t[i] == s[i - 1] && t[j] == s[j - 1];
      }
    }
  }

  /** The items after `insert(x)`: `x` placed at the binary-search index. The
      result is sorted and holds exactly one more item, `x`. */
  function InsertSorted<T>(key: T -> Key, s: seq<T>, x: T): (r: seq<T>)
    requires Sorted(key, s)
    ensures Sorted(key, r)
    ensures |r| == |s| + 1 && multiset(r) == multiset(s) + multiset{x}
  {
    var i := Index(SearchSpec(key, s, key(x)));
    CountNotAboveSplits(key, s, key(x));
    InsertAtSplitSorted(key, s, i, x);
    assert s == s[..i] + s[i..];
    s[..i] + [x] + s[i..]
  }

  /** The items after `push(x)`: appended when `x` is not below the last
      item, otherwise inserted where binary search says. */
  function Pushed<T>(key: T -> Key, s: seq<T>, x: T): (r: seq<T>)
    requires Sorted(key, s)
    ensures Sorted(key, r)
    ensures |r| == |s| + 1 && multiset(r) == multiset(s) + multiset{x}
  {
    if s != [] && KeyLe(key(s[|s| - 1]), key(x)) then
      assert forall k :: 0 <= k < |s| ==> KeyLe(key(s[k]), key(x)) by {
        forall k | 0 <= k < |s| ensures KeyLe(key(s[k]), key(x)) {
          if k < |s| - 1 {
            assert KeyLe(key(s[k]), key(s[|s| - 1]));
          }
        }
      }
      InsertAtSplitSorted(key, s, |s|, x);
      assert s[..|s|] == s && s[|s|..] == [];
      s + [x]
    else InsertSorted(key, s, x)
  }

  class OrderedVec<T> {
    var items: seq<T>
    const key: T -> Key

    ghost predicate Valid()
      reads this
    {
      Sorted(key, items)
    }

    /** `OrderedVec::new`. */
    constructor (key: T -> Key)
      ensures Valid() && this.key == key && items == []
    {
      this.key := key;
      items := [];
    }

    /** `OrderedVec::from_one`: a one-element vector. */
    constructor FromOne(key: T -> Key, item: T)
      ensures Valid() && this.key == key && items == [item]
    {
      this.key := key;
      items := [item];
    }

    /** `insert`: the item goes where binary search says, and that index is returned. */
    method Insert(item: T) returns (index: nat)
      requires Valid()
      modifies this
      ensures Valid()
      ensures index == Index(SearchSpec(key, old(items), key(item)))
      ensures items == InsertSorted(key, old(items), item)
      ensures index <= |old(items)| && items == old(items)[..index] + [item] + old(items)[index..]
    {
      var r := BinarySearch(key, items, key(item));
      index := Index(r);
      items := InsertSorted(key, items, item);
    }

    /** `push`: appends when the item is not below the last one, otherwise inserts. */
    method Push(item: T) returns (index: nat)
      requires Valid()
      modifies this
      ensures Valid()
      ensures index <= |old(items)| && items == old(items)[..index] + [item] + old(items)[index..]
      ensures multiset(items) == multiset(old(items)) + multiset{item}
      ensures old(items) == [] ==> index == 0 && items == [item]
      ensures old(items) != [] && KeyLe(key(old(items)[|old(items)| - 1]), key(item)) ==> index == |old(items)|
      ensures old(items) != [] && !KeyLe(key(old(items)[|old(items)| - 1]), key(item)) ==>
                index == Index(SearchSpec(key, old(items), key(item)))
      ensures items == Pushed(key, old(items), item)
    {
      if |items| > 0 {
        var c := Cmp(key(item), key(items[|items| - 1]));
        if c == Greater || c == Equal {
          forall k | 0 <= k < |items| - 1 ensures KeyLe(key(items[k]), key(item)) {
            assert KeyLe(key(items[k]), key(items[|items| - 1]));
          }
          InsertAtSplitSorted(key, items, |items|, item);
          assert items[..|items|] == items;
          items := items + [item];
          index := |items| - 1;
        } else {
          index := Insert(item);
        }
      } else {
        items := items + [item];
        index := 0;
      }
    }

    /** `remove(index)`: panics when out of bounds, so the index must be in range. */
    method Remove(index: nat) returns (item: T)
      requires Valid() && index < |items|
      modifies this
      ensures Valid()
      ensures item == old(items)[index]
      ensures items == old(items)[..index] + old(items)[index + 1..]
    {
      item := items[index];
      var rest := items[..index] + items[index + 1..];
      assert forall i :: 0 <= i < |rest| ==> rest[i] == if i < index then items[i] else items[i + 1];
      items := rest;
    }

    /** `pop`: the last item, which is a greatest one, or `None` when empty. */
    method Pop() returns (r: Option<T>)
      requires Valid()
      modifies this
      ensures Valid()
      ensures old(items) == [] ==> r == None && items == []
      ensures old(items) != [] ==>
                r == Some(old(items)[|old(items)| - 1]) && items == old(items)[..|old(items)| - 1]
      ensures r.Some? ==> forall k :: 0 <= k < |items| ==> KeyLe(key(items[k]), key(r.value))
    {
      if |items| == 0 {
        r := None;
      } else {
        r := Some(items[|items| - 1]);
        items := items[..|items| - 1];
      }
    }

    /** `is_empty`. */
    function IsEmpty(): (b: bool)
      reads this
      ensures b <==> |items| == 0
    {
      |items| == 0
    }

    /** `len`. */
    function Len(): (n: nat)
      reads this
      ensures n == |items|
    {
      |items|
    }

    /** `as_slice`: the items in ascending order. */
    function AsSlice(): (s: seq<T>)
      reads this
      requires Valid()
      ensures s == items && Sorted(key, s)
    {
      items
    }
  }

  /** The two searches `test_ordering` performs. */
  lemma OrderingExampleSearches()
    ensures SearchSpec(IntKey, [5], IntKey(1)) == Err(0)
    ensures SearchSpec(IntKey, [1, 5], IntKey(2)) == Err(1)
  {
    assert CountNotAbove(IntKey, [5], Key(1, 0)) == 0;
    assert [1, 5][1..] == [5];
    assert CountNotAbove(IntKey, [1, 5], Key(2, 0)) == 1;
  }

  /** Test `test_ordering`: push 5, push 1, insert 2 leaves `[1, 2, 5]`. */
  method OrderingExample() returns (s: seq<int>)
    ensures s == [1, 2, 5]
  {
    var v := new OrderedVec(IntKey);
    OrderingExamplePushes(v);
    OrderingExampleSearches();
    var i := v.Insert(2);
    assert i == 1;
    assert v.items == [1, 2, 5];
    s := v.AsSlice();
  }

  /** The two pushes of `test_ordering`: 5 is appended, 1 goes in front. */
  method OrderingExamplePushes(v: OrderedVec<int>)
    requires v.Valid() && v.key == IntKey && v.items == []
    modifies v
    ensures v.Valid() && v.items == [1, 5]
  {
    var i := v.Push(5);
    assert i == 0;
    OrderingExamplePushOne(v);
  }

  method OrderingExamplePushOne(v: OrderedVec<int>)
    requires v.Valid() && v.key == IntKey && v.items == [5]
    modifies v
    ensures v.Valid() && v.items == [1, 5]
  {
    OrderingExampleSearches();
    var i := v.Push(1);
    assert i == 0;
  }
}
