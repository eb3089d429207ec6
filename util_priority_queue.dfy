/** A max-priority queue kept as an `OrderedVec` of items ordered by priority
    alone (src/util/priority_queue.rs). `Greater` means higher priority.
    Priorities are `OrderedVec.Key`s: every priority type the repository
    uses (integers, `Reverse` of integers, a two-field struct) maps to one. */
module PriorityQueue {
  import opened Wrappers
  import OV = OrderedVec

  datatype QueueItem<T> = QueueItem(value: T, priority: OV.Key)

  /** `Ord for QueueItem`: an item orders by its priority; its value is ignored. */
  function ItemKey<T>(): QueueItem<T> -> OV.Key {
    (item: QueueItem<T>) => item.priority
  }

  class PriorityQueue<T> {
    const que: OV.OrderedVec<QueueItem<T>>

    ghost predicate Valid()
      reads this, que
    {
      que.Valid() && que.key == ItemKey()
    }

    /** `PriorityQueue::new`: an empty queue. */
    constructor ()
      ensures Valid() && fresh(que) && que.items == []
    {
      que := new OV.OrderedVec(ItemKey());
    }

    /** `push`: goes through `OrderedVec::insert`, so the queue stays sorted by
        priority and gains exactly the new item, at the binary-search index. */
    method Push(value: T, priority: OV.Key)
      requires Valid()
      modifies que
      ensures Valid()
      ensures var i := OV.Index(OV.SearchSpec(que.key, old(que.items), priority));
                i <= |old(que.items)| && que.items == old(que.items)[..i] + [QueueItem(value, priority)] + old(que.items)[i..]
    {
      var _ := que.Insert(QueueItem(value, priority));
    }

    /** `pop`: the last item, which has a greatest priority, as a pair, or `None` when empty. */
    method Pop() returns (r: Option<(T, OV.Key)>)
      requires Valid()
      modifies que
      ensures Valid()
      ensures old(que.items) == [] ==> r == None && que.items == []
      ensures old(que.items) != [] ==>
                var last := old(que.items)[|old(que.items)| - 1];
                r == Some((last.value, last.priority)) && que.items == old(que.items)[..|old(que.items)| - 1]
      ensures r.Some? ==> forall k :: 0 <= k < |que.items| ==> OV.KeyLe(que.items[k].priority, r.value.1)
    {
      var item := que.Pop();
      if item.Some? {
        r := Some((item.value.value, item.value.priority));
      } else {
        r := None;
      }
    }

    /** `len`: the number of pending items. */
    function Len(): (n: nat)
      reads this, que
      ensures n == |que.items|
    {
      que.Len()
    }
  }

  /** Test `test_queue`: pushes 5, 1, 3, a pop, pushes "Name" then "Is" at 66,
      then pops until empty. "Name", pushed first, comes back before "Is". */
  method QueueExample() returns (pops: seq<Option<(string, int)>>)
    ensures pops == [Some(("Hello", 5)), Some(("Name", 66)), Some(("Is", 66)),
                     Some(("My", 3)), Some(("World", 1)), None]
  {
    var q := new PriorityQueue<string>();
    var first := QueueExampleFirstPushes(q);
    QueueExampleLaterPushes(q);
    var rest := QueueExampleDrain(q);
    pops := [first] + rest;
  }

  /** Pushes "Hello" 5, "World" 1 and "My" 3 into an empty queue, then pops. */
  method QueueExampleFirstPushes(q: PriorityQueue<string>) returns (r: Option<(string, int)>)
    requires q.Valid() && q.que.items == []
    modifies q.que
    ensures q.Valid()
    ensures q.que.items == [QueueItem("World", OV.Key(1, 0)), QueueItem("My", OV.Key(3, 0))]
    ensures r == Some(("Hello", 5))
  {
    var w, h, m := QueueItem("World", OV.Key(1, 0)), QueueItem("Hello", OV.Key(5, 0)), QueueItem("My", OV.Key(3, 0));
    q.Push("Hello", OV.Key(5, 0));
    assert q.que.items == [h];
    OV.CountAtSplit(q.que.key, q.que.items, OV.Key(1, 0), 0);
    q.Push("World", OV.Key(1, 0));
    assert q.que.items == [w, h];
    OV.CountAtSplit(q.que.key, q.que.items, OV.Key(3, 0), 1);
    q.Push("My", OV.Key(3, 0));
    assert q.que.items == [w, m, h];
    var p := q.Pop();
    r := AsIntPair(p);
  }

  /** Pushes "Name" then "Is", both at 66: "Is" lands below "Name". */
  method QueueExampleLaterPushes(q: PriorityQueue<string>)
    requires q.Valid() && q.que.items == [QueueItem("World", OV.Key(1, 0)), QueueItem("My", OV.Key(3, 0))]
    modifies q.que
    ensures q.Valid()
    ensures q.que.items == [QueueItem("World", OV.Key(1, 0)), QueueItem("My", OV.Key(3, 0)),
                            QueueItem("Is", OV.Key(66, 0)), QueueItem("Name", OV.Key(66, 0))]
  {
    var w, m, n, i := QueueItem("World", OV.Key(1, 0)), QueueItem("My", OV.Key(3, 0)),
                      QueueItem("Name", OV.Key(66, 0)), QueueItem("Is", OV.Key(66, 0));
    OV.CountAtSplit(q.que.key, q.que.items, OV.Key(66, 0), 2);
    q.Push("Name", OV.Key(66, 0));
    assert q.que.items == [w, m, n];
    OV.CountAtSplit(q.que.key, q.que.items, OV.Key(66, 0), 3);
    assert q.que.key(q.que.items[2]) == OV.Key(66, 0);
    q.Push("Is", OV.Key(66, 0));
  }

  /** Pops the four remaining items, highest priority first, then `None`. */
  method QueueExampleDrain(q: PriorityQueue<string>) returns (pops: seq<Option<(string, int)>>)
    requires q.Valid()
    requires q.que.items == [QueueItem("World", OV.Key(1, 0)), QueueItem("My", OV.Key(3, 0)),
                             QueueItem("Is", OV.Key(66, 0)), QueueItem("Name", OV.Key(66, 0))]
    modifies q.que
    ensures pops == [Some(("Name", 66)), Some(("Is", 66)), Some(("My", 3)), Some(("World", 1)), None]
  {
    var r := q.Pop();
    pops := [AsIntPair(r)];
    r := q.Pop();
    pops := pops + [AsIntPair(r)];
    r := q.Pop();
    pops := pops + [AsIntPair(r)];
    r := q.Pop();
    pops := pops + [AsIntPair(r)];
    r := q.Pop();
    pops := pops + [AsIntPair(r)];
  }

  /** Reads an integer priority back from its key. */
  function AsIntPair<T>(r: Option<(T, OV.Key)>): Option<(T, int)> {
    match r
    case None => None
    case Some((v, p)) => Some((v, p.major))
  }
}
