/** Interning strings as dense integer ids (src/data/string_id_map.rs). */
module StringIdMap {
  class StringIdMap {
    var ids: map<string, nat>
    var nextId: nat

    /** Ids are distinct and exactly `0 .. nextId - 1`: one per string seen. */
    ghost predicate Valid()
      reads this
    {
      && |ids| == nextId
      && (forall s :: s in ids ==> ids[s] < nextId)
      && (forall s, t :: s in ids && t in ids && ids[s] == ids[t] ==> s == t)
    }

    /** `StringIdMap::default`. */
    constructor ()
      ensures Valid() && ids == map[] && nextId == 0
    {
      ids := map[];
      nextId := 0;
    }

    /** `to_id`: a string already seen keeps its id and nothing changes; a new
        string gets the next id, which then advances. */
    method ToId(value: string) returns (id: nat)
      requires Valid()
      modifies this
      ensures Valid()
      ensures value in old(ids) ==> id == old(ids)[value] && ids == old(ids) && nextId == old(nextId)
      ensures value !in old(ids) ==> id == old(nextId) && ids == old(ids)[value := id] && nextId == old(nextId) + 1
      ensures value in ids && ids[value] == id && id < nextId
    {
      if value in ids {
        id := ids[value];
      } else {
        id := nextId;
        nextId := nextId + 1;
        ids := ids[value := id];
      }
    }

    /** `count`: the number of distinct strings seen. */
    function Count(): (n: nat)
      reads this
      requires Valid()
      ensures n == |ids|
    {
      nextId
    }
  }

  /** Interning "a", "b", "a" gives ids 0, 1, 0 and a count of 2. */
  method InternExample() returns (a: nat, b: nat, again: nat, count: nat)
    ensures a == 0 && b == 1 && again == 0 && count == 2
  {
    var m := new StringIdMap();
    a := m.ToId("a");
    b := m.ToId("b");
    again := m.ToId("a");
    count := m.Count();
  }
}
