/** Looking at the last element of a vector (src/util/peek.rs). */
module Peek {
  import opened Wrappers

  /** `Peek for Vec`: `None` exactly when empty, otherwise the last element. */
  function Peek<T>(v: seq<T>): (r: Option<T>)
    ensures r.None? <==> |v| == 0
    ensures r.Some? ==> r.value == v[|v| - 1]
  {
    if |v| == 0 then None else Some(v[|v| - 1])
  }

  /** After pushing `x`, peeking gives `x`. */
  lemma {:induction false} PeekAfterPush<T>(v: seq<T>, x: T)
    ensures Peek(v + [x]) == Some(x)
  {
    assert (v + [x])[|v|] == x;
  }
}
