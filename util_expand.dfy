/** Growing a vector so that an index is in range (src/util/expand.rs). */
module Expand {
  /** `expand`: when `index` is out of range, `resize_with` appends default
      values until the length is `index + 1`; otherwise nothing changes. */
  method Expand<T>(v: seq<T>, index: nat, default: T) returns (r: seq<T>)
    ensures |r| > index
    ensures |v| > index ==> r == v
    ensures |v| <= index ==> |r| == index + 1
    ensures |v| <= index ==> r[..|v|] == v
    ensures forall i :: |v| <= i < |r| ==> r[i] == default
  {
    r := v;
    if |r| <= index {
      while |r| < index + 1
        invariant |v| <= |r| <= index + 1
        invariant r[..|v|] == v
        invariant forall i :: |v| <= i < |r| ==> r[i] == default
      {
        r := r + [default];
      }
    }
  }
}
