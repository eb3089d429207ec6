/** The triangular layout of the pair lists that 2025 days 8 and 9 build:
    each new item is paired with every earlier one, in order, so the pair of
    items `j` and `i` (i < j) lands at a fixed position. */
module Pairs {

  /** Where the pairs of item `j` start: each item before it added one pair
      per earlier item. */
  function Start(j: nat): nat {
    if j == 0 then 0 else Start(j - 1) + (j - 1)
  }

  /** Where the pair of items `j` and `i` (i < j) lands in the list. */
  function Slot(j: nat, i: nat): nat {
    Start(j) + i
  }

  /** `n` items make `n (n - 1) / 2` pairs. */
  lemma {:induction false} StartCount(n: nat)
    ensures 2 * Start(n) == n * (n - 1)
  {
    if n > 0 {
      StartCount(n - 1);
      assert n * (n - 1) == (n - 1) * (n - 2) + 2 * (n - 1);
    }
  }

  /** The slots of the pairs follow the pairs' order, without gaps:
      `(j, i)` with `i < j` is followed by `(j, i + 1)` or by `(j + 1, 0)`. */
  lemma SlotOrder(j: nat, i: nat)
    requires i < j
    ensures Slot(j, i) < Slot(j + 1, 0)
    ensures i + 1 < j ==> Slot(j, i + 1) == Slot(j, i) + 1
    ensures i + 1 == j ==> Slot(j + 1, 0) == Slot(j, i) + 1
  {
  }

  /** Later items start later. */
  lemma SlotMonotone(j: nat, k: nat)
    requires j <= k
    ensures Slot(j, 0) <= Slot(k, 0)
    decreases k - j
  {
    if j < k {
      SlotMonotone(j + 1, k);
    }
  }

  /** Fewer than two items make no pair. */
  lemma SlotEmpty(n: nat)
    ensures Slot(n, 0) == 0 <==> n < 2
  {
    assert Start(1) == 0 && Start(2) == 1;
    if n >= 2 {
      SlotMonotone(2, n);
    }
  }

  /** Every position of the list is the slot of some pair. */
  lemma SlotInverse(n: nat, k: nat)
    requires k < Slot(n, 0)
    ensures exists j, i :: 0 <= i < j < n && k == Slot(j, i)
    decreases n
  {
    if n == 0 {
      assert false;
    } else if k < Slot(n - 1, 0) {
      SlotInverse(n - 1, k);
    } else {
      assert k == Slot(n - 1, k - Slot(n - 1, 0));
    }
  }
}
