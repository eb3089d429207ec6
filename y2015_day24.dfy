/** 2015 day 24: splitting the presents into groups of equal weight; among
    the smallest first groups that reach the target weight, the least
    quantum entanglement (product of weights). */
module Year2015Day24 {
  import opened Wrappers

  const MaxU64: nat := 0xffff_ffff_ffff_ffff

  function Sum(s: seq<nat>): nat {
    if s == [] then 0 else s[0] + Sum(s[1..])
  }

  function Product(s: seq<nat>): nat {
    if s == [] then 1 else s[0] * Product(s[1..])
  }

  // ----- `powerset`: every selection, smallest first -----

  /** `g` picks some of the elements of `s`, keeping their order. */
  predicate IsSubseq(g: seq<nat>, s: seq<nat>)
    decreases |s|
  {
    g == [] || (s != [] && ((g[0] == s[0] && IsSubseq(g[1..], s[1..])) || IsSubseq(g, s[1..])))
  }

  /** The selections of `k` elements of `s`, in the order of their indices:
      those that take the first element come first. */
  function Combinations(s: seq<nat>, k: nat): (r: seq<seq<nat>>)
    decreases |s|
  {
    if k == 0 then [[]]
    else if s == [] then []
    else
      var rest := Combinations(s[1..], k - 1);
      seq(|rest|, i requires 0 <= i < |rest| => [s[0]] + rest[i]) + Combinations(s[1..], k)
  }

  /** The selections of every size from `k` up, smallest first. */
  function PowersetFrom(s: seq<nat>, k: nat): seq<seq<nat>>
    decreases |s| + 1 - k
  {
    if k > |s| then [] else Combinations(s, k) + PowersetFrom(s, k + 1)
  }

  /** `Itertools::powerset`. */
  function Powerset(s: seq<nat>): seq<seq<nat>> {
    PowersetFrom(s, 0)
  }

  lemma {:induction false} SubseqShorter(g: seq<nat>, s: seq<nat>)
    requires IsSubseq(g, s)
    ensures |g| <= |s|
    decreases |s|
  {
    if g != [] {
      if g[0] == s[0] && IsSubseq(g[1..], s[1..]) {
        SubseqShorter(g[1..], s[1..]);
      } else {
        SubseqShorter(g, s[1..]);
      }
    }
  }

  /** Every combination has `k` elements and is a selection from `s`. */
  lemma {:induction false} CombinationsSound(s: seq<nat>, k: nat, i: nat)
    requires i < |Combinations(s, k)|
    ensures |Combinations(s, k)[i]| == k && IsSubseq(Combinations(s, k)[i], s)
    decreases |s|
  {
    if k > 0 && s != [] {
      var rest := Combinations(s[1..], k - 1);
      if i < |rest| {
        CombinationsSound(s[1..], k - 1, i);
        var g := Combinations(s, k)[i];
        assert g == [s[0]] + rest[i];
        assert g[1..] == rest[i];
      } else {
        CombinationsSound(s[1..], k, i - |rest|);
      }
    }
  }

  /** Every selection of `k` elements from `s` is among the combinations. */
  lemma {:induction false} CombinationsComplete(s: seq<nat>, g: seq<nat>)
    requires IsSubseq(g, s)
    ensures g in Combinations(s, |g|)
    decreases |s|
  {
    if g == [] {
      assert Combinations(s, 0)[0] == g;
    } else if g[0] == s[0] && IsSubseq(g[1..], s[1..]) {
      CombinationsComplete(s[1..], g[1..]);
      var rest := Combinations(s[1..], |g| - 1);
      var i :| 0 <= i < |rest| && rest[i] == g[1..];
      assert Combinations(s, |g|)[i] == [s[0]] + g[1..] == g;
    } else {
      CombinationsComplete(s[1..], g);
      var rest := Combinations(s[1..], |g| - 1);
      var i :| 0 <= i < |Combinations(s[1..], |g|)| && Combinations(s[1..], |g|)[i] == g;
      assert Combinations(s, |g|)[|rest| + i] == g;
    }
  }

  /** The powerset holds exactly the selections from `s`. */
  lemma {:induction false} PowersetFromIsSelections(s: seq<nat>, k: nat, g: seq<nat>)
    ensures g in PowersetFrom(s, k) <==> IsSubseq(g, s) && k <= |g|
    decreases |s| + 1 - k
  {
    if k <= |s| {
      PowersetFromIsSelections(s, k + 1, g);
      if g in Combinations(s, k) {
        var i :| 0 <= i < |Combinations(s, k)| && Combinations(s, k)[i] == g;
        CombinationsSound(s, k, i);
      }
      if IsSubseq(g, s) && k == |g| {
        CombinationsComplete(s, g);
      }
    } else if IsSubseq(g, s) {
      SubseqShorter(g, s);
    }
  }

  /** Sizes never fall along the powerset: the break at a longer group is safe. */
  lemma {:induction false} PowersetFromSorted(s: seq<nat>, k: nat, i: nat, j: nat)
    requires i <= j < |PowersetFrom(s, k)|
    ensures k <= |PowersetFrom(s, k)[i]| <= |PowersetFrom(s, k)[j]|
    decreases |s| + 1 - k, 1
  {
    var c := Combinations(s, k);
    PowersetFromAt(s, k, j);
    if j < |c| {
      SortedHead(s, k, i, j);
    } else if i < |c| {
      SortedAcross(s, k, i, j);
    } else {
      SortedTail(s, k, i, j);
    }
  }

  /** Both groups are combinations of size `k`. */
  lemma SortedHead(s: seq<nat>, k: nat, i: nat, j: nat)
    requires k <= |s| && i <= j < |Combinations(s, k)|
    ensures j < |PowersetFrom(s, k)|
    ensures k == |PowersetFrom(s, k)[i]| == |PowersetFrom(s, k)[j]|
  {
    CombinationSize(s, k, i);
    CombinationSize(s, k, j);
  }

  /** The first group has size `k`, the second comes from a later size. */
  lemma {:induction false} SortedAcross(s: seq<nat>, k: nat, i: nat, j: nat)
    requires i < |Combinations(s, k)| <= j < |PowersetFrom(s, k)|
    ensures k == |PowersetFrom(s, k)[i]| < |PowersetFrom(s, k)[j]|
    decreases |s| + 1 - k, 0
  {
    var c := Combinations(s, k);
    PowersetFromAt(s, k, i);
    PowersetFromAt(s, k, j);
    CombinationSize(s, k, i);
    PowersetFromSorted(s, k + 1, j - |c|, j - |c|);
  }

  /** Both groups come from later sizes. */
  lemma {:induction false} SortedTail(s: seq<nat>, k: nat, i: nat, j: nat)
    requires |Combinations(s, k)| <= i <= j < |PowersetFrom(s, k)|
    ensures k < |PowersetFrom(s, k)[i]| <= |PowersetFrom(s, k)[j]|
    decreases |s| + 1 - k, 0
  {
    var c := Combinations(s, k);
    PowersetFromAt(s, k, i);
    PowersetFromAt(s, k, j);
    PowersetFromSorted(s, k + 1, i - |c|, j - |c|);
  }

  lemma CombinationSize(s: seq<nat>, k: nat, i: nat)
    requires i < |Combinations(s, k)|
    ensures |Combinations(s, k)[i]| == k
  {
    CombinationsSound(s, k, i);
  }

  /** An element of the powerset from size `k` is a combination of size `k`
      or an element of the powerset from size `k + 1`. */
  lemma PowersetFromAt(s: seq<nat>, k: nat, i: nat)
    requires i < |PowersetFrom(s, k)|
    ensures k <= |s|
    ensures i < |Combinations(s, k)| ==> PowersetFrom(s, k)[i] == Combinations(s, k)[i]
    ensures |Combinations(s, k)| <= i ==>
      i - |Combinations(s, k)| < |PowersetFrom(s, k + 1)| &&
      PowersetFrom(s, k)[i] == PowersetFrom(s, k + 1)[i - |Combinations(s, k)|]
  {
  }

  lemma PowersetSorted(s: seq<nat>)
    ensures SizesSorted(Powerset(s))
  {
    forall i, j | 0 <= i <= j < |Powerset(s)|
      ensures |Powerset(s)[i]| <= |Powerset(s)[j]|
    {
      PowersetFromSorted(s, 0, i, j);
    }
  }

  lemma PowersetIsSelections(s: seq<nat>, g: seq<nat>)
    ensures g in Powerset(s) <==> IsSubseq(g, s)
  {
    PowersetFromIsSelections(s, 0, g);
  }

  // ----- `calculate_best_qe` -----

  predicate SizesSorted(groups: seq<seq<nat>>) {
    forall i, j :: 0 <= i <= j < |groups| ==> |groups[i]| <= |groups[j]|
  }

  /** `best` after some groups: the size of the first group that reached the
      target, and the least product among groups of that size. */
  ghost predicate BestSoFar(groups: seq<seq<nat>>, target: nat, best: Option<(nat, nat)>) {
    match best
    case None => forall j :: 0 <= j < |groups| ==> Sum(groups[j]) != target
    case Some((len, qe)) =>
      (exists i :: 0 <= i < |groups| && Sum(groups[i]) == target && |groups[i]| == len && Product(groups[i]) == qe)
      && forall j :: 0 <= j < |groups| && Sum(groups[j]) == target ==> |groups[j]| == len && qe <= Product(groups[j])
  }

  /** The least quantum entanglement among the smallest groups reaching the
      target, or `u64::MAX` when none does. */
  ghost predicate IsBestQe(groups: seq<seq<nat>>, target: nat, qe: nat) {
    ((forall j :: 0 <= j < |groups| ==> Sum(groups[j]) != target) && qe == MaxU64)
    || (exists i ::
          0 <= i < |groups| && Sum(groups[i]) == target && Product(groups[i]) == qe
          && forall j :: 0 <= j < |groups| && Sum(groups[j]) == target ==>
               |groups[i]| <= |groups[j]| && (|groups[j]| == |groups[i]| ==> qe <= Product(groups[j])))
  }

  /** A group that misses the target leaves `best` alone. */
  lemma BestSkip(groups: seq<seq<nat>>, target: nat, best: Option<(nat, nat)>, g: seq<nat>)
    requires BestSoFar(groups, target, best) && Sum(g) != target
    ensures BestSoFar(groups + [g], target, best)
  {
    var s := groups + [g];
    assert forall j :: 0 <= j < |groups| ==> s[j] == groups[j];
    if best.Some? {
      var i :| 0 <= i < |groups| && Sum(groups[i]) == target && |groups[i]| == best.value.0 && Product(groups[i]) == best.value.1;
      assert s[i] == groups[i];
    }
  }

  /** The first group to reach the target sets the size. */
  lemma BestFirst(groups: seq<seq<nat>>, target: nat, g: seq<nat>)
    requires BestSoFar(groups, target, None) && Sum(g) == target
    ensures BestSoFar(groups + [g], target, Some((|g|, Product(g))))
  {
    var s := groups + [g];
    assert s[|groups|] == g;
    assert forall j :: 0 <= j < |groups| ==> s[j] == groups[j];
  }

  /** A later group of the same size can only lower the product. */
  lemma BestImprove(groups: seq<seq<nat>>, target: nat, len: nat, qe: nat, g: seq<nat>)
    requires BestSoFar(groups, target, Some((len, qe))) && Sum(g) == target && |g| == len
    ensures BestSoFar(groups + [g], target, Some((len, if Product(g) < qe then Product(g) else qe)))
  {
    var s := groups + [g];
    assert s[|groups|] == g;
    assert forall j :: 0 <= j < |groups| ==> s[j] == groups[j];
    if Product(g) >= qe {
      var i :| 0 <= i < |groups| && Sum(groups[i]) == target && |groups[i]| == len && Product(groups[i]) == qe;
      assert s[i] == groups[i];
    }
  }

  /** The break: every later group is longer than the best size. */
  lemma BestAtBreak(groups: seq<seq<nat>>, k: nat, target: nat, best: Option<(nat, nat)>)
    requires k < |groups| && SizesSorted(groups) && BestSoFar(groups[..k], target, best)
    requires best.Some? && |groups[k]| > best.value.0
    ensures IsBestQe(groups, target, best.value.1)
  {
    var (len, qe) := best.value;
    var i :| 0 <= i < k && Sum(groups[..k][i]) == target && |groups[..k][i]| == len && Product(groups[..k][i]) == qe;
    assert groups[..k][i] == groups[i];
    forall j | 0 <= j < |groups| && Sum(groups[j]) == target
      ensures |groups[i]| <= |groups[j]| && (|groups[j]| == |groups[i]| ==> qe <= Product(groups[j]))
    {
      if j < k {
        assert groups[..k][j] == groups[j];
      } else {
        assert |groups[k]| <= |groups[j]|;
      }
    }
  }

  lemma BestAtEnd(groups: seq<seq<nat>>, target: nat, best: Option<(nat, nat)>)
    requires BestSoFar(groups, target, best)
    ensures IsBestQe(groups, target, if best.Some? then best.value.1 else MaxU64)
  {
    if best.Some? {
      var i :| 0 <= i < |groups| && Sum(groups[i]) == target && |groups[i]| == best.value.0 && Product(groups[i]) == best.value.1;
    }
  }

  /** The loop over the groups of `calculate_best_qe`, given in non-decreasing size. */
  method BestQe(groups: seq<seq<nat>>, target: nat) returns (qe: nat)
    requires SizesSorted(groups)
    ensures IsBestQe(groups, target, qe)
  {
    var best: Option<(nat, nat)> := None;
    for k := 0 to |groups|
      invariant BestSoFar(groups[..k], target, best)
      invariant best.Some? ==> forall j :: k <= j < |groups| ==> best.value.0 <= |groups[j]|
    {
      var group := groups[k];
      if best.Some? && |group| > best.value.0 {
        BestAtBreak(groups, k, target, best);
        return best.value.1;
      }
      assert groups[..k + 1] == groups[..k] + [group];
      if Sum(group) == target {
        var product := Product(group);
        match best
        case Some((bestLen, bestQe)) =>
          BestImprove(groups[..k], target, bestLen, bestQe, group);
          best := Some((bestLen, if product < bestQe then product else bestQe));
        case None =>
          BestFirst(groups[..k], target, group);
          best := Some((|group|, product));
      } else {
        BestSkip(groups[..k], target, best, group);
      }
    }
    assert groups[..|groups|] == groups;
    BestAtEnd(groups, target, best);
    qe := if best.Some? then best.value.1 else MaxU64;
  }

  /** `calculate_best_qe`: the target is the total weight divided (rounding
      down) by the number of compartments; the groups are the powerset. */
  method CalculateBestQe(weights: seq<nat>, compartments: nat) returns (qe: nat)
    requires compartments > 0
    ensures IsBestQe(Powerset(weights), Sum(weights) / compartments, qe)
  {
    PowersetSorted(weights);
    qe := BestQe(Powerset(weights), Sum(weights) / compartments);
  }

  /** Read over selections of the weights: when some selection reaches the
      target, the answer is the product of a selection reaching it with no
      more presents, and no larger than the product of any as small. */
  lemma AnswerIsBestSelection(weights: seq<nat>, compartments: nat, qe: nat, g: seq<nat>)
    requires compartments > 0 && IsBestQe(Powerset(weights), Sum(weights) / compartments, qe)
    requires IsSubseq(g, weights) && Sum(g) == Sum(weights) / compartments
    ensures exists h ::
              IsSubseq(h, weights) && Sum(h) == Sum(g) && Product(h) == qe
              && |h| <= |g| && (|h| == |g| ==> qe <= Product(g))
  {
    var groups := Powerset(weights);
    PowersetIsSelections(weights, g);
    var j :| 0 <= j < |groups| && groups[j] == g;
    var i :| 0 <= i < |groups| && Sum(groups[i]) == Sum(g) && Product(groups[i]) == qe
      && forall j :: 0 <= j < |groups| && Sum(groups[j]) == Sum(g) ==>
        |groups[i]| <= |groups[j]| && (|groups[j]| == |groups[i]| ==> qe <= Product(groups[j]));
    PowersetIsSelections(weights, groups[i]);
  }
}
