/** 2015 day 19: molecule replacements. The distinct molecules one
    replacement away from the medicine, and a shortest-first search from the
    medicine back to "e". */
module Year2015Day19 {
  import opened Wrappers
  import OV = OrderedVec
  import PQ = PriorityQueue

  /** A parsed input line: a rule `from => to`, or any other line. */
  datatype Line = Rule(from: string, to: string) | Text(s: string)

  /** The rules keyed by what they produce: `to ↦ from`. */
  type ReverseMap = map<string, string>

  /** Rule strings are runs of letters, never empty. */
  predicate NonEmptyRules(m: ReverseMap) {
    forall to :: to in m ==> |to| > 0 && |m[to]| > 0
  }

  /** The last non-empty line that is not a rule, or "" when there is none. */
  function LastText(lines: seq<Line>): (r: string)
    ensures r == "" || exists i :: 0 <= i < |lines| && lines[i] == Text(r)
  {
    if lines == [] then ""
    else
      var last := lines[|lines| - 1];
      if last.Text? && last.s != "" then last.s else LastText(lines[..|lines| - 1])
  }

  lemma LastTextStep(lines: seq<Line>, k: nat)
    requires k < |lines|
    ensures LastText(lines[..k + 1]) == if lines[k].Text? && lines[k].s != "" then lines[k].s else LastText(lines[..k])
  {
    assert lines[..k + 1][..k] == lines[..k];
  }

  /** The input loop: rules go into the reverse map, a second rule producing
      the same string is an error, and the last other non-empty line is the medicine. */
  method ReadInput(lines: seq<Line>) returns (r: Result<(ReverseMap, string), string>)
    ensures r.Ok? <==> forall i, j :: 0 <= i < j < |lines| && lines[i].Rule? && lines[j].Rule? ==> lines[i].to != lines[j].to
    ensures r.Ok? ==> forall i :: 0 <= i < |lines| && lines[i].Rule? ==>
      lines[i].to in r.value.0 && r.value.0[lines[i].to] == lines[i].from
    ensures r.Ok? ==> forall to :: to in r.value.0 ==> exists i :: 0 <= i < |lines| && lines[i] == Rule(r.value.0[to], to)
    ensures r.Ok? ==> r.value.1 == LastText(lines)
  {
    var reverseMap: ReverseMap := map[];
    var medicine := "";
    for k := 0 to |lines|
      invariant forall i, j :: 0 <= i < j < k && lines[i].Rule? && lines[j].Rule? ==> lines[i].to != lines[j].to
      invariant forall i :: 0 <= i < k && lines[i].Rule? ==> lines[i].to in reverseMap && reverseMap[lines[i].to] == lines[i].from
      invariant forall to :: to in reverseMap ==> exists i :: 0 <= i < k && lines[i] == Rule(reverseMap[to], to)
      invariant medicine == LastText(lines[..k])
    {
      LastTextStep(lines, k);
      match lines[k] {
        case Rule(from, to) =>
          if to in reverseMap {
            var i :| 0 <= i < k && lines[i] == Rule(reverseMap[to], to);
            return Err("Unexpected existing reverse");
          }
          reverseMap := reverseMap[to := from];
        case Text(s) =>
          if s != "" {
            medicine := s;
          }
      }
    }
    assert lines[..|lines|] == lines;
    r := Ok((reverseMap, medicine));
  }

  /** `p` occurs in `s` at `i`. */
  predicate OccursAt(s: string, p: string, i: int) {
    0 <= i && i + |p| <= |s| && s[i..i + |p|] == p
  }

  /** `match_indices`: the leftmost non-overlapping occurrences of `p` in `s` from `i` on. */
  function MatchFrom(s: string, p: string, i: nat): seq<nat>
    requires |p| > 0
    decreases |s| - i
  {
    if i + |p| > |s| then []
    else if s[i..i + |p|] == p then [i] + MatchFrom(s, p, i + |p|)
    else MatchFrom(s, p, i + 1)
  }

  function MatchIndices(s: string, p: string): seq<nat>
    requires |p| > 0
  {
    MatchFrom(s, p, 0)
  }

  /** Every index reported is an occurrence at or after `i`. */
  lemma {:induction false} MatchSound(s: string, p: string, i: nat, k: nat)
    requires |p| > 0 && k in MatchFrom(s, p, i)
    ensures i <= k && OccursAt(s, p, k)
    decreases |s| - i
  {
    if i + |p| <= |s| {
      if s[i..i + |p|] == p {
        if k != i {
          MatchSound(s, p, i + |p|, k);
        }
      } else {
        MatchSound(s, p, i + 1, k);
      }
    }
  }

  /** Every occurrence at or after `i` is reported or overlaps one reported before it. */
  lemma {:induction false} MatchComplete(s: string, p: string, i: nat, j: nat)
    requires |p| > 0 && i <= j && OccursAt(s, p, j)
    ensures j in MatchFrom(s, p, i) || exists k :: k in MatchFrom(s, p, i) && k < j < k + |p|
    decreases |s| - i
  {
    if j > i {
      if s[i..i + |p|] == p {
        if j >= i + |p| {
          MatchComplete(s, p, i + |p|, j);
          if j !in MatchFrom(s, p, i + |p|) {
            var k :| k in MatchFrom(s, p, i + |p|) && k < j < k + |p|;
            assert k in MatchFrom(s, p, i);
          }
        } else {
          assert i in MatchFrom(s, p, i);
        }
      } else {
        MatchComplete(s, p, i + 1, j);
      }
    }
  }

  /** Overlapping occurrences are not all reported: in "aaa", "aa" is found at 0 only. */
  lemma OverlapSkipped()
    ensures OccursAt("aaa", "aa", 1) && MatchIndices("aaa", "aa") == [0]
  {
    assert "aaa"[0..2] == "aa" && "aaa"[1..3] == "aa";
    assert MatchFrom("aaa", "aa", 2) == [];
  }

  /** `replace_range(i..i + n, r)`. */
  function ReplaceAt(s: string, i: nat, n: nat, r: string): string
    requires i + n <= |s|
  {
    s[..i] + r + s[i + n..]
  }

  /** One forward replacement: some rule's source, wherever it occurs in `s`, becomes its target. */
  ghost predicate OneStep(m: ReverseMap, s: string, t: string) {
    exists to, i :: to in m && OccursAt(s, m[to], i) && t == ReplaceAt(s, i, |m[to]|, to)
  }

  /** `dst` is reached from `src` by `n` forward replacements. */
  ghost predicate Reaches(m: ReverseMap, src: string, dst: string, n: nat)
    decreases n
  {
    if n == 0 then src == dst else exists mid :: OneStep(m, src, mid) && Reaches(m, mid, dst, n - 1)
  }

  /** The first answer's set: the medicine with one reported occurrence of a
      rule's source replaced by its target. */
  function Possibilities(m: ReverseMap, medicine: string): set<string>
    requires NonEmptyRules(m)
  {
    set to, i | to in m && i in MatchIndices(medicine, m[to]) && i + |m[to]| <= |medicine|
      :: ReplaceAt(medicine, i, |m[to]|, to)
  }

  /** Every possibility is one forward replacement away from the medicine. */
  lemma PossibilitiesAreSteps(m: ReverseMap, medicine: string, x: string)
    requires NonEmptyRules(m) && x in Possibilities(m, medicine)
    ensures OneStep(m, medicine, x)
  {
    var to, i :| to in m && i in MatchIndices(medicine, m[to]) && i + |m[to]| <= |medicine|
      && x == ReplaceAt(medicine, i, |m[to]|, to);
    MatchSound(medicine, m[to], 0, i);
  }

  /** The loops over the map and `match_indices` filling `possibilities`. */
  method FindPossibilities(m: ReverseMap, medicine: string) returns (possibilities: set<string>)
    requires NonEmptyRules(m)
    ensures possibilities == Possibilities(m, medicine)
  {
    possibilities := {};
    var pending := m.Keys;
    while pending != {}
      invariant pending <= m.Keys
      invariant possibilities == set to, i | to in m && to !in pending && i in MatchIndices(medicine, m[to])
        && i + |m[to]| <= |medicine| :: ReplaceAt(medicine, i, |m[to]|, to)
      decreases pending
    {
      var to :| to in pending;
      var from := m[to];
      var indices := MatchIndices(medicine, from);
      ghost var before := possibilities;
      for k := 0 to |indices|
        invariant possibilities == before + set i | i in indices[..k] && i + |from| <= |medicine| :: ReplaceAt(medicine, i, |from|, to)
      {
        MatchSound(medicine, from, 0, indices[k]);
        assert indices[..k + 1] == indices[..k] + [indices[k]];
        possibilities := possibilities + {ReplaceAt(medicine, indices[k], |from|, to)};
      }
      assert indices[..|indices|] == indices;
      pending := pending - {to};
    }
  }

  /** Each queued molecule reaches the medicine in its step count. */
  ghost predicate QueueSound(q: PQ.PriorityQueue<(nat, string)>, m: ReverseMap, medicine: string)
    reads q, q.que
  {
    forall k :: 0 <= k < |q.que.items| ==> Reaches(m, q.que.items[k].value.1, medicine, q.que.items[k].value.0)
  }

  /** Undoing one replacement is a forward replacement the other way round. */
  lemma ReverseIsStep(m: ReverseMap, ancestor: string, to: string, i: nat)
    requires to in m && OccursAt(ancestor, to, i)
    ensures OneStep(m, ReplaceAt(ancestor, i, |to|, m[to]), ancestor)
  {
    var from := m[to];
    var anc := ReplaceAt(ancestor, i, |to|, from);
    assert anc[i..i + |from|] == from;
    assert ancestor == ReplaceAt(anc, i, |from|, to) by {
      assert anc[..i] == ancestor[..i];
      assert anc[i + |from|..] == ancestor[i + |to|..];
      assert ancestor == ancestor[..i] + ancestor[i..i + |to|] + ancestor[i + |to|..];
    }
  }

  lemma ReachesBack(m: ReverseMap, anc: string, ancestor: string, medicine: string, steps: nat)
    requires OneStep(m, anc, ancestor) && Reaches(m, ancestor, medicine, steps)
    ensures Reaches(m, anc, medicine, steps + 1)
  {
  }

  /** The inner loop over one rule's occurrences in the popped molecule: each
      undone in turn and queued with one more step, shortest first. */
  method PushAncestors(q: PQ.PriorityQueue<(nat, string)>, m: ReverseMap, medicine: string,
                       steps: nat, ancestor: string, to: string)
    requires q.Valid() && QueueSound(q, m, medicine) && NonEmptyRules(m)
    requires to in m && Reaches(m, ancestor, medicine, steps)
    modifies q.que
    ensures q.Valid() && QueueSound(q, m, medicine)
  {
    var indices := MatchIndices(ancestor, to);
    for k := 0 to |indices|
      invariant q.Valid() && QueueSound(q, m, medicine)
    {
      MatchSound(ancestor, to, 0, indices[k]);
      UndoAt(q, m, medicine, steps, ancestor, to, indices[k]);
    }
  }

  /** One occurrence of `to` in the popped molecule turned back into its source and queued. */
  method UndoAt(q: PQ.PriorityQueue<(nat, string)>, m: ReverseMap, medicine: string,
                steps: nat, ancestor: string, to: string, index: nat)
    requires q.Valid() && QueueSound(q, m, medicine)
    requires to in m && Reaches(m, ancestor, medicine, steps) && OccursAt(ancestor, to, index)
    modifies q.que
    ensures q.Valid() && QueueSound(q, m, medicine)
  {
    var anc := ReplaceAt(ancestor, index, |to|, m[to]);
    ReverseIsStep(m, ancestor, to, index);
    ReachesBack(m, anc, ancestor, medicine, steps);
    PushSound(q, m, medicine, steps + 1, anc);
  }

  /** `ancestors.push((steps, anc), Reverse(anc.len()))`. */
  method PushSound(q: PQ.PriorityQueue<(nat, string)>, m: ReverseMap, medicine: string, steps: nat, anc: string)
    requires q.Valid() && QueueSound(q, m, medicine) && Reaches(m, anc, medicine, steps)
    modifies q.que
    ensures q.Valid() && QueueSound(q, m, medicine)
  {
    ghost var before := q.que.items;
    var priority := OV.ReverseKey(|anc|);
    q.Push((steps, anc), priority);
    ghost var i := OV.Index(OV.SearchSpec(q.que.key, before, priority));
    forall j | 0 <= j < |q.que.items|
      ensures Reaches(m, q.que.items[j].value.1, medicine, q.que.items[j].value.0)
    {
      if j > i {
        assert q.que.items[j] == before[j - 1];
      } else if j < i {
        assert q.que.items[j] == before[j];
      }
    }
  }

  /** The search loop: pops the shortest molecule, stops at "e" or an empty
      queue, else queues every single undoing of every rule. The loop runs at
      most `fuel` times. A number returned is a step count by which "e"
      really reaches the medicine. */
  method StepsToElectron(m: ReverseMap, medicine: string, fuel: nat) returns (r: Option<nat>)
    requires NonEmptyRules(m)
    ensures r.Some? ==> Reaches(m, "e", medicine, r.value)
  {
    var ancestors := new PQ.PriorityQueue<(nat, string)>();
    ancestors.Push((0, medicine), OV.ReverseKey(|medicine|));
    assert QueueSound(ancestors, m, medicine);
    var budget := fuel;
    while budget > 0
      invariant fresh(ancestors.que) && ancestors.Valid() && QueueSound(ancestors, m, medicine)
    {
      budget := budget - 1;
      ghost var before := ancestors.que.items;
      var popped := ancestors.Pop();
      if popped.None? {
        return None;
      }
      var (steps, ancestor) := popped.value.0;
      assert Reaches(m, ancestor, medicine, steps) by {
        assert popped.value.0 == before[|before| - 1].value;
      }
      assert QueueSound(ancestors, m, medicine) by {
        forall k | 0 <= k < |ancestors.que.items|
          ensures Reaches(m, ancestors.que.items[k].value.1, medicine, ancestors.que.items[k].value.0)
        {
          assert ancestors.que.items[k] == before[k];
        }
      }
      if ancestor == "e" {
        return Some(steps);
      }
      var pending := m.Keys;
      while pending != {}
        invariant ancestors.Valid() && QueueSound(ancestors, m, medicine)
        decreases pending
      {
        var to :| to in pending;
        PushAncestors(ancestors, m, medicine, steps, ancestor, to);
        pending := pending - {to};
      }
    }
    r := None;
  }
}
