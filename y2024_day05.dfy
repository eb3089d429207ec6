/** 2024 day 5: print queue. Rules `X|Y` say page X must come before page Y;
    an update is in good order when no page is required before a page that
    precedes it. Good updates add their middle page to the first sum; the
    others are re-sorted by the rules and add their middle page to the second
    (src/year_2024/day05.rs). Each line arrives with its reading as a rule
    and its reading as a list of pages. */
module Year2024Day05 {
  import opened Wrappers

  datatype Ordering = Less | Equal | Greater

  /** A comma-separated page list has at least one page. */
  type Pages = p: seq<nat> | |p| > 0 witness [0]

  /** One input line: its text, what the rule pattern reads from it, and what
      splitting it at commas and parsing the pieces yields. */
  datatype Line = Line(text: string, rule: Option<(nat, nat)>, pages: Option<Pages>)

  /** Why `main` stops. */
  datatype Fault = RuleFormat | PageList

  /** The parser's two modes. */
  datatype ParseMode = Rules | Updates

  /** For each page, the pages that must come before it. */
  type RuleTable = map<nat, set<nat>>

  /** Recording the rule `before|after`: `before` joins the set of `after`,
      which is created empty when missing. */
  function AddRule(rules: RuleTable, before: nat, after: nat): (r: RuleTable)
    ensures r.Keys == rules.Keys + {after}
    ensures r[after] == (if after in rules then rules[after] else {}) + {before}
    ensures forall p :: p in rules && p != after ==> r[p] == rules[p]
  {
    rules[after := (if after in rules then rules[after] else {}) + {before}]
  }

  /** The table after the rules `pairs`, as (before, after), in order. */
  function RulesOf(pairs: seq<(nat, nat)>): RuleTable {
    if pairs == [] then map[]
    else
      var last := pairs[|pairs| - 1];
      AddRule(RulesOf(pairs[..|pairs| - 1]), last.0, last.1)
  }

  /** X is in the set of Y exactly when the rule X|Y was read. */
  lemma {:induction false} RulesOfMeaning(pairs: seq<(nat, nat)>, before: nat, after: nat)
    ensures (after in RulesOf(pairs) && before in RulesOf(pairs)[after]) <==> (before, after) in pairs
  {
    if pairs != [] {
      var init := pairs[..|pairs| - 1];
      RulesOfMeaning(init, before, after);
      assert pairs == init + [pairs[|pairs| - 1]];
    }
  }

  /** The index of the last occurrence of `v` in `pages`, if any. */
  function LastIndex(pages: seq<nat>, v: nat): (r: Option<nat>)
    ensures r.None? <==> v !in pages
    ensures r.Some? ==> r.value < |pages| && pages[r.value] == v
    ensures r.Some? ==> forall j :: r.value < j < |pages| ==> pages[j] != v
  {
    if pages == [] then None
    else if pages[|pages| - 1] == v then Some(|pages| - 1)
    else
      var r := LastIndex(pages[..|pages| - 1], v);
      assert pages == pages[..|pages| - 1] + [pages[|pages| - 1]];
      r
  }

  /** The `filter_map(..).last()` search for the last index holding `v`. */
  method LastIndexOf(pages: seq<nat>, v: nat) returns (r: Option<nat>)
    ensures r == LastIndex(pages, v)
  {
    r := None;
    for index := 0 to |pages|
      invariant r == LastIndex(pages[..index], v)
    {
      assert pages[..index + 1][..index] == pages[..index];
      if pages[index] == v {
        r := Some(index);
      }
    }
    assert pages[..|pages|] == pages;
  }

  /** Page `before` occurs somewhere after position `i`. */
  predicate LateBefore(pages: seq<nat>, i: int, before: nat) {
    var last := LastIndex(pages, before);
    last.Some? && last.value > i
  }

  /** The page at `i` has a required-before page occurring after it. */
  predicate BadAt(rules: RuleTable, pages: seq<nat>, i: int) {
    0 <= i < |pages| && pages[i] in rules
    && exists before :: before in rules[pages[i]] && LateBefore(pages, i, before)
  }

  /** Good order: no page has a required-before page after it. */
  predicate GoodOrder(rules: RuleTable, pages: seq<nat>) {
    forall i :: 0 <= i < |pages| ==> !BadAt(rules, pages, i)
  }

  /** The `good_order` loops: each page's required-before set is searched for
      a page whose last occurrence is later; the search of one set stops at
      the first such page. */
  method CheckOrder(rules: RuleTable, pages: seq<nat>) returns (good: bool)
    ensures good == GoodOrder(rules, pages)
  {
    good := true;
    for afterIndex := 0 to |pages|
      invariant good <==> forall i :: 0 <= i < afterIndex ==> !BadAt(rules, pages, i)
    {
      var after := pages[afterIndex];
      if after in rules {
        var pagesBefore := rules[after];
        var remaining := pagesBefore;
        ghost var wasGood := good;
        while remaining != {}
          invariant remaining <= pagesBefore
          invariant good ==> wasGood
          invariant good ==> forall b :: b in pagesBefore - remaining ==> !LateBefore(pages, afterIndex, b)
          invariant wasGood && !good ==> BadAt(rules, pages, afterIndex)
          decreases |remaining|
        {
          var before :| before in remaining;
          var beforeIndex := LastIndexOf(pages, before);
          if beforeIndex.Some? && beforeIndex.value > afterIndex {
            assert LateBefore(pages, afterIndex, before);
            good := false;
            break;
          }
          remaining := remaining - {before};
        }
        if good {
          assert pagesBefore - remaining == pagesBefore;
          assert !BadAt(rules, pages, afterIndex);
        } else {
          assert !wasGood || BadAt(rules, pages, afterIndex);
        }
      }
      assert good <==> forall i :: 0 <= i < afterIndex + 1 ==> !BadAt(rules, pages, i);
    }
  }

  /** Good order, read pairwise: no page comes before one of the pages it
      must follow. */
  lemma GoodOrderMeaning(rules: RuleTable, pages: seq<nat>)
    ensures GoodOrder(rules, pages) <==>
      forall i, j :: 0 <= i < j < |pages| ==> !(pages[i] in rules && pages[j] in rules[pages[i]])
  {
    if GoodOrder(rules, pages) {
      forall i, j | 0 <= i < j < |pages|
        ensures !(pages[i] in rules && pages[j] in rules[pages[i]])
      {
        assert !BadAt(rules, pages, i);
        assert LateBefore(pages, i, pages[j]);
      }
    } else {
      var i :| 0 <= i < |pages| && BadAt(rules, pages, i);
      var before :| before in rules[pages[i]] && LateBefore(pages, i, before);
      var j := LastIndex(pages, before).value;
      assert i < j < |pages| && pages[i] in rules && pages[j] in rules[pages[i]];
    }
  }

  /** A rule whose required-before page is absent from an update does not
      change whether the update is in good order. */
  lemma AbsentRuleIgnored(rules: RuleTable, pages: seq<nat>, before: nat, after: nat)
    requires before !in pages
    ensures GoodOrder(AddRule(rules, before, after), pages) == GoodOrder(rules, pages)
  {
    var added := AddRule(rules, before, after);
    GoodOrderMeaning(rules, pages);
    GoodOrderMeaning(added, pages);
    forall i, j | 0 <= i < j < |pages|
      ensures (pages[i] in added && pages[j] in added[pages[i]])
        == (pages[i] in rules && pages[j] in rules[pages[i]])
    {
      assert pages[j] != before;
    }
  }

  /** The comparator of the re-sort: a page required before the other sorts
      first, and otherwise the smaller number does. */
  function Compare(rules: RuleTable, a: nat, b: nat): Ordering {
    if a in rules && b in rules[a] then Greater
    else if b in rules && a in rules[b] then Less
    else if a < b then Less
    else if a == b then Equal
    else Greater
  }

  /** No two pages each required before the other. */
  predicate NoTwoCycles(rules: RuleTable) {
    forall a, b :: a in rules && b in rules[a] ==> !(b in rules && a in rules[b])
  }

  /** Without two-cycles the comparator is antisymmetric. */
  lemma CompareAntisymmetric(rules: RuleTable, a: nat, b: nat)
    requires NoTwoCycles(rules)
    ensures Compare(rules, a, b) == Greater ==> Compare(rules, b, a) == Less
  {
  }

  /** One insertion-sort step: `x` moves left past every page that sorts
      after it. */
  function Insert(rules: RuleTable, sorted: seq<nat>, x: nat): (r: seq<nat>)
    ensures |r| == |sorted| + 1
  {
    if sorted == [] then [x]
    else if Compare(rules, sorted[|sorted| - 1], x) == Greater then
      Insert(rules, sorted[..|sorted| - 1], x) + [sorted[|sorted| - 1]]
    else sorted + [x]
  }

  /** The re-sort of a badly ordered update, as a stable insertion sort with
      the comparator. */
  function SortPages(rules: RuleTable, pages: seq<nat>): (r: seq<nat>)
    ensures |r| == |pages|
  {
    if pages == [] then []
    else Insert(rules, SortPages(rules, pages[..|pages| - 1]), pages[|pages| - 1])
  }

  /** Inserting adds exactly the inserted page. */
  lemma {:induction false} InsertAdds(rules: RuleTable, sorted: seq<nat>, x: nat)
    ensures multiset(Insert(rules, sorted, x)) == multiset(sorted) + multiset{x}
  {
    if sorted != [] && Compare(rules, sorted[|sorted| - 1], x) == Greater {
      var init := sorted[..|sorted| - 1];
      InsertAdds(rules, init, x);
      assert sorted == init + [sorted[|sorted| - 1]];
    }
  }

  /** The re-sorted update holds the same pages. */
  lemma {:induction false} SortPagesPermutes(rules: RuleTable, pages: seq<nat>)
    ensures multiset(SortPages(rules, pages)) == multiset(pages)
  {
    if pages != [] {
      var init := pages[..|pages| - 1];
      SortPagesPermutes(rules, init);
      InsertAdds(rules, SortPages(rules, init), pages[|pages| - 1]);
      assert pages == init + [pages[|pages| - 1]];
    }
  }

  /** No neighbours in the wrong order. */
  predicate AdjacentOrdered(rules: RuleTable, s: seq<nat>) {
    forall k :: 0 <= k < |s| - 1 ==> Compare(rules, s[k], s[k + 1]) != Greater
  }

  /** The last page after an insertion is the inserted one or the former
      last. */
  lemma InsertLast(rules: RuleTable, sorted: seq<nat>, x: nat)
    requires sorted != []
    ensures var r := Insert(rules, sorted, x);
      r[|r| - 1] == x || r[|r| - 1] == sorted[|sorted| - 1]
  {
  }

  /** Without two-cycles, inserting into neighbour-ordered pages keeps them
      neighbour-ordered. */
  lemma {:induction false} InsertOrdered(rules: RuleTable, sorted: seq<nat>, x: nat)
    requires NoTwoCycles(rules) && AdjacentOrdered(rules, sorted)
    ensures AdjacentOrdered(rules, Insert(rules, sorted, x))
  {
    if sorted != [] {
      var n := |sorted|;
      var z := sorted[n - 1];
      if Compare(rules, z, x) == Greater {
        var init := sorted[..n - 1];
        assert AdjacentOrdered(rules, init) by {
          forall k | 0 <= k < |init| - 1
            ensures Compare(rules, init[k], init[k + 1]) != Greater
          {
            assert init[k] == sorted[k] && init[k + 1] == sorted[k + 1];
          }
        }
        InsertOrdered(rules, init, x);
        var ins := Insert(rules, init, x);
        var r := ins + [z];
        CompareAntisymmetric(rules, z, x);
        if init != [] {
          InsertLast(rules, init, x);
          assert Compare(rules, sorted[n - 2], z) != Greater;
        }
        forall k | 0 <= k < |r| - 1
          ensures Compare(rules, r[k], r[k + 1]) != Greater
        {
          if k < |ins| - 1 {
            assert r[k] == ins[k] && r[k + 1] == ins[k + 1];
          }
        }
      }
    }
  }

  /** Without two-cycles the re-sorted update has no neighbours in the wrong
      order. */
  lemma {:induction false} SortPagesOrdered(rules: RuleTable, pages: seq<nat>)
    requires NoTwoCycles(rules)
    ensures AdjacentOrdered(rules, SortPages(rules, pages))
  {
    if pages != [] {
      SortPagesOrdered(rules, pages[..|pages| - 1]);
      InsertOrdered(rules, SortPages(rules, pages[..|pages| - 1]), pages[|pages| - 1]);
    }
  }

  /** `pages[pages.len() / 2]`. */
  function Middle(pages: seq<nat>): nat
    requires |pages| > 0
  {
    pages[|pages| / 2]
  }

  /** What one update adds to the two sums: its middle page to the first when
      it is in good order, and otherwise the middle of its re-sorted pages to
      the second. */
  function Score(rules: RuleTable, pages: Pages): (nat, nat) {
    if GoodOrder(rules, pages) then (Middle(pages), 0)
    else (0, Middle(SortPages(rules, pages)))
  }

  /** The two sums over the updates. */
  function Totals(rules: RuleTable, updates: seq<Pages>): (nat, nat) {
    if updates == [] then (0, 0)
    else
      var (good, corrected) := Totals(rules, updates[..|updates| - 1]);
      var (g, c) := Score(rules, updates[|updates| - 1]);
      (good + g, corrected + c)
  }

  /** One more update adds its score to the sums. */
  lemma TotalsStep(rules: RuleTable, updates: seq<Pages>, pages: Pages)
    ensures Totals(rules, updates + [pages]).0 == Totals(rules, updates).0 + Score(rules, pages).0
    ensures Totals(rules, updates + [pages]).1 == Totals(rules, updates).1 + Score(rules, pages).1
  {
    assert (updates + [pages])[..|updates|] == updates;
  }

  /** The page-section arm of `main`'s loop for one update. */
  method ScoreUpdate(rules: RuleTable, pages: Pages) returns (good: nat, corrected: nat)
    ensures (good, corrected) == Score(rules, pages)
  {
    good, corrected := 0, 0;
    var inOrder := CheckOrder(rules, pages);
    if inOrder {
      good := pages[|pages| / 2];
    } else {
      var sorted := SortPages(rules, pages);
      corrected := sorted[|sorted| / 2];
    }
  }

  /** The index of the first empty line, or the line count when none is. */
  function FirstEmpty(lines: seq<Line>): (r: nat)
    ensures r <= |lines|
  {
    if lines == [] then 0
    else if lines[0].text == "" then 0
    else 1 + FirstEmpty(lines[1..])
  }

  /** The lines before `FirstEmpty` all have text, and the line there, if
      any, is empty. */
  lemma {:induction false} FirstEmptyMeaning(lines: seq<Line>)
    ensures forall k :: 0 <= k < FirstEmpty(lines) ==> lines[k].text != ""
    ensures FirstEmpty(lines) < |lines| ==> lines[FirstEmpty(lines)].text == ""
  {
    if lines != [] && lines[0].text != "" {
      FirstEmptyMeaning(lines[1..]);
      assert forall k :: 1 <= k < |lines| ==> lines[k] == lines[1..][k - 1];
    }
  }

  /** The rules read from the rule section, failing at a line the pattern
      does not match. */
  function ReadRules(lines: seq<Line>): (r: Result<seq<(nat, nat)>, Fault>)
    ensures r.Err? ==> r.error == RuleFormat
  {
    if lines == [] then Ok([])
    else
      var pairs :- ReadRules(lines[..|lines| - 1]);
      var line := lines[|lines| - 1];
      if line.rule.None? then Err(RuleFormat) else Ok(pairs + [line.rule.value])
  }

  /** The updates read from the page section, failing at a line that is not
      a list of numbers. */
  function ReadUpdates(lines: seq<Line>): (r: Result<seq<Pages>, Fault>)
    ensures r.Err? ==> r.error == PageList
  {
    if lines == [] then Ok([])
    else
      var updates :- ReadUpdates(lines[..|lines| - 1]);
      var line := lines[|lines| - 1];
      if line.pages.None? then Err(PageList) else Ok(updates + [line.pages.value])
  }

  /** What `main` computes: the lines before the first empty one are rules,
      the lines after it are updates. */
  function Outcome(lines: seq<Line>): Result<(nat, nat), Fault> {
    var split := FirstEmpty(lines);
    var pairs :- ReadRules(lines[..split]);
    var updates :- ReadUpdates(if split < |lines| then lines[split + 1..] else []);
    Ok(Totals(RulesOf(pairs), updates))
  }

  /** What `main` holds between lines: the mode, the rule table and the two
      sums. */
  datatype State = State(mode: ParseMode, rules: RuleTable, good: nat, corrected: nat)

  /** `main`'s handling of one line in the state it finds. */
  function Step(st: State, line: Line): Result<State, Fault> {
    match st.mode
    case Rules =>
      if line.text == "" then Ok(st.(mode := Updates))
      else if line.rule.None? then Err(RuleFormat)
      else Ok(st.(rules := AddRule(st.rules, line.rule.value.0, line.rule.value.1)))
    case Updates =>
      if line.pages.None? then Err(PageList)
      else
        var (g, c) := Score(st.rules, line.pages.value);
        Ok(st.(good := st.good + g, corrected := st.corrected + c))
  }

  /** The state after the lines, or the failure of the first bad one. */
  function Run(lines: seq<Line>): Result<State, Fault> {
    if lines == [] then Ok(State(Rules, map[], 0, 0))
    else
      var st :- Run(lines[..|lines| - 1]);
      Step(st, lines[|lines| - 1])
  }

  /** Before the first empty line, `main` has read every line as a rule. */
  lemma {:induction false} RunRules(lines: seq<Line>)
    requires forall k :: 0 <= k < |lines| ==> lines[k].text != ""
    ensures ReadRules(lines).Err? ==> Run(lines) == Err(RuleFormat)
    ensures ReadRules(lines).Ok? ==> Run(lines) == Ok(State(Rules, RulesOf(ReadRules(lines).value), 0, 0))
  {
    if lines != [] {
      var init := lines[..|lines| - 1];
      RunRules(init);
    }
  }

  /** The state `main` should be in once the line at `split` has switched it
      to updates: the rules before `split` read, every later line read as an
      update. */
  function UpdatesState(lines: seq<Line>, split: nat): Result<State, Fault>
    requires split < |lines|
  {
    var pairs :- ReadRules(lines[..split]);
    var updates :- ReadUpdates(lines[split + 1..]);
    Ok(State(Updates, RulesOf(pairs), Totals(RulesOf(pairs), updates).0, Totals(RulesOf(pairs), updates).1))
  }

  /** One more line after the switch moves `main` from one expected state to
      the next. */
  lemma UpdatesStateStep(lines: seq<Line>, split: nat)
    requires split < |lines| - 1
    ensures UpdatesState(lines, split) ==
      (var st :- UpdatesState(lines[..|lines| - 1], split); Step(st, lines[|lines| - 1]))
  {
    var init := lines[..|lines| - 1];
    var last := lines[|lines| - 1];
    assert init[..split] == lines[..split];
    var section := lines[split + 1..];
    assert init[split + 1..] == section[..|section| - 1];
    assert section[|section| - 1] == last;
    var rulesRead := ReadRules(lines[..split]);
    var updatesRead := ReadUpdates(section[..|section| - 1]);
    if rulesRead.Err? {
      assert UpdatesState(lines, split) == Err(RuleFormat);
      assert UpdatesState(init, split) == Err(RuleFormat);
    } else if updatesRead.Err? {
      assert ReadUpdates(section) == Err(PageList);
      assert UpdatesState(lines, split) == Err(PageList);
      assert UpdatesState(init, split) == Err(PageList);
    } else {
      var rules := RulesOf(rulesRead.value);
      var updates := updatesRead.value;
      var st := State(Updates, rules, Totals(rules, updates).0, Totals(rules, updates).1);
      assert UpdatesState(init, split) == Ok(st);
      if last.pages.None? {
        assert ReadUpdates(section) == Err(PageList);
        assert UpdatesState(lines, split) == Err(PageList);
      } else {
        TotalsStep(rules, updates, last.pages.value);
        assert ReadUpdates(section) == Ok(updates + [last.pages.value]);
      }
    }
  }

  /** After the first empty line, at `split`, `main` has read the rules
      before it and reads every later line as an update. */
  lemma {:induction false} RunUpdates(lines: seq<Line>, split: nat)
    requires split < |lines| && lines[split].text == ""
    requires forall k :: 0 <= k < split ==> lines[k].text != ""
    ensures Run(lines) == UpdatesState(lines, split)
  {
    var init := lines[..|lines| - 1];
    if split == |lines| - 1 {
      assert init == lines[..split];
      RunRules(init);
      assert lines[split + 1..] == [];
    } else {
      UpdatesStateStep(lines, split);
      RunUpdates(init, split);
    }
  }

  /** `main` run line by line computes the outcome: the lines before the
      first empty one are rules, the lines after it updates. */
  lemma RunOutcome(lines: seq<Line>)
    ensures Run(lines).Err? ==> Outcome(lines) == Err(Run(lines).error)
    ensures Run(lines).Ok? ==> Outcome(lines) == Ok((Run(lines).value.good, Run(lines).value.corrected))
  {
    FirstEmptyMeaning(lines);
    if FirstEmpty(lines) < |lines| {
      RunUpdates(lines, FirstEmpty(lines));
    } else {
      assert lines[..FirstEmpty(lines)] == lines;
      RunRules(lines);
    }
  }

  /** Once a line has failed, `main` has failed. */
  lemma {:induction false} RunFails(lines: seq<Line>, n: nat)
    requires n <= |lines| && Run(lines[..n]).Err?
    ensures Run(lines) == Run(lines[..n])
    decreases |lines| - n
  {
    if n < |lines| {
      assert lines[..n + 1][..n] == lines[..n];
      RunFails(lines, n + 1);
    } else {
      assert lines[..n] == lines;
    }
  }

  /** A line that fails stops `main` with that line's failure. */
  lemma StopsAt(lines: seq<Line>, n: nat)
    requires n < |lines| && Run(lines[..n + 1]).Err?
    ensures Outcome(lines) == Err(Run(lines[..n + 1]).error)
  {
    RunFails(lines, n + 1);
    RunOutcome(lines);
  }

  /** Reading every line without failure ends in the outcome's two sums. */
  lemma Completes(lines: seq<Line>, st: State)
    requires Run(lines) == Ok(st)
    ensures Outcome(lines) == Ok((st.good, st.corrected))
  {
    RunOutcome(lines);
  }

  /** `main`: one pass over the lines, switching from rules to updates at the
      first empty line. */
  method Solve(lines: seq<Line>) returns (r: Result<(nat, nat), Fault>)
    ensures r == Outcome(lines)
  {
    var mode := Rules;
    var rules: RuleTable := map[];
    var sumMiddlePages: nat, sumCorrected: nat := 0, 0;
    for n := 0 to |lines|
      invariant Run(lines[..n]) == Ok(State(mode, rules, sumMiddlePages, sumCorrected))
    {
      assert lines[..n + 1][..n] == lines[..n];
      var line := lines[n];
      match mode {
        case Rules =>
          if line.text == "" {
            mode := Updates;
          } else {
            if line.rule.None? {
              StopsAt(lines, n);
              return Err(RuleFormat);
            }
            var (before, after) := line.rule.value;
            rules := AddRule(rules, before, after);
          }
        case Updates =>
          if line.pages.None? {
            StopsAt(lines, n);
            return Err(PageList);
          }
          var pages := line.pages.value;
          var good, corrected := ScoreUpdate(rules, pages);
          sumMiddlePages, sumCorrected := sumMiddlePages + good, sumCorrected + corrected;
      }
    }
    assert lines[..|lines|] == lines;
    Completes(lines, State(mode, rules, sumMiddlePages, sumCorrected));
    r := Ok((sumMiddlePages, sumCorrected));
  }
}
