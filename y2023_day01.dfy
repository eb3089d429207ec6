/** 2023 day 1: calibration values from the first and last digit of each
    line, once with numeric digits only and once with spelled-out digits
    recognised by a set of character-by-character observers
    (src/year_2023/day01.rs). */
module Year2023Day01 {
  import opened Wrappers

  /** `digit_parse`: '0' to '9' give 0 to 9, anything else is an error. */
  function DigitParse(ch: char): (r: Result<nat, string>)
    ensures r.Ok? <==> '0' <= ch <= '9'
    ensures r.Ok? ==> r.value < 10
  {
    if '0' <= ch <= '9' then Ok(ch as int - '0' as int) else Err("Unexpected char digit")
  }

  /** The character of a digit parses back to that digit. */
  lemma DigitParseRoundTrip(d: nat)
    requires d < 10
    ensures DigitParse(('0' as int + d) as char) == Ok(d)
  {
  }

  // ----- Observer -----

  /** `observe`'s move before the reset: extend the match, restart at 1 on
      the word's first letter, or fall back to 0. */
  function Advance(word: string, index: nat, ch: char): nat
    requires index < |word|
  {
    if ch == word[index] then index + 1 else if ch == word[0] then 1 else 0
  }

  /** The observer's index after observing `s`, starting from `start`. */
  function IndexAfter(word: string, start: nat, s: string): (n: nat)
    requires start < |word|
    ensures n < |word|
  {
    if s == [] then start
    else
      var m := Advance(word, IndexAfter(word, start, s[..|s| - 1]), s[|s| - 1]);
      if m >= |word| then 0 else m
  }

  /** The last character of `s` makes the observer report its value. */
  predicate FiresOn(word: string, start: nat, s: string)
    requires start < |word|
  {
    s != [] && Advance(word, IndexAfter(word, start, s[..|s| - 1]), s[|s| - 1]) >= |word|
  }

  /** The last `k` characters of `s` are the first `k` of `word`. */
  predicate SuffixMatch(word: string, s: string, k: nat) {
    k <= |word| && k <= |s| && s[|s| - k..] == word[..k]
  }

  predicate EndsWith(s: string, word: string) {
    SuffixMatch(word, s, |word|)
  }

  /** A word whose first letter does not occur again in it. */
  predicate UniqueFirst(word: string) {
    |word| > 0 && forall i :: 0 < i < |word| ==> word[i] != word[0]
  }

  lemma SuffixStep(word: string, s: string, ch: char, k: nat)
    requires 1 <= k <= |word|
    ensures SuffixMatch(word, s + [ch], k) <==> SuffixMatch(word, s, k - 1) && ch == word[k - 1]
  {
    var t := s + [ch];
    if k <= |word| && k <= |t| {
      assert t[|t| - k..] == s[|s| - (k - 1)..] + [ch];
      assert word[..k] == word[..k - 1] + [word[k - 1]];
    }
  }

  /** With a unique first letter, two different non-empty prefixes of the
      word cannot both end `s`. */
  lemma UniqueSuffix(word: string, s: string, a: nat, b: nat)
    requires UniqueFirst(word) && 1 <= a < b
    requires SuffixMatch(word, s, b)
    ensures !SuffixMatch(word, s, a)
  {
    assert s[|s| - a] == s[|s| - b..][b - a] == word[b - a];
    assert s[|s| - a..][0] != word[..a][0];
  }

  /** The index always names a prefix of the word that ends what was observed. */
  lemma {:induction false} IndexMatches(word: string, s: string)
    requires |word| > 0
    ensures SuffixMatch(word, s, IndexAfter(word, 0, s))
    ensures FiresOn(word, 0, s) ==> EndsWith(s, word)
  {
    if s != [] {
      var p, ch := s[..|s| - 1], s[|s| - 1];
      assert s == p + [ch];
      IndexMatches(word, p);
      var i := IndexAfter(word, 0, p);
      var m := Advance(word, i, ch);
      assert IndexAfter(word, 0, s) == if m >= |word| then 0 else m;
      assert FiresOn(word, 0, s) <==> m >= |word|;
      if m > 0 {
        SuffixStep(word, p, ch, m);
      }
    }
  }

  /** For a word with a unique first letter the observer is exact: it
      reports precisely when the observed text ends with the word, and its
      index is the longest unfinished match. */
  lemma {:induction false} ObserverExact(word: string, s: string)
    requires UniqueFirst(word)
    ensures forall k :: IndexAfter(word, 0, s) < k < |word| ==> !SuffixMatch(word, s, k)
    ensures s != [] ==> (FiresOn(word, 0, s) <==> EndsWith(s, word))
  {
    IndexMatches(word, s);
    if s != [] {
      var p, ch := s[..|s| - 1], s[|s| - 1];
      assert s == p + [ch];
      ObserverExact(word, p);
      IndexMatches(word, p);
      ExactExtend(word, p, ch);
    }
  }

  /** The induction step of `ObserverExact`: a prefix that ends `p + [ch]`
      is the one `observe` moves to. */
  lemma ExactExtend(word: string, p: string, ch: char)
    requires UniqueFirst(word)
    requires SuffixMatch(word, p, IndexAfter(word, 0, p))
    requires forall j :: IndexAfter(word, 0, p) < j < |word| ==> !SuffixMatch(word, p, j)
    ensures forall k :: IndexAfter(word, 0, p + [ch]) < k < |word| ==> !SuffixMatch(word, p + [ch], k)
    ensures FiresOn(word, 0, p + [ch]) <==> EndsWith(p + [ch], word)
  {
    var s := p + [ch];
    assert s[..|s| - 1] == p;
    var m := Advance(word, IndexAfter(word, 0, p), ch);
    forall k | 1 <= k <= |word| && SuffixMatch(word, s, k) ensures k == m {
      ExactStep(word, p, ch, k);
    }
    assert FiresOn(word, 0, s) <==> m >= |word|;
  }

  /** The one prefix that can end `p + [ch]` is the one `observe` moves to. */
  lemma ExactStep(word: string, p: string, ch: char, k: nat)
    requires UniqueFirst(word) && 1 <= k <= |word|
    requires SuffixMatch(word, p, IndexAfter(word, 0, p))
    requires forall j :: IndexAfter(word, 0, p) < j < |word| ==> !SuffixMatch(word, p, j)
    requires SuffixMatch(word, p + [ch], k)
    ensures k == Advance(word, IndexAfter(word, 0, p), ch)
  {
    var i := IndexAfter(word, 0, p);
    SuffixStep(word, p, ch, k);
    if 1 <= k - 1 < i {
      UniqueSuffix(word, p, k - 1, i);
    }
    if k == 1 && i >= 1 {
      assert word[i] != word[0];
    }
  }

  /** The word "nine" seen in "ninine": the text ends with "nine", yet the
      observer, having fallen back to 0 at the second 'i', never reports it. */
  lemma NineOverlapMissed()
    ensures EndsWith("ninine", "nine")
    ensures !FiresOn("nine", 0, "ninine")
  {
    var w := "nine";
    assert "ninine"[2..] == w[..4];
    assert "ninine"[..5] == "ninin";
    assert "ninin"[..4] == "nini";
    assert "nini"[..3] == "nin";
    assert "nin"[..2] == "ni";
    assert "ni"[..1] == "n";
    assert "n"[..0] == "";
    assert IndexAfter(w, 0, "n") == 1;
    assert IndexAfter(w, 0, "ni") == 2;
    assert IndexAfter(w, 0, "nin") == 3;
    assert IndexAfter(w, 0, "nini") == 0;
    assert IndexAfter(w, 0, "ninin") == 1;
  }

  /** Observing two pieces one after the other is observing them joined. */
  lemma {:induction false} IndexAfterJoin(word: string, h: string, s: string)
    requires |word| > 0
    ensures IndexAfter(word, IndexAfter(word, 0, h), s) == IndexAfter(word, 0, h + s)
    ensures s != [] ==> (FiresOn(word, IndexAfter(word, 0, h), s) <==> FiresOn(word, 0, h + s))
  {
    if s != [] {
      var p := s[..|s| - 1];
      assert (h + s)[..|h + s| - 1] == h + p;
      assert (h + s)[|h + s| - 1] == s[|s| - 1];
      IndexAfterJoin(word, h, p);
      var i := IndexAfter(word, IndexAfter(word, 0, h), p);
      assert IndexAfter(word, IndexAfter(word, 0, h), s) == (var m := Advance(word, i, s[|s| - 1]); if m >= |word| then 0 else m);
      assert IndexAfter(word, 0, h + s) == (var m := Advance(word, i, s[|s| - 1]); if m >= |word| then 0 else m);
    } else {
      assert h + s == h;
    }
  }

  /** The observers are never reset between lines: after a line ending in
      "on", the "one" observer reports on a next line that starts with 'e'. */
  lemma CarriedMatchFires()
    ensures FiresOn("one", IndexAfter("one", 0, "1on"), "e5"[..1])
    ensures !EndsWith("e5"[..1], "one")
  {
    assert "1on"[..2] == "1o";
    assert "1o"[..1] == "1";
    assert "1"[..0] == "";
    assert IndexAfter("one", 0, "1") == 0;
    assert IndexAfter("one", 0, "1o") == 1;
    assert IndexAfter("one", 0, "1on") == 2;
    assert "e5"[..1] == "e";
    assert "e"[..0] == "";
  }

  /** One `Observer`: a word, the value it stands for, and how much of the
      word the most recent characters matched. */
  class Observer {
    const word: string
    const value: nat
    var index: nat

    ghost predicate Valid()
      reads this
    {
      |word| > 0 && index < |word|
    }

    /** `Observer::new`. */
    constructor (word: string, value: nat)
      requires |word| > 0
      ensures Valid() && this.word == word && this.value == value && index == 0
    {
      this.word := word;
      this.value := value;
      index := 0;
    }

    /** `observe`: advance on `ch`, and report the value (resetting to 0)
        once the whole word has been matched. */
    method Observe(ch: char) returns (r: Option<nat>)
      requires Valid()
      modifies this
      ensures Valid()
      ensures index == IndexAfter(word, old(index), [ch])
      ensures r.Some? <==> FiresOn(word, old(index), [ch])
      ensures r.Some? ==> r.value == value
    {
      assert [ch][..0] == [];
      if ch == word[index] {
        index := index + 1;
      } else if ch == word[0] {
        index := 1;
      } else {
        index := 0;
      }
      if index >= |word| {
        index := 0;
        r := Some(value);
      } else {
        r := None;
      }
    }
  }

  // ----- digits of a line -----

  /** `digits.map_or((digit, digit), |(first, _)| (first, digit))`. */
  function Combine(d: Option<(nat, nat)>, v: nat): (r: Option<(nat, nat)>)
    ensures r.Some? && r.value.1 == v
    ensures d.Some? ==> r.value.0 == d.value.0
    ensures d.None? ==> r.value.0 == v
  {
    match d
    case None => Some((v, v))
    case Some((first, _)) => Some((first, v))
  }

  /** An observer's word and value, and its index when the line begins. */
  datatype Tracker = Tracker(word: string, value: nat, start: nat)

  predicate ValidTrackers(ts: seq<Tracker>) {
    forall j :: 0 <= j < |ts| ==> |ts[j].word| > 0 && ts[j].start < |ts[j].word|
  }

  /** The digits reported at the last character of `s` by the first `j`
      observers, folded into `d` in observer order. */
  function FoldFires(d: Option<(nat, nat)>, ts: seq<Tracker>, s: string, j: nat): Option<(nat, nat)>
    requires ValidTrackers(ts) && j <= |ts|
  {
    if j == 0 then d
    else
      var d' := FoldFires(d, ts, s, j - 1);
      if FiresOn(ts[j - 1].word, ts[j - 1].start, s) then Combine(d', ts[j - 1].value) else d'
  }

  /** The first and last value the observers report while reading `s`. */
  function LineDigits(ts: seq<Tracker>, s: string): Option<(nat, nat)>
    requires ValidTrackers(ts)
  {
    if s == [] then None else FoldFires(LineDigits(ts, s[..|s| - 1]), ts, s, |ts|)
  }

  /** The first and last value of a word ending at the last character of
      `s`, folded into `d` in list order: the intended reading. */
  function FoldEnds(d: Option<(nat, nat)>, ws: seq<(string, nat)>, s: string, j: nat): Option<(nat, nat)>
    requires j <= |ws|
  {
    if j == 0 then d
    else
      var d' := FoldEnds(d, ws, s, j - 1);
      if EndsWith(s, ws[j - 1].0) then Combine(d', ws[j - 1].1) else d'
  }

  /** The first and last digit value of a word occurring in `s`, by end
      position and then by list order. */
  function IntendedDigits(ws: seq<(string, nat)>, s: string): Option<(nat, nat)> {
    if s == [] then None else FoldEnds(IntendedDigits(ws, s[..|s| - 1]), ws, s, |ws|)
  }

  /** The observers for `ws`, all at the start of their word. */
  function Fresh(ws: seq<(string, nat)>): (ts: seq<Tracker>)
    ensures |ts| == |ws|
    ensures forall j :: 0 <= j < |ws| ==> ts[j] == Tracker(ws[j].0, ws[j].1, 0)
  {
    if ws == [] then [] else Fresh(ws[..|ws| - 1]) + [Tracker(ws[|ws| - 1].0, ws[|ws| - 1].1, 0)]
  }

  lemma {:induction false} FoldAgrees(d: Option<(nat, nat)>, ws: seq<(string, nat)>, s: string, j: nat)
    requires j <= |ws| && s != []
    requires forall i :: 0 <= i < |ws| ==> UniqueFirst(ws[i].0)
    ensures ValidTrackers(Fresh(ws))
    ensures FoldFires(d, Fresh(ws), s, j) == FoldEnds(d, ws, s, j)
  {
    if j > 0 {
      FoldAgrees(d, ws, s, j - 1);
      ObserverExact(ws[j - 1].0, s);
    }
  }

  /** Fresh observers over words with a unique first letter read a line
      exactly as intended. */
  lemma {:induction false} FreshObserversExact(ws: seq<(string, nat)>, s: string)
    requires forall i :: 0 <= i < |ws| ==> UniqueFirst(ws[i].0)
    ensures ValidTrackers(Fresh(ws))
    ensures LineDigits(Fresh(ws), s) == IntendedDigits(ws, s)
  {
    FoldAgrees(None, ws, [' '], 0);
    if s != [] {
      FreshObserversExact(ws, s[..|s| - 1]);
      FoldAgrees(LineDigits(Fresh(ws), s[..|s| - 1]), ws, s, |ws|);
    }
  }

  /** `word` ends at position `p` of `s`. */
  predicate EndsAt(s: string, p: nat, word: string)
    requires p < |s|
  {
    EndsWith(s[..p + 1], word)
  }

  /** `IntendedDigits` is `None` exactly when no word occurs in `s`. */
  lemma {:induction false} IntendedNone(ws: seq<(string, nat)>, s: string)
    ensures IntendedDigits(ws, s).None? <==>
      forall p, j :: 0 <= p < |s| && 0 <= j < |ws| ==> !EndsAt(s, p, ws[j].0)
  {
    if s != [] {
      var n := |s| - 1;
      IntendedNone(ws, s[..n]);
      forall p, j | 0 <= p < n && 0 <= j < |ws| ensures EndsAt(s[..n], p, ws[j].0) == EndsAt(s, p, ws[j].0) {
        assert s[..n][..p + 1] == s[..p + 1];
      }
      assert s[..n + 1] == s;
      forall j | 0 <= j < |ws| ensures EndsAt(s, n, ws[j].0) == EndsWith(s, ws[j].0) {
      }
      FoldEndsNone(IntendedDigits(ws, s[..n]), ws, s, |ws|);
    }
  }

  lemma {:induction false} FoldEndsNone(d: Option<(nat, nat)>, ws: seq<(string, nat)>, s: string, j: nat)
    requires j <= |ws|
    ensures FoldEnds(d, ws, s, j).None? <==> d.None? && forall i :: 0 <= i < j ==> !EndsWith(s, ws[i].0)
  {
    if j > 0 {
      FoldEndsNone(d, ws, s, j - 1);
    }
  }

  /** The twenty observers `main` builds. */
  const Words: seq<(string, nat)> := [
    ("0", 0), ("1", 1), ("2", 2), ("3", 3), ("4", 4), ("5", 5), ("6", 6), ("7", 7), ("8", 8), ("9", 9),
    ("zero", 0), ("one", 1), ("two", 2), ("three", 3), ("four", 4),
    ("five", 5), ("six", 6), ("seven", 7), ("eight", 8), ("nine", 9)]

  /** The inner loops of `main`'s second part, as written: every observer
      sees every character of the line, and keeps its index for the next
      line. */
  method ObserveLine(observers: seq<Observer>, ghost pos: map<Observer, nat>, line: string) returns (digits: Option<(nat, nat)>, ghost ts: seq<Tracker>)
    requires forall j :: 0 <= j < |observers| ==> observers[j].Valid()
    requires forall i :: 0 <= i < |observers| ==> observers[i] in pos && pos[observers[i]] == i
    modifies set o | o in observers
    ensures |ts| == |observers| && ValidTrackers(ts)
    ensures forall j :: 0 <= j < |observers| ==>
      ts[j] == Tracker(observers[j].word, observers[j].value, old(observers[j].index))
    ensures forall j :: 0 <= j < |observers| ==>
      observers[j].Valid() && observers[j].index == IndexAfter(ts[j].word, ts[j].start, line)
    ensures digits == LineDigits(ts, line)
  {
    ts := seq(|observers|, j requires 0 <= j < |observers| reads observers =>
      Tracker(observers[j].word, observers[j].value, observers[j].index));
    digits := None;
    for p := 0 to |line|
      invariant forall j :: 0 <= j < |observers| ==> observers[j].index == IndexAfter(ts[j].word, ts[j].start, line[..p])
      invariant digits == LineDigits(ts, line[..p])
    {
      assert line[..p + 1] == line[..p] + [line[p]];
      assert line[..p + 1][..p] == line[..p];
      digits := ObserveChar(observers, pos, ts, line[..p], line[p], digits);
    }
    assert line[..|line|] == line;
    forall j | 0 <= j < |observers| ensures observers[j].Valid() {
      assert observers[j].index < |observers[j].word|;
    }
  }

  /** The innermost loop: every observer sees `ch`, in order. */
  method ObserveChar(observers: seq<Observer>, ghost pos: map<Observer, nat>, ghost ts: seq<Tracker>, ghost s: string, ch: char, d: Option<(nat, nat)>)
    returns (digits: Option<(nat, nat)>)
    requires |ts| == |observers| && ValidTrackers(ts)
    requires forall i :: 0 <= i < |observers| ==> observers[i] in pos && pos[observers[i]] == i
    requires forall j :: 0 <= j < |observers| ==> observers[j].word == ts[j].word && observers[j].value == ts[j].value
    requires forall j :: 0 <= j < |observers| ==> observers[j].index == IndexAfter(ts[j].word, ts[j].start, s)
    modifies set o | o in observers
    ensures forall j :: 0 <= j < |observers| ==> observers[j].index == IndexAfter(ts[j].word, ts[j].start, s + [ch])
    ensures digits == FoldFires(d, ts, s + [ch], |ts|)
  {
    digits := d;
    ghost var cur := seq(|ts|, i requires 0 <= i < |ts| => IndexAfter(ts[i].word, ts[i].start, s));
    for j := 0 to |observers|
      invariant |cur| == |observers|
      invariant forall i :: 0 <= i < |observers| ==> observers[i].index == cur[i]
      invariant forall i :: 0 <= i < j ==> cur[i] == IndexAfter(ts[i].word, ts[i].start, s + [ch])
      invariant forall i :: j <= i < |observers| ==> cur[i] == IndexAfter(ts[i].word, ts[i].start, s)
      invariant digits == FoldFires(d, ts, s + [ch], j)
    {
      digits, cur := ObserveAt(observers, pos, ts, s, ch, d, j, cur, digits);
    }
  }

  /** The `j`th observer sees `ch`; the others keep their index. */
  method ObserveAt(observers: seq<Observer>, ghost pos: map<Observer, nat>, ghost ts: seq<Tracker>, ghost s: string, ch: char,
                   ghost d: Option<(nat, nat)>, j: nat, ghost cur: seq<nat>, d0: Option<(nat, nat)>)
    returns (digits: Option<(nat, nat)>, ghost cur': seq<nat>)
    requires |ts| == |observers| == |cur| && ValidTrackers(ts) && j < |observers|
    requires forall i :: 0 <= i < |observers| ==> observers[i] in pos && pos[observers[i]] == i
    requires forall i :: 0 <= i < |observers| ==> observers[i].word == ts[i].word && observers[i].value == ts[i].value
    requires forall i :: 0 <= i < |observers| ==> observers[i].index == cur[i]
    requires cur[j] == IndexAfter(ts[j].word, ts[j].start, s)
    requires d0 == FoldFires(d, ts, s + [ch], j)
    modifies observers[j]
    ensures cur' == cur[j := IndexAfter(ts[j].word, ts[j].start, s + [ch])]
    ensures forall i :: 0 <= i < |observers| ==> observers[i].index == cur'[i]
    ensures digits == FoldFires(d, ts, s + [ch], j + 1)
  {
    var o := observers[j];
    assert forall i :: 0 <= i < |observers| && i != j ==> observers[i] != o by {
      assert forall i :: 0 <= i < |observers| ==> pos[observers[i]] == i;
    }
    digits := ObserveOne(o, ts[j], s, ch, d0);
    cur' := cur[j := o.index];
  }

  /** One observer sees `ch`; its report, if any, joins the digits. */
  method ObserveOne(o: Observer, ghost t: Tracker, ghost s: string, ch: char, d: Option<(nat, nat)>)
    returns (digits: Option<(nat, nat)>)
    requires o.word == t.word && o.value == t.value && t.start < |t.word|
    requires o.index == IndexAfter(t.word, t.start, s)
    modifies o
    ensures o.Valid() && o.index == IndexAfter(t.word, t.start, s + [ch])
    ensures digits == if FiresOn(t.word, t.start, s + [ch]) then Combine(d, t.value) else d
  {
    var r := o.Observe(ch);
    ObserveStep(t.word, t.start, s, ch);
    digits := if r.Some? then Combine(d, r.value) else d;
  }

  lemma ObserveStep(word: string, start: nat, s: string, ch: char)
    requires start < |word|
    ensures IndexAfter(word, IndexAfter(word, start, s), [ch]) == IndexAfter(word, start, s + [ch])
    ensures FiresOn(word, IndexAfter(word, start, s), [ch]) <==> FiresOn(word, start, s + [ch])
  {
    assert [ch][..0] == [];
    assert (s + [ch])[..|s|] == s;
  }

  /** The digits of one line as intended: the first and last of the twenty
      words, spelled or numeric, that occur in it, found by trying every
      word at every end position. */
  method SpelledDigits(line: string) returns (digits: Option<(nat, nat)>)
    ensures digits == IntendedDigits(Words, line)
  {
    digits := None;
    for p := 0 to |line|
      invariant digits == IntendedDigits(Words, line[..p])
    {
      var seen := line[..p + 1];
      assert seen[..p] == line[..p];
      ghost var before := digits;
      for j := 0 to |Words|
        invariant digits == FoldEnds(before, Words, seen, j)
      {
        var (w, v) := Words[j];
        assert w[..|w|] == w;
        if |w| <= p + 1 && line[p + 1 - |w|..p + 1] == w {
          assert seen[|seen| - |w|..] == line[p + 1 - |w|..p + 1];
          digits := Combine(digits, v);
        } else if |w| <= p + 1 {
          assert seen[|seen| - |w|..] == line[p + 1 - |w|..p + 1];
        }
      }
    }
    assert line[..|line|] == line;
  }

  // ----- numeric digits -----

  /** The values of the decimal digits of `s`, in order. */
  function NumericDigits(s: string): (ds: seq<nat>)
    ensures forall i :: 0 <= i < |ds| ==> ds[i] < 10
  {
    if s == [] then []
    else NumericDigits(s[..|s| - 1]) + (if '0' <= s[|s| - 1] <= '9' then [s[|s| - 1] as int - '0' as int] else [])
  }

  /** A line has a digit exactly when some character is one. */
  lemma {:induction false} NumericDigitsEmpty(s: string)
    ensures NumericDigits(s) == [] <==> forall i :: 0 <= i < |s| ==> !('0' <= s[i] <= '9')
  {
    if s != [] {
      NumericDigitsEmpty(s[..|s| - 1]);
      assert forall i :: 0 <= i < |s| - 1 ==> s[..|s| - 1][i] == s[i];
    }
  }

  lemma NumericDigitsSnoc(line: string, p: nat)
    requires p < |line|
    ensures NumericDigits(line[..p + 1]) ==
      NumericDigits(line[..p]) + if '0' <= line[p] <= '9' then [line[p] as int - '0' as int] else []
  {
    assert line[..p + 1][..p] == line[..p];
  }

  /** The first part's calibration value: ten times the first digit plus
      the last one; a line without a digit is an error. */
  method Calibration(line: string) returns (r: Result<nat, string>)
    ensures r.Err? <==> NumericDigits(line) == []
    ensures r.Ok? ==> var ds := NumericDigits(line); r.value == 10 * ds[0] + ds[|ds| - 1]
  {
    var first: Option<nat> := None;
    var last: nat := 0;
    for p := 0 to |line|
      invariant first.None? <==> NumericDigits(line[..p]) == []
      invariant first.Some? ==> first.value == NumericDigits(line[..p])[0]
      invariant first.Some? ==> last == NumericDigits(line[..p])[|NumericDigits(line[..p])| - 1]
    {
      var ch := line[p];
      NumericDigitsSnoc(line, p);
      ghost var before, after := NumericDigits(line[..p]), NumericDigits(line[..p + 1]);
      if '0' <= ch <= '9' {
        var d := DigitParse(ch).value;
        assert after == before + [d];
        if first.None? {
          first := Some(d);
        }
        last := d;
      } else {
        assert after == before;
      }
    }
    assert line[..|line|] == line;
    if first.None? {
      return Err("No Digit");
    }
    r := Ok(10 * first.value + last);
  }

  /** A line with a single digit counts it as both first and last. */
  lemma SingleDigitTwice(line: string, d: nat)
    requires NumericDigits(line) == [d]
    ensures var ds := NumericDigits(line); 10 * ds[0] + ds[|ds| - 1] == 11 * d
  {
  }

  // ----- main -----

  /** What `main` computes over the lines (with the intended reading of
      spelled digits): the two sums, or an error for the first line with no
      numeric digit or no digit at all. */
  function Sums(lines: seq<string>): Result<(nat, nat), string> {
    if lines == [] then Ok((0, 0))
    else
      var rest := Sums(lines[..|lines| - 1]);
      var line := lines[|lines| - 1];
      var ds := NumericDigits(line);
      var sp := IntendedDigits(Words, line);
      if rest.Err? then rest
      else if ds == [] || sp.None? then Err("No Digit")
      else Ok((rest.value.0 + 10 * ds[0] + ds[|ds| - 1], rest.value.1 + 10 * sp.value.0 + sp.value.1))
  }

  /** The sums are an error exactly when some line has no numeric digit: a
      line with one always has a digit word too. */
  lemma {:induction false} SumsError(lines: seq<string>)
    ensures Sums(lines).Err? <==> exists n :: 0 <= n < |lines| && NumericDigits(lines[n]) == []
  {
    if lines != [] {
      var m := |lines| - 1;
      SumsError(lines[..m]);
      assert forall n :: 0 <= n < m ==> lines[..m][n] == lines[n];
      if NumericDigits(lines[m]) != [] {
        IntendedFindsDigit(lines[m]);
      }
    }
  }

  /** `main`'s loop over the lines. */
  method CalibrationSums(lines: seq<string>) returns (r: Result<(nat, nat), string>)
    ensures r == Sums(lines)
  {
    var sum, sumSpelled := 0, 0;
    for n := 0 to |lines|
      invariant Sums(lines[..n]) == Ok((sum, sumSpelled))
    {
      assert lines[..n + 1][..n] == lines[..n];
      var value := Calibration(lines[n]);
      var digits := SpelledDigits(lines[n]);
      if value.Err? || digits.None? {
        assert Sums(lines[..n + 1]).Err?;
        SumsErrorSticks(lines, n + 1);
        return Err("No Digit");
      }
      sum := sum + value.value;
      sumSpelled := sumSpelled + 10 * digits.value.0 + digits.value.1;
    }
    assert lines[..|lines|] == lines;
    r := Ok((sum, sumSpelled));
  }

  /** Once a prefix of the lines is an error, so are all the lines. */
  lemma {:induction false} SumsErrorSticks(lines: seq<string>, n: nat)
    requires n <= |lines| && Sums(lines[..n]).Err?
    ensures Sums(lines) == Sums(lines[..n])
    decreases |lines| - n
  {
    if n < |lines| {
      assert lines[..n + 1][..n] == lines[..n];
      SumsErrorSticks(lines, n + 1);
    } else {
      assert lines[..n] == lines;
    }
  }

  // ----- main, as written -----

  /** An observer bank whose first ten observers watch for the ten
      decimal digits, as the one `main` builds does. */
  predicate Banked(ts: seq<Tracker>) {
    |ts| >= 10 && ValidTrackers(ts)
    && forall v: nat :: v < 10 ==> ts[v].word == [DigitChar(v)] && ts[v].value == v
  }

  function DigitChar(v: nat): char
    requires v < 10
  {
    ('0' as int + v) as char
  }

  /** The bank `main` builds once: the twenty words, each at the start of
      its word. */
  function Bank(): (ts: seq<Tracker>)
    ensures Banked(ts) && |ts| == |Words|
    ensures forall j :: 0 <= j < |ts| ==> ts[j] == Tracker(Words[j].0, Words[j].1, 0)
  {
    Fresh(Words)
  }

  /** The bank after reading `s`: every observer keeps the index it ends on. */
  function Carried(ts: seq<Tracker>, s: string): (r: seq<Tracker>)
    requires ValidTrackers(ts)
    ensures |r| == |ts| && ValidTrackers(r)
    ensures forall j :: 0 <= j < |ts| ==> r[j] == Tracker(ts[j].word, ts[j].value, IndexAfter(ts[j].word, ts[j].start, s))
  {
    seq(|ts|, j requires 0 <= j < |ts| => Tracker(ts[j].word, ts[j].value, IndexAfter(ts[j].word, ts[j].start, s)))
  }

  /** What `main` computes as written, from line `n` on: one bank of
      observers reads the lines in turn, each line starting from where the
      previous one left every observer; `acc` holds the two sums so far. */
  function MainFrom(lines: seq<string>, n: nat, ts: seq<Tracker>, acc: (nat, nat)): Result<(nat, nat), string>
    requires n <= |lines| && ValidTrackers(ts)
    decreases |lines| - n
  {
    if n == |lines| then Ok(acc)
    else
      var ds := NumericDigits(lines[n]);
      var sp := LineDigits(ts, lines[n]);
      if ds == [] || sp.None? then Err("No Digit")
      else MainFrom(lines, n + 1, Carried(ts, lines[n]),
        (acc.0 + 10 * ds[0] + ds[|ds| - 1], acc.1 + 10 * sp.value.0 + sp.value.1))
  }

  function MainAsWritten(lines: seq<string>): Result<(nat, nat), string> {
    MainFrom(lines, 0, Bank(), (0, 0))
  }

  /** The observer `o` is in the state `t` records. */
  ghost predicate Mirrors(o: Observer, t: Tracker)
    reads o
  {
    o.Valid() && o.word == t.word && o.value == t.value && o.index == t.start
  }

  /** The observers `main` builds, one per word, in order. */
  method NewObservers() returns (observers: seq<Observer>, ghost pos: map<Observer, nat>)
    ensures |observers| == |Bank()|
    ensures forall i :: 0 <= i < |observers| ==> fresh(observers[i])
    ensures forall i :: 0 <= i < |observers| ==> observers[i] in pos && pos[observers[i]] == i
    ensures forall i :: 0 <= i < |observers| ==> Mirrors(observers[i], Bank()[i])
  {
    observers := [];
    pos := map[];
    ghost var ts := Bank();
    for k := 0 to |Words|
      invariant |observers| == k
      invariant forall i :: 0 <= i < k ==> fresh(observers[i])
      invariant forall i :: 0 <= i < k ==> observers[i] in pos && pos[observers[i]] == i
      invariant forall i :: 0 <= i < k ==> Mirrors(observers[i], ts[i])
    {
      var o := new Observer(Words[k].0, Words[k].1);
      observers := observers + [o];
      pos := pos[o := k];
    }
  }

  /** One line of `main`'s loop, as written: its calibration value, then
      every observer reads it; `ok` is false when either finds no digit. */
  method MainLine(observers: seq<Observer>, ghost pos: map<Observer, nat>, ghost ts: seq<Tracker>,
                  lines: seq<string>, n: nat, sum: nat, spelled: nat)
    returns (ok: bool, sum': nat, spelled': nat)
    requires n < |lines| && Banked(ts) && |observers| == |ts|
    requires forall i :: 0 <= i < |observers| ==> observers[i] in pos && pos[observers[i]] == i
    requires forall i :: 0 <= i < |observers| ==> Mirrors(observers[i], ts[i])
    modifies set o | o in observers
    ensures forall i :: 0 <= i < |observers| ==> Mirrors(observers[i], Carried(ts, lines[n])[i])
    ensures !ok ==> MainFrom(lines, n, ts, (sum, spelled)) == Err("No Digit")
    ensures ok ==> MainFrom(lines, n, ts, (sum, spelled)) == MainFrom(lines, n + 1, Carried(ts, lines[n]), (sum', spelled'))
  {
    var value := Calibration(lines[n]);
    var digits, seen := ObserveLine(observers, pos, lines[n]);
    assert seen == ts;
    if value.Err? || digits.None? {
      return false, sum, spelled;
    }
    var v, d := value.value, digits.value;
    MainStep(lines, n, ts, sum, spelled, v, d);
    ok, sum', spelled' := true, sum + v, spelled + 10 * d.0 + d.1;
  }

  /** `main`'s loop over the lines, as written: the observers are built
      once, before the first line, and never reset. */
  method CalibrationSumsAsWritten(lines: seq<string>) returns (r: Result<(nat, nat), string>)
    ensures r == MainAsWritten(lines)
  {
    var observers, pos := NewObservers();
    ghost var ts := Bank();
    var sum, sumSpelled := 0, 0;
    for n := 0 to |lines|
      invariant Banked(ts) && |observers| == |ts|
      invariant forall i :: 0 <= i < |observers| ==> fresh(observers[i])
      invariant forall i :: 0 <= i < |observers| ==> observers[i] in pos && pos[observers[i]] == i
      invariant forall i :: 0 <= i < |observers| ==> Mirrors(observers[i], ts[i])
      invariant MainFrom(lines, n, ts, (sum, sumSpelled)) == MainAsWritten(lines)
    {
      var ok;
      ok, sum, sumSpelled := MainLine(observers, pos, ts, lines, n, sum, sumSpelled);
      if !ok {
        return Err("No Digit");
      }
      ts := Carried(ts, lines[n]);
    }
    r := Ok((sum, sumSpelled));
  }

  /** One line of `main` as written, when it has its digits: `v` is its
      calibration value and `d` the digits its observers report. */
  lemma MainStep(lines: seq<string>, n: nat, ts: seq<Tracker>, sum: nat, spelled: nat, v: nat, d: (nat, nat))
    requires n < |lines| && ValidTrackers(ts)
    requires NumericDigits(lines[n]) != [] && LineDigits(ts, lines[n]) == Some(d)
    requires var ds := NumericDigits(lines[n]); v == 10 * ds[0] + ds[|ds| - 1]
    ensures MainFrom(lines, n, ts, (sum, spelled)) == MainFrom(lines, n + 1, Carried(ts, lines[n]), (sum + v, spelled + 10 * d.0 + d.1))
  {
  }

  /** Folding in the observers' reports keeps a digit once there is one, and
      finds one when some observer fires. */
  lemma {:induction false} FoldFiresSome(d: Option<(nat, nat)>, ts: seq<Tracker>, s: string, j: nat, k: nat)
    requires ValidTrackers(ts) && j <= |ts|
    requires d.Some? || (k < j && FiresOn(ts[k].word, ts[k].start, s))
    ensures FoldFires(d, ts, s, j).Some?
  {
    if j > 0 && (d.Some? || k < j - 1) {
      FoldFiresSome(d, ts, s, j - 1, k);
    }
  }

  lemma {:induction false} FoldEndsSome(d: Option<(nat, nat)>, ws: seq<(string, nat)>, s: string, j: nat, k: nat)
    requires j <= |ws|
    requires d.Some? || (k < j && EndsWith(s, ws[k].0))
    ensures FoldEnds(d, ws, s, j).Some?
  {
    if j > 0 && (d.Some? || k < j - 1) {
      FoldEndsSome(d, ws, s, j - 1, k);
    }
  }

  /** The word of the digit character `ch`, and its value. */
  lemma DigitWord(ch: char)
    requires '0' <= ch <= '9'
    ensures var v := ch as int - '0' as int; 0 <= v < |Words| && Words[v].0 == [ch] && Words[v].1 == v && DigitChar(v) == ch
  {
  }

  /** Whatever state the bank carries in, a line with a numeric digit makes
      some observer report: the one-character words always fire. */
  lemma {:induction false} BankFindsDigit(ts: seq<Tracker>, s: string)
    requires Banked(ts) && NumericDigits(s) != []
    ensures LineDigits(ts, s).Some?
  {
    var n := |s| - 1;
    var c := s[n];
    if '0' <= c <= '9' {
      var v := c as int - '0' as int;
      DigitWord(c);
      assert ts[v].word == [c] && ts[v].start == 0;
      assert FiresOn(ts[v].word, ts[v].start, s);
      FoldFiresSome(LineDigits(ts, s[..n]), ts, s, |ts|, v);
    } else {
      BankFindsDigit(ts, s[..n]);
      FoldFiresSome(LineDigits(ts, s[..n]), ts, s, |ts|, 0);
    }
  }

  /** The intended reading finds a digit in every line with a numeric one. */
  lemma {:induction false} IntendedFindsDigit(s: string)
    requires NumericDigits(s) != []
    ensures IntendedDigits(Words, s).Some?
  {
    var n := |s| - 1;
    var c := s[n];
    if '0' <= c <= '9' {
      var v := c as int - '0' as int;
      DigitWord(c);
      assert EndsWith(s, Words[v].0) by {
        assert s[|s| - 1..] == [c];
      }
      FoldEndsSome(IntendedDigits(Words, s[..n]), Words, s, |Words|, v);
    } else {
      IntendedFindsDigit(s[..n]);
      FoldEndsSome(IntendedDigits(Words, s[..n]), Words, s, |Words|, 0);
    }
  }

  lemma {:induction false} FirstPartFrom(lines: seq<string>, n: nat, ts: seq<Tracker>, a: nat, b: nat, c: nat)
    requires n <= |lines| && Banked(ts)
    requires Sums(lines[..n]) == Ok((a, b))
    ensures MainFrom(lines, n, ts, (a, c)).Err? <==> Sums(lines).Err?
    ensures MainFrom(lines, n, ts, (a, c)).Ok? ==>
      MainFrom(lines, n, ts, (a, c)).value.0 == Sums(lines).value.0
    decreases |lines| - n
  {
    if n == |lines| {
      assert lines[..n] == lines;
    } else {
      var line := lines[n];
      var ds := NumericDigits(line);
      if ds == [] {
        assert MainFrom(lines, n, ts, (a, c)).Err?;
        LineWithoutDigit(lines, n, a, b);
        SumsErrorSticks(lines, n + 1);
      } else {
        BankFindsDigit(ts, line);
        IntendedFindsDigit(line);
        var sp, ip := LineDigits(ts, line).value, IntendedDigits(Words, line).value;
        var v := 10 * ds[0] + ds[|ds| - 1];
        var a', b', c' := a + v, b + 10 * ip.0 + ip.1, c + 10 * sp.0 + sp.1;
        SumsStep(lines, n, a, b, v, ip);
        MainStep(lines, n, ts, a, c, v, sp);
        FirstPartFrom(lines, n + 1, Carried(ts, line), a', b', c');
      }
    }
  }

  /** A line without a numeric digit makes the sums an error. */
  lemma LineWithoutDigit(lines: seq<string>, n: nat, a: nat, b: nat)
    requires n < |lines| && Sums(lines[..n]) == Ok((a, b)) && NumericDigits(lines[n]) == []
    ensures Sums(lines[..n + 1]).Err?
  {
    assert lines[..n + 1][..n] == lines[..n];
  }

  /** One more line with digits adds its two values to the sums. */
  lemma SumsStep(lines: seq<string>, n: nat, a: nat, b: nat, v: nat, ip: (nat, nat))
    requires n < |lines| && Sums(lines[..n]) == Ok((a, b))
    requires var ds := NumericDigits(lines[n]); ds != [] && v == 10 * ds[0] + ds[|ds| - 1]
    requires IntendedDigits(Words, lines[n]) == Some(ip)
    ensures Sums(lines[..n + 1]) == Ok((a + v, b + 10 * ip.0 + ip.1))
  {
    assert lines[..n + 1][..n] == lines[..n];
  }

  /** Read as written or as intended, `main` fails on the same inputs,
      exactly those with a line without a numeric digit, and its first sum
      is the same; only the spelled sum can differ. */
  lemma AsWrittenFirstPartAgrees(lines: seq<string>)
    ensures MainAsWritten(lines).Err? <==> Sums(lines).Err?
    ensures Sums(lines).Err? <==> exists n :: 0 <= n < |lines| && NumericDigits(lines[n]) == []
    ensures MainAsWritten(lines).Ok? ==>
      MainAsWritten(lines).value.0 == Sums(lines).value.0
  {
    assert lines[..0] == [];
    FirstPartFrom(lines, 0, Bank(), 0, 0, 0);
    SumsError(lines);
  }
}
