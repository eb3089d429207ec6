/** 2016 day 7: IPv7 addresses; TLS needs an ABBA outside the bracketed
    hypernet sequences and none inside, SSL an ABA outside with its BAB inside. */
module Year2016Day07 {

  /** An ABA seen outside brackets, or a BAB seen inside, by its two letters. */
  datatype Sequence =
    | AreaBroadcastAccessor(a: char, b: char)
    | ByteAllocationBlock(b: char, a: char)

  /** `flip`: the sequence that completes this one. */
  function Flip(s: Sequence): (r: Sequence)
    ensures r.AreaBroadcastAccessor? <==> s.ByteAllocationBlock?
    ensures r.a == s.a && r.b == s.b
  {
    match s
    case AreaBroadcastAccessor(a, b) => ByteAllocationBlock(b, a)
    case ByteAllocationBlock(b, a) => AreaBroadcastAccessor(a, b)
  }

  lemma FlipInvolution(s: Sequence)
    ensures Flip(Flip(s)) == s && Flip(s) != s
  {
  }

  predicate IsBracket(ch: char) {
    ch == '[' || ch == ']'
  }

  /** How many windows of width `w` `chars.windows(w)` yields. */
  function Windows(chars: string, w: nat): nat {
    if |chars| >= w then |chars| - w + 1 else 0
  }

  /** The `inside` flag at the window starting at `j`: set by `[`, cleared by
      `]`, read only from each window's first character. */
  function Inside(chars: string, j: nat): bool
    requires j < |chars|
  {
    if chars[j] == '[' then true
    else if chars[j] == ']' then false
    else j > 0 && Inside(chars, j - 1)
  }

  /** The flag means: the last bracket at or before `j` opens a hypernet
      sequence. */
  lemma {:induction false} InsideMeansLastBracketOpens(chars: string, j: nat)
    requires j < |chars|
    ensures Inside(chars, j) <==>
      exists i :: 0 <= i <= j && chars[i] == '[' && forall t :: i < t <= j ==> !IsBracket(chars[t])
  {
    if chars[j] == '[' {
    } else if chars[j] == ']' {
      forall i | 0 <= i <= j && chars[i] == '['
        ensures !forall t :: i < t <= j ==> !IsBracket(chars[t])
      {
        assert i < j && IsBracket(chars[j]);
      }
    } else if j > 0 {
      InsideMeansLastBracketOpens(chars, j - 1);
      if exists i :: 0 <= i <= j && chars[i] == '[' && forall t :: i < t <= j ==> !IsBracket(chars[t]) {
        var i :| 0 <= i <= j && chars[i] == '[' && forall t :: i < t <= j ==> !IsBracket(chars[t]);
        assert i <= j - 1;
      }
    }
  }

  predicate BracketFree(chars: string, j: nat, w: nat)
    requires j + w <= |chars|
  {
    forall t :: j <= t < j + w ==> !IsBracket(chars[t])
  }

  /** The `for i in 0..w` check that sends a window with a bracket on. */
  method WindowHasBracket(chars: string, j: nat, w: nat) returns (found: bool)
    requires j + w <= |chars|
    ensures found <==> !BracketFree(chars, j, w)
  {
    for i := 0 to w
      invariant BracketFree(chars, j, i)
    {
      if chars[j + i] == '[' || chars[j + i] == ']' {
        return true;
      }
    }
    return false;
  }

  // ----- TLS -----

  /** An ABBA in the window at `j`: a pair of different letters and its mirror. */
  predicate AbbaAt(chars: string, j: nat)
    requires j + 4 <= |chars|
  {
    BracketFree(chars, j, 4) && chars[j] == chars[j + 3] && chars[j + 1] == chars[j + 2] && chars[j] != chars[j + 1]
  }

  /** TLS: some ABBA outside brackets and none inside. */
  predicate Tls(chars: string) {
    (exists j :: 0 <= j < Windows(chars, 4) && AbbaAt(chars, j) && !Inside(chars, j))
    && !(exists j :: 0 <= j < Windows(chars, 4) && AbbaAt(chars, j) && Inside(chars, j))
  }

  /** The `'tls_check` loop. */
  method SupportsTls(chars: string) returns (tls: bool)
    ensures tls == Tls(chars)
  {
    var inside, abbaInside, abbaOutside := false, false, false;
    for j := 0 to Windows(chars, 4)
      invariant if j > 0 then inside == Inside(chars, j - 1) else !inside
      invariant abbaInside <==> exists k :: 0 <= k < j && AbbaAt(chars, k) && Inside(chars, k)
      invariant abbaOutside <==> exists k :: 0 <= k < j && AbbaAt(chars, k) && !Inside(chars, k)
    {
      inside := if chars[j] == '[' then true else if chars[j] == ']' then false else inside;
      var bracket := WindowHasBracket(chars, j, 4);
      if bracket {
        continue;
      }
      if chars[j] == chars[j + 3] && chars[j + 1] == chars[j + 2] && chars[j] != chars[j + 1] {
        abbaInside := abbaInside || inside;
        abbaOutside := abbaOutside || !inside;
      }
    }
    tls := abbaOutside && !abbaInside;
  }

  // ----- SSL -----

  /** An ABA in the window at `j`; as written, the middle letter may equal
      the outer ones, and `distinct` adds the check that it differs. */
  predicate AbaAt(chars: string, j: nat, distinct: bool)
    requires j + 3 <= |chars|
  {
    BracketFree(chars, j, 3) && chars[j] == chars[j + 2] && (distinct ==> chars[j] != chars[j + 1])
  }

  /** The sequence the window at `j` records. */
  function SequenceAt(chars: string, j: nat): Sequence
    requires j + 3 <= |chars|
  {
    if Inside(chars, j) then ByteAllocationBlock(chars[j], chars[j + 1])
    else AreaBroadcastAccessor(chars[j], chars[j + 1])
  }

  /** SSL as the loop finds it: a later window completing an earlier one. */
  predicate Ssl(chars: string, distinct: bool) {
    exists j, k :: 0 <= j < k < Windows(chars, 3) && AbaAt(chars, j, distinct) && AbaAt(chars, k, distinct)
      && SequenceAt(chars, k) == Flip(SequenceAt(chars, j))
  }

  /** The sequences the loop has recorded before window `k`. */
  ghost function Recorded(chars: string, k: nat, distinct: bool): set<Sequence>
    requires k <= Windows(chars, 3)
  {
    set j | 0 <= j < k && AbaAt(chars, j, distinct) :: SequenceAt(chars, j)
  }

  /** The `'ssl_check` loop, with `distinct` choosing between the code as
      written (`false`) and with the missing `win[0] != win[1]` (`true`). */
  method SslScan(chars: string, distinct: bool) returns (ssl: bool)
    ensures ssl == Ssl(chars, distinct)
  {
    var inside := false;
    var seen: set<Sequence> := {};
    for k := 0 to Windows(chars, 3)
      invariant if k > 0 then inside == Inside(chars, k - 1) else !inside
      invariant seen == Recorded(chars, k, distinct)
      invariant !exists j, i ::
          0 <= j < i < k && AbaAt(chars, j, distinct) && AbaAt(chars, i, distinct)
          && SequenceAt(chars, i) == Flip(SequenceAt(chars, j))
    {
      inside := if chars[k] == '[' then true else if chars[k] == ']' then false else inside;
      RecordedNext(chars, k, distinct);
      var bracket := WindowHasBracket(chars, k, 3);
      if bracket {
        continue;
      }
      if chars[k] == chars[k + 2] && (distinct ==> chars[k] != chars[k + 1]) {
        var s := if inside then ByteAllocationBlock(chars[k], chars[k + 1])
                 else AreaBroadcastAccessor(chars[k], chars[k + 1]);
        assert s == SequenceAt(chars, k);
        var rev := Flip(s);
        seen := seen + {s};
        FlipInvolution(s);
        if rev in seen {
          var j :| 0 <= j < k && AbaAt(chars, j, distinct) && SequenceAt(chars, j) == rev;
          assert SequenceAt(chars, k) == Flip(SequenceAt(chars, j));
          return true;
        }
      }
    }
    return false;
  }

  /** Window `k` adds its sequence to the record when it holds an ABA. */
  lemma RecordedNext(chars: string, k: nat, distinct: bool)
    requires k < Windows(chars, 3)
    ensures Recorded(chars, k + 1, distinct)
      == Recorded(chars, k, distinct) + (if AbaAt(chars, k, distinct) then {SequenceAt(chars, k)} else {})
  {
  }

  /** An ABA outside brackets and, inside, one with the letters swapped. */
  predicate AbaBabAt(chars: string, j: nat, k: nat, distinct: bool)
    requires j < Windows(chars, 3) && k < Windows(chars, 3)
  {
    AbaAt(chars, j, distinct) && AbaAt(chars, k, distinct)
    && !Inside(chars, j) && Inside(chars, k)
    && chars[k] == chars[j + 1] && chars[k + 1] == chars[j]
  }

  /** SSL in the puzzle's words: an ABA outside brackets whose BAB is inside,
      in either order along the line. */
  lemma SslMeaning(chars: string, distinct: bool)
    ensures Ssl(chars, distinct) <==>
      exists j, k :: 0 <= j < Windows(chars, 3) && 0 <= k < Windows(chars, 3) && AbaBabAt(chars, j, k, distinct)
  {
    if exists j, k :: 0 <= j < Windows(chars, 3) && 0 <= k < Windows(chars, 3) && AbaBabAt(chars, j, k, distinct) {
      var j, k :| 0 <= j < Windows(chars, 3) && 0 <= k < Windows(chars, 3) && AbaBabAt(chars, j, k, distinct);
      AbaBabIsSsl(chars, j, k, distinct);
    }
    if Ssl(chars, distinct) {
      var j, k :| 0 <= j < k < Windows(chars, 3) && AbaAt(chars, j, distinct) && AbaAt(chars, k, distinct)
        && SequenceAt(chars, k) == Flip(SequenceAt(chars, j));
      if Inside(chars, j) {
        assert AbaBabAt(chars, k, j, distinct);
      } else {
        assert AbaBabAt(chars, j, k, distinct);
      }
    }
  }

  lemma AbaBabIsSsl(chars: string, j: nat, k: nat, distinct: bool)
    requires j < Windows(chars, 3) && k < Windows(chars, 3) && AbaBabAt(chars, j, k, distinct)
    ensures Ssl(chars, distinct)
  {
    if j < k {
      assert SequenceAt(chars, k) == Flip(SequenceAt(chars, j));
    } else {
      assert SequenceAt(chars, j) == Flip(SequenceAt(chars, k));
    }
  }

  /** As written, a run of one letter outside and inside the brackets counts
      as an ABA and its BAB; with the letters required to differ it does not. */
  lemma SslAsWrittenAcceptsRepeat()
    ensures Ssl("aaa[aaa]", false)
    ensures !Ssl("aaa[aaa]", true)
  {
    var chars := "aaa[aaa]";
    assert Windows(chars, 3) == 6;
    assert !Inside(chars, 0) && Inside(chars, 4);
    assert AbaAt(chars, 0, false) && AbaAt(chars, 4, false);
    assert SequenceAt(chars, 4) == Flip(SequenceAt(chars, 0));
  }

  // ----- `main` -----

  function TlsCount(lines: seq<string>): nat {
    if lines == [] then 0
    else TlsCount(lines[..|lines| - 1]) + (if Tls(lines[|lines| - 1]) then 1 else 0)
  }

  function SslCount(lines: seq<string>, distinct: bool): nat {
    if lines == [] then 0
    else SslCount(lines[..|lines| - 1], distinct) + (if Ssl(lines[|lines| - 1], distinct) then 1 else 0)
  }

  /** `main`'s loop: each line counted at most once for each protocol. */
  method CountAddresses(lines: seq<string>, distinct: bool) returns (tls: nat, ssl: nat)
    ensures tls == TlsCount(lines) && ssl == SslCount(lines, distinct)
    ensures tls <= |lines| && ssl <= |lines|
  {
    tls, ssl := 0, 0;
    for n := 0 to |lines|
      invariant tls == TlsCount(lines[..n]) <= n && ssl == SslCount(lines[..n], distinct) <= n
    {
      assert lines[..n + 1][..n] == lines[..n];
      var t := SupportsTls(lines[n]);
      if t {
        tls := tls + 1;
      }
      var s := SslScan(lines[n], distinct);
      if s {
        ssl := ssl + 1;
      }
    }
    assert lines[..|lines|] == lines;
  }
}
