/** 2016 day 9: the length of a text once its `(AxB)` markers are expanded,
    once (markers inside a repeated segment stay literal) and fully
    (segments are expanded recursively). The text still to be read, the
    state of the original's character iterator, is a suffix of the input. */
module Year2016Day09 {
  import opened Wrappers
  import opened Numerals

  // ----- `read_usize` -----

  /** How many digits `s` starts with. */
  function DigitCount(s: string): (n: nat)
    ensures n <= |s|
  {
    if s != [] && IsDigit(s[0]) then 1 + DigitCount(s[1..]) else 0
  }

  /** The leading digits are digits, and the run is maximal. */
  lemma {:induction false} DigitRun(s: string)
    ensures AllDigits(s[..DigitCount(s)])
    ensures DigitCount(s) == |s| || !IsDigit(s[DigitCount(s)])
  {
    if s != [] && IsDigit(s[0]) {
      DigitRun(s[1..]);
      assert s[..DigitCount(s)] == [s[0]] + s[1..][..DigitCount(s[1..])];
    }
  }

  /** Only one run is maximal. */
  lemma {:induction false} DigitCountUnique(s: string, e: nat)
    requires e <= |s| && AllDigits(s[..e]) && (e == |s| || !IsDigit(s[e]))
    ensures DigitCount(s) == e
  {
    if e > 0 {
      assert IsDigit(s[..e][0]);
      assert s[1..][..e - 1] == s[..e][1..];
      DigitCountUnique(s[1..], e - 1);
    }
  }

  /** The number `read_usize` returns: the value of the leading digits,
      0 when there are none. */
  function Number(s: string): nat {
    DigitRun(s);
    DecimalValue(s[..DigitCount(s)])
  }

  /** `read_usize` on the text from `pos`: adds each digit and multiplies by
      ten, then divides the surplus factor of ten away; stops at the first
      non-digit, which it leaves unread. */
  method ReadUsize(s: string, pos: nat) returns (num: nat, next: nat)
    requires pos <= |s|
    ensures next == pos + DigitCount(s[pos..]) && num == Number(s[pos..])
  {
    num := 0;
    next := pos;
    while next < |s| && IsDigit(s[next])
      invariant pos <= next <= |s| && AllDigits(s[pos..next])
      invariant next + DigitCount(s[next..]) == pos + DigitCount(s[pos..])
      invariant num == 10 * DecimalValue(s[pos..next])
      decreases |s| - next
    {
      assert s[next..][1..] == s[next + 1..];
      var run := s[pos..next + 1];
      assert run[..next - pos] == s[pos..next];
      assert AllDigits(run);
      DigitStep(run);
      num := num + (s[next] as int - '0' as int);
      next := next + 1;
      num := num * 10;
    }
    assert s[pos..][..next - pos] == s[pos..next];
    num := num / 10;
  }

  lemma DigitStep(digits: string)
    requires digits != [] && AllDigits(digits)
    ensures DecimalValue(digits)
      == 10 * DecimalValue(digits[..|digits| - 1]) + (digits[|digits| - 1] as int - '0' as int)
  {
  }

  /** A run of digits is read whole, whatever non-digit follows. */
  lemma ReadDigits(digits: string, rest: string)
    requires AllDigits(digits) && (rest == [] || !IsDigit(rest[0]))
    ensures DigitCount(digits + rest) == |digits|
    ensures Number(digits + rest) == DecimalValue(digits)
  {
    var s := digits + rest;
    assert s[..|digits|] == digits;
    DigitCountUnique(s, |digits|);
  }

  // ----- markers -----

  /** The three errors: "Expected 'x' after compress count", "Expected ')'
      after compress times" and "Expected a char to cache". */
  datatype Failure = ExpectedX | ExpectedClose | ExpectedCachedChar

  /** A parsed `(AxB)`: repeat the next `count` characters `times` times;
      the marker itself is `size` characters long. */
  datatype Marker = Marker(count: nat, times: nat, size: nat)

  /** Reads the marker `s` starts with; a missing `x` or `)` is an error. */
  function ReadMarker(s: string): (r: Result<Marker, Failure>)
    requires s != [] && s[0] == '('
    ensures r.Ok? ==> 3 <= r.value.size <= |s|
  {
    var e1 := 1 + DigitCount(s[1..]);
    if e1 == |s| || s[e1] != 'x' then Err(ExpectedX)
    else
      var e2 := e1 + 1 + DigitCount(s[e1 + 1..]);
      if e2 == |s| || s[e2] != ')' then Err(ExpectedClose)
      else Ok(Marker(Number(s[1..]), Number(s[e1 + 1..]), e2 + 1))
  }

  /** How a marker is written. */
  function Spell(count: nat, times: nat): string {
    "(" + Decimal(count) + "x" + Decimal(times) + ")"
  }

  /** `s` begins with the marker `Spell(count, times)`. */
  predicate StartsWithMarker(s: string, count: nat, times: nat) {
    var p := Spell(count, times);
    |p| <= |s| && s[..|p|] == p
  }

  /** Reading a written marker gives back its numbers. */
  lemma ReadSpelled(s: string, count: nat, times: nat)
    requires StartsWithMarker(s, count, times)
    ensures s != [] && s[0] == '('
    ensures ReadMarker(s) == Ok(Marker(count, times, |Spell(count, times)|))
  {
    var a, b := Decimal(count), Decimal(times);
    var p := Spell(count, times);
    assert p[0] == '(' && p[1..1 + |a|] == a && p[1 + |a|] == 'x';
    assert p[2 + |a|..2 + |a| + |b|] == b && p[2 + |a| + |b|] == ')';
    assert s[..|p|] == p;
    assert s[1..1 + |a|] == p[1..1 + |a|];
    assert s[2 + |a|..2 + |a| + |b|] == p[2 + |a|..2 + |a| + |b|];
    DecimalRoundTrip(count);
    DecimalRoundTrip(times);
    ReadWritten(s, a, b);
  }

  /** A marker laid out as `(`, the digits `a`, `x`, the digits `b`, `)`. */
  lemma ReadWritten(s: string, a: string, b: string)
    requires AllDigits(a) && AllDigits(b) && |a| + |b| + 3 <= |s|
    requires s[0] == '(' && s[1..1 + |a|] == a && s[1 + |a|] == 'x'
    requires s[2 + |a|..2 + |a| + |b|] == b && s[2 + |a| + |b|] == ')'
    ensures ReadMarker(s) == Ok(Marker(DecimalValue(a), DecimalValue(b), |a| + |b| + 3))
  {
    DigitsThen(s, 1, a, 'x');
    DigitsThen(s, 2 + |a|, b, ')');
    ReadMarkerOk(s, 1 + |a|, 2 + |a| + |b|);
  }

  /** Digits `digits` at `from`, then the character `c`. */
  lemma DigitsThen(s: string, from: nat, digits: string, c: char)
    requires from + |digits| < |s| && s[from..from + |digits|] == digits && s[from + |digits|] == c
    requires AllDigits(digits) && !IsDigit(c)
    ensures DigitCount(s[from..]) == |digits| && Number(s[from..]) == DecimalValue(digits)
  {
    assert s[from..] == digits + s[from + |digits|..];
    ReadDigits(digits, s[from + |digits|..]);
  }

  /** `ReadMarker` when both separators are where they belong. */
  lemma ReadMarkerOk(s: string, e1: nat, e2: nat)
    requires s != [] && s[0] == '('
    requires e1 == 1 + DigitCount(s[1..]) && e1 < |s| && s[e1] == 'x'
    requires e2 == e1 + 1 + DigitCount(s[e1 + 1..]) && e2 < |s| && s[e2] == ')'
    ensures ReadMarker(s).Ok? && ReadMarker(s).value.count == Number(s[1..])
    ensures ReadMarker(s).value.times == Number(s[e1 + 1..]) && ReadMarker(s).value.size == e2 + 1
  {
  }

  function Product(a: nat, b: nat): nat {
    a * b
  }

  /** Adds `c` to a length, passing an error through. */
  function Plus(c: nat, r: Result<nat, Failure>): Result<nat, Failure> {
    if r.Ok? then Ok(c + r.value) else r
  }

  lemma PlusPlus(a: nat, b: nat, r: Result<nat, Failure>)
    ensures Plus(a, Plus(b, r)) == Plus(a + b, r)
  {
  }

  /** What one turn of the loop adds, and how many characters it reads. */
  datatype Item = Item(length: nat, size: nat)

  // ----- `decompress_len` -----

  /** One turn of `decompress_len`'s loop: a marker stands for `count` times
      `times` characters and its segment is skipped unread; any other
      character counts one. */
  function OnceItem(s: string): (r: Result<Item, Failure>)
    requires s != []
    ensures r.Ok? ==> 0 < r.value.size <= |s|
  {
    if s[0] == '(' then
      match ReadMarker(s)
      case Err(e) => Err(e)
      case Ok(m) =>
        if m.size + m.count > |s| then Err(ExpectedCachedChar)
        else Ok(Item(Product(m.count, m.times), m.size + m.count))
    else Ok(Item(1, 1))
  }

  /** The length of `s` expanded once; the first error stops it. */
  function Len(s: string): Result<nat, Failure>
    decreases |s|
  {
    if s == [] then Ok(0)
    else
      var item := OnceItem(s);
      if item.Err? then Err(item.error) else Plus(item.value.length, Len(s[item.value.size..]))
  }

  /** The marker-reading steps shared by both loops: the count, an `x`,
      the times and a `)`, each `x` and `)` consumed whether it matches or not. */
  method ScanMarker(s: string, pos: nat) returns (r: Result<Marker, Failure>)
    requires pos < |s| && s[pos] == '('
    ensures r == ReadMarker(s[pos..])
  {
    var t := s[pos..];
    assert t[1..] == s[pos + 1..];
    var count, e1 := ReadUsize(s, pos + 1);
    if e1 == |s| || s[e1] != 'x' {
      return Err(ExpectedX);
    }
    assert t[e1 - pos + 1..] == s[e1 + 1..];
    var times, e2 := ReadUsize(s, e1 + 1);
    if e2 == |s| || s[e2] != ')' {
      return Err(ExpectedClose);
    }
    return Ok(Marker(count, times, e2 + 1 - pos));
  }

  /** The `for _ in 0..count` loop taking the segment's characters one by
      one; `None` when the text runs out first. */
  method CollectSegment(s: string, from: nat, count: nat) returns (cache: Option<string>)
    requires from <= |s|
    ensures cache == if from + count <= |s| then Some(s[from..from + count]) else None
  {
    var segment := [];
    var i := from;
    for k := 0 to count
      invariant i == from + k <= |s| && segment == s[from..i]
    {
      if i == |s| {
        return None;
      }
      segment := segment + [s[i]];
      i := i + 1;
    }
    return Some(segment);
  }

  /** The body of `decompress_len`'s loop, at position `i`. */
  method OnceTurn(s: string, i: nat) returns (r: Result<Item, Failure>)
    requires i < |s|
    ensures r == OnceItem(s[i..])
  {
    if s[i] == '(' {
      var marker := ScanMarker(s, i);
      if marker.Err? {
        return Err(marker.error);
      }
      var m := marker.value;
      var segment := CollectSegment(s, i + m.size, m.count);
      if segment.None? {
        return Err(ExpectedCachedChar);
      }
      return Ok(Item(Product(m.count, m.times), m.size + m.count));
    }
    return Ok(Item(1, 1));
  }

  /** One turn of the loop: what is still to be read, `rest`, is one item
      and then the text after it. */
  lemma LenAdvance(rest: string, count: nat, total: Result<nat, Failure>)
    requires rest != [] && total == Plus(count, Len(rest)) && OnceItem(rest).Ok?
    ensures total == Plus(count + OnceItem(rest).value.length, Len(rest[OnceItem(rest).value.size..]))
  {
    var item := OnceItem(rest).value;
    PlusPlus(count, item.length, Len(rest[item.size..]));
  }

  /** `decompress_len`: one pass over the characters. */
  method DecompressLen(s: string) returns (r: Result<nat, Failure>)
    ensures r == Len(s)
  {
    var charCount: nat := 0;
    var i := 0;
    ghost var rest := s;
    while i < |s|
      invariant i <= |s| && rest == s[i..] && Len(s) == Plus(charCount, Len(rest))
      decreases |s| - i
    {
      var item := OnceTurn(s, i);
      if item.Err? {
        return Err(item.error);
      }
      LenAdvance(rest, charCount, Len(s));
      assert rest[item.value.size..] == s[i + item.value.size..];
      rest := rest[item.value.size..];
      charCount := charCount + item.value.length;
      i := i + item.value.size;
    }
    return Ok(charCount);
  }

  // ----- `full_decompress_len` -----

  /** One turn of `full_decompress_len`'s loop: the segment is itself
      expanded fully before it is repeated. */
  function FullItem(s: string): (r: Result<Item, Failure>)
    requires s != []
    ensures r.Ok? ==> 0 < r.value.size <= |s|
    decreases |s|, 0
  {
    if s[0] == '(' then
      match ReadMarker(s)
      case Err(e) => Err(e)
      case Ok(m) =>
        if m.size + m.count > |s| then Err(ExpectedCachedChar)
        else
          var inner := Full(s[m.size..m.size + m.count]);
          if inner.Err? then Err(inner.error)
          else Ok(Item(Product(inner.value, m.times), m.size + m.count))
    else Ok(Item(1, 1))
  }

  /** The length of `s` expanded fully. */
  function Full(s: string): Result<nat, Failure>
    decreases |s|, 1
  {
    if s == [] then Ok(0)
    else
      var item := FullItem(s);
      if item.Err? then Err(item.error) else Plus(item.value.length, Full(s[item.value.size..]))
  }

  /** The body of `full_decompress_len`'s loop: the segment is collected
      into a cache and measured by a recursive call. */
  method FullTurn(s: string, i: nat) returns (r: Result<Item, Failure>)
    requires i < |s|
    ensures r == FullItem(s[i..])
    decreases |s| - i, 0
  {
    if s[i] == '(' {
      var marker := ScanMarker(s, i);
      if marker.Err? {
        return Err(marker.error);
      }
      var m := marker.value;
      var cache := CollectSegment(s, i + m.size, m.count);
      if cache.None? {
        return Err(ExpectedCachedChar);
      }
      assert cache.value == s[i..][m.size..m.size + m.count];
      var inner := FullDecompressLen(cache.value);
      if inner.Err? {
        return Err(inner.error);
      }
      return Ok(Item(Product(inner.value, m.times), m.size + m.count));
    }
    return Ok(Item(1, 1));
  }

  /** One turn of the loop: what is still to be read, `rest`, is one item
      and then the text after it. */
  lemma FullAdvance(rest: string, count: nat, total: Result<nat, Failure>)
    requires rest != [] && total == Plus(count, Full(rest)) && FullItem(rest).Ok?
    ensures total == Plus(count + FullItem(rest).value.length, Full(rest[FullItem(rest).value.size..]))
  {
    var item := FullItem(rest).value;
    PlusPlus(count, item.length, Full(rest[item.size..]));
  }

  /** `full_decompress_len`. */
  method FullDecompressLen(s: string) returns (r: Result<nat, Failure>)
    ensures r == Full(s)
    decreases |s|, 1
  {
    var charCount: nat := 0;
    var i := 0;
    ghost var rest := s;
    while i < |s|
      invariant i <= |s| && rest == s[i..] && Full(s) == Plus(charCount, Full(rest))
      decreases |s| - i
    {
      var item := FullTurn(s, i);
      if item.Err? {
        return Err(item.error);
      }
      FullAdvance(rest, charCount, Full(s));
      assert rest[item.value.size..] == s[i + item.value.size..];
      rest := rest[item.value.size..];
      charCount := charCount + item.value.length;
      i := i + item.value.size;
    }
    return Ok(charCount);
  }

  // ----- properties -----

  predicate NoMarkers(s: string) {
    forall i :: 0 <= i < |s| ==> s[i] != '('
  }

  /** Without markers both lengths are the text's own length. */
  lemma {:induction false} PlainText(s: string)
    requires NoMarkers(s)
    ensures Len(s) == Ok(|s|) && Full(s) == Ok(|s|)
  {
    if s != [] {
      assert NoMarkers(s[1..]);
      PlainText(s[1..]);
    }
  }

  /** A marker and its segment contribute `count * times` to the single
      expansion, whatever the segment holds; reading resumes after it. */
  lemma MarkerOnce(s: string, count: nat, times: nat)
    requires StartsWithMarker(s, count, times) && |Spell(count, times)| + count <= |s|
    ensures Len(s) == Plus(Product(count, times), Len(s[|Spell(count, times)| + count..]))
  {
    ReadSpelled(s, count, times);
  }

  /** In the full expansion the segment contributes its own full length
      `times` times. */
  lemma MarkerFull(s: string, count: nat, times: nat)
    requires StartsWithMarker(s, count, times) && |Spell(count, times)| + count <= |s|
    ensures var n := |Spell(count, times)|;
      var inner := Full(s[n..n + count]);
      Full(s) == if inner.Err? then Err(inner.error) else Plus(Product(inner.value, times), Full(s[n + count..]))
  {
    ReadSpelled(s, count, times);
    var n := |Spell(count, times)|;
    var inner := Full(s[n..n + count]);
    if inner.Err? {
      assert FullItem(s) == Err(inner.error);
    } else {
      assert FullItem(s) == Ok(Item(Product(inner.value, times), n + count));
    }
  }

  /** A marker whose segment runs past the end of the text is an error. */
  lemma ShortSegment(s: string, count: nat, times: nat)
    requires StartsWithMarker(s, count, times) && |s| < |Spell(count, times)| + count
    ensures Len(s) == Err(ExpectedCachedChar) && Full(s) == Err(ExpectedCachedChar)
  {
    ReadSpelled(s, count, times);
  }

  /** A count not followed by `x` is an error. */
  lemma MissingSeparator(s: string, count: nat)
    requires var d := Decimal(count);
      1 + |d| <= |s| && s[0] == '(' && s[1..1 + |d|] == d
      && (1 + |d| == |s| || (!IsDigit(s[1 + |d|]) && s[1 + |d|] != 'x'))
    ensures Len(s) == Err(ExpectedX) && Full(s) == Err(ExpectedX)
  {
    var d := Decimal(count);
    assert s[1..] == d + s[1 + |d|..];
    DecimalRoundTrip(count);
    ReadDigits(d, s[1 + |d|..]);
  }
}
