/** 2016 day 4: room names with a checksum of their five most common letters,
    and the shift cipher that decrypts a real room's name. */
module Year2016Day04 {
  import opened Wrappers
  import opened Numerals

  const MaxU32: nat := 0xffff_ffff

  /** How many times `ch` occurs in `s`. */
  function Count(s: string, ch: char): nat {
    if s == [] then 0 else Count(s[..|s| - 1], ch) + (if s[|s| - 1] == ch then 1 else 0)
  }

  /** The characters the checksum counts: every one but `-`. */
  function Letters(s: string): set<char> {
    set ch | ch in s && ch != '-'
  }

  /** The checksum's order: more occurrences first, then alphabetical. */
  predicate Before(name: string, a: char, b: char) {
    Count(name, a) > Count(name, b) || (Count(name, a) == Count(name, b) && a < b)
  }

  predicate Ranked(name: string, s: string) {
    forall i, j :: 0 <= i < j < |s| ==> Before(name, s[i], s[j])
  }

  /** `c` is the checksum of `name`: its letters in the checksum's order,
      at most five, and no letter left out ranks before one taken. */
  ghost predicate IsChecksum(name: string, c: string) {
    |c| == (if |Letters(name)| < 5 then |Letters(name)| else 5)
    && (forall i :: 0 <= i < |c| ==> c[i] in Letters(name))
    && Ranked(name, c)
    && forall x :: x in Letters(name) && x !in c ==> forall i :: 0 <= i < |c| ==> Before(name, c[i], x)
  }

  /** Only one string is the checksum of a name. */
  lemma ChecksumUnique(name: string, c1: string, c2: string)
    requires IsChecksum(name, c1) && IsChecksum(name, c2)
    ensures c1 == c2
  {
    if c1 != c2 {
      var i := FirstMismatch(c1, c2);
      RankedDistinct(name, c1);
      RankedDistinct(name, c2);
      FirstDifference(name, c1, c2, i);
      FirstDifference(name, c2, c1, i);
      assert false;
    }
  }

  /** The first position where two different strings of one length differ. */
  lemma {:induction false} FirstMismatch(a: string, b: string) returns (i: nat)
    requires |a| == |b| && a != b
    ensures i < |a| && a[i] != b[i] && forall k :: 0 <= k < i ==> a[k] == b[k]
  {
    if a[0] != b[0] {
      i := 0;
    } else {
      assert a == [a[0]] + a[1..] && b == [b[0]] + b[1..];
      var j := FirstMismatch(a[1..], b[1..]);
      i := j + 1;
    }
  }

  /** No letter appears twice in `s`. */
  predicate Distinct(s: string) {
    forall i, j :: 0 <= i < j < |s| ==> s[i] != s[j]
  }

  lemma RankedDistinct(name: string, s: string)
    requires Ranked(name, s)
    ensures Distinct(s)
  {
  }

  /** Against any other list of distinct letters of `name` as long as the
      checksum, the checksum's letter ranks first where the two first differ. */
  lemma FirstDifference(name: string, c1: string, c2: string, i: nat)
    requires IsChecksum(name, c1)
    requires |c2| == |c1| && Distinct(c2) && forall k :: 0 <= k < |c2| ==> c2[k] in Letters(name)
    requires i < |c1| && c1[i] != c2[i] && forall k :: 0 <= k < i ==> c1[k] == c2[k]
    ensures Before(name, c1[i], c2[i])
  {
    if c2[i] in c1 {
      var j :| 0 <= j < |c1| && c1[j] == c2[i];
      assert Before(name, c1[i], c1[j]);
    }
  }

  /** A list of counts of distinct letters, built by inserting each letter in
      its place: the `sort_by` of `calculate_checksum`. */
  function Insert(name: string, s: string, x: char): (r: string)
    ensures |r| == |s| + 1
    ensures forall y :: y in r <==> y in s || y == x
  {
    if s == [] then [x]
    else if Before(name, x, s[0]) then [x] + s
    else [s[0]] + Insert(name, s[1..], x)
  }

  lemma {:induction false} InsertRanked(name: string, s: string, x: char)
    requires Ranked(name, s) && x !in s
    ensures Ranked(name, Insert(name, s, x))
  {
    if s != [] && !Before(name, x, s[0]) {
      InsertRanked(name, s[1..], x);
      var r := Insert(name, s, x);
      assert Before(name, s[0], x);
      forall j | 0 < j < |r|
        ensures Before(name, r[0], r[j])
      {
        assert r[j] in s[1..] || r[j] == x;
      }
    }
  }

  /** The `char_counts` map: the letters of `name` and how often each occurs. */
  method CountChars(name: string) returns (counts: map<char, nat>)
    ensures counts.Keys == Letters(name)
    ensures forall ch :: ch in counts ==> counts[ch] == Count(name, ch)
  {
    counts := map[];
    for k := 0 to |name|
      invariant counts.Keys == Letters(name[..k])
      invariant forall ch :: ch in counts ==> counts[ch] == Count(name[..k], ch)
    {
      var seen := name[..k + 1];
      assert seen[..k] == name[..k];
      var ch := name[k];
      if ch != '-' {
        counts := counts[ch := if ch in counts then counts[ch] + 1 else 1];
      }
      assert Letters(seen) == Letters(name[..k]) + (if ch != '-' then {ch} else {});
      CountAbsent(name[..k], ch);
    }
    assert name[..|name|] == name;
  }

  lemma CountAbsent(s: string, ch: char)
    ensures ch !in s ==> Count(s, ch) == 0
  {
    if ch !in s && s != [] {
      assert forall k :: 0 <= k < |s| - 1 ==> s[..|s| - 1][k] == s[k];
      CountAbsent(s[..|s| - 1], ch);
    }
  }

  /** `calculate_checksum`: count, sort, take five. */
  method CalculateChecksum(name: string) returns (c: string)
    ensures IsChecksum(name, c)
  {
    var counts := CountChars(name);
    var sorted := SortLetters(name, counts.Keys);
    c := if |sorted| < 5 then sorted else sorted[..5];
    TopFive(name, sorted);
  }

  /** The sort of the counted letters: every letter once, in the checksum's order. */
  method SortLetters(name: string, letters: set<char>) returns (sorted: string)
    ensures forall y :: y in sorted <==> y in letters
    ensures |sorted| == |letters| && Ranked(name, sorted)
  {
    sorted := [];
    var remaining := letters;
    ghost var done: set<char> := {};
    while remaining != {}
      invariant remaining + done == letters && remaining !! done
      invariant forall y :: y in sorted <==> y in done
      invariant |sorted| == |done| && Ranked(name, sorted)
      decreases remaining
    {
      var ch :| ch in remaining;
      InsertRanked(name, sorted, ch);
      sorted := Insert(name, sorted, ch);
      remaining, done := remaining - {ch}, done + {ch};
    }
  }

  /** The first five of the letters in order are the checksum. */
  lemma TopFive(name: string, sorted: string)
    requires forall y :: y in sorted <==> y in Letters(name)
    requires |sorted| == |Letters(name)| && Ranked(name, sorted)
    ensures IsChecksum(name, if |sorted| < 5 then sorted else sorted[..5])
  {
    var c := if |sorted| < 5 then sorted else sorted[..5];
    forall x | x in Letters(name) && x !in c
      ensures forall i :: 0 <= i < |c| ==> Before(name, c[i], x)
    {
      var j :| 0 <= j < |sorted| && sorted[j] == x;
      assert j >= |c|;
    }
  }

  // ----- `decode` -----

  /** One step of the cipher: `-` becomes a space and each letter the next,
      `z` wrapping to `a`; anything else stays. */
  function ShiftOnce(ch: char): char {
    if ch == '-' then ' '
    else if 'a' <= ch < 'z' then (ch as int + 1) as char
    else if ch == 'z' then 'a'
    else ch
  }

  function ShiftTimes(ch: char, n: nat): char {
    if n == 0 then ch else ShiftOnce(ShiftTimes(ch, n - 1))
  }

  /** The cipher in closed form: after one step or more, `-` is a space and a
      letter has moved `n` places round the alphabet. */
  lemma {:induction false} ShiftTimesClosed(ch: char, n: nat)
    ensures n >= 1 && ch == '-' ==> ShiftTimes(ch, n) == ' '
    ensures 'a' <= ch <= 'z' ==> ShiftTimes(ch, n) == ('a' as int + (ch as int - 'a' as int + n) % 26) as char
    ensures ch != '-' && !('a' <= ch <= 'z') ==> ShiftTimes(ch, n) == ch
  {
    if n > 0 {
      ShiftTimesClosed(ch, n - 1);
      if 'a' <= ch <= 'z' {
        LetterStep(ch as int - 'a' as int + n - 1);
      }
    }
  }

  /** One more step round the alphabet, from offset `x`. */
  lemma LetterStep(x: int)
    ensures ShiftOnce(('a' as int + x % 26) as char) == ('a' as int + (x + 1) % 26) as char
  {
    if x % 26 == 25 {
      assert (x + 1) % 26 == 0;
    } else {
      assert (x + 1) % 26 == x % 26 + 1;
    }
  }

  /** The inner `for _ in 0..sector` loop for one character. */
  method DecodeChar(ch: char, sector: nat) returns (r: char)
    ensures r == ShiftTimes(ch, sector)
  {
    r := ch;
    for k := 0 to sector
      invariant r == ShiftTimes(ch, k)
    {
      r := match r
        case '-' => ' '
        case 'z' => 'a'
        case _ => if 'a' <= r < 'z' then (r as int + 1) as char else r;
    }
  }

  function Decoded(s: string, sector: nat): (r: string)
    ensures |r| == |s|
    ensures forall k :: 0 <= k < |s| ==> r[k] == ShiftTimes(s[k], sector)
  {
    seq(|s|, k requires 0 <= k < |s| => ShiftTimes(s[k], sector))
  }

  /** `decode`: the cipher applied to every character. */
  method Decode(s: string, sector: nat) returns (r: string)
    ensures r == Decoded(s, sector)
  {
    r := [];
    for k := 0 to |s|
      invariant r == Decoded(s[..k], sector)
    {
      var ch := DecodeChar(s[k], sector);
      r := r + [ch];
    }
    assert s[..|s|] == s;
  }

  /** Sector 0 leaves a name unchanged; a whole turn of 26 only turns the
      dashes into spaces. */
  lemma DecodeSectorZero(s: string)
    ensures Decoded(s, 0) == s
  {
  }

  lemma DecodeWholeTurn(s: string, k: nat)
    requires k >= 1
    ensures forall i :: 0 <= i < |s| ==> Decoded(s, 26 * k)[i] == (if s[i] == '-' then ' ' else s[i])
  {
    forall i | 0 <= i < |s|
      ensures Decoded(s, 26 * k)[i] == (if s[i] == '-' then ' ' else s[i])
    {
      WholeTurn(s[i], k);
    }
  }

  lemma WholeTurn(ch: char, k: nat)
    requires k >= 1
    ensures ShiftTimes(ch, 26 * k) == (if ch == '-' then ' ' else ch)
  {
    ShiftTimesClosed(ch, 26 * k);
    if 'a' <= ch <= 'z' {
      ModTurn(ch as int - 'a' as int, k);
    }
  }

  lemma {:induction false} ModTurn(d: int, k: nat)
    requires 0 <= d < 26
    ensures (d + 26 * k) % 26 == d
  {
    if k > 0 {
      ModTurn(d, k - 1);
      assert d + 26 * k == (d + 26 * (k - 1)) + 26;
    }
  }

  // ----- `main` -----

  /** A line the pattern matched: the name, the sector's digits and the
      checksum in brackets. */
  datatype Room = Room(name: string, sector: string, checksum: string)

  /** Part 1: the sectors of the rooms whose checksum is right; a sector that
      does not fit in a `u32` is an error, but only once it is parsed. */
  ghost function RealSectorSum(rooms: seq<Room>): Result<nat, string> {
    if rooms == [] then Ok(0)
    else
      var room := rooms[|rooms| - 1];
      match RealSectorSum(rooms[..|rooms| - 1])
      case Err(e) => Err(e)
      case Ok(sum) =>
        if !IsChecksum(room.name, room.checksum) then Ok(sum)
        else match ParseUnsigned(room.sector, MaxU32)
          case None => Err("number too large to fit in target type")
          case Some(sector) => Ok(sum + sector)
  }

  /** `main`'s loop over the matched lines. */
  method SumRealSectors(rooms: seq<Room>) returns (r: Result<nat, string>)
    ensures r == RealSectorSum(rooms)
  {
    var sum := 0;
    for k := 0 to |rooms|
      invariant RealSectorSum(rooms[..k]) == Ok(sum)
    {
      assert rooms[..k + 1][..k] == rooms[..k];
      var room := rooms[k];
      var checksum := CalculateChecksum(room.name);
      if checksum == room.checksum {
        var sector := ParseUnsigned(room.sector, MaxU32);
        if sector.None? {
          RealSectorSumStops(rooms, k + 1);
          return Err("number too large to fit in target type");
        }
        sum := sum + sector.value;
      } else if IsChecksum(room.name, room.checksum) {
        ChecksumUnique(room.name, checksum, room.checksum);
      }
    }
    assert rooms[..|rooms|] == rooms;
    return Ok(sum);
  }

  lemma {:induction false} RealSectorSumStops(rooms: seq<Room>, k: nat)
    requires k <= |rooms| && RealSectorSum(rooms[..k]).Err?
    ensures RealSectorSum(rooms) == RealSectorSum(rooms[..k])
    decreases |rooms| - k
  {
    if k < |rooms| {
      assert rooms[..k + 1][..k] == rooms[..k];
      RealSectorSumStops(rooms, k + 1);
    } else {
      assert rooms[..k] == rooms;
    }
  }
}
