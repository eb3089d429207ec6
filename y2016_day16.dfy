/** 2016 day 16: filling a disk with the dragon curve and checksumming it
    (src/year_2016/day16.rs). The disk is kept as a list of chunks, each the
    source read forwards, the source read backwards with every digit
    inverted, or a single digit; an iterator walks the chunks. */
module Year2016Day16 {
  import opened Wrappers

  // ----- digits -----

  datatype Digit = One | Zero

  function Invert(d: Digit): (e: Digit)
    ensures e != d
  {
    match d
    case One => Zero
    case Zero => One
  }

  function FromChar(ch: char): (r: Option<Digit>)
    ensures r.Some? <==> ch == '0' || ch == '1'
  {
    match ch
    case '1' => Some(One)
    case '0' => Some(Zero)
    case _ => None
  }

  function ToChar(d: Digit): (ch: char)
    ensures ch == '0' || ch == '1'
  {
    match d
    case One => '1'
    case Zero => '0'
  }

  /** `invert` undoes itself. */
  lemma InvertInvolution(d: Digit)
    ensures Invert(Invert(d)) == d
  {
  }

  /** Digits and the characters '0' and '1' convert both ways. */
  lemma CharRoundTrip(d: Digit, ch: char)
    ensures FromChar(ToChar(d)) == Some(d)
    ensures FromChar(ch).Some? ==> ToChar(FromChar(ch).value) == ch
  {
  }

  /** The digits read backwards, each inverted. */
  function RevInv(a: seq<Digit>): (b: seq<Digit>)
    ensures |b| == |a|
  {
    if a == [] then [] else RevInv(a[1..]) + [Invert(a[0])]
  }

  /** Digit `k` of the result is the inverted digit `k` places from the end. */
  lemma {:induction false} RevInvAt(a: seq<Digit>, k: nat)
    requires k < |a|
    ensures RevInv(a)[k] == Invert(a[|a| - 1 - k])
  {
    if k < |a| - 1 {
      RevInvAt(a[1..], k);
    }
  }

  /** Reading backwards inverted twice gives the digits back. */
  lemma RevInvInvolution(a: seq<Digit>)
    ensures RevInv(RevInv(a)) == a
  {
    var b := RevInv(a);
    var c := RevInv(b);
    forall k | 0 <= k < |a| ensures c[k] == a[k] {
      RevInvAt(b, k);
      RevInvAt(a, |a| - 1 - k);
    }
  }

  lemma RevInvAppend(a: seq<Digit>, b: seq<Digit>)
    ensures RevInv(a + b) == RevInv(b) + RevInv(a)
  {
    var l, r := RevInv(a + b), RevInv(b) + RevInv(a);
    forall k | 0 <= k < |a + b| ensures l[k] == r[k] {
      RevInvAt(a + b, k);
      if k < |b| {
        RevInvAt(b, k);
      } else {
        RevInvAt(a, k - |b|);
      }
    }
  }

  /** One dragon-curve step: `a`, a zero, then `a` backwards and inverted. */
  function Dragon(a: seq<Digit>): (b: seq<Digit>)
    ensures |b| == 2 * |a| + 1
  {
    a + [Zero] + RevInv(a)
  }

  /** The dragon curve grown from `a` until it has at least `maxLen` digits. */
  function Grow(a: seq<Digit>, maxLen: nat): seq<Digit>
    decreases maxLen - |a|
  {
    if |a| >= maxLen then a else Grow(Dragon(a), maxLen)
  }

  /** Growing keeps what was there and reaches the wanted length. */
  lemma {:induction false} GrowMeaning(a: seq<Digit>, maxLen: nat)
    ensures |Grow(a, maxLen)| >= maxLen
    ensures |Grow(a, maxLen)| >= |a| && Grow(a, maxLen)[..|a|] == a
    decreases maxLen - |a|
  {
    if |a| < maxLen {
      GrowMeaning(Dragon(a), maxLen);
      assert Dragon(a)[..|a|] == a;
      assert Grow(a, maxLen)[..|a|] == Grow(a, maxLen)[..|Dragon(a)|][..|a|];
    }
  }

  // ----- chunks -----

  datatype Chunk = Original | Reversed | Single(d: Digit)

  function InvertChunk(c: Chunk): (e: Chunk)
    ensures c.Original? <==> e.Reversed?
    ensures c.Reversed? <==> e.Original?
  {
    match c
    case Single(d) => Single(Invert(d))
    case Original => Reversed
    case Reversed => Original
  }

  /** `DirectedChunk::invert` undoes itself. */
  lemma InvertChunkInvolution(c: Chunk)
    ensures InvertChunk(InvertChunk(c)) == c
  {
  }

  function ChunkLen(c: Chunk, sourceLen: nat): nat {
    match c
    case Original => sourceLen
    case Reversed => sourceLen
    case Single(_) => 1
  }

  /** The digits a chunk stands for. */
  function Expand(source: seq<Digit>, c: Chunk): (r: seq<Digit>)
    ensures |r| == ChunkLen(c, |source|)
  {
    match c
    case Original => source
    case Reversed => RevInv(source)
    case Single(d) => [d]
  }

  /** Inverting a chunk reads its digits backwards, inverted. */
  lemma ExpandInvert(source: seq<Digit>, c: Chunk)
    ensures Expand(source, InvertChunk(c)) == RevInv(Expand(source, c))
  {
    if c.Reversed? {
      RevInvInvolution(source);
    }
  }

  /** The digits of the first `k` chunks, in order. */
  function Upto(source: seq<Digit>, cs: seq<Chunk>, k: nat): seq<Digit>
    requires k <= |cs|
  {
    if k == 0 then [] else Upto(source, cs, k - 1) + Expand(source, cs[k - 1])
  }

  /** The digits of a chunk list, in order. */
  function Expansion(source: seq<Digit>, cs: seq<Chunk>): seq<Digit> {
    Upto(source, cs, |cs|)
  }

  /** The summed widths of the first `k` chunks. */
  function Before(cs: seq<Chunk>, k: nat, sourceLen: nat): nat
    requires k <= |cs|
  {
    if k == 0 then 0 else Before(cs, k - 1, sourceLen) + ChunkLen(cs[k - 1], sourceLen)
  }

  /** The summed chunk lengths, as `Disk::len` adds them up. */
  function Width(cs: seq<Chunk>, sourceLen: nat): nat {
    Before(cs, |cs|, sourceLen)
  }

  lemma {:induction false} UptoLength(source: seq<Digit>, cs: seq<Chunk>, k: nat)
    requires k <= |cs|
    ensures |Upto(source, cs, k)| == Before(cs, k, |source|)
  {
    if k > 0 {
      UptoLength(source, cs, k - 1);
    }
  }

  lemma WidthIsLength(source: seq<Digit>, cs: seq<Chunk>)
    ensures |Expansion(source, cs)| == Width(cs, |source|)
  {
    UptoLength(source, cs, |cs|);
  }

  /** The digits of fewer chunks are a prefix of those of more. */
  lemma {:induction false} UptoPrefix(source: seq<Digit>, cs: seq<Chunk>, k: nat, j: nat, i: nat)
    requires k <= j <= |cs| && i < |Upto(source, cs, k)|
    ensures i < |Upto(source, cs, j)| && Upto(source, cs, j)[i] == Upto(source, cs, k)[i]
    decreases j - k
  {
    if k < j {
      UptoPrefix(source, cs, k, j - 1, i);
      var u := Upto(source, cs, j - 1);
      assert Upto(source, cs, j) == u + Expand(source, cs[j - 1]);
    }
  }

  /** Chunks appended after the first `k` do not change their digits. */
  lemma {:induction false} UptoSame(source: seq<Digit>, a: seq<Chunk>, b: seq<Chunk>, k: nat)
    requires k <= |a|
    ensures Upto(source, a + b, k) == Upto(source, a, k)
  {
    if k > 0 {
      UptoSame(source, a, b, k - 1);
      assert (a + b)[k - 1] == a[k - 1];
    }
  }

  lemma {:induction false} UptoAppend(source: seq<Digit>, a: seq<Chunk>, b: seq<Chunk>, j: nat)
    requires j <= |b|
    ensures Upto(source, a + b, |a| + j) == Expansion(source, a) + Upto(source, b, j)
  {
    if j == 0 {
      UptoSame(source, a, b, |a|);
    } else {
      UptoAppend(source, a, b, j - 1);
      assert (a + b)[|a| + j - 1] == b[j - 1];
      ConcatAssoc(Expansion(source, a), Upto(source, b, j - 1), Expand(source, b[j - 1]));
    }
  }

  lemma ConcatAssoc(x: seq<Digit>, y: seq<Digit>, z: seq<Digit>)
    ensures (x + y) + z == x + (y + z)
  {
  }

  lemma ExpansionAppend(source: seq<Digit>, a: seq<Chunk>, b: seq<Chunk>)
    ensures Expansion(source, a + b) == Expansion(source, a) + Expansion(source, b)
  {
    UptoAppend(source, a, b, |b|);
  }

  /** The chunks in reverse order, each inverted. */
  function RevInvChunks(cs: seq<Chunk>): (r: seq<Chunk>)
    ensures |r| == |cs|
  {
    seq(|cs|, k requires 0 <= k < |cs| => InvertChunk(cs[|cs| - 1 - k]))
  }

  /** The last chunk comes first, inverted. */
  lemma RevInvChunksLast(cs: seq<Chunk>)
    requires cs != []
    ensures RevInvChunks(cs) == [InvertChunk(cs[|cs| - 1])] + RevInvChunks(cs[..|cs| - 1])
  {
  }

  /** The first chunk comes last, inverted. */
  lemma RevInvChunksFirst(cs: seq<Chunk>)
    requires cs != []
    ensures RevInvChunks(cs) == RevInvChunks(cs[1..]) + [InvertChunk(cs[0])]
  {
  }

  /** Reversing and inverting the chunks reverses and inverts their digits. */
  lemma {:induction false} ExpansionRevInv(source: seq<Digit>, cs: seq<Chunk>)
    ensures Expansion(source, RevInvChunks(cs)) == RevInv(Expansion(source, cs))
    decreases |cs|
  {
    if cs != [] {
      var init, last := cs[..|cs| - 1], cs[|cs| - 1];
      RevInvChunksLast(cs);
      ExpansionAppend(source, [InvertChunk(last)], RevInvChunks(init));
      ExpansionSingle(source, InvertChunk(last));
      assert cs == init + [last];
      ExpansionAppend(source, init, [last]);
      ExpansionSingle(source, last);
      ExpandInvert(source, last);
      ExpansionRevInv(source, init);
      RevInvAppend(Expansion(source, init), Expand(source, last));
    }
  }

  /** A fill round on chunks is a dragon-curve step on the digits. */
  lemma RoundIsDragon(source: seq<Digit>, cs: seq<Chunk>)
    ensures Expansion(source, cs + [Single(Zero)] + RevInvChunks(cs)) == Dragon(Expansion(source, cs))
  {
    ExpansionAppend(source, cs + [Single(Zero)], RevInvChunks(cs));
    ExpansionAppend(source, cs, [Single(Zero)]);
    ExpansionSingle(source, Single(Zero));
    ExpansionRevInv(source, cs);
  }

  lemma ExpansionSingle(source: seq<Digit>, c: Chunk)
    ensures Expansion(source, [c]) == Expand(source, c)
  {
    assert Upto(source, [c], 1) == Upto(source, [c], 0) + Expand(source, c);
  }

  function Min(a: nat, b: nat): (m: nat)
    ensures m <= a && m <= b && (m == a || m == b)
  {
    if a < b then a else b
  }

  /** The first `maxLen` digits of the chunks, or all of them. */
  function DigitsOf(source: seq<Digit>, cs: seq<Chunk>, maxLen: nat): (ds: seq<Digit>)
    ensures |ds| == Min(|Expansion(source, cs)|, maxLen)
  {
    Expansion(source, cs)[..Min(|Expansion(source, cs)|, maxLen)]
  }

  /** A disk of `maxLen` digits grown from `source`. */
  class Disk {
    const source: seq<Digit>
    const maxLen: nat
    var contents: seq<Chunk>

    /** `Disk::new`: the source alone. */
    constructor (source: seq<Digit>, maxLen: nat)
      ensures this.source == source && this.maxLen == maxLen
      ensures contents == [Original] && Expansion(source, contents) == source
    {
      this.source := source;
      this.maxLen := maxLen;
      contents := [Original];
      assert Upto(source, [Original], 1) == [] + source;
    }

    /** `len`: the digits the chunks stand for, capped at `maxLen`. */
    function Len(): (n: nat)
      reads this
      ensures n == Min(|Expansion(source, contents)|, maxLen)
    {
      WidthIsLength(source, contents);
      Min(Width(contents, |source|), maxLen)
    }

    /** The digits the disk holds. */
    function Digits(): (ds: seq<Digit>)
      reads this
      ensures |ds| == Len()
    {
      DigitsOf(source, contents, maxLen)
    }

    /** One round of `fill`: a zero digit, then every chunk so far inverted,
        last first. */
    method FillRound()
      modifies this
      ensures contents == old(contents) + [Single(Zero)] + RevInvChunks(old(contents))
      ensures Expansion(source, contents) == Dragon(Expansion(source, old(contents)))
    {
      var before := contents;
      var i := |contents|;
      contents := contents + [Single(Zero)];
      while i > 0
        invariant 0 <= i <= |before|
        invariant contents == before + [Single(Zero)] + RevInvChunks(before[i..])
      {
        i := i - 1;
        RevInvChunksFirst(before[i..]);
        assert before[i..][1..] == before[i + 1..];
        contents := contents + [InvertChunk(contents[i])];
      }
      assert before[0..] == before;
      RoundIsDragon(source, before);
    }

    /** `fill`: rounds until the disk reaches `maxLen` digits. */
    method Fill()
      modifies this
      ensures Expansion(source, contents) == Grow(Expansion(source, old(contents)), maxLen)
      ensures Len() == maxLen
      ensures Digits() == Grow(Expansion(source, old(contents)), maxLen)[..maxLen]
    {
      while Len() < maxLen
        invariant Grow(Expansion(source, contents), maxLen) == Grow(Expansion(source, old(contents)), maxLen)
        decreases maxLen - |Expansion(source, contents)|
      {
        FillRound();
      }
      GrowMeaning(Expansion(source, old(contents)), maxLen);
    }

    /** `checksum`: pairs read off the disk's iterator; an even-length
        result is checksummed again as a disk of its own. An empty result
        is returned as it is (see `ChecksumAsWritten` for the source's
        endless recursion there). */
    method Checksum() returns (r: seq<Digit>)
      requires |source| > 0
      ensures r == ChecksumOf(Digits())
      decreases Len()
    {
      var it := new DiskIter(this);
      var sum := ReadPairs(it);
      assert |sum| == Len() / 2;
      if |sum| % 2 == 0 && |sum| > 0 {
        var next := new Disk(sum, |sum|);
        assert next.Len() == |sum|;
        assert next.Digits() == sum;
        r := next.Checksum();
      } else {
        r := sum;
      }
    }
  }

  // ----- the checksum -----

  /** The pairing loop of `checksum`: two digits from the iterator at a
      time, stopping when either is missing. */
  method ReadPairs(it: DiskIter) returns (sum: seq<Digit>)
    requires it.Valid() && it.Yields() && it.pos == 0
    modifies it
    ensures sum == Pairs(it.expansion[..it.Count()])
  {
    sum := [];
    while true
      invariant it.Valid() && it.pos == 2 * |sum| <= it.Count()
      invariant forall k :: 0 <= k < |sum| ==> sum[k] == PairAt(it.expansion, k)
      decreases it.Count() - it.pos
    {
      ghost var i := |sum|;
      var a := it.Next();
      if a.None? {
        assert |sum| == it.Count() / 2;
        break;
      }
      var b := it.Next();
      if b.None? {
        assert |sum| == it.Count() / 2;
        break;
      }
      var pair := if a.value == b.value then One else Zero;
      assert pair == PairAt(it.expansion, i);
      sum := sum + [pair];
    }
    PairsOfPrefix(it.expansion, it.Count(), sum);
  }

  /** Pairs read one by one from the first `n` digits are their pairs. */
  lemma PairsOfPrefix(e: seq<Digit>, n: nat, sum: seq<Digit>)
    requires n <= |e| && |sum| == n / 2
    requires forall k :: 0 <= k < |sum| ==> sum[k] == PairAt(e, k)
    ensures sum == Pairs(e[..n])
  {
  }

  /** The digit for pair `i`: one when its two digits are equal. */
  function PairAt(d: seq<Digit>, i: nat): Digit
    requires 2 * i + 1 < |d|
  {
    if d[2 * i] == d[2 * i + 1] then One else Zero
  }

  /** Pairs of digits, in order; an odd digit left at the end is dropped. */
  function Pairs(d: seq<Digit>): (c: seq<Digit>)
    ensures |c| == |d| / 2
  {
    seq(|d| / 2, i requires 0 <= i < |d| / 2 => PairAt(d, i))
  }

  /** Pair `i` is one exactly when digits `2i` and `2i + 1` agree. */
  lemma PairsAt(d: seq<Digit>, i: nat)
    requires i < |d| / 2
    ensures Pairs(d)[i] == One <==> d[2 * i] == d[2 * i + 1]
  {
  }

  /** `checksum`: pair up until the length is odd, or nothing is left. */
  function ChecksumOf(d: seq<Digit>): seq<Digit>
    decreases |d|
  {
    var c := Pairs(d);
    if |c| % 2 == 0 && c != [] then ChecksumOf(c) else c
  }

  /** A checksum of at least two digits has odd length; fewer digits give
      an empty checksum; either way it is at most half the digits. */
  lemma {:induction false} ChecksumOdd(d: seq<Digit>)
    ensures |d| >= 2 ==> |ChecksumOf(d)| % 2 == 1
    ensures |d| < 2 ==> ChecksumOf(d) == []
    ensures |ChecksumOf(d)| <= |d| / 2
    decreases |d|
  {
    var c := Pairs(d);
    if |c| % 2 == 0 && c != [] {
      ChecksumOdd(c);
    }
  }

  /** `checksum` as written, with the depth of its recursion bounded by
      `fuel`: `None` when the recursion has not ended within `fuel` levels. */
  function ChecksumAsWritten(d: seq<Digit>, fuel: nat): Option<seq<Digit>>
    decreases fuel
  {
    if fuel == 0 then None
    else
      var c := Pairs(d);
      if |c| % 2 == 0 then ChecksumAsWritten(c, fuel - 1) else Some(c)
  }

  /** On a disk of fewer than two digits the pairs are empty, an even
      length, so `checksum` calls itself on an empty disk for ever. */
  lemma {:induction false} ShortChecksumNeverEnds(d: seq<Digit>, fuel: nat)
    requires |d| < 2
    ensures ChecksumAsWritten(d, fuel) == None
    decreases fuel
  {
    if fuel > 0 {
      assert Pairs(d) == [];
      ShortChecksumNeverEnds([], fuel - 1);
    }
  }

  /** From two digits on, `checksum` as written ends within `|d|` levels of
      recursion, with the checksum above. */
  lemma {:induction false} ChecksumAsWrittenEnds(d: seq<Digit>, fuel: nat)
    requires |d| >= 2 && fuel >= |d|
    ensures ChecksumAsWritten(d, fuel) == Some(ChecksumOf(d))
    decreases |d|
  {
    var c := Pairs(d);
    if |c| % 2 == 0 && c != [] {
      ChecksumAsWrittenEnds(c, fuel - 1);
    }
  }

  // ----- the iterator -----

  /** Where reading starts in chunk `k`: the last source digit for a
      reversed chunk, otherwise the first. */
  function StartAt(cs: seq<Chunk>, k: nat, sourceLen: nat): nat
    requires sourceLen > 0
  {
    if k < |cs| && cs[k].Reversed? then sourceLen - 1 else 0
  }

  /** An iterator state: chunk `k`, source index `at`. */
  predicate ValidAt(source: seq<Digit>, cs: seq<Chunk>, k: nat, at: nat) {
    |source| > 0 && k <= |cs| && (k < |cs| ==> at < |source|)
  }

  /** How far into chunk `k` the state is. */
  function OffsetAt(source: seq<Digit>, cs: seq<Chunk>, k: nat, at: nat): nat
    requires ValidAt(source, cs, k, at)
  {
    if k == |cs| then 0
    else match cs[k]
      case Single(_) => 0
      case Original => at
      case Reversed => (|source| - 1) - at
  }

  /** The index on the disk of the next digit. */
  function PosAt(source: seq<Digit>, cs: seq<Chunk>, k: nat, at: nat): nat
    requires ValidAt(source, cs, k, at)
  {
    Before(cs, k, |source|) + OffsetAt(source, cs, k, at)
  }

  /** Inside a chunk the position is before the end, and the digit there is
      the chunk's digit, the source digit, or the source digit inverted. */
  lemma ReadAt(source: seq<Digit>, cs: seq<Chunk>, k: nat, at: nat)
    requires ValidAt(source, cs, k, at) && k < |cs|
    ensures PosAt(source, cs, k, at) < |Expansion(source, cs)|
    ensures Expansion(source, cs)[PosAt(source, cs, k, at)] == DigitAt(source, cs[k], at)
  {
    var off := OffsetAt(source, cs, k, at);
    ChunkAt(source, cs, k, off);
    ExpandAt(source, cs[k], at, off);
  }

  /** Offset `off` of chunk `k` sits after the widths of the chunks before. */
  lemma ChunkAt(source: seq<Digit>, cs: seq<Chunk>, k: nat, off: nat)
    requires k < |cs| && off < ChunkLen(cs[k], |source|)
    ensures Before(cs, k, |source|) + off < |Expansion(source, cs)|
    ensures Expansion(source, cs)[Before(cs, k, |source|) + off] == Expand(source, cs[k])[off]
  {
    UptoLength(source, cs, k);
    UptoStep(source, cs, k, off);
    UptoPrefix(source, cs, k + 1, |cs|, |Upto(source, cs, k)| + off);
  }

  /** Chunk `k`'s digits follow those of the chunks before it. */
  lemma UptoStep(source: seq<Digit>, cs: seq<Chunk>, k: nat, off: nat)
    requires k < |cs| && off < |Expand(source, cs[k])|
    ensures |Upto(source, cs, k)| + off < |Upto(source, cs, k + 1)|
    ensures Upto(source, cs, k + 1)[|Upto(source, cs, k)| + off] == Expand(source, cs[k])[off]
  {
    var before, chunk := Upto(source, cs, k), Expand(source, cs[k]);
    assert Upto(source, cs, k + 1) == before + chunk;
  }

  /** The digit a chunk shows at source index `at`. */
  function DigitAt(source: seq<Digit>, c: Chunk, at: nat): Digit
    requires at < |source|
  {
    match c
    case Single(d) => d
    case Original => source[at]
    case Reversed => Invert(source[at])
  }

  /** The digit at offset `off` of a chunk read at source index `at`. */
  lemma ExpandAt(source: seq<Digit>, c: Chunk, at: nat, off: nat)
    requires at < |source| && off < ChunkLen(c, |source|)
    requires off == match c case Single(_) => 0 case Original => at case Reversed => (|source| - 1) - at
    ensures Expand(source, c)[off] == DigitAt(source, c, at)
  {
    if c.Reversed? {
      RevInvAt(source, off);
    }
  }

  /** Past the last chunk the position is the whole width. */
  lemma PastEnd(source: seq<Digit>, cs: seq<Chunk>)
    requires |source| > 0
    ensures PosAt(source, cs, |cs|, 0) == |Expansion(source, cs)|
  {
    WidthIsLength(source, cs);
  }

  /** Leaving a chunk from its last digit moves one place on. */
  lemma Advance(source: seq<Digit>, cs: seq<Chunk>, k: nat, at: nat)
    requires ValidAt(source, cs, k, at) && k < |cs|
    requires OffsetAt(source, cs, k, at) + 1 == ChunkLen(cs[k], |source|)
    ensures ValidAt(source, cs, k + 1, StartAt(cs, k + 1, |source|))
    ensures PosAt(source, cs, k + 1, StartAt(cs, k + 1, |source|)) == PosAt(source, cs, k, at) + 1
  {
  }

  /** `DiskIter`: a chunk index and a position in the source. The disk is
      borrowed immutably while it is read, so its source, chunks and length
      are held here as values. */
  class DiskIter {
    const source: seq<Digit>
    const contents: seq<Chunk>
    const maxLen: nat
    /** The digits of all the chunks, before the `maxLen` cap. */
    ghost const expansion: seq<Digit>
    var chunkAt: nat
    var sourceAt: nat
    /** The index on the disk of the next digit. */
    ghost var pos: nat

    ghost predicate Valid()
      reads this
    {
      ValidAt(source, contents, chunkAt, sourceAt) && pos == PosAt(source, contents, chunkAt, sourceAt)
    }

    /** `expansion` holds the digits of the chunks this iterator walks. */
    ghost predicate Yields()
    {
      expansion == Expansion(source, contents)
    }

    /** How many digits the iterator yields: the disk's length. */
    ghost function Count(): nat
    {
      Min(|expansion|, maxLen)
    }

    /** `into_iter`: at the start of the first chunk. */
    constructor (disk: Disk)
      requires |disk.source| > 0
      ensures Valid() && Yields() && pos == 0 && expansion[..Count()] == disk.Digits()
    {
      source, contents, maxLen := disk.source, disk.contents, disk.maxLen;
      expansion := Expansion(disk.source, disk.contents);
      chunkAt := 0;
      sourceAt := StartAt(disk.contents, 0, |disk.source|);
      pos := 0;
    }

    /** `disk_index`: the widths of the chunks passed, plus the offset. */
    method DiskIndex() returns (index: nat)
      requires Valid()
      ensures index == pos
    {
      var n := |source|;
      index := 0;
      var chunkIndex := 0;
      while chunkIndex < chunkAt
        invariant chunkIndex <= chunkAt
        invariant index == Before(contents, chunkIndex, n)
      {
        index := index + ChunkLen(contents[chunkIndex], n);
        chunkIndex := chunkIndex + 1;
      }
      if chunkAt < |contents| {
        match contents[chunkAt]
        case Single(_) =>
        case Original => index := index + sourceAt;
        case Reversed => index := index + (n - 1) - sourceAt;
      }
    }

    /** `next`: the digit at the current position, then one step on;
        `None` once `maxLen` digits or the chunks are used up. */
    method Next() returns (r: Option<Digit>)
      requires Valid() && Yields()
      modifies this
      ensures Valid()
      ensures r.Some? <==> old(pos) < Count()
      ensures r.Some? ==> r.value == expansion[old(pos)] && pos == old(pos) + 1
      ensures r.None? ==> pos == old(pos) && chunkAt == old(chunkAt) && sourceAt == old(sourceAt)
    {
      var n := |source|;
      var index := DiskIndex();
      if index >= maxLen {
        return None;
      }
      if chunkAt == |contents| {
        PastEnd(source, contents);
        return None;
      }
      ReadAt(source, contents, chunkAt, sourceAt);
      var at := sourceAt;
      match contents[chunkAt]
      case Single(d) =>
        NextChunk();
        return Some(d);
      case Original =>
        if sourceAt == n - 1 {
          NextChunk();
        } else {
          sourceAt := sourceAt + 1;
          pos := pos + 1;
        }
        return Some(source[at]);
      case Reversed =>
        if sourceAt == 0 {
          NextChunk();
        } else {
          sourceAt := sourceAt - 1;
          pos := pos + 1;
        }
        return Some(Invert(source[at]));
    }

    /** Moving from the last digit of a chunk to the start of the next. */
    method NextChunk()
      requires Valid() && chunkAt < |contents|
      requires OffsetAt(source, contents, chunkAt, sourceAt) + 1 == ChunkLen(contents[chunkAt], |source|)
      modifies this
      ensures chunkAt == old(chunkAt) + 1 && sourceAt == StartAt(contents, chunkAt, |source|)
      ensures Valid() && pos == old(pos) + 1
    {
      Advance(source, contents, chunkAt, sourceAt);
      chunkAt := chunkAt + 1;
      sourceAt := StartAt(contents, chunkAt, |source|);
      pos := pos + 1;
    }
  }

  /** Reading a disk through its iterator yields exactly its digits. */
  method Collect(it: DiskIter) returns (ds: seq<Digit>)
    requires it.Valid() && it.Yields() && it.pos == 0
    modifies it
    ensures ds == it.expansion[..it.Count()]
  {
    ds := [];
    while true
      invariant it.Valid() && it.pos == |ds| <= it.Count()
      invariant forall k :: 0 <= k < |ds| ==> ds[k] == it.expansion[k]
      decreases it.Count() - it.pos
    {
      var r := it.Next();
      if r.None? {
        break;
      }
      ds := ds + [r.value];
    }
    DigitsOfPrefix(it.expansion, it.Count(), ds);
  }

  /** Digits read one by one from the first `n` are those `n` digits. */
  lemma DigitsOfPrefix(e: seq<Digit>, n: nat, ds: seq<Digit>)
    requires n <= |e| && |ds| == n
    requires forall k :: 0 <= k < |ds| ==> ds[k] == e[k]
    ensures ds == e[..n]
  {
  }

  // ----- examples -----

  function Text(ds: seq<Digit>): (s: string)
    ensures |s| == |ds|
  {
    seq(|ds|, i requires 0 <= i < |ds| => ToChar(ds[i]))
  }

  /** Filling from "1" to 3 digits gives "100", from "0" gives "001". */
  lemma SingleDigitExamples()
    ensures Text(Grow([One], 3)[..3]) == "100"
    ensures Text(Grow([Zero], 3)[..3]) == "001"
  {
    assert Grow([One], 3) == Dragon([One]) == [One, Zero, Zero];
    assert Grow([Zero], 3) == Dragon([Zero]) == [Zero, Zero, One];
  }

  /** Filling "11111" to 11 digits gives "11111000000". */
  lemma FivesExample()
    ensures Text(Grow([One, One, One, One, One], 11)[..11]) == "11111000000"
  {
    var a := [One, One, One, One, One];
    assert Grow(a, 11) == Dragon(a);
    assert RevInv(a) == [Zero, Zero, Zero, Zero, Zero];
  }

  /** Filling "111100001010" to 25 digits gives
      "1111000010100101011110000". */
  lemma LongExample(a: seq<Digit>)
    requires a == [One, One, One, One, Zero, Zero, Zero, Zero, One, Zero, One, Zero]
    ensures Grow(a, 25)
            == [One, One, One, One, Zero, Zero, Zero, Zero, One, Zero, One, Zero, Zero,
                One, Zero, One, Zero, One, One, One, One, Zero, Zero, Zero, Zero]
  {
    assert Grow(a, 25) == Dragon(a);
    LongBack(a);
  }

  lemma LongBack(a: seq<Digit>)
    requires a == [One, One, One, One, Zero, Zero, Zero, Zero, One, Zero, One, Zero]
    ensures RevInv(a) == [One, Zero, One, Zero, One, One, One, One, Zero, Zero, Zero, Zero]
  {
    RevInvAt(a, 0); RevInvAt(a, 1); RevInvAt(a, 2); RevInvAt(a, 3);
    RevInvAt(a, 4); RevInvAt(a, 5); RevInvAt(a, 6); RevInvAt(a, 7);
    RevInvAt(a, 8); RevInvAt(a, 9); RevInvAt(a, 10); RevInvAt(a, 11);
  }
}
