/** 2016 day 1: following turn-and-walk instructions on a street grid; the
    final position, and the first position reached twice. */
module Year2016Day01 {
  import opened Wrappers
  import opened Numerals
  import C = Cardinal
  import P = Point

  const MaxU16: nat := 0xffff

  /** `Cardinal::forward`: `magnitude` blocks in the heading's direction,
      North being +y and East +x. */
  function Forward(c: C.Cardinal, magnitude: nat): (v: (int, int))
    ensures (if v.0 < 0 then -v.0 else v.0) + (if v.1 < 0 then -v.1 else v.1) == magnitude
  {
    match c
    case North => (0, magnitude)
    case East => (magnitude, 0)
    case South => (0, 0 - magnitude)
    case West => (0 - magnitude, 0)
  }

  /** Walking `a` blocks and then `b` more the same way is walking `a + b`. */
  lemma ForwardAdds(p: P.Point2D, c: C.Cardinal, a: nat, b: nat)
    ensures P.AddAssign(P.AddAssign(p, Forward(c, a)), Forward(c, b)) == P.AddAssign(p, Forward(c, a + b))
  {
  }

  type Instruction = (C.Turn, nat)

  /** One trimmed, non-empty token: `R` or `L`, then a `u16`. */
  function ParseToken(clean: string): (r: Result<Instruction, string>)
    requires clean != []
    ensures r.Ok? <==> (clean[0] == 'R' || clean[0] == 'L') && ParseUnsigned(clean[1..], MaxU16).Some?
    ensures r.Ok? ==> r.value == (if clean[0] == 'R' then C.Right else C.Left, ParseUnsigned(clean[1..], MaxU16).value)
  {
    var turn :- if clean[0] == 'R' then Ok(C.Right)
                else if clean[0] == 'L' then Ok(C.Left)
                else Err("Unexpected char " + [clean[0]]);
    match ParseUnsigned(clean[1..], MaxU16)
    case None => Err("invalid digit found in string")
    case Some(magnitude) => Ok((turn, magnitude))
  }

  /** Writing an instruction out and reading it back gives the instruction. */
  lemma TokenRoundTrip(i: Instruction)
    requires i.1 <= MaxU16
    ensures ParseToken([if i.0 == C.Right then 'R' else 'L'] + Decimal(i.1)) == Ok(i)
  {
    var token := [if i.0 == C.Right then 'R' else 'L'] + Decimal(i.1);
    assert token[1..] == Decimal(i.1);
    UnsignedRoundTrip(i.1, MaxU16);
  }

  /** The instruction loop of `main` over the trimmed tokens: empty tokens
      are skipped, and the first bad token is the error. */
  method ParseTokens(tokens: seq<string>) returns (r: Result<seq<Instruction>, string>)
    ensures r.Ok? <==> forall k :: 0 <= k < |tokens| && tokens[k] != [] ==> ParseToken(tokens[k]).Ok?
    ensures r.Ok? ==> r.value == Parsed(tokens)
  {
    var instructions: seq<Instruction> := [];
    for k := 0 to |tokens|
      invariant forall j :: 0 <= j < k && tokens[j] != [] ==> ParseToken(tokens[j]).Ok?
      invariant instructions == Parsed(tokens[..k])
    {
      assert tokens[..k + 1][..k] == tokens[..k];
      var clean := tokens[k];
      if clean == [] {
        continue;
      }
      var parsed := ParseToken(clean);
      if parsed.Err? {
        return Err(parsed.error);
      }
      instructions := instructions + [parsed.value];
    }
    assert tokens[..|tokens|] == tokens;
    return Ok(instructions);
  }

  /** The instructions of the tokens that parse, skipping empty ones. */
  function Parsed(tokens: seq<string>): seq<Instruction> {
    if tokens == [] then []
    else
      var last := tokens[|tokens| - 1];
      Parsed(tokens[..|tokens| - 1])
        + (if last != [] && ParseToken(last).Ok? then [ParseToken(last).value] else [])
  }

  // ----- part 1 -----

  /** The heading after the instructions' turns, starting North. */
  function Facing(instructions: seq<Instruction>): C.Cardinal {
    if instructions == [] then C.North
    else C.TurnTo(Facing(instructions[..|instructions| - 1]), instructions[|instructions| - 1].0)
  }

  /** Where the instructions lead from (0, 0): each turns, then walks. */
  function Walk(instructions: seq<Instruction>): P.Point2D {
    if instructions == [] then P.Point2D(0, 0)
    else
      var n := |instructions| - 1;
      P.AddAssign(Walk(instructions[..n]), Forward(Facing(instructions), instructions[n].1))
  }

  /** Part 1's loop: turn, then move, per instruction. */
  method FinalPosition(instructions: seq<Instruction>) returns (position: P.Point2D)
    ensures position == Walk(instructions)
  {
    position := P.Point2D(0, 0);
    var facing := C.North;
    for k := 0 to |instructions|
      invariant position == Walk(instructions[..k]) && facing == Facing(instructions[..k])
    {
      assert instructions[..k + 1][..k] == instructions[..k];
      var (turn, magnitude) := instructions[k];
      facing := C.TurnTo(facing, turn);
      position := P.AddAssign(position, Forward(facing, magnitude));
    }
    assert instructions[..|instructions|] == instructions;
  }

  // ----- part 2 -----

  /** The blocks passed walking `m` blocks from `p`, one at a time. */
  function UnitSteps(p: P.Point2D, c: C.Cardinal, m: nat): (r: seq<P.Point2D>)
    ensures |r| == m
    ensures forall k :: 0 <= k < m ==> r[k] == P.AddAssign(p, Forward(c, k + 1))
  {
    seq(m, k requires 0 <= k < m => P.AddAssign(p, Forward(c, k + 1)))
  }

  /** Every block visited, starting with the origin. */
  function Path(instructions: seq<Instruction>): (r: seq<P.Point2D>)
    ensures |r| >= 1
  {
    if instructions == [] then [P.Point2D(0, 0)]
    else
      var n := |instructions| - 1;
      Path(instructions[..n]) + UnitSteps(Walk(instructions[..n]), Facing(instructions), instructions[n].1)
  }

  /** The walk block by block ends where part 1's walk ends. */
  lemma {:induction false} PathEndsAtWalk(instructions: seq<Instruction>)
    ensures Path(instructions)[|Path(instructions)| - 1] == Walk(instructions)
  {
    if instructions != [] {
      var n := |instructions| - 1;
      var prefix, m := instructions[..n], instructions[n].1;
      var steps := UnitSteps(Walk(prefix), Facing(instructions), m);
      assert Path(instructions) == Path(prefix) + steps;
      if m == 0 {
        PathEndsAtWalk(prefix);
        assert Walk(instructions) == P.AddAssign(Walk(prefix), (0, 0));
      } else {
        assert Path(instructions)[|Path(instructions)| - 1] == steps[m - 1];
      }
    }
  }

  /** Later instructions only extend the path. */
  lemma {:induction false} PathPrefix(instructions: seq<Instruction>, k: nat)
    requires k <= |instructions|
    ensures Path(instructions[..k]) <= Path(instructions)
    decreases |instructions| - k
  {
    if k < |instructions| {
      var n := |instructions| - 1;
      assert instructions[..n][..k] == instructions[..k];
      PathPrefix(instructions[..n], k);
    } else {
      assert instructions[..k] == instructions;
    }
  }

  predicate NoRepeat(s: seq<P.Point2D>) {
    forall i, j :: 0 <= i < j < |s| ==> s[i] != s[j]
  }

  /** The first block reached twice, if any: the earliest index `j` whose
      block appeared before it. */
  ghost predicate FirstRepeat(path: seq<P.Point2D>, r: Option<P.Point2D>) {
    match r
    case None => NoRepeat(path)
    case Some(p) => exists j :: 0 < j < |path| && path[j] == p && p in path[..j] && NoRepeat(path[..j])
  }

  /** The path up to the `k`-th block of instruction `i`'s walk. */
  function Visited(instructions: seq<Instruction>, i: nat, k: nat): seq<P.Point2D>
    requires i < |instructions| && k <= instructions[i].1
  {
    Path(instructions[..i]) + UnitSteps(Walk(instructions[..i]), Facing(instructions[..i + 1]), k)
  }

  lemma VisitedPrefix(instructions: seq<Instruction>, i: nat, k: nat)
    requires i < |instructions| && k <= instructions[i].1
    ensures Visited(instructions, i, k) <= Path(instructions)
  {
    var full := instructions[..i + 1];
    assert full[..i] == instructions[..i];
    var pre := Path(instructions[..i]);
    var steps := UnitSteps(Walk(instructions[..i]), Facing(full), instructions[i].1);
    assert Path(full) == pre + steps;
    var part := UnitSteps(Walk(instructions[..i]), Facing(full), k);
    assert part == steps[..k];
    PrefixJoin(pre, part, steps);
    PathPrefix(instructions, i + 1);
  }

  lemma PrefixJoin<T>(a: seq<T>, b: seq<T>, c: seq<T>)
    requires b <= c
    ensures a + b <= a + c
  {
    assert (a + c)[..|a + b|] == a + b;
  }

  lemma VisitedStep(instructions: seq<Instruction>, i: nat, k: nat)
    requires i < |instructions| && k < instructions[i].1
    ensures Visited(instructions, i, k + 1)
      == Visited(instructions, i, k) + [P.AddAssign(Walk(instructions[..i]), Forward(Facing(instructions[..i + 1]), k + 1))]
  {
  }

  lemma VisitedNext(instructions: seq<Instruction>, i: nat)
    requires i + 1 < |instructions|
    ensures Visited(instructions, i + 1, 0) == Visited(instructions, i, instructions[i].1)
  {
    var full := instructions[..i + 1];
    assert instructions[..i + 1][..i] == instructions[..i];
  }

  lemma VisitedAll(instructions: seq<Instruction>)
    requires instructions != []
    ensures Visited(instructions, |instructions| - 1, instructions[|instructions| - 1].1) == Path(instructions)
  {
    assert instructions[..|instructions|] == instructions;
  }

  /** A block new to a repeat-free path keeps it repeat-free. */
  lemma NoRepeatGrow(s: seq<P.Point2D>, p: P.Point2D)
    requires NoRepeat(s) && p !in s
    ensures NoRepeat(s + [p])
  {
    var t := s + [p];
    forall i, j | 0 <= i < j < |t|
      ensures t[i] != t[j]
    {
      if j == |s| {
        assert t[i] == s[i];
      } else {
        assert t[i] == s[i] && t[j] == s[j];
      }
    }
  }

  lemma RepeatFound(path: seq<P.Point2D>, visited: seq<P.Point2D>, p: P.Point2D)
    requires visited + [p] <= path && NoRepeat(visited) && p in visited
    ensures FirstRepeat(path, Some(p))
  {
    var j := |visited|;
    assert path[..j] == visited && path[j] == p;
  }

  /** Part 2's inner loop over instruction `i`'s blocks: a stop at the first
      block already seen, or every block added to the set. */
  method WalkBlocks(instructions: seq<Instruction>, i: nat, start: P.Point2D, facing: C.Cardinal,
                    positions: set<P.Point2D>, ghost visited: seq<P.Point2D>)
    returns (found: Option<P.Point2D>, position: P.Point2D, positions': set<P.Point2D>, ghost visited': seq<P.Point2D>)
    requires i < |instructions| && start == Walk(instructions[..i]) && facing == Facing(instructions[..i + 1])
    requires visited == Visited(instructions, i, 0) && NoRepeat(visited) && positions == set q | q in visited
    ensures found.Some? ==> FirstRepeat(Path(instructions), found)
    ensures found.None? ==> visited' == Visited(instructions, i, instructions[i].1) && NoRepeat(visited')
    ensures found.None? ==> positions' == (set q | q in visited') && position == P.AddAssign(start, Forward(facing, instructions[i].1))
  {
    position, positions', visited' := start, positions, visited;
    for k := 0 to instructions[i].1
      invariant visited' == Visited(instructions, i, k) && NoRepeat(visited')
      invariant positions' == set q | q in visited'
      invariant position == P.AddAssign(start, Forward(facing, k))
    {
      VisitedStep(instructions, i, k);
      ForwardAdds(start, facing, k, 1);
      position := P.AddAssign(position, Forward(facing, 1));
      if position in positions' {
        VisitedPrefix(instructions, i, k + 1);
        RepeatFound(Path(instructions), visited', position);
        return Some(position), position, positions', visited';
      }
      NoRepeatGrow(visited', position);
      positions' := positions' + {position};
      visited' := visited' + [position];
    }
    found := None;
  }

  /** Part 2's loop: unit steps, a set of the blocks seen (the origin first),
      and a stop at the first block already in it. */
  method FirstDuplicate(instructions: seq<Instruction>) returns (r: Option<P.Point2D>)
    ensures FirstRepeat(Path(instructions), r)
  {
    var position := P.Point2D(0, 0);
    var facing := C.North;
    var positions: set<P.Point2D> := {position};
    ghost var visited: seq<P.Point2D> := [position];
    for i := 0 to |instructions|
      invariant visited == Path(instructions[..i]) && NoRepeat(visited)
      invariant positions == set q | q in visited
      invariant position == visited[|visited| - 1] == Walk(instructions[..i])
      invariant facing == Facing(instructions[..i])
    {
      facing := C.TurnTo(facing, instructions[i].0);
      assert instructions[..i + 1][..i] == instructions[..i];
      assert visited == Visited(instructions, i, 0);
      var found;
      found, position, positions, visited := WalkBlocks(instructions, i, position, facing, positions, visited);
      if found.Some? {
        return found;
      }
      assert visited == Path(instructions[..i + 1]);
      PathEndsAtWalk(instructions[..i + 1]);
    }
    assert instructions[..|instructions|] == instructions;
    return None;
  }
}
