/** 2015 day 23: a two-register machine with halve, triple, increment and
    relative jumps; it runs until the instruction pointer leaves the program. */
module Year2015Day23 {
  import opened Wrappers
  import opened Numerals

  const MaxUsize: nat := 0xffff_ffff_ffff_ffff

  datatype Register = A | B

  datatype Offset = Forward(x: nat) | Backward(x: nat)

  datatype Instruction =
    | Half(r: Register)
    | Triple(r: Register)
    | Increment(r: Register)
    | Jump(offset: Offset)
    | JumpIfEven(r: Register, offset: Offset)
    | JumpIfOne(r: Register, offset: Offset)

  /** `Register::from_arg`: only the names `a` and `b`. */
  function RegisterFromArg(arg: string): (r: Result<Register, string>)
    ensures r.Ok? <==> arg == "a" || arg == "b"
    ensures r.Ok? ==> (r.value == A <==> arg == "a")
  {
    if arg == "a" then Ok(A)
    else if arg == "b" then Ok(B)
    else Err("Unexpected register " + arg)
  }

  /** `Offset::from_arg`: the magnitude parses as a `usize` first, then the
      sign must be `+` or `-`. */
  function OffsetFromArg(sign: string, arg: string): (r: Result<Offset, string>)
    ensures r.Ok? <==> ParseUnsigned(arg, MaxUsize).Some? && (sign == "+" || sign == "-")
    ensures r.Ok? ==> r.value.x == ParseUnsigned(arg, MaxUsize).value && (r.value.Forward? <==> sign == "+")
  {
    match ParseUnsigned(arg, MaxUsize)
    case None => Err("invalid digit found in string")
    case Some(magnitude) =>
      if sign == "+" then Ok(Forward(magnitude))
      else if sign == "-" then Ok(Backward(magnitude))
      else Err("Unexpected sign " + sign)
  }

  /** Writing an offset out and reading it back gives the offset. */
  lemma OffsetRoundTrip(o: Offset)
    requires o.x <= MaxUsize
    ensures OffsetFromArg(if o.Forward? then "+" else "-", Decimal(o.x)) == Ok(o)
  {
    UnsignedRoundTrip(o.x, MaxUsize);
  }

  datatype Machine = Machine(a: nat, b: nat, ip: nat)

  function Get(m: Machine, r: Register): nat {
    if r == A then m.a else m.b
  }

  /** The register changed and the instruction pointer moved on by one. */
  function Update(m: Machine, r: Register, v: nat): (m': Machine)
    ensures Get(m', r) == v && m'.ip == m.ip + 1
    ensures r == A ==> m'.b == m.b
    ensures r == B ==> m'.a == m.a
  {
    if r == A then Machine(v, m.b, m.ip + 1) else Machine(m.a, v, m.ip + 1)
  }

  /** Where a taken jump goes: a backward jump past the start ends the program. */
  function Target(ip: nat, offset: Offset, len: nat): (t: nat)
    ensures offset.Forward? ==> t == ip + offset.x
    ensures offset.Backward? && offset.x <= ip ==> t + offset.x == ip
    ensures offset.Backward? && offset.x > ip ==> t == len
  {
    match offset
    case Forward(x) => ip + x
    case Backward(x) => if x > ip then len else ip - x
  }

  /** One instruction of `execute`'s loop. */
  function Exec(program: seq<Instruction>, m: Machine): Machine
    requires m.ip < |program|
  {
    match program[m.ip]
    case Half(r) => Update(m, r, Get(m, r) / 2)
    case Triple(r) => Update(m, r, Get(m, r) * 3)
    case Increment(r) => Update(m, r, Get(m, r) + 1)
    case Jump(offset) => m.(ip := Target(m.ip, offset, |program|))
    case JumpIfEven(r, offset) =>
      m.(ip := if Get(m, r) % 2 == 0 then Target(m.ip, offset, |program|) else m.ip + 1)
    case JumpIfOne(r, offset) =>
      m.(ip := if Get(m, r) == 1 then Target(m.ip, offset, |program|) else m.ip + 1)
  }

  /** The machine run for at most `fuel` instructions: the state once the
      pointer leaves the program, or `None` if the fuel runs out first. */
  function Run(program: seq<Instruction>, m: Machine, fuel: nat): Option<Machine>
    decreases fuel
  {
    if m.ip >= |program| then Some(m)
    else if fuel == 0 then None
    else Run(program, Exec(program, m), fuel - 1)
  }

  /** `execute`, bounded by `fuel` steps. */
  method Execute(program: seq<Instruction>, a0: nat, b0: nat, fuel: nat) returns (r: Option<(nat, nat)>)
    ensures r.Some? <==> Run(program, Machine(a0, b0, 0), fuel).Some?
    ensures r.Some? ==> r.value == (Run(program, Machine(a0, b0, 0), fuel).value.a, Run(program, Machine(a0, b0, 0), fuel).value.b)
  {
    var a: nat, b: nat, ins: nat := a0, b0, 0;
    var budget := fuel;
    while ins < |program|
      invariant Run(program, Machine(a, b, ins), budget) == Run(program, Machine(a0, b0, 0), fuel)
      decreases budget
    {
      if budget == 0 {
        return None;
      }
      budget := budget - 1;
      match program[ins]
      case Half(A) =>
        a, ins := a / 2, ins + 1;
      case Half(B) =>
        b, ins := b / 2, ins + 1;
      case Triple(A) =>
        a, ins := a * 3, ins + 1;
      case Triple(B) =>
        b, ins := b * 3, ins + 1;
      case Increment(A) =>
        a, ins := a + 1, ins + 1;
      case Increment(B) =>
        b, ins := b + 1, ins + 1;
      case Jump(Forward(x)) =>
        ins := ins + x;
      case Jump(Backward(x)) =>
        ins := if x > ins then |program| else ins - x;
      case JumpIfEven(register, offset) =>
        var value := if register == A then a else b;
        ins := if value % 2 == 0 then Target(ins, offset, |program|) else ins + 1;
      case JumpIfOne(register, offset) =>
        var value := if register == A then a else b;
        ins := if value == 1 then Target(ins, offset, |program|) else ins + 1;
    }
    return Some((a, b));
  }

  /** A finished run has left the program. */
  lemma {:induction false} RunHalts(program: seq<Instruction>, m: Machine, fuel: nat)
    requires Run(program, m, fuel).Some?
    ensures Run(program, m, fuel).value.ip >= |program|
    decreases fuel
  {
    if m.ip < |program| {
      RunHalts(program, Exec(program, m), fuel - 1);
    }
  }

  /** More fuel never changes a finished run: the bound only cuts off runs. */
  lemma {:induction false} RunMoreFuel(program: seq<Instruction>, m: Machine, fuel: nat, more: nat)
    requires Run(program, m, fuel).Some? && fuel <= more
    ensures Run(program, m, more) == Run(program, m, fuel)
    decreases fuel
  {
    if m.ip < |program| {
      RunMoreFuel(program, Exec(program, m), fuel - 1, more - 1);
    }
  }

  /** `jio` tests for the value 1, not for oddness: with 3 in `a` it falls through. */
  lemma JumpIfOneIsNotJumpIfOdd()
    ensures Exec([JumpIfOne(A, Forward(5))], Machine(3, 0, 0)).ip == 1
    ensures Exec([JumpIfOne(A, Forward(5))], Machine(1, 0, 0)).ip == 5
  {
  }

  /** The puzzle's example: inc a; jio a, +2; tpl a; inc a leaves 2 in `a`. */
  lemma ExampleProgram()
    ensures Run([Increment(A), JumpIfOne(A, Forward(2)), Triple(A), Increment(A)], Machine(0, 0, 0), 3)
      == Some(Machine(2, 0, 4))
  {
    var p := [Increment(A), JumpIfOne(A, Forward(2)), Triple(A), Increment(A)];
    assert Exec(p, Machine(0, 0, 0)) == Machine(1, 0, 1);
    assert Exec(p, Machine(1, 0, 1)) == Machine(1, 0, 3);
    assert Exec(p, Machine(1, 0, 3)) == Machine(2, 0, 4);
  }
}
