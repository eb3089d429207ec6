/** 2016 day 12: the assembunny interpreter (src/year_2016/day12.rs). Copies,
    increments, decrements and relative jumps over a register file; the run
    ends once the instruction pointer leaves the program. */
module Year2016Day12 {
  import opened Wrappers

  /** Registers are indexes into the register file handed to `execute`. A
      jump's magnitude counts away from the current instruction. */
  datatype Instruction =
    | CopyLiteral(value: int, register: nat)
    | CopyRegister(from: nat, to: nat)
    | Increment(register: nat)
    | Decrement(register: nat)
    | JumpForwardIfNotZero(register: nat, magnitude: nat)
    | JumpBackwardIfNotZero(register: nat, magnitude: nat)
    | JumpForward(magnitude: nat)
    | JumpBackward(magnitude: nat)
    | Empty

  /** `jnz` with a literal first operand: the literal written `0` is a
      no-op, any other literal an unconditional jump. */
  function LiteralJump(value: string, negative: bool, magnitude: nat): (r: Instruction)
    ensures r.Empty? <==> value == "0"
    ensures !r.Empty? ==> (r.JumpBackward? <==> negative) && (r.JumpForward? <==> !negative)
    ensures !r.Empty? ==> r.magnitude == magnitude
  {
    if value == "0" then Empty
    else if negative then JumpBackward(magnitude)
    else JumpForward(magnitude)
  }

  /** Every register the instruction names is below `n`. */
  predicate UsesBelow(ins: Instruction, n: nat) {
    match ins
    case CopyLiteral(_, register) => register < n
    case CopyRegister(from, to) => from < n && to < n
    case Increment(register) => register < n
    case Decrement(register) => register < n
    case JumpForwardIfNotZero(register, _) => register < n
    case JumpBackwardIfNotZero(register, _) => register < n
    case JumpForward(_) => true
    case JumpBackward(_) => true
    case Empty => true
  }

  /** Indexing the register file never panics: every named register exists. */
  predicate InRange(program: seq<Instruction>, n: nat) {
    forall i :: 0 <= i < |program| ==> UsesBelow(program[i], n)
  }

  datatype Machine = Machine(regs: seq<int>, ip: nat)

  /** A backward jump that would pass the start ends the program. */
  function Back(ip: nat, magnitude: nat, len: nat): (t: nat)
    ensures magnitude <= ip ==> t + magnitude == ip
    ensures magnitude > ip ==> t == len
  {
    if magnitude <= ip then ip - magnitude else len
  }

  /** One instruction of `execute`'s loop, with the unconditional backward
      jump going back by its magnitude. */
  function Exec(program: seq<Instruction>, m: Machine): (m': Machine)
    requires m.ip < |program| && InRange(program, |m.regs|)
    ensures |m'.regs| == |m.regs|
  {
    match program[m.ip]
    case CopyLiteral(value, register) => Machine(m.regs[register := value], m.ip + 1)
    case CopyRegister(from, to) => Machine(m.regs[to := m.regs[from]], m.ip + 1)
    case Increment(register) => Machine(m.regs[register := m.regs[register] + 1], m.ip + 1)
    case Decrement(register) => Machine(m.regs[register := m.regs[register] - 1], m.ip + 1)
    case JumpForwardIfNotZero(register, magnitude) =>
      m.(ip := m.ip + if m.regs[register] != 0 then magnitude else 1)
    case JumpBackwardIfNotZero(register, magnitude) =>
      m.(ip := if m.regs[register] != 0 then Back(m.ip, magnitude, |program|) else m.ip + 1)
    case JumpForward(magnitude) => m.(ip := m.ip + magnitude)
    case JumpBackward(magnitude) => m.(ip := Back(m.ip, magnitude, |program|))
    case Empty => m.(ip := m.ip + 1)
  }

  const MaxUsize: nat := 0xffff_ffff_ffff_ffff

  /** The instruction as written: the unconditional backward jump checks its
      magnitude against the instruction pointer but then steps back by one. A zero
      magnitude at the first instruction steps below zero, which wraps to
      `usize::MAX` (a debug build panics); either way the run stops. */
  function ExecAsWritten(program: seq<Instruction>, m: Machine): (m': Machine)
    requires m.ip < |program| && InRange(program, |m.regs|)
    ensures |m'.regs| == |m.regs|
  {
    match program[m.ip]
    case JumpBackward(magnitude) =>
      m.(ip := if magnitude > m.ip then |program| else if m.ip == 0 then MaxUsize else m.ip - 1)
    case _ => Exec(program, m)
  }

  /** The machine run for at most `fuel` instructions, by `ExecAsWritten`
      when `asWritten` holds and by `Exec` otherwise: the state once the
      pointer leaves the program, or `None` if the fuel runs out first. */
  function Run(program: seq<Instruction>, m: Machine, fuel: nat, asWritten: bool): Option<Machine>
    requires InRange(program, |m.regs|)
    decreases fuel
  {
    if m.ip >= |program| then Some(m)
    else if fuel == 0 then None
    else Run(program, if asWritten then ExecAsWritten(program, m) else Exec(program, m), fuel - 1, asWritten)
  }

  /** `execute`, bounded by `fuel` instructions: copies the register file,
      runs from the first instruction, and returns the final registers. The
      source indexes the program before testing the instruction pointer, so the program
      must not be empty. */
  method Execute(program: seq<Instruction>, registers: seq<int>, fuel: nat) returns (r: Option<seq<int>>)
    requires |program| > 0 && InRange(program, |registers|)
    ensures r.Some? <==> Run(program, Machine(registers, 0), fuel, true).Some?
    ensures r.Some? ==> r.value == Run(program, Machine(registers, 0), fuel, true).value.regs
  {
    var regs := new int[|registers|](i requires 0 <= i < |registers| => registers[i]);
    assert regs[..] == registers;
    var ip: nat := 0;
    var budget := fuel;
    while ip < |program|
      invariant regs.Length == |registers|
      invariant Run(program, Machine(regs[..], ip), budget, true) == Run(program, Machine(registers, 0), fuel, true)
      decreases budget
    {
      if budget == 0 {
        return None;
      }
      budget := budget - 1;
      ip := ExecuteOne(program, regs, ip);
    }
    return Some(regs[..]);
  }

  /** One turn of `execute`'s loop, on the register array, as written. */
  method ExecuteOne(program: seq<Instruction>, regs: array<int>, ip: nat) returns (next: nat)
    requires ip < |program| && InRange(program, regs.Length)
    modifies regs
    ensures Machine(regs[..], next) == ExecAsWritten(program, Machine(old(regs[..]), ip))
  {
    match program[ip]
    case CopyLiteral(value, register) =>
      regs[register] := value;
      next := ip + 1;
    case CopyRegister(from, to) =>
      regs[to] := regs[from];
      next := ip + 1;
    case Increment(register) =>
      regs[register] := regs[register] + 1;
      next := ip + 1;
    case Decrement(register) =>
      regs[register] := regs[register] - 1;
      next := ip + 1;
    case JumpForwardIfNotZero(register, magnitude) =>
      next := ip + if regs[register] != 0 then magnitude else 1;
    case JumpBackwardIfNotZero(register, magnitude) =>
      if regs[register] != 0 {
        next := if magnitude <= ip then ip - magnitude else |program|;
      } else {
        next := ip + 1;
      }
    case JumpForward(magnitude) =>
      next := ip + magnitude;
    case JumpBackward(magnitude) =>
      if magnitude <= ip {
        next := if ip == 0 then MaxUsize else ip - 1;
      } else {
        next := |program|;
      }
    case Empty =>
      next := ip + 1;
  }

  // ----- properties of one instruction -----

  /** The register an instruction writes, if any. */
  function Written(ins: Instruction): Option<nat> {
    match ins
    case CopyLiteral(_, register) => Some(register)
    case CopyRegister(_, to) => Some(to)
    case Increment(register) => Some(register)
    case Decrement(register) => Some(register)
    case _ => None
  }

  /** Only the written register changes, under either reading; a jump
      changes no register, and every instruction that writes a register
      moves on by one. */
  lemma ExecFrame(program: seq<Instruction>, m: Machine, k: nat)
    requires m.ip < |program| && InRange(program, |m.regs|) && k < |m.regs|
    requires Written(program[m.ip]) != Some(k)
    ensures Exec(program, m).regs[k] == m.regs[k]
    ensures ExecAsWritten(program, m).regs[k] == m.regs[k]
    ensures Written(program[m.ip]).Some? ==> Exec(program, m).ip == m.ip + 1
    ensures Written(program[m.ip]).Some? ==> ExecAsWritten(program, m) == Exec(program, m)
  {
  }

  /** The two readings part ways exactly at an unconditional backward jump
      that stays inside the program with a magnitude other than one. */
  lemma WhereReadingsDiffer(program: seq<Instruction>, m: Machine)
    requires m.ip < |program| && InRange(program, |m.regs|)
    ensures ExecAsWritten(program, m) != Exec(program, m) <==>
      program[m.ip].JumpBackward? && program[m.ip].magnitude <= m.ip && program[m.ip].magnitude != 1
  {
  }

  // ----- runs -----

  /** A finished run has left the program and kept the register file's size. */
  lemma {:induction false} RunHalts(program: seq<Instruction>, m: Machine, fuel: nat, asWritten: bool)
    requires InRange(program, |m.regs|) && Run(program, m, fuel, asWritten).Some?
    ensures Run(program, m, fuel, asWritten).value.ip >= |program|
    ensures |Run(program, m, fuel, asWritten).value.regs| == |m.regs|
    decreases fuel
  {
    if m.ip < |program| {
      RunHalts(program, if asWritten then ExecAsWritten(program, m) else Exec(program, m), fuel - 1, asWritten);
    }
  }

  /** More fuel never changes a finished run: the bound only cuts off runs. */
  lemma {:induction false} RunMoreFuel(program: seq<Instruction>, m: Machine, fuel: nat, more: nat, asWritten: bool)
    requires InRange(program, |m.regs|) && Run(program, m, fuel, asWritten).Some? && fuel <= more
    ensures Run(program, m, more, asWritten) == Run(program, m, fuel, asWritten)
    decreases fuel
  {
    if m.ip < |program| {
      RunMoreFuel(program, if asWritten then ExecAsWritten(program, m) else Exec(program, m), fuel - 1, more - 1, asWritten);
    }
  }

  /** The two readings agree on every program without an unconditional
      backward jump. */
  lemma {:induction false} SameWithoutJumpBackward(program: seq<Instruction>, m: Machine, fuel: nat)
    requires InRange(program, |m.regs|)
    requires forall i :: 0 <= i < |program| ==> !program[i].JumpBackward?
    ensures Run(program, m, fuel, true) == Run(program, m, fuel, false)
    decreases fuel
  {
    if m.ip < |program| && fuel > 0 {
      assert ExecAsWritten(program, m) == Exec(program, m);
      SameWithoutJumpBackward(program, Exec(program, m), fuel - 1);
    }
  }

  /** The puzzle's example: cpy 41 a, inc a, inc a, dec a, jnz a 2, dec a
      leaves 42 in `a`. */
  lemma ExampleProgram()
    ensures Run([CopyLiteral(41, 0), Increment(0), Increment(0), Decrement(0),
                 JumpForwardIfNotZero(0, 2), Decrement(0)], Machine([0], 0), 5, false)
      == Some(Machine([42], 6))
  {
    var p := [CopyLiteral(41, 0), Increment(0), Increment(0), Decrement(0),
              JumpForwardIfNotZero(0, 2), Decrement(0)];
    assert Exec(p, Machine([0], 0)) == Machine([41], 1);
    assert Exec(p, Machine([41], 1)) == Machine([42], 2);
    assert Exec(p, Machine([42], 2)) == Machine([43], 3);
    assert Exec(p, Machine([43], 3)) == Machine([42], 4);
    assert Exec(p, Machine([42], 4)) == Machine([42], 6);
  }

  // ----- the unconditional backward jump -----

  /** `jnz 1 -2` at the end of jmp +3, inc a, jmp +9: going back two lands
      on `inc a` and the run ends with 1 in `a`; the code as written steps
      back one, skips the increment and ends with 0. */
  lemma AsWrittenSkipsBack()
    ensures var p := [JumpForward(3), Increment(0), JumpForward(9), JumpBackward(2)];
      Run(p, Machine([0], 0), 4, true) == Some(Machine([0], 11))
      && Run(p, Machine([0], 0), 4, false) == Some(Machine([1], 11))
  {
    var p := [JumpForward(3), Increment(0), JumpForward(9), JumpBackward(2)];
    assert ExecAsWritten(p, Machine([0], 0)) == Machine([0], 3);
    assert ExecAsWritten(p, Machine([0], 3)) == Machine([0], 2);
    assert ExecAsWritten(p, Machine([0], 2)) == Machine([0], 11);
    assert Exec(p, Machine([0], 0)) == Machine([0], 3);
    assert Exec(p, Machine([0], 3)) == Machine([0], 1);
    assert Exec(p, Machine([0], 1)) == Machine([1], 2);
    assert Exec(p, Machine([1], 2)) == Machine([1], 11);
  }

  /** The corrected jump is the inverse of the forward one: going forward by
      a magnitude and back by it returns to the start. */
  lemma ForwardThenBack(program: seq<Instruction>, m: Machine, magnitude: nat)
    requires InRange(program, |m.regs|) && m.ip + magnitude < |program|
    requires program[m.ip] == JumpForward(magnitude) && program[m.ip + magnitude] == JumpBackward(magnitude)
    ensures Exec(program, Exec(program, m)) == m
  {
  }
}
