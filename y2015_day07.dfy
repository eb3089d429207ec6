/** 2015 day 7: a circuit of 16-bit wires, each driven by one gate whose inputs
    are constants or other wires, evaluated on demand with a memo table
    (src/year_2015/day07.rs). */
module Year2015Day07 {
  import opened Wrappers
  import opened Numerals

  /** Rust's `u16`. */
  newtype U16 = x: int | 0 <= x < 0x1_0000

  datatype Operand = Ref(name: string) | Const(value: U16)

  datatype Instruction =
    | Value(o: Operand)
    | And(lh: Operand, rh: Operand)
    | Or(lh: Operand, rh: Operand)
    | Lshift(lh: Operand, rh: Operand)
    | Rshift(lh: Operand, rh: Operand)
    | Not(o: Operand)

  /** Parsing a number as a `u16`: only a non-empty digit string whose value fits. */
  function ParseU16(s: string): (r: Option<U16>)
    ensures r.Some? <==> s != [] && AllDigits(s) && DecimalValue(s) < 0x1_0000
    ensures r.Some? ==> r.value as int == DecimalValue(s)
  {
    if s != [] && AllDigits(s) && DecimalValue(s) < 0x1_0000
    then Some(DecimalValue(s) as U16) else None
  }

  /** An operand is either a wire name or a number, never both and never neither. */
  function IntoOperand(name: string, num: string): (r: Result<Operand, string>)
    ensures r.Ok? <==> (name != [] && num == []) || (name == [] && ParseU16(num).Some?)
    ensures r.Ok? && name != [] ==> r.value == Ref(name)
    ensures r.Ok? && name == [] ==> r.value.Const? && r.value.value as int == DecimalValue(num)
  {
    if name != [] && num != [] then Err("Indeterminate between Const and Ref")
    else if name != [] then Ok(Ref(name))
    else if num != [] then
      match ParseU16(num)
      case Some(v) => Ok(Const(v))
      case None => Err("Couldn't convert operand into u16")
    else Err("Need a value to bind for the operand")
  }

  /** Every 16-bit constant written in decimal reads back as itself. */
  lemma ConstRoundTrip(v: U16)
    ensures IntoOperand("", Decimal(v as int)) == Ok(Const(v))
  {
    DecimalRoundTrip(v as int);
  }

  /** Operand `o` is a constant or a wire ranked below `above`. */
  predicate OperandBelow(rank: map<string, nat>, o: Operand, above: nat) {
    o.Ref? ==> o.name in rank && rank[o.name] < above
  }

  /** Every wire gate `i` reads is ranked below `above`. */
  predicate InputsBelow(rank: map<string, nat>, i: Instruction, above: nat) {
    match i
    case Value(o) => OperandBelow(rank, o, above)
    case Not(o) => OperandBelow(rank, o, above)
    case _ => OperandBelow(rank, i.lh, above) && OperandBelow(rank, i.rh, above)
  }

  /** The circuit has no loop: every wire has a rank above the ranks of the wires
      its gate reads. Evaluating a circuit with a loop never returns. */
  ghost predicate Ranked(instrs: map<string, Instruction>, rank: map<string, nat>) {
    forall k :: k in instrs ==> k in rank && InputsBelow(rank, instrs[k], rank[k])
  }

  function Bits(v: U16): bv16 { v as bv16 }

  function FromBits(b: bv16): U16 { b as int as U16 }

  /** Bitwise complement. */
  function Complement(v: U16): U16 { FromBits(!Bits(v)) }

  /** A binary gate on two 16-bit values; shifting by 16 or more overflows. */
  function Gate(i: Instruction, l: U16, r: U16): (v: Result<U16, string>)
    requires !i.Value? && !i.Not?
    ensures v.Err? <==> (i.Lshift? || i.Rshift?) && r >= 16
  {
    match i
    case And(_, _) => Ok(FromBits(Bits(l) & Bits(r)))
    case Or(_, _) => Ok(FromBits(Bits(l) | Bits(r)))
    case Lshift(_, _) =>
      if r >= 16 then Err("attempt to shift left with overflow") else Ok(FromBits(Bits(l) << r as nat))
    case Rshift(_, _) =>
      if r >= 16 then Err("attempt to shift right with overflow") else Ok(FromBits(Bits(l) >> r as nat))
  }

  /** The signal on wire `name`, where wires in `fixed` carry their given value
      instead of their gate's. */
  ghost function WireValue(instrs: map<string, Instruction>, fixed: map<string, U16>,
                           rank: map<string, nat>, name: string): Result<U16, string>
    requires Ranked(instrs, rank) && name in rank
    decreases rank[name] + 1, 0
  {
    if name !in instrs then Err("Instruction not found")
    else GateValue(instrs, fixed, rank, instrs[name], rank[name])
  }

  /** The output of gate `i` whose inputs all rank below `above`. */
  ghost function GateValue(instrs: map<string, Instruction>, fixed: map<string, U16>,
                           rank: map<string, nat>, i: Instruction, above: nat): Result<U16, string>
    requires Ranked(instrs, rank) && InputsBelow(rank, i, above)
    decreases above, 4
  {
    match i
    case Value(o) => OperandValue(instrs, fixed, rank, o, above)
    case Not(o) =>
      var v :- OperandValue(instrs, fixed, rank, o, above);
      Ok(Complement(v))
    case _ => BinaryValue(instrs, fixed, rank, i, above)
  }

  ghost function BinaryValue(instrs: map<string, Instruction>, fixed: map<string, U16>,
                             rank: map<string, nat>, i: Instruction, above: nat): Result<U16, string>
    requires !i.Value? && !i.Not?
    requires Ranked(instrs, rank) && InputsBelow(rank, i, above)
    decreases above, 3
  {
    var l :- OperandValue(instrs, fixed, rank, i.lh, above);
    RightThenGate(instrs, fixed, rank, i, l, above)
  }

  ghost function RightThenGate(instrs: map<string, Instruction>, fixed: map<string, U16>,
                               rank: map<string, nat>, i: Instruction, l: U16, above: nat): Result<U16, string>
    requires !i.Value? && !i.Not?
    requires Ranked(instrs, rank) && InputsBelow(rank, i, above)
    decreases above, 2
  {
    var r :- OperandValue(instrs, fixed, rank, i.rh, above);
    Gate(i, l, r)
  }

  ghost function OperandValue(instrs: map<string, Instruction>, fixed: map<string, U16>,
                              rank: map<string, nat>, o: Operand, above: nat): Result<U16, string>
    requires Ranked(instrs, rank) && OperandBelow(rank, o, above)
    decreases above, 1
  {
    match o
    case Const(v) => Ok(v)
    case Ref(m) => if m in fixed then Ok(fixed[m]) else WireValue(instrs, fixed, rank, m)
  }

  /** The memo table agrees with the circuit: it holds every fixed wire with its
      given value, and any other entry is that wire's signal. */
  ghost predicate CacheOk(instrs: map<string, Instruction>, fixed: map<string, U16>,
                          rank: map<string, nat>, cache: map<string, U16>)
    requires Ranked(instrs, rank)
  {
    (forall k :: k in fixed ==> k in cache && cache[k] == fixed[k]) &&
    (forall k :: k in cache && k !in fixed ==> k in rank && WireValue(instrs, fixed, rank, k) == Ok(cache[k]))
  }

  /** Only entries are added to the memo table; none changes. */
  ghost predicate Grows(cache: map<string, U16>, cache': map<string, U16>) {
    forall k :: k in cache ==> k in cache' && cache'[k] == cache[k]
  }

  method ExecuteOperand(instrs: map<string, Instruction>, cache: map<string, U16>, o: Operand,
                        ghost fixed: map<string, U16>, ghost rank: map<string, nat>, ghost above: nat)
    returns (r: Result<U16, string>, cache': map<string, U16>)
    requires Ranked(instrs, rank) && OperandBelow(rank, o, above)
    requires CacheOk(instrs, fixed, rank, cache)
    ensures r == OperandValue(instrs, fixed, rank, o, above)
    ensures o.Ref? && o.name in cache ==> r == Ok(cache[o.name]) && cache' == cache
    ensures CacheOk(instrs, fixed, rank, cache') && Grows(cache, cache')
    decreases above, 1
  {
    match o
    case Const(v) =>
      r, cache' := Ok(v), cache;
    case Ref(m) =>
      if m in cache {
        r, cache' := Ok(cache[m]), cache;
      } else {
        r, cache' := Execute(instrs, cache, m, fixed, rank);
      }
  }

  /** Evaluates the inputs of gate `i`, left before right, and then the gate. */
  method ExecuteGate(instrs: map<string, Instruction>, cache: map<string, U16>, i: Instruction,
                     ghost fixed: map<string, U16>, ghost rank: map<string, nat>, ghost above: nat)
    returns (r: Result<U16, string>, cache': map<string, U16>)
    requires Ranked(instrs, rank) && InputsBelow(rank, i, above)
    requires CacheOk(instrs, fixed, rank, cache)
    ensures r == GateValue(instrs, fixed, rank, i, above)
    ensures CacheOk(instrs, fixed, rank, cache') && Grows(cache, cache')
    decreases above, 4
  {
    match i {
    case Value(o) =>
      r, cache' := ExecuteOperand(instrs, cache, o, fixed, rank, above);
    case Not(o) =>
      var v;
      v, cache' := ExecuteOperand(instrs, cache, o, fixed, rank, above);
      if v.Err? { return Err(v.error), cache'; }
      r := Ok(Complement(v.value));
    case _ =>
      r, cache' := ExecuteBinary(instrs, cache, i, fixed, rank, above);
    }
  }

  method ExecuteBinary(instrs: map<string, Instruction>, cache: map<string, U16>, i: Instruction,
                       ghost fixed: map<string, U16>, ghost rank: map<string, nat>, ghost above: nat)
    returns (r: Result<U16, string>, cache': map<string, U16>)
    requires !i.Value? && !i.Not?
    requires Ranked(instrs, rank) && InputsBelow(rank, i, above)
    requires CacheOk(instrs, fixed, rank, cache)
    ensures r == BinaryValue(instrs, fixed, rank, i, above)
    ensures CacheOk(instrs, fixed, rank, cache') && Grows(cache, cache')
    decreases above, 3
  {
    var l, mid := ExecuteOperand(instrs, cache, i.lh, fixed, rank, above);
    if l.Err? {
      return Err(l.error), mid;
    }
    r, cache' := ExecuteRight(instrs, mid, i, l.value, fixed, rank, above);
    GrowsTransitive(cache, mid, cache');
  }

  method ExecuteRight(instrs: map<string, Instruction>, cache: map<string, U16>, i: Instruction, l: U16,
                      ghost fixed: map<string, U16>, ghost rank: map<string, nat>, ghost above: nat)
    returns (r: Result<U16, string>, cache': map<string, U16>)
    requires !i.Value? && !i.Not?
    requires Ranked(instrs, rank) && InputsBelow(rank, i, above)
    requires CacheOk(instrs, fixed, rank, cache)
    ensures r == RightThenGate(instrs, fixed, rank, i, l, above)
    ensures CacheOk(instrs, fixed, rank, cache') && Grows(cache, cache')
    decreases above, 2
  {
    var rh;
    rh, cache' := ExecuteOperand(instrs, cache, i.rh, fixed, rank, above);
    r := if rh.Err? then Err(rh.error) else Gate(i, l, rh.value);
  }

  lemma GrowsTransitive(a: map<string, U16>, b: map<string, U16>, c: map<string, U16>)
    requires Grows(a, b) && Grows(b, c)
    ensures Grows(a, c)
  {
  }

  /** Recording a wire's true signal keeps the memo table consistent. */
  lemma CacheInsert(instrs: map<string, Instruction>, fixed: map<string, U16>,
                    rank: map<string, nat>, cache: map<string, U16>, name: string, v: U16)
    requires Ranked(instrs, rank) && name in rank && name !in fixed
    requires CacheOk(instrs, fixed, rank, cache)
    requires WireValue(instrs, fixed, rank, name) == Ok(v)
    ensures CacheOk(instrs, fixed, rank, cache[name := v])
  {
  }

  /** Evaluates wire `name` and records its signal in the memo table. */
  method Execute(instrs: map<string, Instruction>, cache: map<string, U16>, name: string,
                 ghost fixed: map<string, U16>, ghost rank: map<string, nat>)
    returns (r: Result<U16, string>, cache': map<string, U16>)
    requires Ranked(instrs, rank) && name in rank && name !in cache
    requires CacheOk(instrs, fixed, rank, cache)
    ensures r == WireValue(instrs, fixed, rank, name)
    ensures r.Ok? ==> name in cache' && cache'[name] == r.value
    ensures CacheOk(instrs, fixed, rank, cache') && Grows(cache, cache')
    decreases rank[name] + 1, 0
  {
    if name !in instrs {
      return Err("Instruction not found"), cache;
    }
    var mid;
    r, mid := ExecuteGate(instrs, cache, instrs[name], fixed, rank, rank[name]);
    if r.Err? {
      return r, mid;
    }
    CacheInsert(instrs, fixed, rank, mid, name, r.value);
    cache' := mid[name := r.value];
  }

  /** Both parts: the signal on wire `a`, then the signal on `a` again once
      wire `b` is held at the first answer. */
  method BothParts(instrs: map<string, Instruction>, ghost rank: map<string, nat>)
    returns (r: Result<(U16, U16), string>)
    requires Ranked(instrs, rank) && "a" in rank
    ensures var first := WireValue(instrs, map[], rank, "a");
            if first.Err? then r == Err(first.error)
            else
              var second := WireValue(instrs, map["b" := first.value], rank, "a");
              r == if second.Err? then Err(second.error) else Ok((first.value, second.value))
  {
    var first, _ := Execute(instrs, map[], "a", map[], rank);
    if first.Err? {
      return Err(first.error);
    }
    var seeded := map["b" := first.value];
    var second, _ := Execute(instrs, seeded, "a", seeded, rank);
    if second.Err? {
      return Err(second.error);
    }
    r := Ok((first.value, second.value));
  }

  /** Holding wires at the signals they would carry anyway changes no signal. */
  lemma {:induction false} SeedingTrueValues(instrs: map<string, Instruction>, fixed: map<string, U16>,
                                             rank: map<string, nat>, name: string)
    requires Ranked(instrs, rank) && name in rank
    requires forall k :: k in fixed ==> k in rank && WireValue(instrs, map[], rank, k) == Ok(fixed[k])
    ensures WireValue(instrs, fixed, rank, name) == WireValue(instrs, map[], rank, name)
    decreases rank[name], 1
  {
    if name in instrs {
      var i := instrs[name];
      match i
      case Value(o) => SeedingOperand(instrs, fixed, rank, o, rank[name]);
      case Not(o) => SeedingOperand(instrs, fixed, rank, o, rank[name]);
      case _ =>
        SeedingOperand(instrs, fixed, rank, i.lh, rank[name]);
        SeedingOperand(instrs, fixed, rank, i.rh, rank[name]);
        var a := rank[name];
        var l := OperandValue(instrs, map[], rank, i.lh, a);
        if l.Ok? {
          assert RightThenGate(instrs, fixed, rank, i, l.value, a) == RightThenGate(instrs, map[], rank, i, l.value, a);
        }
        assert BinaryValue(instrs, fixed, rank, i, a) == BinaryValue(instrs, map[], rank, i, a);
        assert WireValue(instrs, fixed, rank, name) == BinaryValue(instrs, fixed, rank, i, a);
        assert WireValue(instrs, map[], rank, name) == BinaryValue(instrs, map[], rank, i, a);
    }
  }

  lemma {:induction false} SeedingOperand(instrs: map<string, Instruction>, fixed: map<string, U16>,
                                          rank: map<string, nat>, o: Operand, above: nat)
    requires Ranked(instrs, rank) && OperandBelow(rank, o, above)
    requires forall k :: k in fixed ==> k in rank && WireValue(instrs, map[], rank, k) == Ok(fixed[k])
    ensures OperandValue(instrs, fixed, rank, o, above) == OperandValue(instrs, map[], rank, o, above)
    decreases above, 0
  {
    if o.Ref? && o.name !in fixed {
      SeedingTrueValues(instrs, fixed, rank, o.name);
    }
  }
}
