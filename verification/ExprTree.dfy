/** Recovered expressions as trees, how one operation is turned into a tree over
    its operands, and what trees mean in an execution. */
module ExprTree {
  import opened Basics
  import opened Ssa

  /** A hole stands for an operand that is still to be recovered; a Not stands for
      the negation of a recovered boolean expression. */
  datatype Tree =
    | Hole(hole: Value)
    | Leaf(leaf: Value)
    | Unk(origin: Value)
    | Lit(bits: nat, n: nat)
    | Truth(b: bool)
    | Zero
    | Malformed
    | Bin(token: Token, left: Tree, right: Tree)
    | Not(operand: Tree)
    | Fn(name: Name, args: Trees)
    | Sel(condition: Tree, whenTrue: Tree, whenFalse: Tree)

  datatype Trees = Nil | Cons(head: Tree, tail: Trees)

  function Holes(vs: seq<Value>): Trees
  {
    if vs == [] then Nil else Cons(Hole(vs[0]), Holes(vs[1..]))
  }

  function Call1(name: Name, arg: Tree): Tree
  {
    Fn(name, Cons(arg, Nil))
  }

  // ---------- effects ----------

  // the mask in clobbers_load
  predicate Clobbers(op: Op)
  {
    op.opcode in {Store, Call, OpaqueEffect, MemoryBarrier} ||
    op.effects.writeMemory || op.effects.isVolatile || op.effects.atomic || op.effects.barrier
  }

  // the mask in can_expand
  predicate Effectful(op: Op)
  {
    var e := op.effects;
    e.readMemory || e.writeMemory || e.mayFault || e.isVolatile || e.atomic || e.barrier || e.mayThrow || e.noReturn ||
    op.opcode in {Store, Call, OpaquePure, OpaqueEffect, MemoryBarrier}
  }

  // ---------- from an operation to a tree ----------

  function Binary(t: Token, inputs: seq<Value>): Tree
  {
    if |inputs| < 2 then Malformed else Bin(t, Hole(inputs[0]), Hole(inputs[1]))
  }

  function TokenOf(opcode: Opcode): Option<Token>
  {
    match opcode
    case Add | AddrAdd => Some(Plus)
    case Sub | AddrSub => Some(Minus)
    case Mul => Some(Times)
    case UDiv => Some(DivU)
    case SDiv => Some(DivS)
    case URem => Some(RemU)
    case SRem => Some(RemS)
    case And => Some(Amp)
    case Or => Some(Bar)
    case Shl => Some(ShiftL)
    case LShr => Some(ShiftU)
    case AShr => Some(ShiftS)
    case _ => None
  }

  function ComparisonOf(opcode: Opcode): Option<Token>
  {
    match opcode
    case Eq => Some(Equal)
    case Ne => Some(NotEqual)
    case ULt => Some(LessU)
    case ULe => Some(AtMostU)
    case SLt => Some(LessS)
    case SLe => Some(AtMostS)
    case _ => None
  }

  function FlagOpcode(opcode: Opcode): Option<Flag>
  {
    match opcode
    case FlagZf => Some(Zf)
    case FlagCf => Some(Cf)
    case FlagOf => Some(Of)
    case FlagSf => Some(Sf)
    case FlagPf => Some(Pf)
    case FlagAf => Some(Af)
    case _ => None
  }

  function FlagsOpcode(opcode: Opcode): Option<FlagsOp>
  {
    match opcode
    case FlagsAdd => Some(OfAdd)
    case FlagsSub => Some(OfSub)
    case FlagsLogic => Some(OfLogic)
    case FlagsShl => Some(OfShl)
    case _ => None
  }

  // constant_boolean
  function ConstantBoolean(m: Module, v: Value): Option<bool>
  {
    if m.HasValue(v) && m.TypeOf(v).bits == 1 && m.Definition(v).Some? && m.Defining(v).opcode == Const
    then Some(m.Defining(v).low % 2 == 1)
    else None
  }

  /** One operand is a boolean constant: what remains of the comparison with it. */
  function AgainstConstant(m: Module, inputs: seq<Value>, negateOn: bool): Option<Tree>
    requires |inputs| >= 2
  {
    match ConstantBoolean(m, inputs[1])
    case Some(constant) => Some(if constant == negateOn then Not(Hole(inputs[0])) else Hole(inputs[0]))
    case None =>
      match ConstantBoolean(m, inputs[0])
      case Some(constant) => Some(if constant == negateOn then Not(Hole(inputs[1])) else Hole(inputs[1]))
      case None => None
  }

  // render_comparison
  function ComparisonShape(m: Module, opcode: Opcode, token: Token, inputs: seq<Value>): Tree
  {
    if |inputs| < 2 then Malformed
    else
      var collapsed :=
        if opcode == Eq then AgainstConstant(m, inputs, false)
        else if opcode == Ne then AgainstConstant(m, inputs, true)
        else None;
      if collapsed.Some? then collapsed.value else Binary(token, inputs)
  }

  function XorShape(m: Module, bits: nat, inputs: seq<Value>): Tree
  {
    var collapsed := if |inputs| >= 2 && bits == 1 then AgainstConstant(m, inputs, true) else None;
    if collapsed.Some? then collapsed.value else Binary(Caret, inputs)
  }

  /** The operation that made the flags is part of the recovered expression. */
  function FlagSource(m: Module, flags: Value): Option<OpId>
  {
    if m.Definition(flags).Some? && m.Defining(flags).inputs != [] &&
       m.Defining(flags).opcode in {FlagsAdd, FlagsSub, FlagsLogic}
    then m.Definition(flags) else None
  }

  // render_flag
  function FlagShape(m: Module, flag: Flag, flags: Value): Tree
  {
    var named := Call1(FlagNamed(flag), Leaf(flags));
    if FlagSource(m, flags).None? then named
    else FlagTree(flag, FlagsOpcode(m.Defining(flags).opcode).value, m.Defining(flags).inputs)
  }

  /** A flag in terms of the operands of the operation that made it. */
  function FlagTree(flag: Flag, op: FlagsOp, inputs: seq<Value>): Tree
    requires inputs != []
  {
    if op == OfSub && |inputs| >= 2 && flag == Zf then Binary(Equal, inputs)
    else if op == OfSub && |inputs| >= 2 && flag == Cf then Binary(LessU, inputs)
    else
      var result := if op == OfLogic then Hole(inputs[0])
                    else Binary(if op == OfAdd then Plus else Minus, inputs);
      if flag == Zf then Bin(Equal, result, Zero)
      else if flag == Sf then Call1(SignBit, result)
      else if flag == Pf then Call1(Parity, result)
      else Call1(FlagAfter(flag, op), result)
  }

  function CastShape(m: Module, opcode: Opcode, type_: Type, inputs: seq<Value>): Tree
  {
    if inputs == [] then Malformed
    else if m.TypeOf(inputs[0]) == type_ then Hole(inputs[0])
    else if opcode == Trunc && m.Definition(inputs[0]).Some? && m.Defining(inputs[0]).opcode in {ZExt, SExt} &&
            |m.Defining(inputs[0]).inputs| == 1 && m.TypeOf(m.Defining(inputs[0]).inputs[0]) == type_
    then Hole(m.Defining(inputs[0]).inputs[0])
    else Call1(Cast(opcode, type_.bits), Hole(inputs[0]))
  }

  function ScalarInputs(m: Module, vs: seq<Value>): seq<Value>
  {
    if vs == [] then []
    else (if m.TypeOf(vs[0]).kind == MemKind then [] else [vs[0]]) + ScalarInputs(m, vs[1..])
  }

  /** The last input that is no memory, which an indirect call goes to. */
  function TargetIndex(m: Module, inputs: seq<Value>): nat
    requires inputs != []
    ensures TargetIndex(m, inputs) < |inputs|
  {
    var last := |inputs| - 1;
    if last != 0 && m.TypeOf(inputs[last]).kind == MemKind then TargetIndex(m, inputs[..last]) else last
  }

  // render_call: the callee of an indirect call, then the arguments
  function CallOperands(m: Module, op: Op): seq<Value>
  {
    if op.indirect && op.inputs != [] then
      var target := TargetIndex(m, op.inputs);
      [op.inputs[target]] + ScalarInputs(m, op.inputs[..target])
    else ScalarInputs(m, op.inputs)
  }

  function ConstantNumber(bits: nat, low: nat): nat
  {
    if 0 < bits < 64 then low % Pow2(bits) else low
  }

  function CastOpcodes(): set<Opcode>
  {
    {ZExt, SExt, Trunc, IntToAddr, AddrToInt}
  }

  // render_operation
  function ShapeOf(m: Module, v: Value, id: OpId, op: Op): Tree
  {
    var inputs, type_ := op.inputs, m.TypeOf(v);
    var token, comparison, flag, flags :=
      TokenOf(op.opcode), ComparisonOf(op.opcode), FlagOpcode(op.opcode), FlagsOpcode(op.opcode);
    if token.Some? then Binary(token.value, inputs)
    else if comparison.Some? then ComparisonShape(m, op.opcode, comparison.value, inputs)
    else if flag.Some? then
      if inputs == [] then Malformed else FlagShape(m, flag.value, inputs[0])
    else if flags.Some? then Fn(FlagsMade(flags.value), Holes(inputs))
    else if op.opcode == Const then
      if type_ == Type(IntKind, 1) then Truth(op.low % 2 == 1) else Lit(type_.bits, ConstantNumber(type_.bits, op.low))
    else if op.opcode == ConstWide then Lit(type_.bits, op.high * TWO64 + op.low)
    else if op.opcode == Xor then XorShape(m, type_.bits, inputs)
    else if op.opcode in {Rol, Ror, Concat} then Fn(Rotation(op.opcode), Holes(inputs))
    else if op.opcode in CastOpcodes() then CastShape(m, op.opcode, type_, inputs)
    else if op.opcode == Extract then
      if inputs == [] then Malformed else Call1(Extracted(op.low, type_.bits), Hole(inputs[0]))
    else if op.opcode == Select then
      if |inputs| < 3 then Malformed else Sel(Hole(inputs[0]), Hole(inputs[1]), Hole(inputs[2]))
    else if op.opcode == Load then
      if |inputs| < 2 then Malformed else Call1(Loaded(type_.bits), Hole(inputs[1]))
    else if op.opcode == Store then
      if |inputs| < 3 then Malformed else Fn(Effect(id, v), Cons(Hole(inputs[1]), Cons(Hole(inputs[2]), Nil)))
    else if op.opcode == Call then Fn(Effect(id, v), Holes(CallOperands(m, op)))
    else if op.opcode in {Opcode.Unknown, Undef} then Unk(v)
    else Fn(if Effectful(op) then Effect(id, v) else Pure(id), Holes(inputs))
  }

  // ---------- what trees mean ----------

  function Eval(run: Run, memory: Memory, t: Tree): Datum
  {
    match t
    case Hole(v) => run.value(v)
    case Leaf(v) => run.value(v)
    case Unk(v) => run.value(v)
    case Lit(bits, n) => Word(bits, n)
    case Truth(b) => Bool(b)
    case Zero => Word(0, 0)
    case Malformed => Other(0)
    case Bin(token, l, r) => Arithmetic(run, token, Eval(run, memory, l), Eval(run, memory, r))
    case Not(e) => Bool(Num(Eval(run, memory, e)) == 0)
    case Fn(name, args) => Apply(run, memory, name, EvalAll(run, memory, args), Operands(run, memory, args))
    case Sel(c, a, b) => if Num(Eval(run, memory, c)) != 0 then Eval(run, memory, a) else Eval(run, memory, b)
  }

  function EvalAll(run: Run, memory: Memory, ts: Trees): seq<Datum>
  {
    match ts
    case Nil => []
    case Cons(t, rest) => [Eval(run, memory, t)] + EvalAll(run, memory, rest)
  }

  /** The operands of the arithmetic operation that is the only argument. */
  function Operands(run: Run, memory: Memory, ts: Trees): seq<Datum>
  {
    match ts
    case Cons(Bin(token, l, r), Nil) =>
      if token in {Plus, Minus} then [Eval(run, memory, l), Eval(run, memory, r)] else []
    case _ => []
  }

  /** The function a name denotes. A flag after an addition or a subtraction is a
      function of the operands that its argument spells out, not of their result. */
  function Apply(run: Run, memory: Memory, name: Name, args: seq<Datum>, operands: seq<Datum>): Datum
  {
    var first := if args == [] then Other(0) else args[0];
    match name
    case Cast(opcode, bits) => CastValue(opcode, first, bits)
    case Loaded(bits) => run.read(memory, first, bits)
    case SignBit => Bool(IsNegative(first))
    case FlagNamed(flag) => FlagValue(run, flag, first)
    case FlagAfter(flag, op) => run.pure(name, if op == OfLogic then args else operands)
    case FlagsMade(op) => FlagWord(op, args)
    case Effect(_, _) => run.effect(name, memory, args)
    case _ => run.pure(name, args)
  }
}
