/** The SSA module that expression recovery reads, and what one execution of it
    assigns to its values: the axioms about operations that recovery relies on. */
module Ssa {
  import opened Basics

  type Value = nat
  type OpId = nat

  datatype Kind = IntKind | AddrKind | FlagsKind | MemKind

  datatype Type = Type(kind: Kind, bits: nat)

  datatype Opcode =
    | Const | ConstWide
    | Add | AddrAdd | Sub | AddrSub | Mul | UDiv | SDiv | URem | SRem
    | And | Or | Xor | Shl | LShr | AShr | Rol | Ror | Concat
    | Eq | Ne | ULt | ULe | SLt | SLe
    | ZExt | SExt | Trunc | IntToAddr | AddrToInt | Extract | Select
    | Load | Store | Call
    | FlagZf | FlagCf | FlagOf | FlagSf | FlagPf | FlagAf
    | FlagsAdd | FlagsSub | FlagsLogic | FlagsShl
    | Unknown | Undef | OpaquePure | OpaqueEffect | Intrinsic | MemoryBarrier

  datatype Effects = Effects(
    readMemory: bool, writeMemory: bool, mayFault: bool, isVolatile: bool,
    atomic: bool, barrier: bool, mayThrow: bool, noReturn: bool)

  datatype Location = Location(block: nat, position: nat)

  datatype Op = Op(opcode: Opcode, inputs: seq<Value>, low: nat, high: nat, effects: Effects,
                   location: Option<Location>, indirect: bool)

  /** Types, definitions and use counts are indexed by value. */
  datatype Module = Module(types: seq<Type>, definitions: seq<Option<OpId>>, uses: seq<nat>,
                           ops: seq<Op>, blocks: seq<seq<OpId>>)
  {
    predicate HasValue(v: Value) { v < |types| && v < |definitions| && v < |uses| }

    function TypeOf(v: Value): Type
    {
      if v < |types| then types[v] else Type(IntKind, 0)
    }

    /** The operation that defines a value, if there is one in the module. */
    function Definition(v: Value): Option<OpId>
    {
      if v < |definitions| && definitions[v].Some? && definitions[v].value < |ops| then definitions[v] else None
    }

    function Defining(v: Value): Op
      requires Definition(v).Some?
    {
      ops[definitions[v].value]
    }
  }

  // ---------- data ----------

  function Pow2(n: nat): (r: nat)
    ensures r >= 1
  {
    if n == 0 then 1 else 2 * Pow2(n - 1)
  }

  /** How the flags of an arithmetic operation came about. */
  datatype FlagsOp = OfAdd | OfSub | OfLogic | OfShl

  datatype Flag = Zf | Cf | Of | Sf | Pf | Af

  /** Machine words, flag words that remember their operation, and anything else. */
  datatype Datum = Word(bits: nat, n: nat) | FlagWord(op: FlagsOp, operands: seq<Datum>) | Other(id: nat)

  function Num(d: Datum): nat
  {
    if d.Word? then d.n else 0
  }

  function Width(d: Datum): nat
  {
    if d.Word? then d.bits else 0
  }

  function Bool(b: bool): Datum
  {
    Word(1, if b then 1 else 0)
  }

  function Signed(d: Datum): int
  {
    if Width(d) > 0 && Num(d) >= Pow2(Width(d) - 1) then Num(d) - Pow2(Width(d)) else Num(d)
  }

  function SignExtended(d: Datum, bits: nat): Datum
  {
    Word(bits, Signed(d) % Pow2(bits))
  }

  function Truncated(d: Datum, bits: nat): Datum
  {
    Word(bits, Num(d) % Pow2(bits))
  }

  // ---------- operators ----------

  /** The binary operators of recovered expressions. */
  datatype Token =
    | Plus | Minus | Times | DivU | DivS | RemU | RemS
    | Amp | Bar | Caret | ShiftL | ShiftU | ShiftS
    | Equal | NotEqual | LessU | AtMostU | LessS | AtMostS
    | AtLeastU | GreaterU | AtLeastS | GreaterS

  predicate Compares(t: Token)
  {
    t in {Equal, NotEqual, LessU, AtMostU, LessS, AtMostS, AtLeastU, GreaterU, AtLeastS, GreaterS}
  }

  function Compare(t: Token, a: Datum, b: Datum): bool
    requires Compares(t)
  {
    match t
    case Equal => Num(a) == Num(b)
    case NotEqual => Num(a) != Num(b)
    case LessU => Num(a) < Num(b)
    case AtMostU => Num(a) <= Num(b)
    case AtLeastU => Num(a) >= Num(b)
    case GreaterU => Num(a) > Num(b)
    case LessS => Signed(a) < Signed(b)
    case AtMostS => Signed(a) <= Signed(b)
    case AtLeastS => Signed(a) >= Signed(b)
    case _ => Signed(a) > Signed(b)
  }

  /** The names of rendered functions. Those of opaque operations carry the operation. */
  datatype Name =
    | Cast(opcode: Opcode, bits: nat)
    | Extracted(low: nat, bits: nat)
    | Rotation(opcode: Opcode)
    | Loaded(bits: nat)
    | SignBit
    | Parity
    | FlagNamed(flag: Flag)
    | FlagAfter(flag: Flag, op: FlagsOp)
    | FlagsMade(op: FlagsOp)
    | Pure(id: OpId)
    | Effect(id: OpId, value: Value)

  type Memory = nat -> nat

  /** One execution: the value of every SSA value, the memory just before every
      operation, and the functions that uninterpreted operations compute in it. */
  datatype Run = Run(
    value: Value -> Datum,
    before: OpId -> Memory,
    read: (Memory, Datum, nat) -> Datum,
    arithmetic: (Token, Datum, Datum) -> Datum,
    pure: (Name, seq<Datum>) -> Datum,
    effect: (Name, Memory, seq<Datum>) -> Datum)

  function Arithmetic(run: Run, t: Token, a: Datum, b: Datum): Datum
  {
    if Compares(t) then Bool(Compare(t, a, b))
    else if t == Plus then Word(Width(a), (Num(a) + Num(b)) % Pow2(Width(a)))
    else if t == Minus then Word(Width(a), (Num(a) - Num(b)) % Pow2(Width(a)))
    else if t == Caret && Width(a) == 1 && Width(b) == 1 then Bool(Num(a) != Num(b))
    else run.arithmetic(t, a, b)
  }

  /** The result an operation's flags describe. */
  function FlagsResult(run: Run, op: FlagsOp, operands: seq<Datum>): Datum
  {
    if |operands| >= 2 && op == OfAdd then Arithmetic(run, Plus, operands[0], operands[1])
    else if |operands| >= 2 && op == OfSub then Arithmetic(run, Minus, operands[0], operands[1])
    else if |operands| >= 1 && op == OfLogic then operands[0]
    else Other(0)
  }

  function IsNegative(d: Datum): bool
  {
    Width(d) > 0 && Num(d) >= Pow2(Width(d) - 1)
  }

  /** A flag of a flag word: zero and sign of the result, borrow of a subtraction;
      the rest is left to the run. Logic flags depend on the result alone. */
  function FlagValue(run: Run, flag: Flag, d: Datum): Datum
  {
    if !d.FlagWord? || d.op == OfShl then run.pure(FlagNamed(flag), [d])
    else
      var result := FlagsResult(run, d.op, d.operands);
      if flag == Zf then Bool(Num(result) == 0)
      else if flag == Sf then Bool(IsNegative(result))
      else if flag == Pf then run.pure(Parity, [result])
      else if flag == Cf && d.op == OfSub && |d.operands| >= 2 then
        Bool(Num(d.operands[0]) < Num(d.operands[1]))
      else run.pure(FlagAfter(flag, d.op), if d.op == OfLogic && d.operands != [] then d.operands[..1] else d.operands)
  }

  function CastValue(opcode: Opcode, d: Datum, bits: nat): Datum
  {
    match opcode
    case ZExt => Word(bits, Num(d))
    case SExt => SignExtended(d, bits)
    case _ => Truncated(d, bits)
  }
}
