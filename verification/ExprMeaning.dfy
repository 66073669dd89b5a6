/** The meaning of operations in an execution, independently of how they are
    rendered, and the proof that every rendered shape has that meaning. */
module ExprMeaning {
  import opened Basics
  import opened Ssa
  import opened ExprTree

  // ---------- the axioms of the model ----------

  function Values(run: Run, vs: seq<Value>): seq<Datum>
  {
    if vs == [] then [] else [run.value(vs[0])] + Values(run, vs[1..])
  }

  function In(run: Run, op: Op, i: nat): Datum
  {
    if i < |op.inputs| then run.value(op.inputs[i]) else Other(0)
  }

  /** What an operation computes when it executes. */
  function Meaning(m: Module, run: Run, v: Value, id: OpId, op: Op): Datum
  {
    var bits := m.TypeOf(v).bits;
    var token, comparison, flag, flags :=
      TokenOf(op.opcode), ComparisonOf(op.opcode), FlagOpcode(op.opcode), FlagsOpcode(op.opcode);
    if token.Some? then Arithmetic(run, token.value, In(run, op, 0), In(run, op, 1))
    else if comparison.Some? then Bool(Compare(comparison.value, In(run, op, 0), In(run, op, 1)))
    else if flag.Some? then FlagValue(run, flag.value, In(run, op, 0))
    else if flags.Some? then FlagWord(flags.value, Values(run, op.inputs))
    else if op.opcode == Const then Word(bits, op.low % Pow2(bits))
    else if op.opcode == ConstWide then Word(bits, op.high * TWO64 + op.low)
    else if op.opcode == Xor then Arithmetic(run, Caret, In(run, op, 0), In(run, op, 1))
    else if op.opcode in {Rol, Ror, Concat} then run.pure(Rotation(op.opcode), Values(run, op.inputs))
    else if op.opcode in CastOpcodes() then CastValue(op.opcode, In(run, op, 0), bits)
    else if op.opcode == Extract then run.pure(Extracted(op.low, bits), [In(run, op, 0)])
    else if op.opcode == Select then if Num(In(run, op, 0)) != 0 then In(run, op, 1) else In(run, op, 2)
    else if op.opcode == Load then run.read(run.before(id), In(run, op, 1), bits)
    else if op.opcode == Store then run.effect(Effect(id, v), run.before(id), [In(run, op, 1), In(run, op, 2)])
    else if op.opcode == Call then run.effect(Effect(id, v), run.before(id), Values(run, CallOperands(m, op)))
    else if op.opcode in {Opcode.Unknown, Undef} then run.value(v)
    else if Effectful(op) then run.effect(Effect(id, v), run.before(id), Values(run, op.inputs))
    else run.pure(Pure(id), Values(run, op.inputs))
  }

  predicate IsWord(m: Module, v: Value)
  {
    m.HasValue(v) && m.types[v].kind in {IntKind, AddrKind} && m.types[v].bits > 0
  }

  predicate SameWidth(m: Module, v: Value, w: Value)
  {
    IsWord(m, v) && IsWord(m, w) && m.types[v].bits == m.types[w].bits
  }

  predicate TwoWords(m: Module, inputs: seq<Value>)
  {
    |inputs| >= 2 && SameWidth(m, inputs[0], inputs[1])
  }

  /** Arity and widths as the IR demands them, and that a load does nothing but read:
      recovery asks of a load only whether it is volatile or atomic. */
  predicate WellFormedOp(m: Module, v: Value, op: Op)
  {
    var inputs := op.inputs;
    && (TokenOf(op.opcode).Some? ==> |inputs| == 2)
    && (ComparisonOf(op.opcode).Some? ==> TwoWords(m, inputs))
    && (FlagOpcode(op.opcode).Some? ==> |inputs| == 1)
    && (op.opcode in {FlagsAdd, FlagsSub} ==> |inputs| == 2 && TwoWords(m, inputs))
    && (op.opcode == FlagsLogic ==> |inputs| >= 1 && IsWord(m, inputs[0]))
    && (op.opcode == Const ==> IsWord(m, v) && op.low < Pow2(m.types[v].bits))
    && (op.opcode == Xor ==> TwoWords(m, inputs) && SameWidth(m, v, inputs[0]))
    && (op.opcode in CastOpcodes() + {Extract} ==> |inputs| == 1 && IsWord(m, v) && IsWord(m, inputs[0]))
    && (op.opcode in {ZExt, SExt} ==> m.TypeOf(inputs[0]).bits <= m.TypeOf(v).bits)
    && (op.opcode == Select ==> |inputs| == 3)
    && (op.opcode == Load ==> |inputs| == 2 && !op.effects.writeMemory && !op.effects.barrier)
    && (op.opcode == Store ==> |inputs| == 3)
  }

  ghost predicate WellFormed(m: Module)
  {
    && |m.types| == |m.definitions| == |m.uses|
    && (forall v: Value :: WellFormedAt(m, v))
    && (forall id :: 0 <= id < |m.ops| && m.ops[id].location.Some? ==> Placed(m, id))
  }

  predicate WellFormedAt(m: Module, v: Value)
  {
    m.HasValue(v) && m.Definition(v).Some? ==> WellFormedOp(m, v, m.Defining(v))
  }

  /** The recorded location of an operation is where its block lists it. */
  predicate Placed(m: Module, id: OpId)
    requires id < |m.ops| && m.ops[id].location.Some?
  {
    var at := m.ops[id].location.value;
    at.block < |m.blocks| && at.position < |m.blocks[at.block]| && m.blocks[at.block][at.position] == id
  }

  /** A word keeps to the width of its type. */
  predicate TypedAt(m: Module, run: Run, v: Value)
  {
    IsWord(m, v) ==> IsNumber(run.value(v), m.types[v].bits)
  }

  ghost predicate Typed(m: Module, run: Run)
  {
    forall v: Value :: TypedAt(m, run, v)
  }

  predicate IsNumber(d: Datum, bits: nat)
  {
    d.Word? && d.bits == bits && d.n < Pow2(bits)
  }

  predicate DefinedAt(m: Module, run: Run, v: Value)
  {
    m.Definition(v).Some? ==> run.value(v) == Meaning(m, run, v, m.Definition(v).value, m.Defining(v))
  }

  ghost predicate Defined(m: Module, run: Run)
  {
    forall v: Value :: DefinedAt(m, run, v)
  }

  /** Only clobbering operations change memory within a block. */
  ghost predicate Remembers(m: Module, run: Run)
  {
    forall b, p | 0 <= b < |m.blocks| && 0 <= p < |m.blocks[b]| - 1 && m.blocks[b][p] < |m.ops| ::
      !Clobbers(m.ops[m.blocks[b][p]]) ==> run.before(m.blocks[b][p + 1]) == run.before(m.blocks[b][p])
  }

  /** An execution in which every value is what its definition computes. */
  ghost predicate Execution(m: Module, run: Run)
  {
    Typed(m, run) && Defined(m, run) && Remembers(m, run)
  }

  /** Operations whose result depends on the memory they see. */
  predicate SeesMemory(op: Op)
  {
    op.opcode == Load || (Effectful(op) && op.opcode !in {Const, ConstWide, Opcode.Unknown, Undef})
  }

  // ---------- shapes have the meaning of their operation ----------

  lemma {:induction false} HolesEval(run: Run, memory: Memory, vs: seq<Value>)
    ensures EvalAll(run, memory, Holes(vs)) == Values(run, vs)
  {
    if vs != [] {
      HolesEval(run, memory, vs[1..]);
    }
  }

  lemma ValueOf(m: Module, run: Run, v: Value)
    requires WellFormed(m) && Execution(m, run) && m.Definition(v).Some?
    ensures run.value(v) == Meaning(m, run, v, m.Definition(v).value, m.Defining(v))
    ensures WellFormedOp(m, v, m.Defining(v))
  {
    hide Meaning, WellFormedOp;
    assert WellFormedAt(m, v) && DefinedAt(m, run, v);
  }

  lemma ConstantComputed(m: Module, run: Run, v: Value, id: OpId, op: Op)
    requires op.opcode == Const
    ensures Meaning(m, run, v, id, op) == Word(m.TypeOf(v).bits, op.low % Pow2(m.TypeOf(v).bits))
  {
    hide FlagValue, CastValue, CallOperands, Arithmetic, Values, Pow2;
  }

  lemma CastComputed(m: Module, run: Run, v: Value, id: OpId, op: Op)
    requires op.opcode in CastOpcodes()
    ensures Meaning(m, run, v, id, op) == CastValue(op.opcode, In(run, op, 0), m.TypeOf(v).bits)
  {
    hide FlagValue, CastValue, CallOperands, Arithmetic, Values, Pow2;
  }

  lemma FlagsComputed(m: Module, run: Run, v: Value, id: OpId, op: Op)
    requires FlagsOpcode(op.opcode).Some?
    ensures Meaning(m, run, v, id, op) == FlagWord(FlagsOpcode(op.opcode).value, Values(run, op.inputs))
  {
    hide FlagValue, CastValue, CallOperands, Arithmetic, Values, Pow2;
  }

  lemma BooleanConstant(m: Module, run: Run, v: Value)
    requires WellFormed(m) && Execution(m, run)
    requires ConstantBoolean(m, v).Some?
    ensures Num(run.value(v)) == (if ConstantBoolean(m, v).value then 1 else 0)
  {
    hide Meaning, WellFormed, Execution;
    ValueOf(m, run, v);
    ConstantComputed(m, run, v, m.Definition(v).value, m.Defining(v));
    assert Pow2(1) == 2;
  }

  /** Comparing a boolean with a constant keeps or negates it. */
  lemma CollapsedMeaning(m: Module, run: Run, memory: Memory, inputs: seq<Value>, negateOn: bool)
    requires WellFormed(m) && Execution(m, run) && TwoWords(m, inputs)
    requires AgainstConstant(m, inputs, negateOn).Some?
    ensures Eval(run, memory, AgainstConstant(m, inputs, negateOn).value)
            == Bool((Num(run.value(inputs[0])) == Num(run.value(inputs[1]))) != negateOn)
  {
    WordAt(m, run, inputs[0]);
    WordAt(m, run, inputs[1]);
    assert Pow2(1) == 2;
    hide WellFormed, Execution;
    if ConstantBoolean(m, inputs[1]).Some? {
      BooleanConstant(m, run, inputs[1]);
    } else {
      BooleanConstant(m, run, inputs[0]);
    }
  }

  lemma WordAt(m: Module, run: Run, v: Value)
    requires Typed(m, run) && IsWord(m, v)
    ensures IsNumber(run.value(v), m.types[v].bits)
  {
    assert TypedAt(m, run, v);
  }

  lemma ComparisonMeaning(m: Module, run: Run, memory: Memory, opcode: Opcode, inputs: seq<Value>)
    requires WellFormed(m) && Execution(m, run) && TwoWords(m, inputs)
    requires ComparisonOf(opcode).Some?
    ensures
      var token := ComparisonOf(opcode).value;
      Eval(run, memory, ComparisonShape(m, opcode, token, inputs))
      == Bool(Compare(token, run.value(inputs[0]), run.value(inputs[1])))
  {
    hide WellFormed, Typed, Defined, Remembers, AgainstConstant;
    if opcode == Eq && AgainstConstant(m, inputs, false).Some? {
      CollapsedMeaning(m, run, memory, inputs, false);
    } else if opcode == Ne && AgainstConstant(m, inputs, true).Some? {
      CollapsedMeaning(m, run, memory, inputs, true);
    }
  }

  lemma XorMeaning(m: Module, run: Run, memory: Memory, v: Value, inputs: seq<Value>)
    requires WellFormed(m) && Execution(m, run)
    requires TwoWords(m, inputs) && SameWidth(m, v, inputs[0])
    ensures Eval(run, memory, XorShape(m, m.types[v].bits, inputs))
            == Arithmetic(run, Caret, run.value(inputs[0]), run.value(inputs[1]))
  {
    hide WellFormed, Defined, Remembers, AgainstConstant;
    if m.types[v].bits == 1 && AgainstConstant(m, inputs, true).Some? {
      CollapsedMeaning(m, run, memory, inputs, true);
      WordAt(m, run, inputs[0]);
      WordAt(m, run, inputs[1]);
    }
  }

  // ---------- casts ----------

  lemma {:induction false} Pow2Split(a: nat, b: nat)
    requires a <= b
    ensures Pow2(b) == Pow2(b - a) * Pow2(a)
  {
    if a < b {
      Pow2Split(a, b - 1);
    }
  }

  lemma Pow2Grows(a: nat, b: nat)
    requires a <= b
    ensures Pow2(a) <= Pow2(b)
  {
    Pow2Split(a, b);
    Multiple(Pow2(b - a), Pow2(a));
  }

  lemma Multiple(k: nat, p: nat)
    requires k >= 1
    ensures p <= k * p
  {
  }

  /** Residues modulo a multiple of p keep their residue modulo p. */
  lemma ModMultiple(x: int, k: nat, p: nat)
    requires k >= 1 && p >= 1
    ensures (x % (k * p)) % p == x % p
  {
    var q := x / (k * p);
    var r := x % (k * p);
    assert x == q * (k * p) + r;
    Shifted(r, q * k, p);
    assert q * (k * p) == (q * k) * p;
  }

  lemma Shifted(r: int, q: int, p: nat)
    requires p >= 1
    ensures (q * p + r) % p == r % p
  {
    var a := r / p;
    var b := r % p;
    assert q * p + r == (q + a) * p + b by {
      assert r == a * p + b;
      assert (q + a) * p == q * p + a * p;
    }
    Residue(q + a, b, p);
  }

  lemma Residue(q: int, b: nat, p: nat)
    requires b < p
    ensures (q * p + b) % p == b
  {
    var x := q * p + b;
    var d := x / p;
    assert x == d * p + x % p;
    if d < q {
      Ordered(d + 1, q, p);
    } else if d > q {
      Ordered(q + 1, d, p);
    }
  }

  lemma Ordered(a: int, b: int, p: nat)
    requires a <= b
    ensures a * p <= b * p
  {
  }

  /** A sign-extended word keeps its residue at the original width. */
  lemma SignedResidue(d: Datum, bits: nat)
    requires IsNumber(d, bits) && bits > 0
    ensures Signed(d) % Pow2(bits) == d.n
  {
    if IsNegative(d) {
      Residue(-1, d.n, Pow2(bits));
    } else {
      Residue(0, d.n, Pow2(bits));
    }
  }

  lemma SameWidthCast(opcode: Opcode, d: Datum, bits: nat)
    requires IsNumber(d, bits) && bits > 0
    ensures CastValue(opcode, d, bits) == d
  {
    SignedResidue(d, bits);
    Residue(0, d.n, Pow2(bits));
  }

  /** Truncating an extension back to the original width undoes it. */
  lemma TruncatedExtension(opcode: Opcode, d: Datum, narrow: nat, wide: nat)
    requires opcode in {ZExt, SExt} && IsNumber(d, narrow) && 0 < narrow <= wide
    ensures CastValue(Trunc, CastValue(opcode, d, wide), narrow) == d
  {
    Residue(0, d.n, Pow2(narrow));
    if opcode == SExt {
      SignedResidue(d, narrow);
      Pow2Split(narrow, wide);
      ModMultiple(Signed(d), Pow2(wide - narrow), Pow2(narrow));
    }
  }

  /** What an extension in the module computes. */
  lemma ExtensionValue(m: Module, run: Run, x: Value)
    requires WellFormed(m) && Execution(m, run)
    requires m.Definition(x).Some? && m.Defining(x).opcode in {ZExt, SExt}
    ensures
      var extension := m.Defining(x);
      && |extension.inputs| == 1
      && IsWord(m, extension.inputs[0]) && m.TypeOf(extension.inputs[0]).bits <= m.TypeOf(x).bits
      && IsNumber(run.value(extension.inputs[0]), m.TypeOf(extension.inputs[0]).bits)
      && run.value(x) == CastValue(extension.opcode, run.value(extension.inputs[0]), m.TypeOf(x).bits)
  {
    var extension := m.Defining(x);
    hide Meaning, CastValue, Defined, Remembers, WellFormed;
    ValueOf(m, run, x);
    CastComputed(m, run, x, m.Definition(x).value, extension);
    WordAt(m, run, extension.inputs[0]);
  }

  lemma EvalCall1(run: Run, memory: Memory, name: Name, t: Tree)
    ensures Eval(run, memory, Call1(name, t)) ==
      Apply(run, memory, name, [Eval(run, memory, t)], Operands(run, memory, Cons(t, Nil)))
  {
    assert EvalAll(run, memory, Cons(t, Nil)) == [Eval(run, memory, t)];
  }

  lemma EvalHole(run: Run, memory: Memory, v: Value)
    ensures Eval(run, memory, Hole(v)) == run.value(v)
  {
  }

  lemma CastMeaning(m: Module, run: Run, memory: Memory, v: Value, op: Op)
    requires WellFormed(m) && Execution(m, run)
    requires op.opcode in CastOpcodes() && WellFormedOp(m, v, op)
    ensures Eval(run, memory, CastShape(m, op.opcode, m.TypeOf(v), op.inputs))
            == CastValue(op.opcode, run.value(op.inputs[0]), m.TypeOf(v).bits)
  {
    var x := op.inputs[0];
    var bits := m.TypeOf(v).bits;
    WordAt(m, run, x);
    EvalCall1(run, memory, Cast(op.opcode, bits), Hole(x));
    hide WellFormed, Typed, Defined, Remembers, CastValue, Eval;
    EvalHole(run, memory, x);
    if m.TypeOf(x) == m.TypeOf(v) {
      SameWidthCast(op.opcode, run.value(x), bits);
    } else if op.opcode == Trunc && m.Definition(x).Some? && m.Defining(x).opcode in {ZExt, SExt} {
      ExtensionValue(m, run, x);
      var y := m.Defining(x).inputs[0];
      EvalHole(run, memory, y);
      if m.TypeOf(y) == m.TypeOf(v) {
        TruncatedExtension(m.Defining(x).opcode, run.value(y), bits, m.TypeOf(x).bits);
      }
    }
  }

  // ---------- flags ----------

  /** A difference is zero just when the operands agree. */
  lemma ZeroDifference(a: nat, b: nat, p: nat)
    requires a < p && b < p
    ensures (a - b) % p == 0 <==> a == b
  {
    if a >= b {
      Residue(0, a - b, p);
    } else {
      Residue(-1, a - b + p, p);
    }
  }

  lemma FirstValues(run: Run, vs: seq<Value>)
    ensures |Values(run, vs)| == |vs|
    ensures |vs| >= 1 ==> Values(run, vs)[0] == run.value(vs[0])
    ensures |vs| >= 2 ==> Values(run, vs)[1] == run.value(vs[1])
  {
    if |vs| >= 2 {
      FirstValues(run, vs[1..]);
    }
  }

  /** What a rendered flag source says about the flag word. */
  lemma FlagSourceValue(m: Module, run: Run, flags: Value)
    requires WellFormed(m) && Execution(m, run) && FlagSource(m, flags).Some?
    ensures
      var made := m.Defining(flags);
      var op := FlagsOpcode(made.opcode).value;
      && run.value(flags) == FlagWord(op, Values(run, made.inputs))
      && op != OfShl
      && (op != OfLogic ==> |made.inputs| == 2 && TwoWords(m, made.inputs))
      && (op == OfLogic ==> |made.inputs| >= 1)
  {
    hide Meaning, WellFormed, Execution, Values;
    ValueOf(m, run, flags);
    FlagsComputed(m, run, flags, m.Definition(flags).value, m.Defining(flags));
  }

  lemma LogicFlagMeaning(run: Run, memory: Memory, flag: Flag, inputs: seq<Value>)
    requires inputs != []
    ensures Eval(run, memory, FlagTree(flag, OfLogic, inputs))
            == FlagValue(run, flag, FlagWord(OfLogic, Values(run, inputs)))
  {
    FirstValues(run, inputs);
    assert Values(run, inputs)[..1] == [run.value(inputs[0])];
    EvalCall1(run, memory, SignBit, Hole(inputs[0]));
    EvalCall1(run, memory, Parity, Hole(inputs[0]));
    EvalCall1(run, memory, FlagAfter(flag, OfLogic), Hole(inputs[0]));
  }

  lemma ResultMeaning(run: Run, memory: Memory, op: FlagsOp, inputs: seq<Value>)
    requires op in {OfAdd, OfSub} && |inputs| == 2
    ensures
      var result := Binary(if op == OfAdd then Plus else Minus, inputs);
      && Eval(run, memory, result) == FlagsResult(run, op, Values(run, inputs))
      && Operands(run, memory, Cons(result, Nil)) == Values(run, inputs)
  {
    FirstValues(run, inputs);
    assert Values(run, inputs) == [run.value(inputs[0]), run.value(inputs[1])];
  }

  lemma ZeroFlagMeaning(run: Run, memory: Memory, op: FlagsOp, inputs: seq<Value>, bits: nat)
    requires op in {OfAdd, OfSub} && |inputs| == 2
    requires IsNumber(run.value(inputs[0]), bits) && IsNumber(run.value(inputs[1]), bits)
    ensures Eval(run, memory, FlagTree(Zf, op, inputs))
            == Bool(Num(FlagsResult(run, op, Values(run, inputs))) == 0)
  {
    FirstValues(run, inputs);
    ResultMeaning(run, memory, op, inputs);
    assert Values(run, inputs) == [run.value(inputs[0]), run.value(inputs[1])];
    ZeroDifference(Num(run.value(inputs[0])), Num(run.value(inputs[1])), Pow2(bits));
  }

  lemma ArithmeticFlagMeaning(run: Run, memory: Memory, flag: Flag, op: FlagsOp, inputs: seq<Value>, bits: nat)
    requires op in {OfAdd, OfSub} && |inputs| == 2
    requires IsNumber(run.value(inputs[0]), bits) && IsNumber(run.value(inputs[1]), bits)
    ensures Eval(run, memory, FlagTree(flag, op, inputs))
            == FlagValue(run, flag, FlagWord(op, Values(run, inputs)))
  {
    FirstValues(run, inputs);
    if flag == Zf {
      ZeroFlagMeaning(run, memory, op, inputs, bits);
    } else if flag != Cf || op != OfSub {
      hide Arithmetic, Eval, EvalAll, Operands, FlagsResult, Binary, Values;
      ResultMeaning(run, memory, op, inputs);
      var result := Binary(if op == OfAdd then Plus else Minus, inputs);
      EvalCall1(run, memory, if flag == Sf then SignBit else if flag == Pf then Parity else FlagAfter(flag, op), result);
    }
  }

  lemma FlagMeaning(m: Module, run: Run, memory: Memory, flag: Flag, flags: Value)
    requires WellFormed(m) && Execution(m, run)
    ensures Eval(run, memory, FlagShape(m, flag, flags)) == FlagValue(run, flag, run.value(flags))
  {
    hide FlagValue, FlagTree;
    if FlagSource(m, flags).Some? {
      FlagSourceValue(m, run, flags);
      var inputs := m.Defining(flags).inputs;
      var op := FlagsOpcode(m.Defining(flags).opcode).value;
      if op == OfLogic {
        LogicFlagMeaning(run, memory, flag, inputs);
      } else {
        WordAt(m, run, inputs[0]);
        WordAt(m, run, inputs[1]);
        ArithmeticFlagMeaning(run, memory, flag, op, inputs, m.types[inputs[0]].bits);
      }
    } else {
      EvalCall1(run, memory, FlagNamed(flag), Leaf(flags));
    }
  }

  // ---------- all operations ----------

  lemma ConstantFits(bits: nat, low: nat)
    requires low < Pow2(bits)
    ensures ConstantNumber(bits, low) == low && low % Pow2(bits) == low
    ensures bits == 1 ==> low < 2
  {
    assert Pow2(1) == 2;
    Residue(0, low, Pow2(bits));
  }

  lemma ConstantMeaning(m: Module, run: Run, memory: Memory, v: Value, id: OpId, op: Op)
    requires op.opcode == Const && WellFormedOp(m, v, op)
    ensures Eval(run, memory, ShapeOf(m, v, id, op)) == Word(m.TypeOf(v).bits, op.low % Pow2(m.TypeOf(v).bits))
  {
    hide ConstantNumber, Pow2;
    ConstantFits(m.TypeOf(v).bits, op.low);
  }

  lemma GatheredMeaning(m: Module, run: Run, memory: Memory, v: Value, id: OpId, op: Op)
    requires FlagsOpcode(op.opcode).Some? || op.opcode in {Rol, Ror, Concat}
    ensures Eval(run, memory, ShapeOf(m, v, id, op)) == Meaning(m, run, v, id, op)
  {
    hide FlagShape, FlagTree, ComparisonShape, XorShape, CastShape, FlagValue, CastValue, CallOperands;
    hide Arithmetic, Values, EvalAll, Holes;
    HolesEval(run, memory, op.inputs);
  }

  lemma EffectMeaning(m: Module, run: Run, memory: Memory, v: Value, id: OpId, op: Op)
    requires SeesMemory(op) ==> memory == run.before(id)
    requires TokenOf(op.opcode).None? && ComparisonOf(op.opcode).None? && FlagOpcode(op.opcode).None?
    requires FlagsOpcode(op.opcode).None? && op.opcode !in {Rol, Ror, Concat}
    requires op.opcode !in CastOpcodes() + {Const, Xor, Extract, Load, Store, Select}
    ensures Eval(run, memory, ShapeOf(m, v, id, op)) == Meaning(m, run, v, id, op)
  {
    hide FlagShape, FlagTree, ComparisonShape, XorShape, CastShape, FlagValue, CastValue, CallOperands;
    hide Arithmetic, Values, EvalAll, Holes;
    HolesEval(run, memory, op.inputs);
    HolesEval(run, memory, CallOperands(m, op));
  }

  lemma UninterpretedMeaning(m: Module, run: Run, memory: Memory, v: Value, id: OpId, op: Op)
    requires SeesMemory(op) ==> memory == run.before(id)
    requires TokenOf(op.opcode).None? && ComparisonOf(op.opcode).None? && FlagOpcode(op.opcode).None?
    requires op.opcode !in CastOpcodes() + {Const, Xor, Extract, Load, Store, Select}
    ensures Eval(run, memory, ShapeOf(m, v, id, op)) == Meaning(m, run, v, id, op)
  {
    hide *;
    if FlagsOpcode(op.opcode).Some? || op.opcode in {Rol, Ror, Concat} {
      GatheredMeaning(m, run, memory, v, id, op);
    } else {
      EffectMeaning(m, run, memory, v, id, op);
    }
  }

  lemma TokenMeaning(m: Module, run: Run, memory: Memory, v: Value, id: OpId, op: Op)
    requires WellFormedOp(m, v, op)
    requires SeesMemory(op) ==> memory == run.before(id)
    requires TokenOf(op.opcode).Some?
    ensures Eval(run, memory, ShapeOf(m, v, id, op)) == Meaning(m, run, v, id, op)
  {
    hide FlagShape, FlagTree, ComparisonShape, XorShape, CastShape, FlagValue, CastValue, CallOperands;
  }

  lemma ReadMeaning(m: Module, run: Run, memory: Memory, v: Value, id: OpId, op: Op)
    requires WellFormedOp(m, v, op)
    requires SeesMemory(op) ==> memory == run.before(id)
    requires op.opcode in {Extract, Load}
    ensures Eval(run, memory, ShapeOf(m, v, id, op)) == Meaning(m, run, v, id, op)
  {
    hide FlagShape, FlagTree, ComparisonShape, XorShape, CastShape, FlagValue, CastValue, CallOperands, Arithmetic;
    if op.opcode == Extract {
      EvalCall1(run, memory, Extracted(op.low, m.TypeOf(v).bits), Hole(op.inputs[0]));
    } else {
      EvalCall1(run, memory, Loaded(m.TypeOf(v).bits), Hole(op.inputs[1]));
    }
  }

  lemma EvalCall2(run: Run, memory: Memory, name: Name, a: Value, b: Value)
    ensures
      var holes := Cons(Hole(a), Cons(Hole(b), Nil));
      Eval(run, memory, Fn(name, holes))
      == Apply(run, memory, name, [run.value(a), run.value(b)], Operands(run, memory, holes))
  {
    assert EvalAll(run, memory, Cons(Hole(b), Nil)) == [run.value(b)];
    assert EvalAll(run, memory, Cons(Hole(a), Cons(Hole(b), Nil))) == [run.value(a), run.value(b)];
  }

  lemma StoreMeaning(m: Module, run: Run, memory: Memory, v: Value, id: OpId, op: Op)
    requires WellFormedOp(m, v, op)
    requires SeesMemory(op) ==> memory == run.before(id)
    requires op.opcode == Store
    ensures Eval(run, memory, ShapeOf(m, v, id, op)) == Meaning(m, run, v, id, op)
  {
    hide FlagShape, FlagTree, ComparisonShape, XorShape, CastShape, FlagValue, CastValue, CallOperands, Arithmetic;
    EvalCall2(run, memory, Effect(id, v), op.inputs[1], op.inputs[2]);
  }

  lemma SelectMeaning(m: Module, run: Run, memory: Memory, v: Value, id: OpId, op: Op)
    requires WellFormedOp(m, v, op)
    requires SeesMemory(op) ==> memory == run.before(id)
    requires op.opcode == Select
    ensures Eval(run, memory, ShapeOf(m, v, id, op)) == Meaning(m, run, v, id, op)
  {
    hide FlagShape, FlagTree, ComparisonShape, XorShape, CastShape, FlagValue, CastValue, CallOperands, Arithmetic;
  }

  /** The shape of an operation, with every hole filled by its operand's value,
      is the value the operation defines. */
  lemma ShapeMeaning(m: Module, run: Run, memory: Memory, v: Value)
    requires WellFormed(m) && Execution(m, run) && m.Definition(v).Some?
    requires SeesMemory(m.Defining(v)) ==> memory == run.before(m.Definition(v).value)
    ensures Eval(run, memory, ShapeOf(m, v, m.Definition(v).value, m.Defining(v))) == run.value(v)
  {
    var id, op := m.Definition(v).value, m.Defining(v);
    ValueOf(m, run, v);
    hide WellFormed, Typed, Defined, Remembers, Eval, FlagShape, CastShape, XorShape, ComparisonShape;
    if TokenOf(op.opcode).Some? {
      TokenMeaning(m, run, memory, v, id, op);
    } else if op.opcode in {Extract, Load} {
      ReadMeaning(m, run, memory, v, id, op);
    } else if op.opcode == Store {
      StoreMeaning(m, run, memory, v, id, op);
    } else if op.opcode == Select {
      SelectMeaning(m, run, memory, v, id, op);
    } else if op.opcode == Const {
      ConstantMeaning(m, run, memory, v, id, op);
    } else if ComparisonOf(op.opcode).Some? {
      ComparisonMeaning(m, run, memory, op.opcode, op.inputs);
    } else if FlagOpcode(op.opcode).Some? {
      FlagMeaning(m, run, memory, FlagOpcode(op.opcode).value, op.inputs[0]);
    } else if op.opcode == Xor {
      XorMeaning(m, run, memory, v, op.inputs);
    } else if op.opcode in CastOpcodes() {
      CastMeaning(m, run, memory, v, op);
    } else {
      UninterpretedMeaning(m, run, memory, v, id, op);
    }
  }
}
