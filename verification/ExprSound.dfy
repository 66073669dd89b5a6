/** Recovery preserves meaning: with memory as it is just before the root
    operation, the recovered tree evaluates to the SSA value. */
module ExprSound {
  import opened Basics
  import opened Ssa
  import opened ExprTree
  import opened ExprMeaning
  import opened ExprRender

  // ---------- inlined loads ----------

  /** Memory is the same at two positions of a block with nothing clobbering between. */
  lemma {:induction false} QuietStretch(m: Module, run: Run, block: nat, p: nat, q: nat)
    requires Remembers(m, run)
    requires block < |m.blocks| && p <= q < |m.blocks[block]|
    requires forall k :: p <= k < q ==> !ClobbersAt(m, block, k)
    ensures run.before(m.blocks[block][p]) == run.before(m.blocks[block][q])
    decreases q - p
  {
    if p < q {
      assert !ClobbersAt(m, block, p);
      QuietStretch(m, run, block, p + 1, q);
    }
  }

  /** A load itself leaves memory alone. */
  lemma LoadKeepsMemory(m: Module, load: OpId, v: Value)
    requires WellFormed(m) && m.Definition(v) == Some(load) && m.Defining(v).opcode == Load
    requires !m.ops[load].effects.isVolatile && !m.ops[load].effects.atomic
    ensures !Clobbers(m.ops[load])
  {
    assert WellFormedAt(m, v);
    hide WellFormed;
  }

  /** A load that is safe to inline reads the memory the root operation sees. */
  lemma SafeLoad(m: Module, run: Run, load: OpId, horizon: OpId, v: Value)
    requires WellFormed(m) && Remembers(m, run)
    requires m.Definition(v) == Some(load) && m.Defining(v).opcode == Load
    requires LoadIsSafe(m, load, horizon)
    ensures run.before(load) == run.before(horizon)
  {
    hide Clobbers, WellFormedOp, Remembers, WellFormed;
    if load != horizon {
      LoadKeepsMemory(m, load, v);
      PlacedOp(m, load);
      PlacedOp(m, horizon);
      var from, to := m.ops[load].location.value, m.ops[horizon].location.value;
      assert !ClobbersAt(m, from.block, from.position);
      QuietStretch(m, run, from.block, from.position, to.position);
    }
  }

  lemma PlacedOp(m: Module, id: OpId)
    requires WellFormed(m) && id < |m.ops| && m.ops[id].location.Some?
    ensures Placed(m, id)
  {
  }

  // ---------- filling holes ----------

  /** The argument of a flag after an addition or subtraction spells out its operands. */
  predicate SpelledOut(t: Tree)
  {
    match t
    case Bin(_, l, r) => SpelledOut(l) && SpelledOut(r)
    case Not(e) => SpelledOut(e)
    case Fn(name, args) =>
      AllSpelledOut(args) && (name.FlagAfter? && name.op != OfLogic && args.Cons? ==> !args.head.Hole?)
    case Sel(c, x, y) => SpelledOut(c) && SpelledOut(x) && SpelledOut(y)
    case _ => true
  }

  predicate AllSpelledOut(ts: Trees)
  {
    match ts
    case Nil => true
    case Cons(t, rest) => SpelledOut(t) && AllSpelledOut(rest)
  }

  lemma {:induction false} HolesSpelledOut(vs: seq<Value>)
    ensures AllSpelledOut(Holes(vs))
  {
    if vs != [] {
      HolesSpelledOut(vs[1..]);
    }
  }

  lemma BinarySpelledOut(token: Token, inputs: seq<Value>)
    ensures SpelledOut(Binary(token, inputs)) && !Binary(token, inputs).Hole?
  {
    if |inputs| >= 2 {
      assert SpelledOut(Hole(inputs[0])) && SpelledOut(Hole(inputs[1]));
    }
  }

  lemma FlagSpelledOut(m: Module, flag: Flag, flags: Value)
    ensures SpelledOut(FlagShape(m, flag, flags))
  {
    if FlagSource(m, flags).Some? {
      var op, inputs := FlagsOpcode(m.Defining(flags).opcode).value, m.Defining(flags).inputs;
      var result := if op == OfLogic then Hole(inputs[0]) else Binary(if op == OfAdd then Plus else Minus, inputs);
      BinarySpelledOut(Plus, inputs);
      BinarySpelledOut(Minus, inputs);
      BinarySpelledOut(Equal, inputs);
      BinarySpelledOut(LessU, inputs);
      assert SpelledOut(result) && AllSpelledOut(Nil);
    }
  }

  lemma CollapsedSpelledOut(m: Module, opcode: Opcode, token: Token, bits: nat, inputs: seq<Value>)
    ensures SpelledOut(ComparisonShape(m, opcode, token, inputs))
    ensures SpelledOut(XorShape(m, bits, inputs))
  {
    BinarySpelledOut(token, inputs);
    BinarySpelledOut(Caret, inputs);
    if |inputs| >= 2 {
      forall t | AgainstConstant(m, inputs, false) == Some(t) || AgainstConstant(m, inputs, true) == Some(t)
        ensures SpelledOut(t)
      {
        assert SpelledOut(Hole(inputs[0])) && SpelledOut(Hole(inputs[1]));
      }
    }
  }

  lemma Call1SpelledOut(name: Name, v: Value)
    requires !name.FlagAfter?
    ensures SpelledOut(Call1(name, Hole(v)))
  {
    assert SpelledOut(Hole(v)) && AllSpelledOut(Nil);
  }

  lemma CastSpelledOut(m: Module, opcode: Opcode, type_: Type, inputs: seq<Value>)
    ensures SpelledOut(CastShape(m, opcode, type_, inputs))
  {
    if inputs != [] {
      Call1SpelledOut(Cast(opcode, type_.bits), inputs[0]);
      assert SpelledOut(Hole(inputs[0]));
    }
  }

  lemma PlainSpelledOut(id: OpId, v: Value, a: Value, b: Value, c: Value)
    ensures SpelledOut(Fn(Effect(id, v), Cons(Hole(b), Cons(Hole(c), Nil))))
    ensures SpelledOut(Sel(Hole(a), Hole(b), Hole(c)))
  {
    assert SpelledOut(Hole(a)) && SpelledOut(Hole(b)) && SpelledOut(Hole(c)) && AllSpelledOut(Nil);
    assert AllSpelledOut(Cons(Hole(c), Nil));
  }

  lemma ShapeSpelledOut(m: Module, v: Value, id: OpId, op: Op)
    ensures SpelledOut(ShapeOf(m, v, id, op))
  {
    hide FlagShape, ComparisonShape, XorShape, CastShape, Binary, Call1, Holes, CallOperands, Effectful, SpelledOut;
    var inputs, bits := op.inputs, m.TypeOf(v).bits;
    if TokenOf(op.opcode).Some? {
      BinarySpelledOut(TokenOf(op.opcode).value, inputs);
    } else if ComparisonOf(op.opcode).Some? || op.opcode == Xor {
      var token := if ComparisonOf(op.opcode).Some? then ComparisonOf(op.opcode).value else Equal;
      CollapsedSpelledOut(m, op.opcode, token, bits, inputs);
    } else if FlagOpcode(op.opcode).Some? && inputs != [] {
      FlagSpelledOut(m, FlagOpcode(op.opcode).value, inputs[0]);
    } else if op.opcode in CastOpcodes() {
      CastSpelledOut(m, op.opcode, m.TypeOf(v), inputs);
    } else if op.opcode == Extract && inputs != [] {
      Call1SpelledOut(Extracted(op.low, bits), inputs[0]);
    } else if op.opcode == Load && |inputs| >= 2 {
      Call1SpelledOut(Loaded(bits), inputs[1]);
    } else if op.opcode in {Select, Store} && |inputs| >= 3 {
      PlainSpelledOut(id, v, inputs[0], inputs[1], inputs[2]);
    } else {
      OtherSpelledOut(m, v, id, op);
    }
  }

  lemma OtherSpelledOut(m: Module, v: Value, id: OpId, op: Op)
    requires TokenOf(op.opcode).None? && ComparisonOf(op.opcode).None?
    requires op.opcode !in CastOpcodes() + {Xor}
    requires op.inputs == [] || (FlagOpcode(op.opcode).None? && op.opcode != Extract)
    requires |op.inputs| < 2 || op.opcode != Load
    requires |op.inputs| < 3 || op.opcode !in {Select, Store}
    ensures SpelledOut(ShapeOf(m, v, id, op))
  {
    HolesSpelledOut(op.inputs);
    HolesSpelledOut(CallOperands(m, op));
    hide FlagShape, ComparisonShape, XorShape, CastShape, Binary, Call1, Holes, CallOperands, Effectful;
  }

  /** What is needed of memory where a value is expanded: a root sees its own
      memory, and whatever else sees memory is a load that is safe to inline. */
  lemma ExpandedMemory(m: Module, run: Run, b: Budget, horizon: OpId, v: Value, root: bool)
    requires WellFormed(m) && Execution(m, run) && m.Definition(v).Some?
    requires root ==> m.Definition(v).value == horizon
    requires root || Expandable(m, b, v, m.Definition(v).value, m.Defining(v), horizon)
    ensures SeesMemory(m.Defining(v)) ==> run.before(horizon) == run.before(m.Definition(v).value)
  {
    if !root && m.Defining(v).opcode == Load {
      SafeLoad(m, run, m.Definition(v).value, horizon, v);
    }
  }

  lemma EvalLeaf(run: Run, memory: Memory, v: Value)
    ensures Eval(run, memory, Leaf(v)) == run.value(v)
  {
  }

  lemma {:induction false} RenderMeaning(m: Module, run: Run, b: Budget, horizon: OpId, v: Value,
                                         depth: nat, root: bool, st: State)
    requires WellFormed(m) && Execution(m, run)
    requires root ==> depth == 0 && m.Definition(v) == Some(horizon)
    ensures Eval(run, run.before(horizon), Render(m, b, horizon, v, depth, root, st).0) == run.value(v)
    decreases Room(b, depth), 1
  {
    hide WellFormed, Typed, Defined, Remembers, Eval, ShapeOf, Entered, SpelledOut, Fill, Expandable, SeesMemory;
    var memory := run.before(horizon);
    var st0 := st.(values := Tracked(st.values, v));
    EvalLeaf(run, memory, v);
    if m.HasValue(v) && m.Definition(v).Some? && v !in st0.active {
      var id, op := m.Definition(v).value, m.Defining(v);
      var (expand, st1) := CanExpand(m, b, v, id, op, horizon, depth, root, st0);
      if expand {
        var shape := ShapeOf(m, v, id, op);
        ShapeSpelledOut(m, v, id, op);
        FillMeaning(m, run, b, horizon, shape, depth, Entered(m, v, id, op, st1));
        ExpandedMemory(m, run, b, horizon, v, root);
        ShapeMeaning(m, run, memory, v);
      }
    }
  }

  lemma {:induction false} FillMeaning(m: Module, run: Run, b: Budget, horizon: OpId, shape: Tree,
                                       depth: nat, st: State)
    requires WellFormed(m) && Execution(m, run) && depth <= b.maxDepth && SpelledOut(shape)
    ensures
      var t := Fill(m, b, horizon, shape, depth, st).0;
      && Eval(run, run.before(horizon), t) == Eval(run, run.before(horizon), shape)
    decreases Room(b, depth), 0, shape
  {
    match shape
    case Hole(v) => RenderMeaning(m, run, b, horizon, v, depth + 1, false, st);
    case Bin(token, l, r) =>
      FillMeaning(m, run, b, horizon, l, depth, st);
      FillMeaning(m, run, b, horizon, r, depth, Fill(m, b, horizon, l, depth, st).1);
    case Not(e) => FillMeaning(m, run, b, horizon, e, depth, st);
    case Fn(name, args) => FillAllMeaning(m, run, b, horizon, args, depth, st);
    case Sel(c, x, y) =>
      FillMeaning(m, run, b, horizon, c, depth, st);
      var st1 := Fill(m, b, horizon, c, depth, st).1;
      FillMeaning(m, run, b, horizon, x, depth, st1);
      FillMeaning(m, run, b, horizon, y, depth, Fill(m, b, horizon, x, depth, st1).1);
    case _ =>
  }

  lemma {:induction false} FillAllMeaning(m: Module, run: Run, b: Budget, horizon: OpId, shapes: Trees,
                                          depth: nat, st: State)
    requires WellFormed(m) && Execution(m, run) && depth <= b.maxDepth && AllSpelledOut(shapes)
    ensures
      var ts := FillAll(m, b, horizon, shapes, depth, st).0;
      && EvalAll(run, run.before(horizon), ts) == EvalAll(run, run.before(horizon), shapes)
      && (shapes.Cons? && !shapes.head.Hole? ==>
            Operands(run, run.before(horizon), ts) == Operands(run, run.before(horizon), shapes))
    decreases Room(b, depth), 0, shapes
  {
    match shapes
    case Nil =>
    case Cons(t, rest) =>
      FillMeaning(m, run, b, horizon, t, depth, st);
      FillAllMeaning(m, run, b, horizon, rest, depth, Fill(m, b, horizon, t, depth, st).1);
      if t.Bin? {
        FillMeaning(m, run, b, horizon, t.left, depth, st);
        FillMeaning(m, run, b, horizon, t.right, depth, Fill(m, b, horizon, t.left, depth, st).1);
      }
  }

  /** The recovered tree means the value it was recovered for, whatever the budget. */
  lemma RecoverMeaning(m: Module, run: Run, b: Budget, v: Value)
    requires WellFormed(m) && Execution(m, run) && m.Definition(v).Some?
    ensures Eval(run, run.before(m.Definition(v).value), Recover(m, b, v).0) == run.value(v)
  {
    RenderMeaning(m, run, b, m.Definition(v).value, v, 0, true, START);
  }
}
