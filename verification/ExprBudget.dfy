/** What the budget of a recovery does: it bounds the result, and once nothing was
    truncated a larger budget gives the same result. */
module ExprBudget {
  import opened Basics
  import opened Ssa
  import opened ExprTree
  import opened ExprRender

  /** The second budget allows all the first does and inlines by the same rules. */
  predicate AtLeast(b: Budget, b': Budget)
  {
    && b.maxDepth <= b'.maxDepth && b.maxNodes <= b'.maxNodes && b.maxTokens <= b'.maxTokens
    && b.inlineSingleUse == b'.inlineSingleUse && b.inlineLoads == b'.inlineLoads
  }

  // ---------- truncation sticks ----------

  lemma {:induction false} RenderSticks(m: Module, b: Budget, horizon: OpId, v: Value, depth: nat, root: bool, st: State)
    requires root ==> depth == 0
    requires st.truncated
    ensures Render(m, b, horizon, v, depth, root, st).1.truncated
    decreases Room(b, depth), 1
  {
    var st0 := st.(values := Tracked(st.values, v));
    if m.HasValue(v) && m.Definition(v).Some? && v !in st0.active {
      var id, op := m.Definition(v).value, m.Defining(v);
      var (expand, st1) := CanExpand(m, b, v, id, op, horizon, depth, root, st0);
      if expand {
        FillSticks(m, b, horizon, ShapeOf(m, v, id, op), depth, Entered(m, v, id, op, st1));
      }
    }
  }

  lemma {:induction false} FillSticks(m: Module, b: Budget, horizon: OpId, shape: Tree, depth: nat, st: State)
    requires depth <= b.maxDepth && st.truncated
    ensures Fill(m, b, horizon, shape, depth, st).1.truncated
    decreases Room(b, depth), 0, shape
  {
    match shape
    case Hole(v) => RenderSticks(m, b, horizon, v, depth + 1, false, st);
    case Bin(token, l, r) =>
      FillSticks(m, b, horizon, l, depth, st);
      FillSticks(m, b, horizon, r, depth, Fill(m, b, horizon, l, depth, st).1);
    case Not(e) => FillSticks(m, b, horizon, e, depth, st);
    case Fn(name, args) => FillAllSticks(m, b, horizon, args, depth, st);
    case Sel(c, x, y) =>
      FillSticks(m, b, horizon, c, depth, st);
      var st1 := Fill(m, b, horizon, c, depth, st).1;
      FillSticks(m, b, horizon, x, depth, st1);
      FillSticks(m, b, horizon, y, depth, Fill(m, b, horizon, x, depth, st1).1);
    case _ =>
  }

  lemma {:induction false} FillAllSticks(m: Module, b: Budget, horizon: OpId, shapes: Trees, depth: nat, st: State)
    requires depth <= b.maxDepth && st.truncated
    ensures FillAll(m, b, horizon, shapes, depth, st).1.truncated
    decreases Room(b, depth), 0, shapes
  {
    match shapes
    case Nil =>
    case Cons(t, rest) =>
      FillSticks(m, b, horizon, t, depth, st);
      FillAllSticks(m, b, horizon, rest, depth, Fill(m, b, horizon, t, depth, st).1);
  }

  // ---------- larger budgets ----------

  lemma {:induction false} RenderLarger(m: Module, b: Budget, b': Budget, horizon: OpId, v: Value,
                                        depth: nat, root: bool, st: State)
    requires root ==> depth == 0
    requires AtLeast(b, b') && !Render(m, b, horizon, v, depth, root, st).1.truncated
    ensures Render(m, b', horizon, v, depth, root, st) == Render(m, b, horizon, v, depth, root, st)
    decreases Room(b, depth), 1
  {
    hide ShapeOf, Entered;
    var st0 := st.(values := Tracked(st.values, v));
    if m.HasValue(v) && m.Definition(v).Some? && v !in st0.active {
      var id, op := m.Definition(v).value, m.Defining(v);
      var (expand, st1) := CanExpand(m, b, v, id, op, horizon, depth, root, st0);
      if expand {
        FillLarger(m, b, b', horizon, ShapeOf(m, v, id, op), depth, Entered(m, v, id, op, st1));
      }
    }
  }

  lemma {:induction false} FillLarger(m: Module, b: Budget, b': Budget, horizon: OpId, shape: Tree, depth: nat, st: State)
    requires depth <= b.maxDepth && AtLeast(b, b')
    requires !Fill(m, b, horizon, shape, depth, st).1.truncated
    ensures Fill(m, b', horizon, shape, depth, st) == Fill(m, b, horizon, shape, depth, st)
    decreases Room(b, depth), 0, shape
  {
    match shape
    case Hole(v) => RenderLarger(m, b, b', horizon, v, depth + 1, false, st);
    case Bin(token, l, r) =>
      var st1 := Fill(m, b, horizon, l, depth, st).1;
      if st1.truncated { FillSticks(m, b, horizon, r, depth, st1); }
      FillLarger(m, b, b', horizon, l, depth, st);
      FillLarger(m, b, b', horizon, r, depth, st1);
    case Not(e) => FillLarger(m, b, b', horizon, e, depth, st);
    case Fn(name, args) => FillAllLarger(m, b, b', horizon, args, depth, st);
    case Sel(c, x, y) =>
      var st1 := Fill(m, b, horizon, c, depth, st).1;
      var st2 := Fill(m, b, horizon, x, depth, st1).1;
      if st2.truncated { FillSticks(m, b, horizon, y, depth, st2); }
      if st1.truncated { FillSticks(m, b, horizon, x, depth, st1); }
      FillLarger(m, b, b', horizon, c, depth, st);
      FillLarger(m, b, b', horizon, x, depth, st1);
      FillLarger(m, b, b', horizon, y, depth, st2);
    case _ =>
  }

  lemma {:induction false} FillAllLarger(m: Module, b: Budget, b': Budget, horizon: OpId, shapes: Trees, depth: nat, st: State)
    requires depth <= b.maxDepth && AtLeast(b, b')
    requires !FillAll(m, b, horizon, shapes, depth, st).1.truncated
    ensures FillAll(m, b', horizon, shapes, depth, st) == FillAll(m, b, horizon, shapes, depth, st)
    decreases Room(b, depth), 0, shapes
  {
    match shapes
    case Nil =>
    case Cons(t, rest) =>
      var st1 := Fill(m, b, horizon, t, depth, st).1;
      if st1.truncated { FillAllSticks(m, b, horizon, rest, depth, st1); }
      FillLarger(m, b, b', horizon, t, depth, st);
      FillAllLarger(m, b, b', horizon, rest, depth, st1);
  }

  /** An untruncated recovery does not depend on the budget. */
  lemma RecoverLarger(m: Module, b: Budget, b': Budget, v: Value)
    requires m.Definition(v).Some? && AtLeast(b, b')
    requires !Recover(m, b, v).1.truncated
    ensures Recover(m, b', v) == Recover(m, b, v)
  {
    RenderLarger(m, b, b', m.Definition(v).value, v, 0, true, START);
  }

  // ---------- bounds ----------

  function NodeLimit(b: Budget): nat
  {
    Min(b.maxNodes, b.maxTokens)
  }

  lemma {:induction false} RenderNodes(m: Module, b: Budget, horizon: OpId, v: Value, depth: nat, root: bool, st: State)
    requires root ==> depth == 0
    ensures Render(m, b, horizon, v, depth, root, st).1.nodes
            <= Max(NodeLimit(b), if root then st.nodes + 1 else st.nodes)
    decreases Room(b, depth), 1
  {
    hide ShapeOf;
    var st0 := st.(values := Tracked(st.values, v));
    if m.HasValue(v) && m.Definition(v).Some? && v !in st0.active {
      var id, op := m.Definition(v).value, m.Defining(v);
      var (expand, st1) := CanExpand(m, b, v, id, op, horizon, depth, root, st0);
      if expand {
        FillNodes(m, b, horizon, ShapeOf(m, v, id, op), depth, Entered(m, v, id, op, st1));
      }
    }
  }

  lemma {:induction false} FillNodes(m: Module, b: Budget, horizon: OpId, shape: Tree, depth: nat, st: State)
    requires depth <= b.maxDepth
    ensures Fill(m, b, horizon, shape, depth, st).1.nodes <= Max(NodeLimit(b), st.nodes)
    decreases Room(b, depth), 0, shape
  {
    match shape
    case Hole(v) => RenderNodes(m, b, horizon, v, depth + 1, false, st);
    case Bin(token, l, r) =>
      FillNodes(m, b, horizon, l, depth, st);
      FillNodes(m, b, horizon, r, depth, Fill(m, b, horizon, l, depth, st).1);
    case Not(e) => FillNodes(m, b, horizon, e, depth, st);
    case Fn(name, args) => FillAllNodes(m, b, horizon, args, depth, st);
    case Sel(c, x, y) =>
      FillNodes(m, b, horizon, c, depth, st);
      var st1 := Fill(m, b, horizon, c, depth, st).1;
      FillNodes(m, b, horizon, x, depth, st1);
      FillNodes(m, b, horizon, y, depth, Fill(m, b, horizon, x, depth, st1).1);
    case _ =>
  }

  lemma {:induction false} FillAllNodes(m: Module, b: Budget, horizon: OpId, shapes: Trees, depth: nat, st: State)
    requires depth <= b.maxDepth
    ensures FillAll(m, b, horizon, shapes, depth, st).1.nodes <= Max(NodeLimit(b), st.nodes)
    decreases Room(b, depth), 0, shapes
  {
    match shapes
    case Nil =>
    case Cons(t, rest) =>
      FillNodes(m, b, horizon, t, depth, st);
      FillAllNodes(m, b, horizon, rest, depth, Fill(m, b, horizon, t, depth, st).1);
  }

  function Height(t: Tree): nat
  {
    match t
    case Bin(_, l, r) => 1 + Max(Height(l), Height(r))
    case Not(e) => 1 + Height(e)
    case Fn(_, args) => 1 + Heights(args)
    case Sel(c, x, y) => 1 + Max(Height(c), Max(Height(x), Height(y)))
    case _ => 0
  }

  function Heights(ts: Trees): nat
  {
    match ts
    case Nil => 0
    case Cons(t, rest) => Max(Height(t), Heights(rest))
  }

  lemma {:induction false} HolesHeight(vs: seq<Value>)
    ensures Heights(Holes(vs)) == 0
  {
    if vs != [] {
      HolesHeight(vs[1..]);
    }
  }

  lemma Call1Height(name: Name, t: Tree)
    ensures Height(Call1(name, t)) == 1 + Height(t)
  {
    assert Heights(Nil) == 0;
  }

  lemma BinaryHeight(token: Token, inputs: seq<Value>)
    ensures Height(Binary(token, inputs)) <= 1
  {
    if |inputs| >= 2 {
      assert Height(Hole(inputs[0])) == 0 && Height(Hole(inputs[1])) == 0;
    }
  }

  lemma FlagTreeHeight(flag: Flag, op: FlagsOp, inputs: seq<Value>)
    requires inputs != []
    ensures Height(FlagTree(flag, op, inputs)) <= 2
  {
    hide Call1, Binary;
    var result := if op == OfLogic then Hole(inputs[0]) else Binary(if op == OfAdd then Plus else Minus, inputs);
    BinaryHeight(if op == OfAdd then Plus else Minus, inputs);
    BinaryHeight(if flag == Zf then Equal else LessU, inputs);
    Call1Height(if flag == Sf then SignBit else if flag == Pf then Parity else FlagAfter(flag, op), result);
    assert Height(Zero) == 0;
  }

  lemma FlagHeight(m: Module, flag: Flag, flags: Value)
    ensures Height(FlagShape(m, flag, flags)) <= 2
  {
    hide FlagTree, Call1;
    Call1Height(FlagNamed(flag), Leaf(flags));
    if FlagSource(m, flags).Some? {
      FlagTreeHeight(flag, FlagsOpcode(m.Defining(flags).opcode).value, m.Defining(flags).inputs);
    }
  }

  lemma CollapsedHeight(m: Module, opcode: Opcode, token: Token, bits: nat, inputs: seq<Value>)
    ensures Height(ComparisonShape(m, opcode, token, inputs)) <= 1
    ensures Height(XorShape(m, bits, inputs)) <= 1
  {
    BinaryHeight(token, inputs);
    BinaryHeight(Caret, inputs);
    if |inputs| >= 2 {
      forall t | AgainstConstant(m, inputs, false) == Some(t) || AgainstConstant(m, inputs, true) == Some(t)
        ensures Height(t) <= 1
      {
        assert Height(Hole(inputs[0])) == 0 && Height(Hole(inputs[1])) == 0;
      }
    }
  }

  lemma TripleHeight(name: Name, a: Value, b: Value, c: Value)
    ensures Height(Fn(name, Cons(Hole(b), Cons(Hole(c), Nil)))) <= 1
    ensures Height(Sel(Hole(a), Hole(b), Hole(c))) <= 1
  {
    assert Height(Hole(a)) == 0 && Height(Hole(b)) == 0 && Height(Hole(c)) == 0 && Heights(Nil) == 0;
    assert Heights(Cons(Hole(c), Nil)) == 0;
  }

  /** One operation adds at most two levels to a tree. */
  lemma ShapeHeight(m: Module, v: Value, id: OpId, op: Op)
    ensures Height(ShapeOf(m, v, id, op)) <= 2
  {
    hide FlagShape, ComparisonShape, XorShape, CastShape, Binary, Call1, Holes, CallOperands, Effectful, Height;
    var inputs, bits := op.inputs, m.TypeOf(v).bits;
    if TokenOf(op.opcode).Some? {
      BinaryHeight(TokenOf(op.opcode).value, inputs);
    } else if ComparisonOf(op.opcode).Some? || op.opcode == Xor {
      var token := if ComparisonOf(op.opcode).Some? then ComparisonOf(op.opcode).value else Equal;
      CollapsedHeight(m, op.opcode, token, bits, inputs);
    } else if FlagOpcode(op.opcode).Some? && inputs != [] {
      FlagHeight(m, FlagOpcode(op.opcode).value, inputs[0]);
    } else if op.opcode in CastOpcodes() {
      CastHeight(m, op.opcode, m.TypeOf(v), inputs);
    } else if op.opcode == Extract && inputs != [] {
      HoleCallHeight(Extracted(op.low, bits), inputs[0]);
    } else if op.opcode == Load && |inputs| >= 2 {
      HoleCallHeight(Loaded(bits), inputs[1]);
    } else if op.opcode in {Select, Store} && |inputs| >= 3 {
      TripleHeight(Effect(id, v), inputs[0], inputs[1], inputs[2]);
    } else {
      OtherHeight(m, v, id, op);
    }
  }

  lemma HoleCallHeight(name: Name, v: Value)
    ensures Height(Call1(name, Hole(v))) == 1
  {
    Call1Height(name, Hole(v));
  }

  lemma CastHeight(m: Module, opcode: Opcode, type_: Type, inputs: seq<Value>)
    ensures Height(CastShape(m, opcode, type_, inputs)) <= 1
  {
    if inputs != [] {
      HoleCallHeight(Cast(opcode, type_.bits), inputs[0]);
    }
  }

  lemma OtherHeight(m: Module, v: Value, id: OpId, op: Op)
    requires TokenOf(op.opcode).None? && ComparisonOf(op.opcode).None?
    requires op.opcode !in CastOpcodes() + {Xor}
    requires op.inputs == [] || (FlagOpcode(op.opcode).None? && op.opcode != Extract)
    requires |op.inputs| < 2 || op.opcode != Load
    requires |op.inputs| < 3 || op.opcode !in {Select, Store}
    ensures Height(ShapeOf(m, v, id, op)) <= 1
  {
    HolesHeight(op.inputs);
    HolesHeight(CallOperands(m, op));
    hide FlagShape, ComparisonShape, XorShape, CastShape, Binary, Call1, Holes, CallOperands, Effectful;
  }

  /** How many expansions can still be nested at a depth. */
  function Levels(b: Budget, depth: nat, root: bool): nat
  {
    if root then Max(1, b.maxDepth) else if depth < b.maxDepth then b.maxDepth - depth else 0
  }

  lemma {:induction false} RenderHeight(m: Module, b: Budget, horizon: OpId, v: Value, depth: nat, root: bool, st: State)
    requires root ==> depth == 0
    ensures Height(Render(m, b, horizon, v, depth, root, st).0) <= 2 * Levels(b, depth, root)
    decreases Room(b, depth), 1
  {
    hide ShapeOf;
    var st0 := st.(values := Tracked(st.values, v));
    if m.HasValue(v) && m.Definition(v).Some? && v !in st0.active {
      var id, op := m.Definition(v).value, m.Defining(v);
      var (expand, st1) := CanExpand(m, b, v, id, op, horizon, depth, root, st0);
      if expand {
        ShapeHeight(m, v, id, op);
        FillHeight(m, b, horizon, ShapeOf(m, v, id, op), depth, Entered(m, v, id, op, st1));
      }
    }
  }

  lemma {:induction false} FillHeight(m: Module, b: Budget, horizon: OpId, shape: Tree, depth: nat, st: State)
    requires depth <= b.maxDepth
    ensures Height(Fill(m, b, horizon, shape, depth, st).0) <= Height(shape) + 2 * Levels(b, depth + 1, false)
    decreases Room(b, depth), 0, shape
  {
    match shape
    case Hole(v) => RenderHeight(m, b, horizon, v, depth + 1, false, st);
    case Bin(token, l, r) =>
      FillHeight(m, b, horizon, l, depth, st);
      FillHeight(m, b, horizon, r, depth, Fill(m, b, horizon, l, depth, st).1);
    case Not(e) => FillHeight(m, b, horizon, e, depth, st);
    case Fn(name, args) => FillAllHeight(m, b, horizon, args, depth, st);
    case Sel(c, x, y) =>
      FillHeight(m, b, horizon, c, depth, st);
      var st1 := Fill(m, b, horizon, c, depth, st).1;
      FillHeight(m, b, horizon, x, depth, st1);
      FillHeight(m, b, horizon, y, depth, Fill(m, b, horizon, x, depth, st1).1);
    case _ =>
  }

  lemma {:induction false} FillAllHeight(m: Module, b: Budget, horizon: OpId, shapes: Trees, depth: nat, st: State)
    requires depth <= b.maxDepth
    ensures Heights(FillAll(m, b, horizon, shapes, depth, st).0) <= Heights(shapes) + 2 * Levels(b, depth + 1, false)
    decreases Room(b, depth), 0, shapes
  {
    match shapes
    case Nil =>
    case Cons(t, rest) =>
      FillHeight(m, b, horizon, t, depth, st);
      FillAllHeight(m, b, horizon, rest, depth, Fill(m, b, horizon, t, depth, st).1);
  }

  /** Node count and nesting of a recovered tree keep to the budget. */
  lemma RecoverBounded(m: Module, b: Budget, v: Value)
    requires m.Definition(v).Some?
    ensures Recover(m, b, v).1.nodes <= Max(1, NodeLimit(b))
    ensures Height(Recover(m, b, v).0) <= 2 * Max(1, b.maxDepth)
  {
    RenderNodes(m, b, m.Definition(v).value, v, 0, true, START);
    RenderHeight(m, b, m.Definition(v).value, v, 0, true, START);
  }
}
