/** The recovery of one expression: operands are expanded into the tree of their
    user as long as that is safe and the budget lasts. */
module ExprRender {
  import opened Basics
  import opened Ssa
  import opened ExprTree

  datatype Budget = Budget(maxDepth: nat, maxNodes: nat, maxTokens: nat, maxCharacters: nat,
                           inlineSingleUse: bool, inlineLoads: bool)

  datatype State = State(nodes: nat, truncated: bool, omitted: nat,
                         operations: seq<OpId>, values: seq<Value>, active: set<Value>)

  function Tracked<T(==)>(known: seq<T>, x: T): seq<T>
  {
    if x in known then known else known + [x]
  }

  function TrackedAll(known: seq<Value>, vs: seq<Value>): seq<Value>
    decreases vs
  {
    if vs == [] then known else TrackedAll(Tracked(known, vs[0]), vs[1..])
  }

  function Omit(st: State): State
  {
    st.(truncated := true, omitted := st.omitted + 1)
  }

  predicate ClobbersAt(m: Module, block: nat, p: nat)
    requires block < |m.blocks| && p < |m.blocks[block]|
  {
    m.blocks[block][p] >= |m.ops| || Clobbers(m.ops[m.blocks[block][p]])
  }

  // load_is_safe
  predicate LoadIsSafe(m: Module, load: OpId, horizon: OpId)
  {
    load == horizon ||
    (load < |m.ops| && horizon < |m.ops| &&
     m.ops[load].location.Some? && m.ops[horizon].location.Some? &&
     var from, to := m.ops[load].location.value, m.ops[horizon].location.value;
     && from.block == to.block && from.position < to.position
     && !m.ops[load].effects.isVolatile && !m.ops[load].effects.atomic
     && from.block < |m.blocks|
     && forall p :: from.position < p < to.position && p < |m.blocks[from.block]| ==> !ClobbersAt(m, from.block, p))
  }

  predicate OutOfBudget(b: Budget, depth: nat, nodes: nat)
  {
    depth >= b.maxDepth || nodes >= b.maxNodes || nodes >= b.maxTokens
  }

  /** May the definition replace the value, budget aside? */
  predicate Expandable(m: Module, b: Budget, v: Value, id: OpId, op: Op, horizon: OpId)
  {
    if op.opcode in {Const, ConstWide, Opcode.Unknown, Undef} then true
    else if op.opcode == Load then
      b.inlineLoads && v < |m.uses| && m.uses[v] <= 1 && LoadIsSafe(m, id, horizon)
    else !Effectful(op) && b.inlineSingleUse && v < |m.uses| && m.uses[v] <= 1
  }

  // can_expand
  function CanExpand(m: Module, b: Budget, v: Value, id: OpId, op: Op, horizon: OpId,
                     depth: nat, root: bool, st: State): (bool, State)
  {
    if root then (true, st)
    else if OutOfBudget(b, depth, st.nodes) then (false, Omit(st))
    else (Expandable(m, b, v, id, op, horizon), st)
  }

  function Room(b: Budget, depth: nat): nat
  {
    if depth <= b.maxDepth then b.maxDepth + 1 - depth else 0
  }

  /** The state in which the operands of an expanded value are rendered. */
  function Entered(m: Module, v: Value, id: OpId, op: Op, st: State): State
  {
    var st1 := st.(nodes := st.nodes + 1, active := st.active + {v},
                   operations := Tracked(st.operations, id), values := TrackedAll(st.values, op.inputs));
    if FlagOpcode(op.opcode).Some? && op.inputs != [] && FlagSource(m, op.inputs[0]).Some?
    then st1.(operations := Tracked(st1.operations, FlagSource(m, op.inputs[0]).value))
    else st1
  }

  // render_value
  function Render(m: Module, b: Budget, horizon: OpId, v: Value, depth: nat, root: bool, st: State): (Tree, State)
    requires root ==> depth == 0
    decreases Room(b, depth), 1
  {
    var st0 := st.(values := Tracked(st.values, v));
    if !m.HasValue(v) then (Leaf(v), Omit(st0))
    else if m.definitions[v].None? then (Leaf(v), st0)
    else if m.Definition(v).None? then (Leaf(v), Omit(st0))
    else
      var id, op := m.Definition(v).value, m.Defining(v);
      if v in st0.active then (Leaf(v), st0)
      else
        var (expand, st1) := CanExpand(m, b, v, id, op, horizon, depth, root, st0);
        if !expand then (Leaf(v), st1)
        else
          var (t, st2) := Fill(m, b, horizon, ShapeOf(m, v, id, op), depth, Entered(m, v, id, op, st1));
          (t, st2.(active := st2.active - {v}))
  }

  /** The operands of a shape, rendered from left to right and put into its holes. */
  function Fill(m: Module, b: Budget, horizon: OpId, shape: Tree, depth: nat, st: State): (Tree, State)
    requires depth <= b.maxDepth
    decreases Room(b, depth), 0, shape
  {
    match shape
    case Hole(v) => Render(m, b, horizon, v, depth + 1, false, st)
    case Bin(token, l, r) =>
      var (l', st1) := Fill(m, b, horizon, l, depth, st);
      var (r', st2) := Fill(m, b, horizon, r, depth, st1);
      (Bin(token, l', r'), st2)
    case Not(e) =>
      var (e', st1) := Fill(m, b, horizon, e, depth, st);
      (Not(e'), st1)
    case Fn(name, args) =>
      var (args', st1) := FillAll(m, b, horizon, args, depth, st);
      (Fn(name, args'), st1)
    case Sel(c, x, y) =>
      var (c', st1) := Fill(m, b, horizon, c, depth, st);
      var (x', st2) := Fill(m, b, horizon, x, depth, st1);
      var (y', st3) := Fill(m, b, horizon, y, depth, st2);
      (Sel(c', x', y'), st3)
    case _ => (shape, st)
  }

  function FillAll(m: Module, b: Budget, horizon: OpId, shapes: Trees, depth: nat, st: State): (Trees, State)
    requires depth <= b.maxDepth
    decreases Room(b, depth), 0, shapes
  {
    match shapes
    case Nil => (Nil, st)
    case Cons(t, rest) =>
      var (t', st1) := Fill(m, b, horizon, t, depth, st);
      var (rest', st2) := FillAll(m, b, horizon, rest, depth, st1);
      (Cons(t', rest'), st2)
  }

  const START := State(0, false, 0, [], [], {})

  /** The tree recovered for a defined value, and what the recovery left behind. */
  function Recover(m: Module, b: Budget, v: Value): (Tree, State)
    requires m.Definition(v).Some?
  {
    Render(m, b, m.Definition(v).value, v, 0, true, START)
  }
}
