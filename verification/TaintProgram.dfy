/** The part of an analysed module that the taint analysis looks at, and the
    dependency steps along which a tag may travel through it. */
module TaintProgram {
  import opened Basics
  import opened TaintTags

  type u16 = x: nat | x < 0x1_0000

  datatype Opcode = Call | Store | Load | Add | AddrAdd | Sub | AddrSub | Other

  /** A direct callee: its argument values and its returned values. */
  datatype Callee = Callee(parameters: seq<Value>, results: seq<Value>)

  datatype Op = Op(opcode: Opcode, inputs: seq<Value>, outputs: seq<Value>, callee: Option<Callee>)

  /** One arm of a block terminator: the target's parameters and the values passed. */
  datatype Jump = Jump(parameters: seq<Value>, arguments: seq<Value>)

  datatype Terminator = Terminator(onTrue: Jump, onFalse: Jump)

  datatype SourceKind = Plain | Buffer | Memory

  datatype Source = Source(kind: SourceKind, values: seq<Value>, length: u64, address: u64)

  datatype Program = Program(
    ops: seq<Op>,
    terminators: seq<Terminator>,
    sources: seq<Source>,
    scalar: set<Value>,
    propagatable: set<Value>,
    bits: map<Value, u16>,
    constants: map<Value, u64>,
    offsets: map<Value, int>)

  datatype Options = Options(functionDepth: nat, maxStates: nat, maxTaintBytes: u64)

  /** A value that carries a tag of the given key after some number of call crossings. */
  datatype Config = Config(value: Value, key: Key, depth: nat)

  function Scalars(p: Program, vs: seq<Value>): seq<Value>
  {
    if vs == [] then []
    else (if vs[0] in p.scalar then [vs[0]] else []) + Scalars(p, vs[1..])
  }

  function OffsetOf(p: Program, op: Op): Option<int>
  {
    if |op.inputs| >= 2 && op.inputs[1] in p.offsets then Some(p.offsets[op.inputs[1]]) else None
  }

  /** The key under which the data operand of a store continues. */
  function StoredKey(p: Program, op: Op, index: nat, key: Key): Key
  {
    if op.opcode == Store && index == 2 then
      match OffsetOf(p, op)
      case Some(offset) => key.(storage := true, storageExact := true, storageOffset := offset)
      case None => key.(storage := true, storageExact := false, storageOffset := 0)
    else key
  }

  /** The key under which a tag leaves an operation; a load lets a stored tag
      through only if the two storage offsets may coincide. */
  function OutKey(p: Program, op: Op, key: Key): Option<Key>
  {
    if op.opcode != Load then Some(key)
    else if key.storage then
      if key.storageExact && OffsetOf(p, op).Some? && OffsetOf(p, op).value != key.storageOffset
      then None
      else Some(key.(storage := false))
    else if key.pointer && key.bytes then Some(key.(pointer := false))
    else Some(key)
  }

  /** Calls whose callee models a return value have no input-to-result summary. */
  predicate Summarised(op: Op)
  {
    !(op.opcode == Call && op.callee.Some? && op.callee.value.results != [])
  }

  /** A program in which nothing moves: no operation, and no branch with arguments. */
  predicate Still(p: Program)
  {
    p.ops == [] && forall t :: t in p.terminators ==> t.onTrue.arguments == [] && t.onFalse.arguments == []
  }

  // ---------- the dependency steps ----------

  ghost predicate DataStep(p: Program, op: Op, a: Config, b: Config)
  {
    && Summarised(op)
    && b.value in op.outputs && b.value in p.propagatable
    && b.depth == a.depth
    && exists i :: 0 <= i < |op.inputs| && Feeds(p, op, i, a, b.key)
  }

  ghost predicate Feeds(p: Program, op: Op, i: nat, a: Config, key: Key)
    requires i < |op.inputs|
  {
    && !(op.opcode == Store && i == 1)
    && op.inputs[i] == a.value
    && OutKey(p, op, StoredKey(p, op, i, a.key)) == Some(key)
  }

  /** Both lists are followed up to the shorter length. */
  ghost predicate Paired(from: seq<Value>, to: seq<Value>, a: Value, b: Value)
  {
    exists i :: 0 <= i < |from| && i < |to| && from[i] == a && to[i] == b
  }

  ghost predicate CrossingStep(p: Program, functionDepth: nat, op: Op, a: Config, b: Config)
  {
    && op.opcode == Call && op.callee.Some?
    && a.depth < functionDepth
    && b.key == a.key && b.depth == a.depth + 1
    && (Paired(Scalars(p, op.inputs), op.callee.value.parameters, a.value, b.value) ||
        Paired(op.callee.value.results, Scalars(p, op.outputs), a.value, b.value))
  }

  ghost predicate OpStep(p: Program, functionDepth: nat, op: Op, a: Config, b: Config)
  {
    b.value != INVALID_VALUE &&
    (DataStep(p, op, a, b) || CrossingStep(p, functionDepth, op, a, b))
  }

  ghost predicate JumpStep(jump: Jump, a: Config, b: Config)
  {
    && b.value != INVALID_VALUE
    && b.key == a.key && b.depth == a.depth
    && Paired(jump.arguments, jump.parameters, a.value, b.value)
  }

  ghost predicate BranchStep(t: Terminator, a: Config, b: Config)
  {
    JumpStep(t.onTrue, a, b) || JumpStep(t.onFalse, a, b)
  }

  ghost predicate Step(p: Program, functionDepth: nat, a: Config, b: Config)
  {
    || (exists op :: op in p.ops && OpStep(p, functionDepth, op, a, b))
    || (exists t :: t in p.terminators && BranchStep(t, a, b))
  }

  // ---------- where tags start ----------

  function SeedKey(source: nat, kind: SourceKind): Key
  {
    Key(source, kind != Plain, kind == Buffer, false, false, 0)
  }

  /** The constant address of a load: the last scalar input that is a constant. */
  function LoadAddress(p: Program, inputs: seq<Value>): Option<u64>
  {
    if inputs == [] then None
    else
      var v := inputs[|inputs| - 1];
      if v in p.scalar && v in p.constants then Some(p.constants[v])
      else LoadAddress(p, inputs[..|inputs| - 1])
  }

  predicate InRange(source: Source, address: u64)
  {
    var available := TWO64 - 1 - source.address;
    source.address <= address < source.address + Min(source.length, available)
  }

  /** Is this load from the constant addresses of a memory source? */
  predicate ReadsSource(p: Program, source: Source, op: Op)
  {
    op.opcode == Load && LoadAddress(p, op.inputs).Some? &&
    InRange(source, LoadAddress(p, op.inputs).value)
  }

  /** How many bytes a value takes. */
  function ByteWidth(p: Program, v: Value): u64
  {
    var bits: nat := if v in p.bits then p.bits[v] else 0;
    Max(1, (bits + 7) / 8)
  }

  ghost predicate SeededBy(p: Program, source: Source, value: Value)
  {
    if source.kind == Memory then
      exists op :: op in p.ops && ReadsSource(p, source, op) && value in op.outputs && value in p.scalar
    else value in source.values
  }

  ghost predicate Seed(p: Program, c: Config)
  {
    && c.depth == 0 && c.value != INVALID_VALUE
    && c.key.source < |p.sources|
    && c.key == SeedKey(c.key.source, p.sources[c.key.source].kind)
    && SeededBy(p, p.sources[c.key.source], c.value)
  }

  // ---------- dependency chains ----------

  ghost predicate Chain(p: Program, functionDepth: nat, cs: seq<Config>)
  {
    && cs != []
    && Seed(p, cs[0])
    && forall i :: 0 <= i < |cs| - 1 ==> Step(p, functionDepth, cs[i], cs[i + 1])
  }

  ghost predicate Reachable(p: Program, functionDepth: nat, c: Config)
  {
    exists cs :: Chain(p, functionDepth, cs) && cs[|cs| - 1] == c
  }

  lemma SeedReachable(p: Program, functionDepth: nat, c: Config)
    requires Seed(p, c)
    ensures Reachable(p, functionDepth, c)
  {
    assert Chain(p, functionDepth, [c]);
  }

  lemma StepReachable(p: Program, functionDepth: nat, a: Config, b: Config)
    requires Reachable(p, functionDepth, a) && Step(p, functionDepth, a, b)
    ensures Reachable(p, functionDepth, b)
  {
    var cs :| Chain(p, functionDepth, cs) && cs[|cs| - 1] == a;
    assert Chain(p, functionDepth, cs + [b]);
  }

  /** Arriving with fewer crossings never closes a step. */
  lemma StepWithLess(p: Program, functionDepth: nat, a: Config, b: Config, depth: nat) returns (c: Config)
    requires Step(p, functionDepth, a, b) && depth <= a.depth
    ensures c.value == b.value && c.key == b.key && c.depth <= b.depth
    ensures Step(p, functionDepth, a.(depth := depth), c)
  {
    var a' := a.(depth := depth);
    c := b.(depth := b.depth - (a.depth - depth));
    if op :| op in p.ops && OpStep(p, functionDepth, op, a, b) {
      if DataStep(p, op, a, b) {
        var i :| 0 <= i < |op.inputs| && Feeds(p, op, i, a, b.key);
        assert Feeds(p, op, i, a', c.key);
      }
      assert OpStep(p, functionDepth, op, a', c);
    } else {
      var t :| t in p.terminators && BranchStep(t, a, b);
      assert BranchStep(t, a', c);
    }
  }

  /** No chain makes more call crossings than the depth bound. */
  lemma {:induction false} ChainDepth(p: Program, functionDepth: nat, cs: seq<Config>)
    requires Chain(p, functionDepth, cs)
    ensures cs[|cs| - 1].depth <= functionDepth
  {
    if |cs| > 1 {
      var n := |cs| - 1;
      ChainDepth(p, functionDepth, cs[..n]);
      assert Step(p, functionDepth, cs[n - 1], cs[n]);
    }
  }

  /** Where nothing moves, chains end where they start. */
  lemma StillReachable(p: Program, functionDepth: nat, c: Config)
    requires Still(p)
    ensures Reachable(p, functionDepth, c) <==> Seed(p, c)
  {
    if Seed(p, c) {
      SeedReachable(p, functionDepth, c);
    }
    forall cs | Chain(p, functionDepth, cs) ensures |cs| == 1 {
      if |cs| > 1 {
        NoStep(p, functionDepth, cs[0], cs[1]);
      }
    }
  }

  lemma NoStep(p: Program, functionDepth: nat, a: Config, b: Config)
    requires Still(p)
    ensures !Step(p, functionDepth, a, b)
  {
  }
}
