/** What storage offsets say about executions: a recovered offset is the distance to
    the stack pointer in as many low bits as the narrowest value on the way has, and
    which operations keep the full distance of 64 bits. */
module OffsetMeaning {
  import opened Basics
  import opened Ssa
  import opened ExprTree
  import opened ExprMeaning
  import opened Affine
  import Offsets

  // ---------- distances ----------

  /** Numbers that agree in 64 bits have the same distance to any pointer. */
  lemma DistanceAgrees(a: int, b: int, pointer: int)
    ensures Agree(a, b, 64) <==> Offsets.Wrapped(a - pointer) == Offsets.Wrapped(b - pointer)
  {
    Power63();
    if Agree(a, b, 64) {
      var k: int :| a == b + k * Pow2(64);
      Offsets.WrappedShift(b - pointer, k);
    } else {
      var k := Offsets.WrappedBy(a - pointer);
      var l := Offsets.WrappedBy(b - pointer);
      if Offsets.Wrapped(a - pointer) == Offsets.Wrapped(b - pointer) {
        AgreeBy(a, b, 64, l - k);
      }
    }
  }

  lemma WrappedAgrees(n: int)
    ensures Agree(n, Offsets.Wrapped(n), 64)
  {
    Power63();
    var k := Offsets.WrappedBy(n);
    AgreeBy(n, Offsets.Wrapped(n), 64, -k);
  }

  lemma Differ(a: int, b: int)
    requires 0 < a - b < TWO64 || 0 < b - a < TWO64
    ensures !Agree(a, b, 64)
  {
    Power63();
    forall k: int ensures a != b + k * Pow2(64) {
      if k > 0 {
        assert k * TWO64 >= TWO64;
      } else if k < 0 {
        assert k * TWO64 <= -TWO64;
      }
    }
  }

  // ---------- which operations keep distances ----------

  predicate PassesOffsets(opcode: Opcode)
  {
    Sums(opcode) || opcode in CastOpcodes()
  }

  /** What such an operation computes. */
  function Result(opcode: Opcode, a: Datum, b: Datum, bits: nat): Datum
  {
    if Sums(opcode) then Word(Width(a), Moved(Num(a), Num(b), Subtracts(opcode)) % Pow2(Width(a)))
    else CastValue(opcode, a, bits)
  }

  lemma ResultIsMeaning(m: Module, run: Run, v: Value, id: OpId, op: Op)
    requires PassesOffsets(op.opcode)
    ensures Meaning(m, run, v, id, op) == Result(op.opcode, In(run, op, 0), In(run, op, 1), m.TypeOf(v).bits)
  {
    hide In, Pow2;
    if Sums(op.opcode) {
      SumMeaning(m, run, v, id, op);
    } else {
      CastComputed(m, run, v, id, op);
    }
  }

  /** What recovery adds to the offset of the first operand. */
  function Delta(opcode: Opcode, constant: nat): int
  {
    if Sums(opcode) then Moved(0, Offsets.Wrapped(constant), Subtracts(opcode)) else 0
  }

  /** The distance of the result is that of the operand plus the difference. */
  ghost predicate Kept(opcode: Opcode, width: nat, bits: nat, constant: nat, x: nat)
  {
    Agree(Num(Result(opcode, Word(width, x), Word(width, constant), bits)), x + Delta(opcode, constant), 64)
  }

  /** Extensions by zeros; extensions by the sign and sums of 64 bits and more, or that
      do nothing; conversions that leave 64 bits or the whole word. */
  predicate Keeps(opcode: Opcode, width: nat, bits: nat, constant: nat)
  {
    match opcode
    case ZExt => true
    case SExt => width >= 64 || bits == width
    case Trunc | IntToAddr | AddrToInt => bits >= 64 || bits >= width
    case _ => width >= 64 || constant == 0
  }

  /** These are exactly the operations that keep the distance of every word. */
  lemma KeepsExactly(opcode: Opcode, width: nat, bits: nat, constant: nat)
    requires PassesOffsets(opcode) && width > 0 && constant < Pow2(width)
    requires opcode in {ZExt, SExt} ==> width <= bits
    ensures (forall x: nat | x < Pow2(width) :: Kept(opcode, width, bits, constant, x)) <==>
      Keeps(opcode, width, bits, constant)
  {
    hide Kept;
    if Keeps(opcode, width, bits, constant) {
      forall x: nat | x < Pow2(width) ensures Kept(opcode, width, bits, constant, x) {
        KeptIfKeeps(opcode, width, bits, constant, x);
      }
    } else {
      var x := Loses(opcode, width, bits, constant);
    }
  }

  lemma KeptSum(opcode: Opcode, width: nat, bits: nat, constant: nat, x: nat)
    requires Sums(opcode)
    ensures Kept(opcode, width, bits, constant, x) <==>
      Agree(Moved(x, constant, Subtracts(opcode)) % Pow2(width), x + Delta(opcode, constant), 64)
  {
    hide Agree, Pow2;
  }

  lemma KeptCast(opcode: Opcode, width: nat, bits: nat, constant: nat, x: nat)
    requires opcode in {Trunc, IntToAddr, AddrToInt}
    ensures Kept(opcode, width, bits, constant, x) <==> Agree(x % Pow2(bits), x, 64)
  {
    hide Agree, Pow2;
  }

  lemma KeptSign(width: nat, bits: nat, constant: nat, x: nat)
    ensures Kept(SExt, width, bits, constant, x) <==> Agree(Signed(Word(width, x)) % Pow2(bits), x, 64)
  {
    hide Agree, Pow2, Signed;
  }

  lemma KeptIfKeeps(opcode: Opcode, width: nat, bits: nat, constant: nat, x: nat)
    requires PassesOffsets(opcode) && width > 0 && x < Pow2(width) && Keeps(opcode, width, bits, constant)
    requires opcode in {ZExt, SExt} ==> width <= bits
    ensures Kept(opcode, width, bits, constant, x)
  {
    hide Agree, Pow2, Kept;
    if Sums(opcode) {
      SumKept(opcode, width, bits, constant, x);
    } else if opcode == SExt {
      SignKept(width, bits, constant, x);
    } else if opcode == ZExt {
      ZerosKept(width, bits, constant, x);
    } else {
      CastKept(opcode, width, bits, constant, x);
    }
  }

  lemma ZerosKept(width: nat, bits: nat, constant: nat, x: nat)
    ensures Kept(ZExt, width, bits, constant, x)
  {
    hide Agree, Pow2;
    AgreeSame(x, 64);
  }

  lemma CastKept(opcode: Opcode, width: nat, bits: nat, constant: nat, x: nat)
    requires opcode in {Trunc, IntToAddr, AddrToInt} && x < Pow2(width) && (bits >= 64 || bits >= width)
    ensures Kept(opcode, width, bits, constant, x)
  {
    hide Agree, Pow2, Kept;
    KeptCast(opcode, width, bits, constant, x);
    if bits >= width {
      Pow2Grows(width, bits);
      Residue(0, x, Pow2(bits));
      AgreeSame(x, 64);
    } else {
      AgreeMod(x, bits);
      AgreeFewer(x % Pow2(bits), x, bits, 64);
    }
  }

  lemma SumKept(opcode: Opcode, width: nat, bits: nat, constant: nat, x: nat)
    requires Sums(opcode) && x < Pow2(width) && (width >= 64 || constant == 0)
    ensures Kept(opcode, width, bits, constant, x)
  {
    hide Agree, Pow2, Kept;
    KeptSum(opcode, width, bits, constant, x);
    var exact, n := Moved(x, constant, Subtracts(opcode)), Offsets.Wrapped(constant);
    AgreeSame(x, 64);
    if constant == 0 {
      Residue(0, x, Pow2(width));
    } else {
      hide Offsets.Wrapped;
      AgreeMod(exact, width);
      AgreeFewer(exact % Pow2(width), exact, width, 64);
      WrappedAgrees(constant);
      AgreeSum(x, x, constant, n, 64);
      AgreeThrough(exact % Pow2(width), exact, x + Delta(opcode, constant), 64);
    }
  }

  lemma SignKept(width: nat, bits: nat, constant: nat, x: nat)
    requires 0 < width <= bits && x < Pow2(width) && (width >= 64 || bits == width)
    ensures Kept(SExt, width, bits, constant, x)
  {
    hide Agree, Pow2, Kept;
    KeptSign(width, bits, constant, x);
    var n := Signed(Word(width, x));
    AgreeSame(x, 64);
    if bits == width {
      SignedResidue(Word(width, x), width);
    } else {
      AgreeMod(n, bits);
      AgreeFewer(n % Pow2(bits), n, bits, 64);
      AgreeBy(x - Pow2(width), x, width, -1);
      AgreeFewer(x - Pow2(width), x, width, 64);
      AgreeThrough(n % Pow2(bits), n, x, 64);
    }
  }

  /** A word whose distance the operation loses. */
  lemma Loses(opcode: Opcode, width: nat, bits: nat, constant: nat) returns (x: nat)
    requires PassesOffsets(opcode) && width > 0 && constant < Pow2(width)
    requires opcode in {ZExt, SExt} ==> width <= bits
    requires !Keeps(opcode, width, bits, constant)
    ensures x < Pow2(width) && !Kept(opcode, width, bits, constant, x)
  {
    hide Agree, Pow2, Kept;
    if Sums(opcode) {
      x := SumLoses(opcode, width, bits, constant);
    } else if opcode == SExt {
      x := SignLoses(width, bits, constant);
    } else {
      x := Pow2(bits);
      TruncationLoses(opcode, width, bits, constant);
    }
  }

  lemma SumLoses(opcode: Opcode, width: nat, bits: nat, constant: nat) returns (x: nat)
    requires Sums(opcode) && 0 < width < 64 && 0 < constant < Pow2(width)
    ensures x < Pow2(width) && !Kept(opcode, width, bits, constant, x)
  {
    hide Agree, Kept, Pow2;
    HalfPower(width);
    var full := Pow2(width);
    assert Offsets.Wrapped(constant) == constant;
    hide Offsets.Wrapped;
    x := if Subtracts(opcode) then 0 else full - constant;
    KeptSum(opcode, width, bits, constant, x);
    if Subtracts(opcode) {
      Residue(-1, full - constant, full);
      Differ(full - constant, 0 - constant);
    } else {
      Residue(1, 0, full);
      Differ(0, full);
    }
  }

  lemma SignLoses(width: nat, bits: nat, constant: nat) returns (x: nat)
    requires 0 < width < 64 && width < bits
    ensures x < Pow2(width) && !Kept(SExt, width, bits, constant, x)
  {
    hide Agree, Kept, Pow2;
    HalfPower(width);
    x := Pow2(width) - 1;
    var r := -1 % Pow2(bits);
    KeptSign(width, bits, constant, x);
    assert Signed(Word(width, x)) == -1;
    if bits >= 64 {
      AgreeMod(-1, bits);
      AgreeFewer(r, -1, bits, 64);
      AgreeFlip(r, -1, 64);
      Differ(-1, x);
      if Agree(r, x, 64) {
        AgreeThrough(-1, r, x, 64);
      }
    } else {
      HalfPower(bits);
      MorePower(width, bits);
      Residue(-1, Pow2(bits) - 1, Pow2(bits));
      Differ(r, x);
    }
  }

  lemma MorePower(a: nat, b: nat)
    requires a < b
    ensures Pow2(b) >= 2 * Pow2(a)
  {
    Pow2Grows(a, b - 1);
  }

  /** Truncating drops the first bit that does not fit. */
  lemma TruncationLoses(opcode: Opcode, width: nat, bits: nat, constant: nat)
    requires opcode in {Trunc, IntToAddr, AddrToInt} && bits < width && bits < 64
    ensures Pow2(bits) < Pow2(width) && !Kept(opcode, width, bits, constant, Pow2(bits))
  {
    hide Agree, Kept, Pow2;
    MorePower(bits, width);
    Pow2Grows(bits, 63);
    Power63();
    KeptCast(opcode, width, bits, constant, Pow2(bits));
    Residue(1, 0, Pow2(bits));
    Differ(0, Pow2(bits));
  }

  /** For a stack pointer that does not fit in 32 bits, the offset of the pointer cut to
      32 bits is not its distance: the offset says that the two are the same. */
  lemma TruncatedPointer()
    ensures
      var pointer := 0x1_0000_0000;
      var cut := Num(CastValue(Trunc, Word(64, pointer), 32));
      cut == 0 && Offsets.Wrapped(cut - pointer) == -0x1_0000_0000
    ensures
      var op := Offsets.Op(Trunc, [0], [1]);
      Offsets.Source(Offsets.Program([], map[], {}), op) == Some((0, 0))
  {
    hide Pow2;
    Power32();
    Residue(1, 0, 0x1_0000_0000);
  }

  lemma Power32()
    ensures Pow2(32) == 0x1_0000_0000
  {
    assert Pow2(8) == 256;
    Pow2Split(8, 16);
    Pow2Split(16, 32);
  }

  // ---------- offsets in an execution ----------

  /** The items of a pass are operations and edges of the module. */
  ghost predicate Describes(m: Module, p: Offsets.Program, items: seq<Offsets.Item>)
  {
    && (forall op, v | Offsets.OpItem(op) in items && v in op.results :: Computes(m, op, v))
    && (forall b, v | 0 <= b < |p.blocks| && v in p.blocks[b].parameters :: m.Definition(v).None?)
  }

  predicate Computes(m: Module, op: Offsets.Op, v: Value)
  {
    m.Definition(v).Some? && m.Defining(v).opcode == op.opcode && m.Defining(v).inputs == op.inputs
  }

  /** The known constants are right in the bits that their values have. */
  ghost predicate Knows(m: Module, run: Run, p: Offsets.Program)
  {
    forall v <- p.constants :: Agree(Num(run.value(v)), p.constants[v], WordBits(m, v))
  }

  lemma OperationMeaning(m: Module, run: Run, p: Offsets.Program, op: Offsets.Op, a: Value, b: Value, delta: int)
    requires WellFormed(m) && Execution(m, run) && Knows(m, run, p)
    requires Computes(m, op, b) && Offsets.ByOp(p, op, a, b, delta)
    ensures Agree(Num(run.value(b)), Num(run.value(a)) + delta, LinkBits(m, b))
  {
    hide WellFormed, Execution, Agree;
    if op.opcode in CastOpcodes() {
      ValueOf(m, run, b);
      CastAgrees(m, run, b);
    } else {
      SumAgrees(m, run, b);
      var c := op.inputs[1];
      var x, y, n, bits := Num(run.value(a)), Num(run.value(c)), p.constants[c], LinkBits(m, b);
      assert Agree(y, n, WordBits(m, c)) && bits <= WordBits(m, c) <= 64;
      hide LinkBits, WordBits;
      AgreeFewer(y, n, WordBits(m, c), bits);
      WrappedAgrees(n);
      AgreeFewer(n, Offsets.Wrapped(n), 64, bits);
      AgreeThrough(y, n, Offsets.Wrapped(n), bits);
      AgreeSame(x, bits);
      AgreeSum(x, x, y, Offsets.Wrapped(n), bits);
      AgreeThrough(Num(run.value(b)), Moved(x, y, Subtracts(op.opcode)), x + delta, bits);
    }
  }

  /** The narrowest of a value and, if an operation computes it, of its operands. */
  function ValueBits(m: Module, v: Value): nat
  {
    if m.Definition(v).Some? && m.Defining(v).inputs != [] then LinkBits(m, v) else WordBits(m, v)
  }

  function TrailBits(m: Module, t: Offsets.Trail): nat
  {
    match t
    case Start(v) => WordBits(m, v)
    case Then(before, v, _) => Min(TrailBits(m, before), ValueBits(m, v))
  }

  function First(t: Offsets.Trail): Value
  {
    match t
    case Start(v) => v
    case Then(before, _, _) => First(before)
  }

  /** The execution has passed the arguments along the trail to the parameters. */
  ghost predicate Passed(m: Module, run: Run, t: Offsets.Trail)
  {
    match t
    case Start(_) => true
    case Then(before, v, _) =>
      Passed(m, run, before) && (m.Definition(v).None? ==> Num(run.value(v)) == Num(run.value(before.v)))
  }

  /** In every execution that came along a trail, its last value is the entry pointer
      plus what the trail adds up to, in the bits of the narrowest value on the trail. */
  lemma {:induction false} TrailMeaning(m: Module, run: Run, p: Offsets.Program, items: seq<Offsets.Item>,
                                        entry: set<Value>, t: Offsets.Trail)
    requires WellFormed(m) && Execution(m, run) && Knows(m, run, p) && Describes(m, p, items)
    requires Offsets.Follows(p, items, entry, t) && Passed(m, run, t)
    ensures Agree(Num(run.value(t.v)), Num(run.value(First(t))) + Offsets.Total(t), TrailBits(m, t))
  {
    hide WellFormed, Execution, Knows, Agree, LinkBits;
    match t
    case Start(v) =>
      AgreeSame(Num(run.value(v)), WordBits(m, v));
    case Then(before, v, delta) =>
      TrailMeaning(m, run, p, items, entry, before);
      StepMeaning(m, run, p, items, before.v, v, delta);
      var x, pointer, total := Num(run.value(v)), Num(run.value(First(t))), Offsets.Total(before);
      hide Offsets.Wrapped;
      AgreeFurther(x, Num(run.value(before.v)), pointer + total, delta, ValueBits(m, v), TrailBits(m, before));
      WrapTotal(x, pointer, total + delta, Min(ValueBits(m, v), TrailBits(m, before)));
  }

  lemma WrapTotal(x: int, pointer: int, n: int, bits: nat)
    requires Agree(x, pointer + n, bits) && bits <= 64
    ensures Agree(x, pointer + Offsets.Wrapped(n), bits)
  {
    hide Agree, Offsets.Wrapped;
    WrappedAgrees(n);
    AgreeFewer(n, Offsets.Wrapped(n), 64, bits);
    AgreeSame(pointer, bits);
    AgreeSum(pointer, pointer, n, Offsets.Wrapped(n), bits);
    AgreeThrough(x, pointer + n, pointer + Offsets.Wrapped(n), bits);
  }

  lemma StepMeaning(m: Module, run: Run, p: Offsets.Program, items: seq<Offsets.Item>, a: Value, b: Value, delta: int)
    requires WellFormed(m) && Execution(m, run) && Knows(m, run, p) && Describes(m, p, items)
    requires Offsets.Equation(p, items, a, b, delta)
    requires m.Definition(b).None? ==> Num(run.value(b)) == Num(run.value(a))
    ensures Agree(Num(run.value(b)), Num(run.value(a)) + delta, ValueBits(m, b)) && ValueBits(m, b) <= 64
  {
    hide WellFormed, Execution, Knows, Agree;
    var item :| item in items && Offsets.ByItem(p, item, a, b, delta);
    match item
    case OpItem(op) =>
      assert Computes(m, op, b);
      OperationMeaning(m, run, p, op, a, b, delta);
    case EdgeItem(e) =>
      AgreeSame(Num(run.value(a)), ValueBits(m, b));
  }

  /** Every recovered offset comes from a trail along which it is the distance to the
      entry pointer, in the bits of the narrowest value; with 64 bits it is exact. */
  lemma OffsetMeaning(m: Module, p: Offsets.Program, items: seq<Offsets.Item>, entry: set<Value>,
                      offsets: Offsets.Table, v: Value) returns (t: Offsets.Trail)
    requires WellFormed(m) && Describes(m, p, items) && Offsets.Outcome(p, items, entry, offsets) && v in offsets
    ensures t.v == v && First(t) in entry && Offsets.Follows(p, items, entry, t)
    ensures forall run | Execution(m, run) && Knows(m, run, p) && Passed(m, run, t) ::
      && Agree(Num(run.value(v)), Num(run.value(First(t))) + offsets[v], TrailBits(m, t))
      && (TrailBits(m, t) == 64 ==> Offsets.Wrapped(Num(run.value(v)) - Num(run.value(First(t)))) == offsets[v])
  {
    hide WellFormed, Execution, Knows, Agree, Passed, TrailBits, Describes, Offsets.Equation;
    assert Offsets.Traced(p, items, entry, v, offsets[v]);
    t :| Offsets.Follows(p, items, entry, t) && t.v == v && Offsets.Total(t) == offsets[v];
    FirstIsEntry(p, items, entry, t);
    forall run | Execution(m, run) && Knows(m, run, p) && Passed(m, run, t)
      ensures Agree(Num(run.value(v)), Num(run.value(First(t))) + offsets[v], TrailBits(m, t))
      ensures TrailBits(m, t) == 64 ==>
        Offsets.Wrapped(Num(run.value(v)) - Num(run.value(First(t)))) == offsets[v]
    {
      TrailMeaning(m, run, p, items, entry, t);
      if TrailBits(m, t) == 64 {
        var pointer := Num(run.value(First(t)));
        DistanceAgrees(Num(run.value(v)), pointer + offsets[v], pointer);
        TotalInRange(t);
      }
    }
  }

  lemma {:induction false} FirstIsEntry(p: Offsets.Program, items: seq<Offsets.Item>, entry: set<Value>, t: Offsets.Trail)
    requires Offsets.Follows(p, items, entry, t)
    ensures First(t) in entry
  {
    if t.Then? {
      FirstIsEntry(p, items, entry, t.before);
    }
  }

  lemma TotalInRange(t: Offsets.Trail)
    ensures Offsets.Wrapped(Offsets.Total(t)) == Offsets.Total(t)
  {
  }

  // ---------- a recovered offset that is no distance ----------

  const CUT := Offsets.Op(Trunc, [0], [1])

  /** One block: a 64-bit stack pointer comes in and is cut to 32 bits. */
  const CUT_PROGRAM := Offsets.Program([Offsets.Block([0], [CUT], [])], map[], {})

  const CUT_ITEMS: seq<Offsets.Item> := [Offsets.OpItem(CUT)]

  const CUT_MODULE := Module(
    [Type(IntKind, 64), Type(IntKind, 32)], [None, Some(0)], [1, 0],
    [Op(Trunc, [0], 0, 0, Effects(false, false, false, false, false, false, false, false), None, false)], [[0]])

  /** The execution with the stack pointer 2^32. */
  function CutRun(): Run
  {
    Run(v => if v == 0 then Word(64, 0x1_0000_0000) else if v == 1 then Word(32, 0) else Other(0),
        _ => (_ => 0), (_, _, _) => Other(0), (_, _, _) => Other(0), (_, _) => Other(0), (_, _, _) => Other(0))
  }

  lemma CutExecutes()
    ensures WellFormed(CUT_MODULE) && Execution(CUT_MODULE, CutRun())
    ensures Describes(CUT_MODULE, CUT_PROGRAM, CUT_ITEMS) && Knows(CUT_MODULE, CutRun(), CUT_PROGRAM)
  {
    hide Pow2, Arithmetic, FlagValue, Values, CallOperands, Compare;
    var m, run := CUT_MODULE, CutRun();
    Power32();
    Pow2Grows(33, 64);
    MorePower(32, 33);
    assert IsNumber(run.value(0), 64) && IsNumber(run.value(1), 32);
    Residue(1, 0, 0x1_0000_0000);
    CastComputed(m, run, 1, 0, m.ops[0]);
    hide Meaning, CastValue;
    assert Meaning(m, run, 1, 0, m.ops[0]) == Word(32, 0) == run.value(1);
    forall v: Value ensures TypedAt(m, run, v) && DefinedAt(m, run, v) && WellFormedAt(m, v) {
    }
    assert Remembers(m, run);
  }

  lemma CutEquations(a: Value, b: Value, delta: int)
    requires Offsets.Equation(CUT_PROGRAM, CUT_ITEMS, a, b, delta)
    ensures a == 0 && b == 1 && delta == 0
  {
  }

  lemma CutTrail()
    ensures
      var t := Offsets.Then(Offsets.Start(0), 1, 0);
      Offsets.Follows(CUT_PROGRAM, CUT_ITEMS, {0}, t) && Offsets.Steps(t) == 1
  {
    var op := Offsets.OpItem(CUT);
    assert op in CUT_ITEMS && Offsets.ByItem(CUT_PROGRAM, op, 0, 1, 0);
    hide Offsets.ByItem;
    assert Offsets.Equation(CUT_PROGRAM, CUT_ITEMS, 0, 1, 0);
  }

  lemma CutOffset(offsets: Offsets.Table)
    requires Offsets.Outcome(CUT_PROGRAM, CUT_ITEMS, {0}, offsets)
    requires Offsets.Within(CUT_PROGRAM, CUT_ITEMS, {0}, offsets, Offsets.PASSES)
    ensures 1 in offsets && offsets[1] == 0
  {
    CutTrail();
    CutConsistent();
    hide Offsets.Follows, Offsets.Outcome, Offsets.Consistent, Offsets.Steps;
    assert Offsets.Then(Offsets.Start(0), 1, 0).v in offsets;
    Offsets.OffsetsAgree(CUT_PROGRAM, CUT_ITEMS, {0}, offsets, Zero);
  }

  function Zero(v: Value): int { 0 }

  lemma CutConsistent()
    ensures Offsets.Consistent(CUT_PROGRAM, CUT_ITEMS, {0}, Zero)
  {
    hide Offsets.Equation;
    forall a, b, delta | Offsets.Equation(CUT_PROGRAM, CUT_ITEMS, a, b, delta) ensures delta == 0 {
      CutEquations(a, b, delta);
    }
  }

  lemma CutDistance()
    ensures Offsets.Wrapped(Num(CutRun().value(1)) - Num(CutRun().value(0))) == -0x1_0000_0000
  {
  }

  /** Recovery gives the cut pointer offset 0, and in that execution it is 2^32 away. */
  method CutIsRecovered() returns (offsets: Offsets.Table)
    ensures 1 in offsets && offsets[1] == 0
    ensures WellFormed(CUT_MODULE) && Execution(CUT_MODULE, CutRun())
    ensures Describes(CUT_MODULE, CUT_PROGRAM, CUT_ITEMS) && Knows(CUT_MODULE, CutRun(), CUT_PROGRAM)
    ensures Offsets.Wrapped(Num(CutRun().value(1)) - Num(CutRun().value(0))) == -0x1_0000_0000
  {
    hide *;
    CutExecutes();
    CutDistance();
    offsets := Offsets.Recover(CUT_PROGRAM, CUT_ITEMS, {0});
    CutOffset(offsets);
  }
}
