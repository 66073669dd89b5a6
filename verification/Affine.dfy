/** Stack addresses: a value is recovered as a stack register plus a constant offset,
    with additions that would leave 64 bits refused. */
module Affine {
  import opened Basics
  import opened Ssa
  import opened ExprTree
  import opened ExprMeaning

  const MAX_DEPTH := 16

  datatype Stack = Stack(base: Value, offset: int)

  predicate Int64(n: int)
  {
    INT64_MIN <= n <= INT64_MAX
  }

  // constant_signed
  function ConstantSigned(m: Module, v: Value): (r: Option<int>)
    ensures r.Some? ==> Int64(r.value)
  {
    if !m.HasValue(v) || m.Definition(v).None? || m.Defining(v).opcode != Const then None
    else Some(SignedConstant(m.Defining(v).low % TWO64, m.TypeOf(v).bits))
  }

  function SignedConstant(low: nat, bits: nat): (n: int)
    requires low < TWO64
    ensures Int64(n)
  {
    if 0 < bits < 64 then
      HalfPower(bits);
      var masked := low % Pow2(bits);
      if masked >= Pow2(bits - 1) then masked - Pow2(bits) else masked
    else if low >= TWO63 then low - TWO64
    else low
  }

  /** The guard in front of an offset's addition or subtraction. */
  predicate Guard(offset: int, constant: int, subtract: bool)
  {
    if subtract then
      || (constant >= 0 && offset >= INT64_MIN + constant)
      || (constant < 0 && offset <= INT64_MAX + constant)
    else
      || (constant >= 0 && offset <= INT64_MAX - constant)
      || (constant < 0 && offset >= INT64_MIN - constant)
  }

  function Moved(offset: int, constant: int, subtract: bool): int
  {
    if subtract then offset - constant else offset + constant
  }

  predicate Sums(opcode: Opcode)
  {
    opcode in {Add, AddrAdd, Sub, AddrSub}
  }

  predicate Subtracts(opcode: Opcode)
  {
    opcode in {Sub, AddrSub}
  }

  /** The base moved by the constant, if there are both and the guard lets it. */
  function Moving(base: Option<Stack>, constant: Option<int>, subtract: bool): Option<Stack>
  {
    if base.Some? && constant.Some? && Guard(base.value.offset, constant.value, subtract)
    then Some(Stack(base.value.base, Moved(base.value.offset, constant.value, subtract)))
    else None
  }

  /** The recovery with the values under way as an argument. */
  function Recovered(m: Module, registers: set<Value>, v: Value, depth: nat, active: set<Value>): (r: Option<Stack>)
    ensures r.Some? ==> Int64(r.value.offset)
    decreases MAX_DEPTH + 1 - depth
  {
    if depth > MAX_DEPTH || !m.HasValue(v) || v in active then None
    else if v in registers then Some(Stack(v, 0))
    else if m.Definition(v).None? then None
    else
      var op, inner := m.Defining(v), active + {v};
      if op.opcode in CastOpcodes() && |op.inputs| == 1 then
        Recovered(m, registers, op.inputs[0], depth + 1, inner)
      else if Sums(op.opcode) && |op.inputs| >= 2 then
        var first :=
          Moving(Recovered(m, registers, op.inputs[0], depth + 1, inner), ConstantSigned(m, op.inputs[1]),
                 Subtracts(op.opcode));
        if first.Some? then first
        else if Subtracts(op.opcode) then None
        else Moving(Recovered(m, registers, op.inputs[1], depth + 1, inner), ConstantSigned(m, op.inputs[0]), false)
      else None
  }

  // affine_stack_impl
  /** The set of values under way is left as it was found. */
  method Recover(m: Module, registers: set<Value>, v: Value, depth: nat, active0: set<Value>)
    returns (r: Option<Stack>, active: set<Value>)
    ensures active == active0
    ensures r == Recovered(m, registers, v, depth, active0)
    decreases MAX_DEPTH + 1 - depth
  {
    active := active0;
    if depth > MAX_DEPTH || !m.HasValue(v) || v in active {
      return None, active;
    }
    active := active + {v};
    if v in registers {
      return Some(Stack(v, 0)), active - {v};
    }
    if m.Definition(v).None? {
      return None, active - {v};
    }
    var op := m.Defining(v);
    if op.opcode in CastOpcodes() && |op.inputs| == 1 {
      r, active := Recover(m, registers, op.inputs[0], depth + 1, active);
      return r, active - {v};
    }
    if Sums(op.opcode) && |op.inputs| >= 2 {
      var constant := ConstantSigned(m, op.inputs[1]);
      if constant.Some? {
        r, active := Recover(m, registers, op.inputs[0], depth + 1, active);
        if r.Some? && Guard(r.value.offset, constant.value, Subtracts(op.opcode)) {
          return Some(Stack(r.value.base, Moved(r.value.offset, constant.value, Subtracts(op.opcode)))), active - {v};
        }
      }
      if !Subtracts(op.opcode) {
        constant := ConstantSigned(m, op.inputs[0]);
        if constant.Some? {
          r, active := Recover(m, registers, op.inputs[1], depth + 1, active);
          if r.Some? && Guard(r.value.offset, constant.value, false) {
            return Some(Stack(r.value.base, Moved(r.value.offset, constant.value, false))), active - {v};
          }
        }
      }
    }
    return None, active - {v};
  }

  /** The guards refuse exactly the results that leave 64 bits, and never leave 64
      bits themselves. */
  lemma GuardExact(offset: int, constant: int, subtract: bool)
    requires Int64(offset) && Int64(constant)
    ensures Guard(offset, constant, subtract) <==> Int64(Moved(offset, constant, subtract))
    ensures constant >= 0 ==> Int64(INT64_MIN + constant) && Int64(INT64_MAX - constant)
    ensures constant < 0 ==> Int64(INT64_MAX + constant) && Int64(INT64_MIN - constant)
  {
  }

  // ---------- congruence ----------

  lemma HalfPower(n: nat)
    requires 0 < n < 64
    ensures Pow2(n) == 2 * Pow2(n - 1) && Pow2(n) <= TWO63
  {
    Pow2Grows(n, 63);
    Power63();
  }

  lemma Power63()
    ensures Pow2(63) == TWO63 && Pow2(64) == TWO64
  {
    assert Pow2(4) == 16;
    Pow2Split(4, 8);
    Pow2Split(8, 16);
    Pow2Split(16, 32);
    Pow2Split(32, 64);
  }

  /** The numbers agree in their lowest bits. */
  ghost predicate Agree(a: int, b: int, bits: nat)
  {
    exists k: int :: a == b + k * Pow2(bits)
  }

  lemma AgreeBy(a: int, b: int, bits: nat, k: int)
    requires a == b + k * Pow2(bits)
    ensures Agree(a, b, bits)
  {
  }

  lemma AgreeMod(a: int, bits: nat)
    ensures Agree(a % Pow2(bits), a, bits)
  {
    var n := Pow2(bits);
    assert a == a / n * n + a % n;
    assert a % n == a + -(a / n) * n;
  }

  lemma Regroup(k: int, n: int, more: int)
    ensures k * (n * more) == (k * more) * n
  {
  }

  lemma AgreeFewer(a: int, b: int, bits: nat, fewer: nat)
    requires Agree(a, b, bits) && fewer <= bits
    ensures Agree(a, b, fewer)
  {
    var k: int :| a == b + k * Pow2(bits);
    Pow2Split(fewer, bits);
    Regroup(k, Pow2(fewer), Pow2(bits - fewer));
    AgreeBy(a, b, fewer, k * Pow2(bits - fewer));
  }

  lemma AgreeThrough(a: int, b: int, c: int, bits: nat)
    requires Agree(a, b, bits) && Agree(b, c, bits)
    ensures Agree(a, c, bits)
  {
    var k: int :| a == b + k * Pow2(bits);
    var l: int :| b == c + l * Pow2(bits);
    assert k * Pow2(bits) + l * Pow2(bits) == (k + l) * Pow2(bits);
    AgreeBy(a, c, bits, k + l);
  }

  lemma AgreeSum(a: int, b: int, c: int, d: int, bits: nat)
    requires Agree(a, b, bits) && Agree(c, d, bits)
    ensures Agree(a + c, b + d, bits) && Agree(a - c, b - d, bits)
  {
    var k: int :| a == b + k * Pow2(bits);
    var l: int :| c == d + l * Pow2(bits);
    assert k * Pow2(bits) + l * Pow2(bits) == (k + l) * Pow2(bits);
    assert k * Pow2(bits) - l * Pow2(bits) == (k - l) * Pow2(bits);
    AgreeBy(a + c, b + d, bits, k + l);
    AgreeBy(a - c, b - d, bits, k - l);
  }

  // ---------- the recovered address is the value ----------

  function WordBits(m: Module, v: Value): nat
  {
    if IsWord(m, v) then Min(64, m.types[v].bits) else 0
  }

  /** The recovery goes on from the first value to the second. */
  predicate Leads(m: Module, u: Value, w: Value)
  {
    m.Definition(u).Some? &&
    var op := m.Defining(u);
    || (op.opcode in CastOpcodes() && |op.inputs| == 1 && w == op.inputs[0])
    || (Sums(op.opcode) && |op.inputs| >= 2 && w == op.inputs[0] && ConstantSigned(m, op.inputs[1]).Some?)
    || (Sums(op.opcode) && |op.inputs| >= 2 && !Subtracts(op.opcode) && w == op.inputs[1] &&
        ConstantSigned(m, op.inputs[0]).Some?)
  }

  predicate Chain(m: Module, chain: seq<Value>)
  {
    chain != [] && forall i | 0 <= i < |chain| - 1 :: Leads(m, chain[i], chain[i + 1])
  }

  /** The narrowest of a value and the operands it is defined by. */
  function LinkBits(m: Module, u: Value): nat
    requires m.Definition(u).Some? && m.Defining(u).inputs != []
  {
    var inputs := m.Defining(u).inputs;
    var bits := Min(WordBits(m, u), WordBits(m, inputs[0]));
    if |inputs| >= 2 then Min(bits, WordBits(m, inputs[1])) else bits
  }

  /** The narrowest width on the chain, and no more than 64. */
  function Narrowest(m: Module, chain: seq<Value>): nat
    requires Chain(m, chain)
  {
    if |chain| == 1 then WordBits(m, chain[0])
    else
      assert Leads(m, chain[0], chain[1]);
      Min(LinkBits(m, chain[0]), Narrowest(m, chain[1..]))
  }

  ghost predicate Reads(m: Module, run: Run, chain: seq<Value>, offset: int)
    requires Chain(m, chain)
  {
    Agree(Num(run.value(chain[0])), Num(run.value(chain[|chain| - 1])) + offset, Narrowest(m, chain))
  }

  lemma ConstantAgrees(m: Module, run: Run, v: Value)
    requires WellFormed(m) && Execution(m, run) && ConstantSigned(m, v).Some?
    ensures Agree(Num(run.value(v)), ConstantSigned(m, v).value, WordBits(m, v))
  {
    ConstantValue(m, run, v);
    hide Agree, WellFormed, Execution, SignedConstant;
    SignedAgrees(m.Defining(v).low, m.TypeOf(v).bits);
  }

  lemma ConstantValue(m: Module, run: Run, v: Value)
    requires WellFormed(m) && Execution(m, run) && ConstantSigned(m, v).Some?
    ensures Num(run.value(v)) == m.Defining(v).low && IsWord(m, v)
  {
    hide WellFormed, Execution, Meaning, Pow2;
    ValueOf(m, run, v);
    ConstantComputed(m, run, v, m.Definition(v).value, m.Defining(v));
    ConstantFits(m.TypeOf(v).bits, m.Defining(v).low);
  }

  lemma SignedAgrees(low: nat, bits: nat)
    ensures Agree(low, SignedConstant(low % TWO64, bits), Min(64, bits))
  {
    hide Agree;
    var lo := low % TWO64;
    Power63();
    AgreeMod(low, 64);
    AgreeFlip(lo, low, 64);
    AgreeFewer(low, lo, 64, Min(64, bits));
    if 0 < bits < 64 {
      HalfPower(bits);
      var masked := lo % Pow2(bits);
      AgreeMod(lo, bits);
      AgreeFlip(masked, lo, bits);
      AgreeThrough(low, lo, masked, bits);
      AgreeBy(masked, masked - Pow2(bits), bits, 1);
      AgreeThrough(low, masked, masked - Pow2(bits), bits);
    } else if bits == 0 {
      AgreeAny(low, SignedConstant(lo, bits));
    } else {
      AgreeBy(lo, lo - TWO64, 64, 1);
      AgreeThrough(low, lo, lo - TWO64, 64);
    }
  }

  lemma AgreeFlip(a: int, b: int, bits: nat)
    requires Agree(a, b, bits)
    ensures Agree(b, a, bits)
  {
    var k: int :| a == b + k * Pow2(bits);
    AgreeBy(b, a, bits, -k);
  }

  lemma CastAgrees(m: Module, run: Run, u: Value)
    requires WellFormed(m) && Execution(m, run) && m.Definition(u).Some?
    requires m.Defining(u).opcode in CastOpcodes() && |m.Defining(u).inputs| == 1
    ensures Agree(Num(run.value(u)), Num(run.value(m.Defining(u).inputs[0])), LinkBits(m, u))
  {
    hide Agree, Meaning, Execution, WellFormed;
    var op := m.Defining(u);
    var d, bits := run.value(op.inputs[0]), m.TypeOf(u).bits;
    ValueOf(m, run, u);
    CastComputed(m, run, u, m.Definition(u).value, op);
    assert run.value(u) == CastValue(op.opcode, d, bits);
    WordWidth(m, run, op.inputs[0]);
    var link := LinkBits(m, u);
    AgreeSame(Num(d), link);
    if op.opcode == SExt {
      AgreeMod(Signed(d), bits);
      AgreeFewer(Signed(d) % Pow2(bits), Signed(d), bits, link);
      AgreeBy(Num(d) - Pow2(Width(d)), Num(d), Width(d), -1);
      AgreeFewer(Num(d) - Pow2(Width(d)), Num(d), Width(d), link);
      AgreeThrough(Signed(d) % Pow2(bits), Signed(d), Num(d), link);
    } else if op.opcode != ZExt {
      AgreeMod(Num(d), bits);
      AgreeFewer(Num(d) % Pow2(bits), Num(d), bits, link);
    }
  }

  lemma AgreeSame(a: int, bits: nat)
    ensures Agree(a, a, bits)
  {
    AgreeBy(a, a, bits, 0);
  }

  lemma SumMeaning(m: Module, run: Run, u: Value, id: OpId, op: Op)
    requires Sums(op.opcode)
    ensures Meaning(m, run, u, id, op)
            == Arithmetic(run, if Subtracts(op.opcode) then Minus else Plus, In(run, op, 0), In(run, op, 1))
  {
    hide Arithmetic, In, Compare, FlagValue, CastValue, Values, CallOperands, Pow2;
  }

  lemma SumNumber(run: Run, a: Datum, b: Datum, subtract: bool)
    ensures Num(Arithmetic(run, if subtract then Minus else Plus, a, b)) == Moved(Num(a), Num(b), subtract) % Pow2(Width(a))
  {
  }

  lemma WordWidth(m: Module, run: Run, v: Value)
    requires Execution(m, run)
    ensures WordBits(m, v) <= Width(run.value(v))
  {
    if IsWord(m, v) {
      WordAt(m, run, v);
    }
  }

  lemma SumValue(m: Module, run: Run, u: Value)
    requires WellFormed(m) && Execution(m, run) && m.Definition(u).Some? && Sums(m.Defining(u).opcode)
    ensures
      var op := m.Defining(u);
      && |op.inputs| == 2
      && var bits := Width(run.value(op.inputs[0]));
      && Num(run.value(u)) ==
         Moved(Num(run.value(op.inputs[0])), Num(run.value(op.inputs[1])), Subtracts(op.opcode)) % Pow2(bits)
      && LinkBits(m, u) <= bits
  {
    hide WellFormed, Execution, Meaning, Pow2, Arithmetic, Num, Width;
    var op := m.Defining(u);
    ValueOf(m, run, u);
    SumMeaning(m, run, u, m.Definition(u).value, op);
    SumNumber(run, In(run, op, 0), In(run, op, 1), Subtracts(op.opcode));
    WordWidth(m, run, op.inputs[0]);
  }

  lemma SumAgrees(m: Module, run: Run, u: Value)
    requires WellFormed(m) && Execution(m, run) && m.Definition(u).Some? && Sums(m.Defining(u).opcode)
    ensures
      var op := m.Defining(u);
      && |op.inputs| == 2
      && Agree(Num(run.value(u)),
               Moved(Num(run.value(op.inputs[0])), Num(run.value(op.inputs[1])), Subtracts(op.opcode)), LinkBits(m, u))
  {
    hide Agree, Pow2, Num, Width, WellFormed, Execution, LinkBits;
    SumValue(m, run, u);
    var op := m.Defining(u);
    var a, b := run.value(op.inputs[0]), run.value(op.inputs[1]);
    var exact := Moved(Num(a), Num(b), Subtracts(op.opcode));
    AgreeMod(exact, Width(a));
    AgreeFewer(Num(run.value(u)), exact, Width(a), LinkBits(m, u));
  }

  lemma AgreeAny(a: int, b: int)
    ensures Agree(a, b, 0)
  {
    AgreeBy(a, b, 0, a - b);
  }

  /** What going from one value to the next adds. */
  function LinkDelta(m: Module, u: Value, w: Value): int
    requires Leads(m, u, w)
  {
    var op := m.Defining(u);
    if op.opcode in CastOpcodes() then 0
    else if w == op.inputs[0] && ConstantSigned(m, op.inputs[1]).Some?
    then Moved(0, ConstantSigned(m, op.inputs[1]).value, Subtracts(op.opcode))
    else ConstantSigned(m, op.inputs[0]).value
  }

  function ChainSum(m: Module, chain: seq<Value>): int
    requires Chain(m, chain)
  {
    if |chain| == 1 then 0
    else
      assert Leads(m, chain[0], chain[1]);
      ChainSum(m, chain[1..]) + LinkDelta(m, chain[0], chain[1])
  }

  /** No offset on the way back from the chain's end leaves 64 bits. */
  predicate Bounded(m: Module, chain: seq<Value>)
    requires Chain(m, chain)
  {
    Int64(ChainSum(m, chain)) && (|chain| > 1 ==> Bounded(m, chain[1..]))
  }

  /** A sum with one constant operand is the other operand moved by the constant. */
  lemma AddConstant(m: Module, run: Run, u: Value, operand: nat)
    requires WellFormed(m) && Execution(m, run) && m.Definition(u).Some? && Sums(m.Defining(u).opcode)
    requires operand < 2 <= |m.Defining(u).inputs| && ConstantSigned(m, m.Defining(u).inputs[1 - operand]).Some?
    requires operand == 1 ==> !Subtracts(m.Defining(u).opcode)
    ensures
      var op := m.Defining(u);
      var constant := ConstantSigned(m, op.inputs[1 - operand]).value;
      Agree(Num(run.value(u)), Num(run.value(op.inputs[operand])) + Moved(0, constant, Subtracts(op.opcode)), LinkBits(m, u))
  {
    hide WellFormed, Execution, Agree;
    var op := m.Defining(u);
    var w, c := op.inputs[operand], op.inputs[1 - operand];
    var bits, constant := LinkBits(m, u), ConstantSigned(m, c).value;
    SumAgrees(m, run, u);
    ConstantAgrees(m, run, c);
    assert bits <= WordBits(m, c);
    hide LinkBits;
    AgreeFewer(Num(run.value(c)), constant, WordBits(m, c), bits);
    AgreeSame(Num(run.value(w)), bits);
    AgreeSum(Num(run.value(w)), Num(run.value(w)), Num(run.value(c)), constant, bits);
    var exact := Moved(Num(run.value(op.inputs[0])), Num(run.value(op.inputs[1])), Subtracts(op.opcode));
    AgreeThrough(Num(run.value(u)), exact, Num(run.value(w)) + Moved(0, constant, Subtracts(op.opcode)), bits);
  }

  lemma LinkMeaning(m: Module, run: Run, u: Value, w: Value)
    requires WellFormed(m) && Execution(m, run) && Leads(m, u, w)
    ensures Agree(Num(run.value(u)), Num(run.value(w)) + LinkDelta(m, u, w), LinkBits(m, u))
  {
    hide WellFormed, Execution, Agree, LinkBits;
    var op := m.Defining(u);
    if op.opcode in CastOpcodes() {
      CastAgrees(m, run, u);
    } else if w == op.inputs[0] && ConstantSigned(m, op.inputs[1]).Some? {
      AddConstant(m, run, u, 0);
    } else {
      AddConstant(m, run, u, 1);
    }
  }

  /** In every execution the first value of a chain is the last plus the chain's sum, in
      as many low bits as the narrowest value on the chain has. */
  lemma {:induction false} ChainMeaning(m: Module, run: Run, chain: seq<Value>)
    requires WellFormed(m) && Execution(m, run) && Chain(m, chain)
    ensures Reads(m, run, chain, ChainSum(m, chain))
  {
    hide WellFormed, Execution, Agree, LinkBits, LinkDelta;
    var first, last := Num(run.value(chain[0])), Num(run.value(chain[|chain| - 1]));
    if |chain| == 1 {
      AgreeSame(first, Narrowest(m, chain));
    } else {
      assert Leads(m, chain[0], chain[1]);
      var rest, delta := chain[1..], LinkDelta(m, chain[0], chain[1]);
      ChainMeaning(m, run, rest);
      LinkMeaning(m, run, chain[0], chain[1]);
      hide Leads, Chain;
      AgreeFurther(first, Num(run.value(chain[1])), last + ChainSum(m, rest), delta,
                   LinkBits(m, chain[0]), Narrowest(m, rest));
    }
  }

  lemma AgreeFurther(a: int, b: int, c: int, delta: int, bits: nat, rest: nat)
    requires Agree(a, b + delta, bits) && Agree(b, c, rest)
    ensures Agree(a, c + delta, Min(bits, rest))
  {
    hide Agree;
    var fewer := Min(bits, rest);
    AgreeFewer(a, b + delta, bits, fewer);
    AgreeFewer(b, c, rest, fewer);
    AgreeSame(delta, fewer);
    AgreeSum(b, c, delta, delta, fewer);
    AgreeThrough(a, b + delta, c + delta, fewer);
  }

  // ---------- what is recovered ----------

  /** The chain ends at the first stack register on it. */
  predicate Reaches(m: Module, registers: set<Value>, chain: seq<Value>)
  {
    && Chain(m, chain) && chain[|chain| - 1] in registers
    && (forall v <- chain :: m.HasValue(v))
    && forall i | 0 <= i < |chain| - 1 :: chain[i] !in registers
  }

  /** The second operand of an addition is left aside: both are constant registers. */
  predicate Shadowed(m: Module, registers: set<Value>, u: Value, w: Value)
  {
    m.Definition(u).Some? &&
    var op := m.Defining(u);
    && Sums(op.opcode) && |op.inputs| >= 2 && w == op.inputs[1] && w != op.inputs[0]
    && op.inputs[0] in registers && m.HasValue(op.inputs[0]) && ConstantSigned(m, w).Some?
  }

  predicate Preferred(m: Module, registers: set<Value>, chain: seq<Value>)
  {
    forall i | 0 <= i < |chain| - 1 :: !Shadowed(m, registers, chain[i], chain[i + 1])
  }

  /** The operand through which a value was recovered. */
  function Next(m: Module, registers: set<Value>, v: Value, depth: nat, active: set<Value>): Value
    requires Recovered(m, registers, v, depth, active).Some? && v !in registers
  {
    var op, inner := m.Defining(v), active + {v};
    if op.opcode in CastOpcodes() then op.inputs[0]
    else if Moving(Recovered(m, registers, op.inputs[0], depth + 1, inner), ConstantSigned(m, op.inputs[1]),
                   Subtracts(op.opcode)).Some? then op.inputs[0]
    else op.inputs[1]
  }

  lemma NextRecovered(m: Module, registers: set<Value>, v: Value, depth: nat, active: set<Value>)
    requires Recovered(m, registers, v, depth, active).Some? && v !in registers
    ensures
      var next := Next(m, registers, v, depth, active);
      var all, rest := Recovered(m, registers, v, depth, active), Recovered(m, registers, next, depth + 1, active + {v});
      && depth <= MAX_DEPTH && m.HasValue(v) && Leads(m, v, next) && rest.Some?
      && all == Some(Stack(rest.value.base, rest.value.offset + LinkDelta(m, v, next)))
  {
  }

  lemma NextPreferred(m: Module, registers: set<Value>, v: Value, depth: nat, active: set<Value>)
    requires Recovered(m, registers, v, depth, active).Some? && v !in registers && active !! registers
    ensures !Shadowed(m, registers, v, Next(m, registers, v, depth, active))
  {
    var op, next := m.Defining(v), Next(m, registers, v, depth, active);
    NextRecovered(m, registers, v, depth, active);
    assert op.inputs[0] in registers && m.HasValue(op.inputs[0]) && depth + 1 <= MAX_DEPTH ==>
      Recovered(m, registers, op.inputs[0], depth + 1, active + {v}) == Some(Stack(op.inputs[0], 0));
  }

  lemma PreferredGrows(m: Module, registers: set<Value>, u: Value, chain: seq<Value>)
    requires Preferred(m, registers, chain) && chain != [] && !Shadowed(m, registers, u, chain[0])
    ensures Preferred(m, registers, [u] + chain)
  {
    hide Shadowed;
    var all := [u] + chain;
    forall i | 0 <= i < |all| - 1 ensures !Shadowed(m, registers, all[i], all[i + 1]) {
      if i > 0 {
        assert all[i] == chain[i - 1] && all[i + 1] == chain[i];
      }
    }
  }

  /** The values that the recovery passes on its way to the register. */
  function Route(m: Module, registers: set<Value>, v: Value, depth: nat, active: set<Value>): seq<Value>
    requires Recovered(m, registers, v, depth, active).Some?
    decreases MAX_DEPTH + 1 - depth
  {
    if v in registers then [v]
    else
      NextRecovered(m, registers, v, depth, active);
      [v] + Route(m, registers, Next(m, registers, v, depth, active), depth + 1, active + {v})
  }

  lemma ChainGrows(m: Module, registers: set<Value>, u: Value, chain: seq<Value>)
    requires Reaches(m, registers, chain) && Leads(m, u, chain[0]) && m.HasValue(u) && u !in registers
    ensures Reaches(m, registers, [u] + chain)
    ensures ChainSum(m, [u] + chain) == ChainSum(m, chain) + LinkDelta(m, u, chain[0])
    ensures Bounded(m, chain) && Int64(ChainSum(m, [u] + chain)) ==> Bounded(m, [u] + chain)
  {
    hide Leads, LinkDelta;
    var all := [u] + chain;
    assert all[1..] == chain;
    forall i | 0 <= i < |all| - 1 ensures Leads(m, all[i], all[i + 1]) && all[i] !in registers {
      if i > 0 {
        assert all[i] == chain[i - 1] && all[i + 1] == chain[i];
      }
    }
  }

  lemma {:induction false} RouteReaches(m: Module, registers: set<Value>, v: Value, depth: nat, active: set<Value>)
    requires Recovered(m, registers, v, depth, active).Some? && active !! registers
    ensures
      var route := Route(m, registers, v, depth, active);
      var stack := Recovered(m, registers, v, depth, active).value;
      && Reaches(m, registers, route) && |route| + depth <= MAX_DEPTH + 1
      && route[0] == v && route[|route| - 1] == stack.base
      && ChainSum(m, route) == stack.offset && Bounded(m, route) && Preferred(m, registers, route)
    decreases MAX_DEPTH + 1 - depth
  {
    hide Reaches, Bounded, ChainSum, LinkDelta, Recovered, Next, Leads, Preferred, Shadowed;
    if v in registers {
      RegisterReaches(m, registers, v, depth, active);
    } else {
      NextRecovered(m, registers, v, depth, active);
      NextPreferred(m, registers, v, depth, active);
      var next := Next(m, registers, v, depth, active);
      RouteReaches(m, registers, next, depth + 1, active + {v});
      var route := Route(m, registers, next, depth + 1, active + {v});
      assert Route(m, registers, v, depth, active) == [v] + route;
      hide Route;
      ChainGrows(m, registers, v, route);
      PreferredGrows(m, registers, v, route);
    }
  }

  lemma RegisterReaches(m: Module, registers: set<Value>, v: Value, depth: nat, active: set<Value>)
    requires v in registers && Recovered(m, registers, v, depth, active).Some?
    ensures Recovered(m, registers, v, depth, active) == Some(Stack(v, 0)) && depth <= MAX_DEPTH
    ensures Reaches(m, registers, [v]) && ChainSum(m, [v]) == 0 && Bounded(m, [v]) && Preferred(m, registers, [v])
  {
  }

  // ---------- nothing else is missed ----------

  lemma LeadsOnce(m: Module, u: Value, w: Value, x: Value)
    requires Leads(m, u, w) && Leads(m, u, x) && ConstantSigned(m, w).None?
    ensures w == x
  {
  }

  /** A chain that came back to a value would never end at a register. */
  lemma {:induction false} NeverBack(m: Module, registers: set<Value>, chain: seq<Value>, i: nat, j: nat)
    requires Reaches(m, registers, chain) && i < j < |chain|
    ensures chain[i] != chain[j]
    decreases |chain| - j
  {
    if chain[i] == chain[j] && j < |chain| - 1 {
      assert Leads(m, chain[i], chain[i + 1]) && Leads(m, chain[j], chain[j + 1]);
      assert Leads(m, chain[i + 1], chain[i + 2]);
      LeadsOnce(m, chain[i], chain[i + 1], chain[j + 1]);
      NeverBack(m, registers, chain, i + 1, j + 1);
    }
  }

  lemma ChainStep(m: Module, registers: set<Value>, u: Value, w: Value, depth: nat, active: set<Value>)
    requires Leads(m, u, w) && m.HasValue(u) && u !in registers && u !in active && depth <= MAX_DEPTH
    requires !Shadowed(m, registers, u, w)
    requires Recovered(m, registers, w, depth + 1, active + {u}).Some?
    requires Int64(Recovered(m, registers, w, depth + 1, active + {u}).value.offset + LinkDelta(m, u, w))
    ensures
      var rest := Recovered(m, registers, w, depth + 1, active + {u}).value;
      Recovered(m, registers, u, depth, active) == Some(Stack(rest.base, rest.offset + LinkDelta(m, u, w)))
  {
  }

  lemma NeverAgain(m: Module, registers: set<Value>, chain: seq<Value>)
    requires Reaches(m, registers, chain)
    ensures forall v <- chain[1..] :: v in chain && v != chain[0]
  {
    forall v <- chain[1..] ensures v in chain && v != chain[0] {
      var j :| 0 <= j < |chain[1..]| && chain[1..][j] == v;
      NeverBack(m, registers, chain, 0, j + 1);
    }
  }

  lemma {:induction false} ChainRecovered(m: Module, registers: set<Value>, chain: seq<Value>,
                                          depth: nat, active: set<Value>)
    requires Reaches(m, registers, chain) && Bounded(m, chain) && Preferred(m, registers, chain)
    requires |chain| + depth <= MAX_DEPTH + 1
    requires forall v <- chain :: v !in active
    ensures Recovered(m, registers, chain[0], depth, active) == Some(Stack(chain[|chain| - 1], ChainSum(m, chain)))
    decreases |chain|
  {
    hide Leads, LinkDelta, Shadowed;
    if |chain| == 1 {
      assert chain[0] in registers && m.HasValue(chain[0]);
    } else {
      hide Recovered;
      var u, rest := chain[0], chain[1..];
      assert Leads(m, u, rest[0]);
      RestReaches(m, registers, chain);
      NeverAgain(m, registers, chain);
      RestPreferred(m, registers, chain);
      ChainRecovered(m, registers, rest, depth + 1, active + {u});
      assert !Shadowed(m, registers, u, rest[0]);
      ChainStep(m, registers, u, rest[0], depth, active);
    }
  }

  lemma RestPreferred(m: Module, registers: set<Value>, chain: seq<Value>)
    requires Preferred(m, registers, chain) && |chain| > 1
    ensures Preferred(m, registers, chain[1..])
  {
    hide Shadowed;
    var rest := chain[1..];
    forall i | 0 <= i < |rest| - 1 ensures !Shadowed(m, registers, rest[i], rest[i + 1]) {
      assert rest[i] == chain[i + 1] && rest[i + 1] == chain[i + 2];
    }
  }

  lemma RestReaches(m: Module, registers: set<Value>, chain: seq<Value>)
    requires Reaches(m, registers, chain) && |chain| > 1
    ensures Reaches(m, registers, chain[1..])
  {
    hide Leads;
    var rest := chain[1..];
    forall i | 0 <= i < |rest| - 1 ensures Leads(m, rest[i], rest[i + 1]) && rest[i] !in registers {
      assert rest[i] == chain[i + 1] && rest[i + 1] == chain[i + 2];
    }
  }

  /** The recovery as it is called. */
  function StackAddress(m: Module, registers: set<Value>, v: Value): Option<Stack>
  {
    Recovered(m, registers, v, 0, {})
  }

  ghost predicate Derivable(m: Module, registers: set<Value>, v: Value, stack: Stack, chain: seq<Value>)
  {
    && Reaches(m, registers, chain) && |chain| <= MAX_DEPTH + 1
    && chain[0] == v && chain[|chain| - 1] == stack.base
    && ChainSum(m, chain) == stack.offset && Bounded(m, chain) && Preferred(m, registers, chain)
  }

  /** Exactly the values from which casts and constant sums lead to a stack register
      within the depth limit, with all offsets in 64 bits, are recovered, and of two
      constant registers that are added it is the first. */
  lemma StackAddressExact(m: Module, registers: set<Value>, v: Value, stack: Stack)
    ensures StackAddress(m, registers, v) == Some(stack) <==> exists chain :: Derivable(m, registers, v, stack, chain)
  {
    hide Reaches, Bounded, ChainSum, Recovered, Preferred;
    if StackAddress(m, registers, v) == Some(stack) {
      RouteReaches(m, registers, v, 0, {});
      assert Derivable(m, registers, v, stack, Route(m, registers, v, 0, {}));
    }
    if chain :| Derivable(m, registers, v, stack, chain) {
      ChainRecovered(m, registers, chain, 0, {});
    }
  }

  lemma ReachingChain(m: Module, registers: set<Value>, chain: seq<Value>)
    requires Reaches(m, registers, chain)
    ensures Chain(m, chain)
  {
  }

  /** In every execution the recovered register plus the recovered offset is the value,
      in the low bits that the whole route keeps. */
  lemma StackAddressMeaning(m: Module, registers: set<Value>, v: Value, run: Run)
    requires WellFormed(m) && Execution(m, run) && StackAddress(m, registers, v).Some?
    ensures
      var stack := StackAddress(m, registers, v).value;
      exists chain :: Derivable(m, registers, v, stack, chain) && Reads(m, run, chain, stack.offset)
  {
    hide Reaches, Bounded, ChainSum, Recovered, WellFormed, Execution, Reads;
    var route := Route(m, registers, v, 0, {});
    RouteReaches(m, registers, v, 0, {});
    assert Derivable(m, registers, v, StackAddress(m, registers, v).value, route);
    ReachingChain(m, registers, route);
    ChainMeaning(m, run, route);
  }
}
