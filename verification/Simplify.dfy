/** The string algebra of the agent view: expressions are composed as texts, and what
    is simplified is recognised in the text. Words are 64-bit. */
module Simplify {
  import opened Basics

  datatype Operation = Plus | Minus | Times | And | Or | Xor | Other(name: nat)

  /** A word is plain if no operator character is spelled in it. A number is spelled
      with a sign or without one. */
  datatype Mark =
    | Word(id: nat, plain: bool)
    | Number(bits: bv64, negative: bool)
    | Operator(op: Operation)
    | Open
    | Close

  type Text = seq<Mark>

  const SIGN: bv64 := 0x8000_0000_0000_0000

  function Digit(n: bv64): Text
  {
    [Number(n, false)]
  }

  // constant_value: what fits a signed 64-bit integer
  function ConstantValue(text: Text): Option<bv64>
  {
    if |text| == 1 && text[0].Number? && (text[0].negative || text[0].bits < SIGN) then Some(text[0].bits) else None
  }

  // simple_expression
  predicate PlainMark(mark: Mark)
  {
    match mark
    case Word(_, plain) => plain
    case Number(_, negative) => !negative
    case Operator(_) => false
    case _ => true
  }

  predicate Simple(text: Text)
  {
    forall mark <- text :: PlainMark(mark)
  }

  function Grouped(text: Text): Text
  {
    if Simple(text) then text else [Open] + text + [Close]
  }

  function LastAnd(text: Text): (r: Option<nat>)
    ensures r.Some? ==> r.value < |text| && text[r.value] == Operator(And)
    ensures forall i | (if r.Some? then r.value + 1 else 0) <= i < |text| :: text[i] != Operator(And)
  {
    if text == [] then None
    else if text[|text| - 1] == Operator(And) then Some(|text| - 1)
    else LastAnd(text[..|text| - 1])
  }

  function Stripped(text: Text): Text
  {
    if |text| >= 2 && text[0] == Open && text[|text| - 1] == Close then text[1..|text| - 1] else text
  }

  /** What is left of the last "&", and the constant that is right of it. */
  function MaskSplit(text: Text): (r: Option<(Text, bv64)>)
    ensures r.Some? ==> |r.value.0| < |text|
  {
    var separator := LastAnd(text);
    if separator.None? then None
    else
      var mask := ConstantValue(text[separator.value + 1..]);
      if mask.Some? then Some((text[..separator.value], mask.value)) else None
  }

  predicate Keeps(mask: bv64, bits: bv64)
  {
    Both(mask, bits) == bits
  }

  /** What is masked already, if the text looks like a masking that keeps all the bits
      of the new mask. */
  function Collapsed(left: Text, right: Text): (r: Option<Text>)
    ensures r.Some? ==> |r.value| < |left|
  {
    var split := MaskSplit(Stripped(left));
    if ConstantValue(right).Some? && |left| >= 3 && split.Some? && Keeps(split.value.1, ConstantValue(right).value)
    then Some(split.value.0) else None
  }

  // 64-bit arithmetic
  function Sum(a: bv64, b: bv64): bv64 { a + b }
  function Difference(a: bv64, b: bv64): bv64 { a - b }
  function Product(a: bv64, b: bv64): bv64 { a * b }
  function Both(a: bv64, b: bv64): bv64 { a & b }
  function Either(a: bv64, b: bv64): bv64 { a | b }
  function OneOf(a: bv64, b: bv64): bv64 { a ^ b }

  function Folded(a: bv64, op: Operation, b: bv64): Option<bv64>
  {
    match op
    case Plus => Some(Sum(a, b))
    case Minus => Some(Difference(a, b))
    case Times => Some(Product(a, b))
    case And => Some(Both(a, b))
    case Or => Some(Either(a, b))
    case Xor => Some(OneOf(a, b))
    case Other(_) => None
  }

  function Composed(left: Text, op: Operation, right: Text): Text
  {
    Grouped(left) + [Operator(op)] + Grouped(right)
  }

  // binary_expression
  function BinaryExpression(left: Text, op: Operation, right: Text): Text
    decreases |left|
  {
    if op in {Xor, Minus} && left == right then Digit(0)
    else if op == And && left == right then left
    else if op in {Plus, Or, Xor} && left == Digit(0) then right
    else if op in {Plus, Minus, Or, Xor} && right == Digit(0) then left
    else if op == Times && (left == Digit(0) || right == Digit(0)) then Digit(0)
    else if op == Times && left == Digit(1) then right
    else if op == Times && right == Digit(1) then left
    else if op == And && Collapsed(left, right).Some? then BinaryExpression(Collapsed(left, right).value, op, right)
    else Rewritten(left, op, right)
  }

  /** The rules that come after the collapse of masks. */
  function Rewritten(left: Text, op: Operation, right: Text): Text
  {
    var a, b := ConstantValue(left), ConstantValue(right);
    if a.Some? && b.Some? then
      var value := Folded(a.value, op, b.value);
      if value.Some? then [Number(value.value, value.value >= SIGN)] else Composed(left, op, right)
    else if op == Plus && left == right then Grouped(left) + [Operator(Times)] + Digit(2)
    else if op == Plus && right == Grouped(left) + [Operator(Times)] + Digit(2) then
      Grouped(left) + [Operator(Times)] + Digit(3)
    else if op == Plus && |right| == 1 && right[0].Number? && right[0].negative then
      Grouped(left) + [Operator(Minus)] + Digit(Difference(0, right[0].bits))
    else Composed(left, op, right)
  }

  // ---------- expressions ----------

  datatype Term = Atom(mark: Mark) | Paren(inner: Term) | Bin(op: Operation, left: Term, right: Term)

  function Spelled(t: Term): Text
  {
    match t
    case Atom(mark) => [mark]
    case Paren(inner) => [Open] + Spelled(inner) + [Close]
    case Bin(op, l, r) => Spelled(l) + [Operator(op)] + Spelled(r)
  }

  /** What can stand next to an operator. */
  predicate Unit(t: Term)
  {
    t.Paren? || (t.Atom? && PlainMark(t.mark))
  }

  predicate WellFormed(t: Term)
  {
    match t
    case Atom(mark) => mark.Word? || (mark.Number? && (mark.negative ==> mark.bits >= SIGN))
    case Paren(inner) => WellFormed(inner)
    case Bin(_, l, r) => Unit(l) && Unit(r) && WellFormed(l) && WellFormed(r)
  }

  function Value(env: nat -> bv64, other: (nat, bv64, bv64) -> bv64, t: Term): bv64
  {
    match t
    case Atom(mark) => if mark.Word? then env(mark.id) else if mark.Number? then mark.bits else 0
    case Paren(inner) => Value(env, other, inner)
    case Bin(op, l, r) => Apply(other, op, Value(env, other, l), Value(env, other, r))
  }

  function Apply(other: (nat, bv64, bv64) -> bv64, op: Operation, a: bv64, b: bv64): bv64
  {
    if op.Other? then other(op.name, a, b) else Folded(a, op, b).value
  }

  // ---------- texts of expressions ----------

  lemma {:induction false} SpelledNonempty(t: Term)
    ensures |Spelled(t)| >= 1
    ensures t.Bin? ==> |Spelled(t)| >= 3
  {
    if t.Bin? {
      SpelledNonempty(t.left);
      SpelledNonempty(t.right);
    }
  }

  /** A unit can be read off the front of a text in one way only. */
  lemma {:induction false} UnitUnique(t: Term, u: Term, x: Text, y: Text)
    requires WellFormed(t) && WellFormed(u) && Unit(t) && Unit(u)
    requires Spelled(t) + x == Spelled(u) + y
    ensures t == u && x == y
    decreases t, 0
  {
    assert (Spelled(t) + x)[0] == (Spelled(u) + y)[0];
    if t.Paren? && u.Paren? {
      var a, b := Spelled(t.inner) + ([Close] + x), Spelled(u.inner) + ([Close] + y);
      assert Spelled(t) + x == [Open] + a && Spelled(u) + y == [Open] + b;
      assert a == ([Open] + a)[1..] && b == ([Open] + b)[1..];
      TermUnique(t.inner, u.inner, [Close] + x, [Close] + y);
      assert x == ([Close] + x)[1..] && y == ([Close] + y)[1..];
    } else {
      assert x == (Spelled(t) + x)[1..] && y == (Spelled(u) + y)[1..];
    }
  }

  predicate Ends(x: Text)
  {
    x == [] || x[0] == Close
  }

  /** So can an expression that no operator follows. */
  lemma {:induction false} TermUnique(t: Term, u: Term, x: Text, y: Text)
    requires WellFormed(t) && WellFormed(u) && Ends(x) && Ends(y)
    requires Spelled(t) + x == Spelled(u) + y
    ensures t == u && x == y
    decreases t, 1
  {
    var p, q := After(t) + x, After(u) + y;
    FrontSpelled(t, x);
    FrontSpelled(u, y);
    hide Spelled, WellFormed;
    if Unit(First(t)) && Unit(First(u)) {
      FirstWellFormed(t);
      FirstWellFormed(u);
      UnitUnique(First(t), First(u), p, q);
      SameTail(t, u, x, y);
      if t.Bin? {
        UnitUnique(t.right, u.right, x, y);
      }
    } else {
      LoneAtoms(t, u, x, y);
    }
  }

  lemma SameTail(t: Term, u: Term, x: Text, y: Text)
    requires First(t) == First(u) && After(t) + x == After(u) + y && Ends(x) && Ends(y)
    requires Unit(First(t))
    ensures t.Bin? <==> u.Bin?
    ensures !t.Bin? ==> t == u && x == y
    ensures t.Bin? ==> t.op == u.op && Spelled(t.right) + x == Spelled(u.right) + y
  {
    AfterFirst(t, x);
    AfterFirst(u, y);
    hide Spelled, After;
  }

  lemma AfterFirst(t: Term, x: Text)
    ensures !t.Bin? ==> After(t) + x == x
    ensures t.Bin? ==>
      var p := After(t) + x;
      p != [] && p[0] == Operator(t.op) && p[1..] == Spelled(t.right) + x
  {
    if t.Bin? {
      assert After(t) + x == [Operator(t.op)] + (Spelled(t.right) + x);
    }
  }

  lemma FrontSpelled(t: Term, x: Text)
    ensures Spelled(t) + x == Spelled(First(t)) + (After(t) + x)
  {
    assert t.Bin? ==> Spelled(t) == Spelled(t.left) + After(t);
  }

  lemma FirstWellFormed(t: Term)
    requires WellFormed(t)
    ensures WellFormed(First(t)) && (t.Bin? ==> Unit(First(t)) && Unit(t.right) && WellFormed(t.right))
  {
  }

  /** A mark that is no unit stands alone. */
  lemma LoneAtoms(t: Term, u: Term, x: Text, y: Text)
    requires WellFormed(t) && WellFormed(u) && !(Unit(First(t)) && Unit(First(u)))
    requires Spelled(t) + x == Spelled(u) + y
    ensures t == u && x == y
  {
    FrontSpelled(t, x);
    FrontSpelled(u, y);
    assert (Spelled(t) + x)[0] == (Spelled(u) + y)[0];
    SpelledNonempty(First(t));
    SpelledNonempty(First(u));
    assert (Spelled(t) + x)[0] == Spelled(First(t))[0];
    assert (Spelled(u) + y)[0] == Spelled(First(u))[0];
    assert x == ([Open] + x)[1..] && y == ([Open] + y)[1..];
    assert (Spelled(t) + x)[1..] == (Spelled(u) + y)[1..];
  }

  function First(t: Term): Term
  {
    if t.Bin? then t.left else t
  }

  function After(t: Term): Text
  {
    if t.Bin? then [Operator(t.op)] + Spelled(t.right) else []
  }

  /** No two expressions are spelled alike. */
  lemma SpelledUnique(t: Term, u: Term)
    requires WellFormed(t) && WellFormed(u) && Spelled(t) == Spelled(u)
    ensures t == u
  {
    assert Spelled(t) + [] == Spelled(t) && Spelled(u) + [] == Spelled(u);
    TermUnique(t, u, [], []);
  }

  // ---------- grouping ----------

  function GroupedTerm(t: Term): Term
  {
    if Simple(Spelled(t)) then t else Paren(t)
  }

  lemma GroupedSpelled(t: Term)
    requires WellFormed(t)
    ensures Spelled(GroupedTerm(t)) == Grouped(Spelled(t))
    ensures WellFormed(GroupedTerm(t)) && Unit(GroupedTerm(t))
    ensures forall env, other :: Value(env, other, GroupedTerm(t)) == Value(env, other, t)
  {
    if t.Bin? {
      assert Operator(t.op) in Spelled(t);
    } else if t.Atom? {
      assert t.mark in Spelled(t);
    }
  }

  // ---------- what the collapse of masks finds ----------

  /** A sum of bracketed operands whose second one is a masking: its outer brackets do
      not belong together. */
  predicate Misfires(left: Term, right: Text)
  {
    && left.Bin? && left.left.Paren? && left.right.Paren? && left.right.inner.Bin?
    && Masks(left.right.inner, right)
  }

  predicate IsMasking(t: Term)
  {
    t.Bin? && t.op == And && ConstantValue(Spelled(t.right)).Some?
  }

  /** The term masks with a constant that keeps all bits of the other constant. */
  predicate Masks(t: Term, right: Text)
  {
    && IsMasking(t) && ConstantValue(right).Some?
    && Keeps(ConstantValue(Spelled(t.right)).value, ConstantValue(right).value)
  }

  function Inner(t: Term): Term
  {
    if t.Paren? then t.inner else t
  }

  lemma {:induction false} LastAndIs(text: Text, i: nat)
    requires i < |text| && text[i] == Operator(And)
    requires forall j | i < j < |text| :: text[j] != Operator(And)
    ensures LastAnd(text) == Some(i)
  {
  }

  /** Only the right operand of a masking can be a constant behind the last "&". */
  lemma SplitsMasking(t: Term)
    requires WellFormed(t)
    ensures MaskSplit(Spelled(t))
            == if IsMasking(t) then Some((Spelled(t.left), ConstantValue(Spelled(t.right)).value)) else None
  {
    if t.Bin? && !t.right.Paren? {
      SplitsPlain(t.left, t.op, t.right.mark);
    } else if !t.Atom? {
      EndsClosed(Spelled(t));
    }
  }

  lemma SplitsPlain(l: Term, op: Operation, mark: Mark)
    requires mark.Word? || mark.Number?
    ensures
      var text := Spelled(l) + [Operator(op)] + [mark];
      MaskSplit(text) ==
        if op == And && ConstantValue([mark]).Some? then Some((Spelled(l), ConstantValue([mark]).value)) else None
  {
    var text := Spelled(l) + [Operator(op)] + [mark];
    if op == And {
      LastAndIs(text, |Spelled(l)|);
      assert text[..|Spelled(l)|] == Spelled(l) && text[|Spelled(l)| + 1..] == [mark];
    } else if LastAnd(text).Some? {
      assert |text[LastAnd(text).value + 1..]| >= 2;
    }
  }

  lemma EndsClosed(text: Text)
    requires text != [] && text[|text| - 1] == Close
    ensures MaskSplit(text).None?
  {
    var separator := LastAnd(text);
    if separator.Some? {
      var suffix := text[separator.value + 1..];
      assert suffix == [] || suffix[|suffix| - 1] == Close;
    }
  }

  /** Brackets that are stripped from an expression are its own, or those of the two
      operands of an operation. */
  lemma StripsOwn(t: Term)
    requires WellFormed(t)
    ensures !(t.Bin? && t.left.Paren? && t.right.Paren?) ==> Stripped(Spelled(t)) == Spelled(Inner(t))
  {
    if t.Paren? {
      assert Stripped(Spelled(t)) == Spelled(t.inner);
    } else if t.Bin? {
      SpelledNonempty(t.left);
      SpelledNonempty(t.right);
      assert Spelled(t)[0] == Spelled(t.left)[0];
      assert Spelled(t)[|Spelled(t)| - 1] == Spelled(t.right)[|Spelled(t.right)| - 1];
    }
  }

  lemma {:induction false} LastAndAppend(a: Text, b: Text)
    ensures LastAnd(a + b) == (if LastAnd(b).Some? then Some(|a| + LastAnd(b).value) else LastAnd(a))
    decreases |b|
  {
    if b == [] {
      assert a + b == a;
    } else {
      assert (a + b)[..|a + b| - 1] == a + b[..|b| - 1];
      LastAndAppend(a, b[..|b| - 1]);
    }
  }

  /** The text left of the last operand's masking, when brackets are stripped that do
      not belong together. */
  function Remnant(t: Term): Text
    requires t.Bin? && t.left.Paren? && t.right.Paren? && t.right.inner.Bin?
  {
    Spelled(t.left.inner) + [Close] + ([Operator(t.op)] + ([Open] + Spelled(t.right.inner.left)))
  }

  function Front(t: Term): Text
    requires t.Bin? && t.left.Paren?
  {
    Spelled(t.left.inner) + [Close] + [Operator(t.op)] + [Open]
  }

  lemma StripsAcross(t: Term)
    requires t.Bin? && t.left.Paren? && t.right.Paren?
    ensures Stripped(Spelled(t)) == Front(t) + Spelled(t.right.inner)
    ensures Front(t)[|Front(t)| - 1] == Open
    ensures t.right.inner.Bin? ==> Remnant(t) == Front(t) + Spelled(t.right.inner.left)
  {
    assert Spelled(t) == [Open] + (Front(t) + Spelled(t.right.inner)) + [Close];
  }

  lemma SplitsBehind(a: Text, b: Text)
    requires a != [] && a[|a| - 1] == Open && b != []
    ensures MaskSplit(a + b) == if MaskSplit(b).Some? then Some((a + MaskSplit(b).value.0, MaskSplit(b).value.1)) else None
  {
    LastAndAppend(a, b);
    var i := LastAnd(a + b);
    if LastAnd(b).Some? {
      assert (a + b)[i.value + 1..] == b[LastAnd(b).value + 1..];
      assert (a + b)[..i.value] == a + b[..LastAnd(b).value];
    } else if i.Some? {
      assert |(a + b)[i.value + 1..]| >= 2;
    }
  }

  /** With two bracketed operands, only a masking in the second one looks like one. */
  lemma BetweenBrackets(t: Term, right: Text)
    requires WellFormed(t) && t.Bin? && t.left.Paren? && t.right.Paren?
    ensures Collapsed(Spelled(t), right) == if Misfires(t, right) then Some(Remnant(t)) else None
  {
    var b := t.right.inner;
    SpelledNonempty(t);
    SpelledNonempty(b);
    StripsAcross(t);
    hide MaskSplit, Keeps, ConstantValue, Remnant, Spelled, Stripped;
    SplitsBehind(Front(t), Spelled(b));
    SplitsMasking(b);
  }

  /** Without the misfire, the collapse finds exactly the maskings. */
  lemma CollapseFinds(t: Term, right: Text)
    requires WellFormed(t) && !Misfires(t, right)
    ensures Collapsed(Spelled(t), right)
            == if Masks(Inner(t), right) then Some(Spelled(Inner(t).left)) else None
  {
    hide MaskSplit, Keeps;
    if t.Bin? && t.left.Paren? && t.right.Paren? {
      BetweenBrackets(t, right);
    } else {
      StripsOwn(t);
      SplitsMasking(Inner(t));
      SpelledNonempty(Inner(t));
    }
  }

  // ---------- simplification keeps the value ----------

  /** The expression has the value of the operation on the two others, for all values
      of the words in it. */
  ghost predicate Computes(t: Term, l: Term, op: Operation, r: Term)
  {
    forall env: nat -> bv64, other: (nat, bv64, bv64) -> bv64 ::
      Value(env, other, t) == Apply(other, op, Value(env, other, l), Value(env, other, r))
  }

  ghost predicate Simplifies(t: Term, text: Text, l: Term, op: Operation, r: Term)
  {
    WellFormed(t) && Spelled(t) == text && Computes(t, l, op, r)
  }

  function Num(bits: bv64): Term
  {
    Atom(Number(bits, false))
  }

  lemma SmallIdentities(a: bv64)
    ensures OneOf(a, a) == 0 && Difference(a, a) == 0 && Both(a, a) == a
    ensures Sum(0, a) == a && Either(0, a) == a && OneOf(0, a) == a
    ensures Sum(a, 0) == a && Difference(a, 0) == a && Either(a, 0) == a && OneOf(a, 0) == a
    ensures Product(a, 0) == 0 && Product(0, a) == 0 && Product(a, 1) == a && Product(1, a) == a
  {
  }

  lemma TwiceIs(a: bv64)
    ensures Sum(a, a) == Product(a, 2)
  {
  }

  lemma ThriceIs(a: bv64)
    ensures Sum(a, Product(a, 2)) == Product(a, 3)
  {
  }

  lemma NegativeTwice(a: bv64)
    ensures 0 - (0 - a) == a
  {
  }

  lemma DifferenceIsSum(a: bv64, b: bv64)
    ensures a - b == a + (0 - b)
  {
  }

  lemma SumIsDifference(a: bv64, b: bv64)
    ensures a + b == a - (0 - b)
  {
    NegativeTwice(b);
    DifferenceIsSum(a, 0 - b);
  }

  lemma SumOfNegative(a: bv64, b: bv64)
    ensures Sum(a, b) == Difference(a, Difference(0, b))
  {
    SumIsDifference(a, b);
    assert Sum(a, b) == a + b;
    assert Difference(0, b) == 0 - b;
    assert Difference(a, 0 - b) == a - (0 - b);
  }

  lemma MaskIdentity(a: bv64, mask: bv64, bits: bv64)
    requires Keeps(mask, bits)
    ensures Both(Both(a, mask), bits) == Both(a, bits)
  {
  }

  lemma ConstantTerm(t: Term)
    requires WellFormed(t) && ConstantValue(Spelled(t)).Some?
    ensures forall env, other :: Value(env, other, t) == ConstantValue(Spelled(t)).value
  {
    hide Sum, Difference, Product, Both, Either, OneOf;
    if t.Bin? {
      SpelledNonempty(t);
    }
  }

  lemma DigitTerm(t: Term, n: bv64)
    requires WellFormed(t) && Spelled(t) == Digit(n)
    ensures t == Num(n)
  {
    SpelledUnique(t, Num(n));
  }

  lemma ComposedTerm(l: Term, op: Operation, r: Term) returns (t: Term)
    requires WellFormed(l) && WellFormed(r)
    ensures Simplifies(t, Composed(Spelled(l), op, Spelled(r)), l, op, r)
  {
    hide Sum, Difference, Product, Both, Either, OneOf;
    GroupedSpelled(l);
    GroupedSpelled(r);
    t := Bin(op, GroupedTerm(l), GroupedTerm(r));
  }

  lemma FoldedTerm(l: Term, op: Operation, r: Term, value: bv64) returns (t: Term)
    requires WellFormed(l) && WellFormed(r)
    requires ConstantValue(Spelled(l)).Some? && ConstantValue(Spelled(r)).Some?
    requires Folded(ConstantValue(Spelled(l)).value, op, ConstantValue(Spelled(r)).value) == Some(value)
    ensures Simplifies(t, [Number(value, value >= SIGN)], l, op, r)
  {
    hide Sum, Difference, Product, Both, Either, OneOf;
    ConstantTerm(l);
    ConstantTerm(r);
    t := Atom(Number(value, value >= SIGN));
  }

  /** The left operand grouped and combined with a number. */
  lemma WithNumber(l: Term, op: Operation, n: bv64) returns (t: Term)
    requires WellFormed(l)
    ensures WellFormed(t) && Spelled(t) == Grouped(Spelled(l)) + [Operator(op)] + Digit(n)
    ensures t == Bin(op, GroupedTerm(l), Num(n))
    ensures forall env, other :: Value(env, other, t) == Apply(other, op, Value(env, other, l), n)
  {
    hide Sum, Difference, Product, Both, Either, OneOf;
    GroupedSpelled(l);
    t := Bin(op, GroupedTerm(l), Num(n));
  }

  lemma RewrittenTerm(l: Term, op: Operation, r: Term) returns (t: Term)
    requires WellFormed(l) && WellFormed(r)
    ensures Simplifies(t, Rewritten(Spelled(l), op, Spelled(r)), l, op, r)
  {
    hide Sum, Difference, Product, Both, Either, OneOf;
    hide Spelled, WellFormed, Grouped, Computes, Value;
    var left, right := Spelled(l), Spelled(r);
    var a, b := ConstantValue(left), ConstantValue(right);
    if a.Some? && b.Some? {
      if Folded(a.value, op, b.value).Some? {
        t := FoldedTerm(l, op, r, Folded(a.value, op, b.value).value);
      } else {
        t := ComposedTerm(l, op, r);
      }
    } else if op == Plus && left == right {
      SpelledUnique(l, r);
      t := WithNumber(l, Times, 2);
      Doubled(l, t);
    } else if op == Plus && right == Grouped(left) + [Operator(Times)] + Digit(2) {
      var twice := WithNumber(l, Times, 2);
      SpelledUnique(r, twice);
      t := WithNumber(l, Times, 3);
      Tripled(l, r, t);
    } else if op == Plus && |right| == 1 && right[0].Number? && right[0].negative {
      t := WithNumber(l, Minus, Difference(0, right[0].bits));
      Subtracted(l, r, t);
    } else {
      t := ComposedTerm(l, op, r);
    }
  }

  lemma Doubled(l: Term, t: Term)
    requires forall env, other :: Value(env, other, t) == Apply(other, Times, Value(env, other, l), 2)
    ensures Computes(t, l, Plus, l)
  {
    hide Sum, Difference, Product, Both, Either, OneOf;
    forall env: nat -> bv64, other: (nat, bv64, bv64) -> bv64
      ensures Value(env, other, t) == Apply(other, Plus, Value(env, other, l), Value(env, other, l))
    {
      TwiceIs(Value(env, other, l));
    }
  }

  lemma Tripled(l: Term, r: Term, t: Term)
    requires forall env, other :: Value(env, other, r) == Apply(other, Times, Value(env, other, l), 2)
    requires forall env, other :: Value(env, other, t) == Apply(other, Times, Value(env, other, l), 3)
    ensures Computes(t, l, Plus, r)
  {
    hide Sum, Difference, Product, Both, Either, OneOf;
    forall env: nat -> bv64, other: (nat, bv64, bv64) -> bv64
      ensures Value(env, other, t) == Apply(other, Plus, Value(env, other, l), Value(env, other, r))
    {
      ThriceIs(Value(env, other, l));
    }
  }

  lemma Subtracted(l: Term, r: Term, t: Term)
    requires WellFormed(r) && ConstantValue(Spelled(r)).Some?
    requires
      var amount := Difference(0, ConstantValue(Spelled(r)).value);
      forall env, other :: Value(env, other, t) == Apply(other, Minus, Value(env, other, l), amount)
    ensures Computes(t, l, Plus, r)
  {
    hide Sum, Difference, Product, Both, Either, OneOf;
    ConstantTerm(r);
    forall env: nat -> bv64, other: (nat, bv64, bv64) -> bv64
      ensures Value(env, other, t) == Apply(other, Plus, Value(env, other, l), Value(env, other, r))
    {
      SumOfNegative(Value(env, other, l), Value(env, other, r));
    }
  }

  /** The rules in front of the collapse of masks. */
  predicate Trivial(left: Text, op: Operation, right: Text)
  {
    || (op in {Xor, Minus, And} && left == right)
    || (op in {Plus, Or, Xor} && left == Digit(0))
    || (op in {Plus, Minus, Or, Xor} && right == Digit(0))
    || (op == Times && (left == Digit(0) || right == Digit(0) || left == Digit(1) || right == Digit(1)))
  }

  lemma SameOperands(l: Term, op: Operation) returns (t: Term)
    requires WellFormed(l) && op in {Xor, Minus, And}
    ensures Simplifies(t, if op == And then Spelled(l) else Digit(0), l, op, l)
  {
    hide Sum, Difference, Product, Both, Either, OneOf;
    t := if op == And then l else Num(0);
    forall env: nat -> bv64, other: (nat, bv64, bv64) -> bv64
      ensures Value(env, other, t) == Apply(other, op, Value(env, other, l), Value(env, other, l))
    {
      SmallIdentities(Value(env, other, l));
    }
  }

  lemma NeutralLeft(op: Operation, r: Term)
    requires WellFormed(r) && op in {Plus, Or, Xor}
    ensures Simplifies(r, Spelled(r), Num(0), op, r)
  {
    hide Sum, Difference, Product, Both, Either, OneOf;
    forall env: nat -> bv64, other: (nat, bv64, bv64) -> bv64
      ensures Value(env, other, r) == Apply(other, op, 0, Value(env, other, r))
    {
      SmallIdentities(Value(env, other, r));
    }
  }

  lemma NeutralRight(l: Term, op: Operation)
    requires WellFormed(l) && op in {Plus, Minus, Or, Xor}
    ensures Simplifies(l, Spelled(l), l, op, Num(0))
  {
    hide Sum, Difference, Product, Both, Either, OneOf;
    forall env: nat -> bv64, other: (nat, bv64, bv64) -> bv64
      ensures Value(env, other, l) == Apply(other, op, Value(env, other, l), 0)
    {
      SmallIdentities(Value(env, other, l));
    }
  }

  lemma SimpleFactor(l: Term, r: Term)
    requires WellFormed(l) && WellFormed(r)
    ensures l == Num(0) || r == Num(0) ==> Simplifies(Num(0), Digit(0), l, Times, r)
    ensures l == Num(1) ==> Simplifies(r, Spelled(r), l, Times, r)
    ensures r == Num(1) ==> Simplifies(l, Spelled(l), l, Times, r)
  {
    hide Sum, Difference, Product, Both, Either, OneOf;
    forall env: nat -> bv64, other: (nat, bv64, bv64) -> bv64
      ensures l == Num(0) || r == Num(0) ==> 0 == Apply(other, Times, Value(env, other, l), Value(env, other, r))
      ensures l == Num(1) ==> Value(env, other, r) == Apply(other, Times, Value(env, other, l), Value(env, other, r))
      ensures r == Num(1) ==> Value(env, other, l) == Apply(other, Times, Value(env, other, l), Value(env, other, r))
    {
      SmallIdentities(Value(env, other, l));
      SmallIdentities(Value(env, other, r));
    }
  }

  lemma TrivialTerm(l: Term, op: Operation, r: Term) returns (t: Term)
    requires WellFormed(l) && WellFormed(r) && Trivial(Spelled(l), op, Spelled(r))
    ensures Simplifies(t, BinaryExpression(Spelled(l), op, Spelled(r)), l, op, r)
  {
    hide Spelled, WellFormed, Value, Computes;
    var left, right := Spelled(l), Spelled(r);
    if op in {Xor, Minus, And} && left == right {
      SpelledUnique(l, r);
      t := SameOperands(l, op);
    } else if op in {Plus, Or, Xor} && left == Digit(0) {
      DigitTerm(l, 0);
      NeutralLeft(op, r);
      t := r;
    } else if op in {Plus, Minus, Or, Xor} && right == Digit(0) {
      DigitTerm(r, 0);
      NeutralRight(l, op);
      t := l;
    } else {
      SimpleFactor(l, r);
      if left == Digit(0) || right == Digit(0) {
        DigitIs(l, r, 0);
        t := Num(0);
      } else {
        DigitIs(l, r, 1);
        t := if left == Digit(1) then r else l;
      }
    }
  }

  lemma DigitIs(l: Term, r: Term, n: bv64)
    requires WellFormed(l) && WellFormed(r)
    ensures Spelled(l) == Digit(n) ==> l == Num(n)
    ensures Spelled(r) == Digit(n) ==> r == Num(n)
  {
    if Spelled(l) == Digit(n) {
      DigitTerm(l, n);
    }
    if Spelled(r) == Digit(n) {
      DigitTerm(r, n);
    }
  }

  function Nodes(t: Term): nat
  {
    match t
    case Atom(_) => 1
    case Paren(inner) => 1 + Nodes(inner)
    case Bin(_, l, r) => 1 + Nodes(l) + Nodes(r)
  }

  /** Unless the collapse misfires, the text is that of an expression with the value of
      the operation. */
  lemma {:induction false} SimplifiedTerm(l: Term, op: Operation, r: Term) returns (t: Term)
    requires WellFormed(l) && WellFormed(r)
    requires !(op == And && !Trivial(Spelled(l), op, Spelled(r)) && Misfires(l, Spelled(r)))
    ensures Simplifies(t, BinaryExpression(Spelled(l), op, Spelled(r)), l, op, r)
    decreases Nodes(l)
  {
    hide Spelled, WellFormed, Value, Computes, Collapsed, Rewritten;
    var left, right := Spelled(l), Spelled(r);
    if Trivial(left, op, right) {
      t := TrivialTerm(l, op, r);
    } else if op == And {
      CollapseFinds(l, right);
      var inner := Inner(l);
      if Masks(inner, right) {
        MaskedTerm(l, r);
        t := SimplifiedTerm(inner.left, And, r);
        MaskedTwice(t, l, r);
      } else {
        t := RewrittenTerm(l, op, r);
      }
    } else {
      t := RewrittenTerm(l, op, r);
    }
  }

  lemma MaskedTerm(l: Term, r: Term)
    requires WellFormed(l) && Masks(Inner(l), Spelled(r))
    ensures WellFormed(Inner(l).left) && !Inner(l).left.Bin? && Nodes(Inner(l).left) < Nodes(l)
  {
  }

  lemma MaskedTwice(t: Term, l: Term, r: Term)
    requires WellFormed(l) && WellFormed(r) && Masks(Inner(l), Spelled(r)) && Computes(t, Inner(l).left, And, r)
    ensures Computes(t, l, And, r)
  {
    hide Sum, Difference, Product, Both, Either, OneOf;
    var masking := Inner(l);
    ConstantTerm(masking.right);
    ConstantTerm(r);
    forall env: nat -> bv64, other: (nat, bv64, bv64) -> bv64
      ensures Value(env, other, t) == Apply(other, And, Value(env, other, l), Value(env, other, r))
    {
      MaskIdentity(Value(env, other, masking.left), Value(env, other, masking.right), Value(env, other, r));
    }
  }

  // ---------- the collapse that misfires ----------

  function Weight(mark: Mark): int
  {
    if mark == Open then 1 else if mark == Close then -1 else 0
  }

  /** How many more brackets are opened than closed. */
  function Depth(text: Text): int
  {
    if text == [] then 0 else Depth(text[..|text| - 1]) + Weight(text[|text| - 1])
  }

  /** At some point more brackets were closed than opened. */
  ghost predicate Dips(text: Text)
  {
    exists i :: 0 <= i <= |text| && Depth(text[..i]) < 0
  }

  lemma {:induction false} DepthAppend(a: Text, b: Text)
    ensures Depth(a + b) == Depth(a) + Depth(b)
    decreases |b|
  {
    if b == [] {
      assert a + b == a;
    } else {
      assert (a + b)[..|a + b| - 1] == a + b[..|b| - 1];
      DepthAppend(a, b[..|b| - 1]);
    }
  }

  lemma DepthMark(mark: Mark)
    ensures Depth([mark]) == Weight(mark)
  {
    assert [mark][..0] == [];
  }

  /** The depth after the first marks of two texts put together. */
  lemma DepthWithin(a: Text, b: Text, i: nat)
    requires i <= |a + b|
    ensures Depth((a + b)[..i]) == if i <= |a| then Depth(a[..i]) else Depth(a) + Depth(b[..i - |a|])
  {
    if i <= |a| {
      assert (a + b)[..i] == a[..i];
    } else {
      assert (a + b)[..i] == a + b[..i - |a|];
      DepthAppend(a, b[..i - |a|]);
    }
  }

  /** Brackets match in an expression: the depth is never negative and zero in the end. */
  lemma {:induction false} Matched(t: Term, i: nat)
    requires WellFormed(t) && i <= |Spelled(t)|
    ensures Depth(Spelled(t)) == 0 && Depth(Spelled(t)[..i]) >= 0
    decreases t, 1
  {
    match t
    case Atom(mark) =>
      DepthMark(mark);
      assert [mark][..1] == [mark];
    case Paren(inner) =>
      ParenDeep(inner, i);
    case Bin(op, l, r) =>
      Matched(l, if i <= |Spelled(l)| then i else 0);
      Matched(r, if i > |Spelled(l)| + 1 then i - |Spelled(l)| - 1 else 0);
      AroundOperator(Spelled(l), op, Spelled(r), i);
  }

  lemma AroundOperator(a: Text, op: Operation, b: Text, i: nat)
    requires i <= |a| + 1 + |b| && Depth(a) == 0 && Depth(b) == 0
    ensures Depth(a + [Operator(op)] + b) == 0
    ensures Depth((a + [Operator(op)] + b)[..i])
            == if i <= |a| then Depth(a[..i]) else if i == |a| + 1 then 0 else Depth(b[..i - |a| - 1])
  {
    hide Depth;
    var front := a + [Operator(op)];
    assert Depth([Operator(op)]) == 0 by { DepthMark(Operator(op)); }
    DepthAppend(a, [Operator(op)]);
    DepthAppend(front, b);
    DepthWithin(front, b, i);
    if i <= |front| {
      DepthWithin(a, [Operator(op)], i);
      assert i == |front| ==> front[..i] == front;
    }
  }

  /** Inside its brackets an expression is at least one deep. */
  lemma {:induction false} ParenDeep(inner: Term, i: nat)
    requires WellFormed(inner) && i <= |Spelled(Paren(inner))|
    ensures Depth(Spelled(Paren(inner))) == 0
    ensures Depth(Spelled(Paren(inner))[..i]) >= if 0 < i < |Spelled(Paren(inner))| then 1 else 0
    decreases inner, 2
  {
    Matched(inner, if 1 <= i <= |Spelled(inner)| + 1 then i - 1 else 0);
    WithinBrackets(Spelled(inner), i);
  }

  lemma AfterOpen(a: Text, i: nat)
    requires i <= |a| + 1
    ensures Depth(([Open] + a)[..i]) == if i == 0 then 0 else 1 + Depth(a[..i - 1])
  {
    DepthMark(Open);
    if i == 0 {
      assert ([Open] + a)[..i] == [];
    } else {
      assert ([Open] + a)[..i] == [Open] + a[..i - 1];
      DepthAppend([Open], a[..i - 1]);
    }
  }

  lemma WithinBrackets(a: Text, i: nat)
    requires i <= |a| + 2 && Depth(a) == 0
    ensures Depth([Open] + a + [Close]) == 0
    ensures Depth(([Open] + a + [Close])[..i]) == if 1 <= i <= |a| + 1 then 1 + Depth(a[..i - 1]) else 0
  {
    DepthMark(Close);
    hide Depth;
    var front := [Open] + a;
    assert front[..|front|] == front && a[..|a|] == a;
    AfterOpen(a, |a| + 1);
    DepthAppend(front, [Close]);
    if i <= |a| + 1 {
      AfterOpen(a, i);
      assert (front + [Close])[..i] == front[..i];
    } else {
      assert (front + [Close])[..i] == front + [Close];
    }
  }

  /** The only operator outside all brackets is the expression's own. */
  lemma TopOperator(t: Term, i: nat)
    requires WellFormed(t) && i < |Spelled(t)| && Spelled(t)[i].Operator? && Depth(Spelled(t)[..i]) == 0
    ensures t.Bin? && i == |Spelled(t.left)|
  {
    match t
    case Atom(_) =>
    case Paren(inner) => ParenDeep(inner, i);
    case Bin(op, l, r) => OwnOperator(op, l, r, i);
  }

  lemma OwnOperator(op: Operation, l: Term, r: Term, i: nat)
    requires Unit(l) && Unit(r) && WellFormed(l) && WellFormed(r)
    requires
      var text := Spelled(l) + [Operator(op)] + Spelled(r);
      i < |text| && text[i].Operator? && Depth(text[..i]) == 0
    ensures i == |Spelled(l)|
  {
    hide WellFormed, Depth;
    Matched(l, 0);
    Matched(r, 0);
    AroundOperator(Spelled(l), op, Spelled(r), i);
    if i < |Spelled(l)| {
      OperatorInside(l, i);
    } else if i > |Spelled(l)| {
      OperatorInside(r, i - |Spelled(l)| - 1);
    }
  }

  lemma OperatorInside(t: Term, i: nat)
    requires WellFormed(t) && Unit(t) && i < |Spelled(t)| && Spelled(t)[i].Operator?
    ensures Depth(Spelled(t)[..i]) >= 1
  {
    ParenDeep(t.inner, i);
  }

  // ---------- texts that come of a misfire ----------

  /** Brackets do not match, though there are as many of one kind as of the other. */
  ghost predicate Crossed(text: Text)
  {
    Dips(text) && Depth(text) == 0
  }

  lemma DipsNowhere(t: Term)
    requires WellFormed(t)
    ensures !Dips(Spelled(t))
  {
    forall i | 0 <= i <= |Spelled(t)| ensures Depth(Spelled(t)[..i]) >= 0 {
      Matched(t, i);
    }
  }

  lemma RemnantCrossed(t: Term)
    requires WellFormed(t) && t.Bin? && t.left.Paren? && t.right.Paren? && t.right.inner.Bin?
    ensures Crossed(Remnant(t))
  {
    var a, y := Spelled(t.left.inner), Spelled(t.right.inner.left);
    Matched(t.left.inner, 0);
    Matched(t.right.inner.left, 0);
    DepthMark(Open);
    DepthMark(Operator(t.op));
    hide Depth, Spelled, WellFormed;
    DepthAppend([Open], y);
    DepthAppend([Operator(t.op)], [Open] + y);
    ClosedTooSoon(a, [Operator(t.op)] + ([Open] + y));
  }

  lemma ClosedTooSoon(a: Text, b: Text)
    requires Depth(a) == 0 && Depth(b) == 1
    ensures Crossed(a + [Close] + b)
  {
    DepthMark(Close);
    hide Depth;
    DepthAppend(a, [Close]);
    DepthAppend(a + [Close], b);
    assert (a + [Close] + b)[..|a| + 1] == a + [Close];
  }

  lemma StrippedCrossed(p: Text)
    requires Crossed(p)
    ensures Crossed(Stripped(p))
  {
    if Stripped(p) != p {
      var inner := Stripped(p);
      assert p == ([Open] + inner) + [Close];
      DepthMark(Open);
      DepthMark(Close);
      DepthAppend([Open], inner);
      DepthAppend([Open] + inner, [Close]);
      var i :| 0 <= i <= |p| && Depth(p[..i]) < 0;
      DepthWithin([Open] + inner, [Close], i);
      DepthWithin([Open], inner, i);
      assert [Open][..1] == [Open] && [Open][..0] == [];
      assert Depth(inner[..i - 1]) < 0;
    }
  }

  lemma SplitCrossed(p: Text)
    requires Crossed(p) && MaskSplit(p).Some?
    ensures Crossed(MaskSplit(p).value.0)
  {
    var pre := MaskSplit(p).value.0;
    var suffix := p[|pre| + 1..];
    assert p == pre + ([Operator(And)] + suffix);
    DepthMark(suffix[0]);
    assert suffix == [suffix[0]];
    DepthMark(Operator(And));
    DepthAppend([Operator(And)], suffix);
    DepthAppend(pre, [Operator(And)] + suffix);
    var i :| 0 <= i <= |p| && Depth(p[..i]) < 0;
    DepthWithin(pre, [Operator(And)] + suffix, i);
    if i > |pre| {
      DepthWithin([Operator(And)], suffix, i - |pre|);
    }
  }

  /** From a text with crossed brackets no masking gives the text of an expression. */
  lemma {:induction false} CrossedStays(p: Text, r: Term, t: Term)
    requires Crossed(p) && WellFormed(r) && ConstantValue(Spelled(r)).Some? && WellFormed(t)
    ensures Spelled(t) != BinaryExpression(p, And, Spelled(r))
    decreases |p|
  {
    hide Depth, Simple, Keeps;
    var right := Spelled(r);
    DipsNowhere(r);
    if Collapsed(p, right).Some? {
      StrippedCrossed(p);
      SplitCrossed(Stripped(p));
      CrossedStays(Collapsed(p, right).value, r, t);
    } else {
      CrossedComposed(p, r, t);
      CrossedIsNoConstant(p);
    }
  }

  lemma NumberIsFlat(mark: Mark)
    requires mark.Number?
    ensures !Dips([mark])
  {
    forall i | 0 <= i <= 1 ensures Depth([mark][..i]) == 0 {
      DepthMark(mark);
      assert [mark][..i] == if i == 0 then [] else [mark];
    }
  }

  lemma CrossedIsNoConstant(p: Text)
    requires Crossed(p)
    ensures ConstantValue(p).None?
  {
    hide Dips;
    if |p| == 1 && p[0].Number? {
      assert p == [p[0]];
      NumberIsFlat(p[0]);
    }
  }

  lemma CrossedComposed(p: Text, r: Term, t: Term)
    requires Crossed(p) && WellFormed(r) && WellFormed(t)
    ensures Spelled(t) != Composed(p, And, Spelled(r))
  {
    hide Dips, Depth, Simple, WellFormed, Spelled, Grouped;
    if Spelled(t) == Composed(p, And, Spelled(r)) {
      GroupedDepth(p);
      assert Spelled(t) == Grouped(p) + ([Operator(And)] + Grouped(Spelled(r)));
      SplitAtOperator(t, Grouped(p), [Operator(And)] + Grouped(Spelled(r)));
      LeftIsNoCrossed(t, p);
    }
  }

  lemma SplitAtOperator(t: Term, front: Text, rest: Text)
    requires WellFormed(t) && Spelled(t) == front + rest && rest != [] && rest[0].Operator? && Depth(front) == 0
    ensures t.Bin? && Spelled(t.left) == front
  {
    hide Depth, WellFormed;
    assert Spelled(t)[..|front|] == front && Spelled(t)[|front|] == rest[0];
    TopOperator(t, |front|);
  }

  lemma LeftIsNoCrossed(t: Term, p: Text)
    requires WellFormed(t) && t.Bin? && Crossed(p)
    ensures Spelled(t.left) != Grouped(p)
  {
    hide Dips, Depth, Simple;
    DipsNowhere(t.left);
    if Spelled(t.left) == [Open] + p + [Close] {
      assert Spelled(t.left)[0] == Open;
      assert Spelled(t.left.inner) == Spelled(t.left)[1..|Spelled(t.left)| - 1] == p;
      DipsNowhere(t.left.inner);
    }
  }

  lemma GroupedDepth(p: Text)
    ensures Depth(Grouped(p)) == Depth(p)
  {
    DepthMark(Open);
    DepthMark(Close);
    DepthAppend([Open], p);
    DepthAppend([Open] + p, [Close]);
  }

  /** Simplification gives the text of an expression, and one with the right value, if
      and only if the collapse of masks does not misfire. */
  lemma SimplifiesUnlessMisfiring(l: Term, op: Operation, r: Term)
    requires WellFormed(l) && WellFormed(r)
    ensures
      var text := BinaryExpression(Spelled(l), op, Spelled(r));
      var misfires := op == And && !Trivial(Spelled(l), op, Spelled(r)) && Misfires(l, Spelled(r));
      && (!misfires <==> exists t :: WellFormed(t) && Spelled(t) == text)
      && (!misfires <==> exists t :: Simplifies(t, text, l, op, r))
  {
    hide Spelled, WellFormed, Computes, Rewritten;
    var text := BinaryExpression(Spelled(l), op, Spelled(r));
    if op == And && !Trivial(Spelled(l), op, Spelled(r)) && Misfires(l, Spelled(r)) {
      BetweenBrackets(l, Spelled(r));
      RemnantCrossed(l);
      forall t | WellFormed(t) ensures Spelled(t) != text {
        CrossedStays(Remnant(l), r, t);
      }
    } else {
      var t := SimplifiedTerm(l, op, r);
      assert Simplifies(t, text, l, op, r) && WellFormed(t) && Spelled(t) == text;
    }
  }

  /** The text of the example below stands for two expressions, depending on which operator
      is taken first, and neither has the value of the operation: for a = 15, b = 0 and
      y = 1 they are 16 and 15, and the operation gives 0. */
  lemma MisfireValues(a: nat, b: nat, y: nat, env: nat -> bv64, other: (nat, bv64, bv64) -> bv64)
    requires env(a) == 15 && env(b) == 0 && env(y) == 1
    ensures
      var sum, rest := Paren(Bin(Or, Atom(Word(a, true)), Atom(Word(b, true)))), Paren(Atom(Word(y, true)));
      var l := Bin(Plus, sum, Paren(Bin(And, Atom(Word(y, true)), Num(16))));
      var addedFirst, maskedFirst := Bin(And, Bin(Plus, sum, rest), Num(16)), Bin(Plus, sum, Bin(And, rest, Num(16)));
      && Spelled(addedFirst) == Spelled(maskedFirst) == BinaryExpression(Spelled(l), And, Digit(16))
      && Value(env, other, addedFirst) == 16 && Value(env, other, maskedFirst) == 15
      && Apply(other, And, Value(env, other, l), 16) == 0
  {
    hide BinaryExpression;
    MisfireExample(a, b, y);
    var either, masking := Bin(Or, Atom(Word(a, true)), Atom(Word(b, true))), Bin(And, Atom(Word(y, true)), Num(16));
    var sum, rest := Paren(either), Paren(Atom(Word(y, true)));
    assert Spelled(either) == [Word(a, true), Operator(Or), Word(b, true)];
    assert Spelled(sum) == [Open] + Spelled(either) + [Close];
    assert Spelled(rest) == [Open] + [Word(y, true)] + [Close];
    assert Spelled(Bin(Plus, sum, rest)) == Spelled(sum) + [Operator(Plus)] + Spelled(rest);
    assert Spelled(Bin(And, rest, Num(16))) == Spelled(rest) + [Operator(And)] + Digit(16);
    assert Value(env, other, either) == 15 && Value(env, other, masking) == 0;
    assert Value(env, other, sum) == 15 && Value(env, other, rest) == 1;
    assert Value(env, other, Bin(Plus, sum, rest)) == 16;
    assert Value(env, other, Bin(And, rest, Num(16))) == 0;
  }

  /** Masking (a | b) + (y & 16) with 16 gives (a | b) + (y) & 16. */
  lemma MisfireExample(a: nat, b: nat, y: nat)
    ensures
      var l := Bin(Plus, Paren(Bin(Or, Atom(Word(a, true)), Atom(Word(b, true)))),
                         Paren(Bin(And, Atom(Word(y, true)), Num(16))));
      var p := [Word(a, true), Operator(Or), Word(b, true), Close, Operator(Plus), Open, Word(y, true)];
      && WellFormed(l)
      && BinaryExpression(Spelled(l), And, Digit(16)) == [Open] + p + [Close, Operator(And), Number(16, false)]
  {
    var sum, masking := Bin(Or, Atom(Word(a, true)), Atom(Word(b, true))), Bin(And, Atom(Word(y, true)), Num(16));
    var l := Bin(Plus, Paren(sum), Paren(masking));
    var p := [Word(a, true), Operator(Or), Word(b, true), Close, Operator(Plus), Open, Word(y, true)];
    ExampleCollapses(sum, masking, l, p);
    hide Spelled, Keeps, WellFormed, Collapsed, Rewritten;
    assert Operator(Or) in p;
    NothingMasked(p);
  }

  lemma {:induction false} NoAnd(p: Text)
    requires Operator(And) !in p
    ensures LastAnd(p).None?
  {
    if p != [] {
      NoAnd(p[..|p| - 1]);
    }
  }

  lemma NothingMasked(p: Text)
    requires Operator(And) !in p
    requires |p| >= 2 && p[0] != Open && exists op :: Operator(op) in p
    ensures BinaryExpression(p, And, Digit(16)) == [Open] + p + [Close, Operator(And), Number(16, false)]
  {
    NoAnd(p);
    assert Collapsed(p, Digit(16)).None?;
    HasOperator(p);
    assert Grouped(Digit(16)) == Digit(16);
    hide Simple, Collapsed;
    assert Rewritten(p, And, Digit(16)) == [Open] + p + [Close] + [Operator(And)] + Digit(16);
  }

  lemma HasOperator(p: Text)
    requires exists op :: Operator(op) in p
    ensures !Simple(p)
  {
    var op :| Operator(op) in p;
    assert !PlainMark(Operator(op));
  }

  lemma ExampleCollapses(sum: Term, masking: Term, l: Term, p: Text)
    requires sum.Bin? && sum.left.Atom? && sum.right.Atom? && WellFormed(sum)
    requires masking.Bin? && masking.op == And && masking.left.Atom? && masking.right == Num(16) && WellFormed(masking)
    requires l == Bin(Plus, Paren(sum), Paren(masking))
    requires p == [sum.left.mark, Operator(sum.op), sum.right.mark, Close, Operator(Plus), Open, masking.left.mark]
    ensures WellFormed(l) && Spelled(l) != Digit(16)
    ensures Collapsed(Spelled(l), Digit(16)) == Some(p)
  {
    ExampleMisfires(sum, masking, l);
    assert WellFormed(l);
    SpelledNonempty(l);
    BetweenBrackets(l, Digit(16));
    assert Spelled(sum) == [sum.left.mark, Operator(sum.op), sum.right.mark];
    assert Spelled(masking.left) == [masking.left.mark];
    hide Spelled, WellFormed, Misfires, Collapsed;
    assert Remnant(l) == p;
  }

  lemma ExampleMisfires(sum: Term, masking: Term, l: Term)
    requires masking.Bin? && masking.op == And && masking.right == Num(16)
    requires l == Bin(Plus, Paren(sum), Paren(masking))
    ensures Misfires(l, Digit(16))
  {
    assert Spelled(Num(16)) == Digit(16);
    assert Keeps(16, 16);
  }
}
