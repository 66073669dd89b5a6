/** The text that recovery composes, in which a negated comparison is rewritten by
    exchanging the first comparison operator that a table finds, and when that
    rewriting hits the operator it is meant for. */
module ExprNegate {
  import opened Basics
  import opened Ssa
  import opened ExprTree
  import opened ExprPrint
  import opened Texts

  datatype Rendered = Rendered(text: Text, level: nat)

  // parenthesize
  function Parenthesize(r: Rendered, level: nat): Text
  {
    if r.level < level then Then(Open, Append(r.text, Then(Close, End))) else r.text
  }

  // ---------- negation of text ----------

  /** The operator that replaces a negated one; the results of a replacement have none. */
  function Inverse(t: Token): Option<Token>
  {
    match t
    case Equal => Some(NotEqual)
    case NotEqual => Some(Equal)
    case LessU => Some(AtLeastU)
    case AtMostU => Some(GreaterU)
    case LessS => Some(AtLeastS)
    case AtMostS => Some(GreaterS)
    case _ => None
  }

  const TABLE: seq<Token> := [Equal, NotEqual, LessU, AtMostU, LessS, AtMostS]

  function Uses(text: Text, t: Token): nat
  {
    Count(text, Operator(t))
  }

  /** The first operator of the table, from some entry on, that occurs in the text. */
  function FoundFrom(text: Text, i: nat): Option<Token>
    requires i <= |TABLE|
    decreases |TABLE| - i
  {
    if i == |TABLE| then None
    else if Uses(text, TABLE[i]) > 0 then Some(TABLE[i])
    else FoundFrom(text, i + 1)
  }

  function Found(text: Text): Option<Token>
  {
    FoundFrom(text, 0)
  }

  function Exchange(text: Text, t: Token, u: Token): Text
  {
    Replace(text, Operator(t), Operator(u))
  }

  // negate_boolean
  function Negated(r: Rendered): Rendered
  {
    var found := Found(r.text);
    if r.level == COMPARE && found.Some? && Inverse(found.value).Some? then
      Rendered(Exchange(r.text, found.value, Inverse(found.value).value), COMPARE)
    else Rendered(Then(Bang, Parenthesize(r, UNARY)), UNARY)
  }

  // ---------- the composed text ----------

  function Code(t: Tree): Rendered
  {
    match t
    case Bin(token, l, r) =>
      var p := Precedence(token);
      Rendered(Append(Parenthesize(Code(l), p), Then(Operator(token), Parenthesize(Code(r), p + 1))), p)
    case Not(e) => Negated(Code(e))
    case Fn(name, args) => Rendered(Then(Named(name), Then(Open, Append(CodeArgs(args), Then(Close, End)))), ATOM)
    case Sel(c, x, y) =>
      Rendered(Append(Parenthesize(Code(c), SELECT),
                      Then(Ask, Append(Parenthesize(Code(x), SELECT),
                                       Then(Colon, Parenthesize(Code(y), SELECT))))), SELECT)
    case _ => Rendered(Then(Atom(SymbolOf(t)), End), ATOM)
  }

  function CodeArgs(ts: Trees): Text
  {
    match ts
    case Nil => End
    case Cons(t, Nil) => Code(t).text
    case Cons(t, more) => Append(Code(t).text, Then(Comma, CodeArgs(more)))
  }

  // ---------- what negation is meant to do ----------

  function Opposite(d: Tree): Tree
  {
    if d.Bin? && Inverse(d.token).Some? then Bin(Inverse(d.token).value, d.left, d.right) else Not(d)
  }

  /** The tree with every negated comparison replaced by the opposite comparison. */
  function Settle(t: Tree): Tree
  {
    match t
    case Bin(token, l, r) => Bin(token, Settle(l), Settle(r))
    case Not(e) => Opposite(Settle(e))
    case Fn(name, args) => Fn(name, SettleAll(args))
    case Sel(c, x, y) => Sel(Settle(c), Settle(x), Settle(y))
    case _ => t
  }

  function SettleAll(ts: Trees): Trees
  {
    match ts
    case Nil => Nil
    case Cons(t, rest) => Cons(Settle(t), SettleAll(rest))
  }

  /** The table's first find in the comparison's text is its own operator; a
      comparison without an entry of its own contains no find at all. */
  predicate RootFirst(d: Tree)
    requires d.Bin?
  {
    if Inverse(d.token).Some? then
      Found(ShowBare(d, End)) == Some(d.token) && Uses(Show(d.left, COMPARE, End), d.token) == 0
    else Found(ShowBare(d, End)) == None
  }

  /** Every negation in the tree hits the comparison it is meant for. */
  predicate Clean(t: Tree)
  {
    match t
    case Bin(_, l, r) => Clean(l) && Clean(r)
    case Not(e) => Clean(e) && (Level(Settle(e)) == COMPARE ==> RootFirst(Settle(e)))
    case Fn(_, args) => AllClean(args)
    case Sel(c, x, y) => Clean(c) && Clean(x) && Clean(y)
    case _ => true
  }

  predicate AllClean(ts: Trees)
  {
    match ts
    case Nil => true
    case Cons(t, rest) => Clean(t) && AllClean(rest)
  }

  // ---------- texts ----------

  lemma {:induction false} ShowAppend(t: Tree, level: nat, a: Text, b: Text)
    ensures Show(t, level, Append(a, b)) == Append(Show(t, level, a), b)
    decreases t, 1
  {
    ShowBareAppend(t, a, b);
    ShowBareAppend(t, Then(Close, a), b);
  }

  lemma {:induction false} ShowBareAppend(t: Tree, a: Text, b: Text)
    ensures ShowBare(t, Append(a, b)) == Append(ShowBare(t, a), b)
    decreases t, 0
  {
    match t
    case Bin(token, l, r) =>
      var p := Precedence(token);
      ShowAppend(r, p + 1, a, b);
      ShowAppend(l, p, Then(Operator(token), Show(r, p + 1, a)), b);
    case Not(e) => ShowAppend(e, UNARY, a, b);
    case Fn(name, args) => ShowArgsAppend(args, Then(Close, a), b);
    case Sel(c, x, y) =>
      ShowAppend(y, SELECT, a, b);
      ShowAppend(x, SELECT, Then(Colon, Show(y, SELECT, a)), b);
      ShowAppend(c, SELECT, Then(Ask, Show(x, SELECT, Then(Colon, Show(y, SELECT, a)))), b);
    case _ =>
  }

  lemma {:induction false} ShowArgsAppend(ts: Trees, a: Text, b: Text)
    ensures ShowArgs(ts, Append(a, b)) == Append(ShowArgs(ts, a), b)
    decreases ts, 0
  {
    match ts
    case Nil =>
    case Cons(t, Nil) => ShowAppend(t, SELECT, a, b);
    case Cons(t, more) =>
      ShowArgsAppend(more, a, b);
      ShowAppend(t, SELECT, Then(Comma, ShowArgs(more, a)), b);
  }

  /** Printing before a rest is printing alone and appending the rest. */
  lemma ShowBefore(t: Tree, level: nat, rest: Text)
    ensures Show(t, level, rest) == Append(Show(t, level, End), rest)
    ensures ShowBare(t, rest) == Append(ShowBare(t, End), rest)
  {
    ShowAppend(t, level, End, rest);
    ShowBareAppend(t, End, rest);
  }

  // ---------- when a negation hits its comparison ----------

  lemma {:induction false} FoundOccurs(text: Text, i: nat)
    requires i <= |TABLE|
    ensures
      match FoundFrom(text, i)
      case Some(t) => Uses(text, t) > 0 && Inverse(t).Some? && Inverse(t).value != t
      case None => forall k :: i <= k < |TABLE| ==> Uses(text, TABLE[k]) == 0
    decreases |TABLE| - i
  {
    if i < |TABLE| && Uses(text, TABLE[i]) == 0 {
      FoundOccurs(text, i + 1);
    }
  }

  lemma InTable(t: Token)
    requires Inverse(t).Some?
    ensures t in TABLE
  {
    assert TABLE[0] == Equal && TABLE[1] == NotEqual && TABLE[2] == LessU &&
           TABLE[3] == AtMostU && TABLE[4] == LessS && TABLE[5] == AtMostS;
  }

  /** A comparison's text: its left operand, its operator, its right operand. */
  lemma ComparisonText(d: Tree)
    requires d.Bin? && Precedence(d.token) == COMPARE
    ensures ShowBare(d, End)
            == Append(Show(d.left, COMPARE, End), Then(Operator(d.token), Show(d.right, COMPARE + 1, End)))
  {
    ShowBefore(d.left, COMPARE, Then(Operator(d.token), Show(d.right, COMPARE + 1, End)));
  }

  /** Rewriting the operator found gives the opposite comparison if and only if it
      is the comparison's own operator. */
  lemma ReplacedIsOpposite(d: Tree, f: Token)
    requires d.Bin? && Precedence(d.token) == COMPARE && Inverse(d.token).Some?
    requires Uses(ShowBare(d, End), f) > 0 && Inverse(f).Some? && Inverse(f).value != f
    ensures Exchange(ShowBare(d, End), f, Inverse(f).value) == ShowBare(Opposite(d), End) <==>
      f == d.token && Uses(Show(d.left, COMPARE, End), d.token) == 0
  {
    var l, r := Show(d.left, COMPARE, End), Show(d.right, COMPARE + 1, End);
    var own, inverse := Operator(d.token), Operator(Inverse(d.token).value);
    var x, y := Operator(f), Operator(Inverse(f).value);
    ComparisonText(d);
    ComparisonText(Opposite(d));
    hide ShowBare, Show;
    ReplaceAppend(l, Then(own, r), x, y);
    if f != d.token {
      CountAppend(l, Then(own, r), x);
      CountAppend(l, Then(inverse, r), x);
      ReplaceCount(Append(l, Then(own, r)), x, y);
    } else if Uses(l, f) > 0 {
      ReplaceSize(l, x, y);
      if Append(Replace(l, x, y), Then(own, r)) == Append(l, Then(inverse, r)) {
        AppendInjective(Replace(l, x, y), Then(own, r), l, Then(inverse, r));
      }
    }
  }

  /** The text of a tree that is composed as it is printed. */
  function Printed(d: Tree): Rendered
  {
    Rendered(ShowBare(d, End), Level(d))
  }

  lemma ParenthesizePrinted(d: Tree, level: nat)
    ensures Parenthesize(Printed(d), level) == Show(d, level, End)
  {
    ShowBefore(d, level, Then(Close, End));
  }

  /** Negating the text of a comparison gives the text of its negation if and only if
      the first operator the table finds is the comparison's own. */
  lemma NegationExact(d: Tree)
    requires d.Bin? && Precedence(d.token) == COMPARE
    ensures Negated(Printed(d)) == Printed(Opposite(d)) <==> RootFirst(d)
  {
    hide ShowBare;
    var text := ShowBare(d, End);
    FoundOccurs(text, 0);
    ParenthesizePrinted(d, UNARY);
    if Inverse(d.token).Some? {
      OwnOperatorOccurs(d);
      ReplacedIsOpposite(d, Found(text).value);
    } else {
      ShowNot(d);
    }
  }

  lemma ShowNot(d: Tree)
    ensures ShowBare(Not(d), End) == Then(Bang, Show(d, UNARY, End))
  {
  }

  lemma OwnOperatorOccurs(d: Tree)
    requires d.Bin? && Precedence(d.token) == COMPARE && Inverse(d.token).Some?
    ensures Found(ShowBare(d, End)).Some?
  {
    ComparisonText(d);
    CountAppend(Show(d.left, COMPARE, End), Then(Operator(d.token), Show(d.right, COMPARE + 1, End)), Operator(d.token));
    FoundOccurs(ShowBare(d, End), 0);
    InTable(d.token);
  }

  /** Other expressions are negated with a mark in front. */
  lemma NegationOfOthers(d: Tree)
    requires Level(d) != COMPARE
    ensures Negated(Printed(d)) == Printed(Opposite(d))
  {
    ParenthesizePrinted(d, UNARY);
    if d.Bin? {
      assert Inverse(d.token).None?;
    }
  }

  // ---------- clean trees ----------

  /** The composed text of a clean tree is the printed text of the settled tree. */
  lemma {:induction false} CleanCode(t: Tree)
    requires Clean(t)
    ensures Code(t) == Printed(Settle(t))
  {
    match t
    case Bin(token, l, r) => CleanBinary(token, l, r);
    case Not(e) => CleanNot(e);
    case Fn(name, args) =>
      CleanCodeArgs(args);
      ShowArgsAppend(SettleAll(args), End, Then(Close, End));
    case Sel(c, x, y) => CleanSelect(c, x, y);
    case _ =>
  }

  lemma {:induction false} CleanBinary(token: Token, l: Tree, r: Tree)
    requires Clean(l) && Clean(r)
    ensures Code(Bin(token, l, r)) == Printed(Bin(token, Settle(l), Settle(r)))
    decreases Bin(token, l, r), 0
  {
    hide Precedence, Code, Show, ShowBare, Parenthesize, Settle, Clean, Append;
    var p := Precedence(token);
    CleanCode(l);
    CleanCode(r);
    CodeOperator(token, l, r);
    ParenthesizePrinted(Settle(l), p);
    ParenthesizePrinted(Settle(r), p + 1);
    ShowOperator(token, Settle(l), Settle(r), End);
    ShowBefore(Settle(l), p, Then(Operator(token), Show(Settle(r), p + 1, End)));
  }

  lemma CodeOperator(token: Token, l: Tree, r: Tree)
    ensures
      var p := Precedence(token);
      Code(Bin(token, l, r))
      == Rendered(Append(Parenthesize(Code(l), p), Then(Operator(token), Parenthesize(Code(r), p + 1))), p)
  {
  }

  lemma {:induction false} CleanNot(e: Tree)
    requires Clean(e) && (Level(Settle(e)) == COMPARE ==> RootFirst(Settle(e)))
    ensures Code(Not(e)) == Printed(Opposite(Settle(e)))
    decreases Not(e), 0
  {
    hide Printed, Negated, RootFirst, Opposite, Level;
    CleanCode(e);
    if Level(Settle(e)) == COMPARE {
      OnlyComparisons(Settle(e));
      NegationExact(Settle(e));
    } else {
      NegationOfOthers(Settle(e));
    }
  }

  lemma OnlyComparisons(d: Tree)
    requires Level(d) == COMPARE
    ensures d.Bin? && Precedence(d.token) == COMPARE
  {
  }

  lemma {:induction false} CleanSelect(c: Tree, x: Tree, y: Tree)
    requires Clean(c) && Clean(x) && Clean(y)
    ensures Code(Sel(c, x, y)) == Printed(Sel(Settle(c), Settle(x), Settle(y)))
    decreases Sel(c, x, y), 0
  {
    CleanCode(c);
    CleanCode(x);
    CleanCode(y);
    ParenthesizePrinted(Settle(c), SELECT);
    ParenthesizePrinted(Settle(x), SELECT);
    ParenthesizePrinted(Settle(y), SELECT);
    var after := Then(Colon, Show(Settle(y), SELECT, End));
    ShowBefore(Settle(x), SELECT, after);
    ShowBefore(Settle(c), SELECT, Then(Ask, Show(Settle(x), SELECT, after)));
  }

  lemma {:induction false} CleanCodeArgs(ts: Trees)
    requires AllClean(ts)
    ensures CodeArgs(ts) == ShowArgs(SettleAll(ts), End)
  {
    match ts
    case Nil =>
    case Cons(t, Nil) =>
      CleanCode(t);
      ParenthesizePrinted(Settle(t), SELECT);
    case Cons(t, more) =>
      CleanCode(t);
      CleanCodeArgs(more);
      ParenthesizePrinted(Settle(t), SELECT);
      ShowBefore(Settle(t), SELECT, Then(Comma, ShowArgs(SettleAll(more), End)));
  }

  // ---------- comparison-free operands ----------

  /** No comparison occurs anywhere in the tree. */
  predicate ComparisonFree(t: Tree)
  {
    match t
    case Bin(token, l, r) => !Compares(token) && ComparisonFree(l) && ComparisonFree(r)
    case Not(e) => ComparisonFree(e)
    case Fn(_, args) => AllComparisonFree(args)
    case Sel(c, x, y) => ComparisonFree(c) && ComparisonFree(x) && ComparisonFree(y)
    case _ => true
  }

  predicate AllComparisonFree(ts: Trees)
  {
    match ts
    case Nil => true
    case Cons(t, rest) => ComparisonFree(t) && AllComparisonFree(rest)
  }

  lemma UsesSkips(mark: Mark, rest: Text, token: Token)
    requires mark != Operator(token)
    ensures Uses(Then(mark, rest), token) == Uses(rest, token)
  {
  }

  lemma {:induction false} FreeUses(t: Tree, level: nat, rest: Text, token: Token)
    requires ComparisonFree(t) && Compares(token)
    ensures Uses(Show(t, level, rest), token) == Uses(rest, token)
    decreases t, 1
  {
    FreeUsesBare(t, rest, token);
    FreeUsesBare(t, Then(Close, rest), token);
  }

  lemma {:induction false} FreeUsesBare(t: Tree, rest: Text, token: Token)
    requires ComparisonFree(t) && Compares(token)
    ensures Uses(ShowBare(t, rest), token) == Uses(rest, token)
    decreases t, 0
  {
    hide Precedence;
    match t
    case Bin(own, l, r) =>
      var p := Precedence(own);
      FreeUses(r, p + 1, rest, token);
      FreeUses(l, p, Then(Operator(own), Show(r, p + 1, rest)), token);
    case Not(e) => FreeUses(e, UNARY, rest, token);
    case Fn(name, args) =>
      FreeUsesArgs(args, Then(Close, rest), token);
      UsesSkips(Close, rest, token);
      UsesSkips(Open, ShowArgs(args, Then(Close, rest)), token);
      UsesSkips(Named(name), Then(Open, ShowArgs(args, Then(Close, rest))), token);
    case Sel(c, x, y) =>
      FreeUses(y, SELECT, rest, token);
      FreeUses(x, SELECT, Then(Colon, Show(y, SELECT, rest)), token);
      FreeUses(c, SELECT, Then(Ask, Show(x, SELECT, Then(Colon, Show(y, SELECT, rest)))), token);
    case _ =>
  }

  lemma {:induction false} FreeUsesArgs(ts: Trees, rest: Text, token: Token)
    requires AllComparisonFree(ts) && Compares(token)
    ensures Uses(ShowArgs(ts, rest), token) == Uses(rest, token)
    decreases ts, 0
  {
    match ts
    case Nil =>
    case Cons(t, Nil) => FreeUses(t, SELECT, rest, token);
    case Cons(t, more) =>
      FreeUsesArgs(more, rest, token);
      FreeUses(t, SELECT, Then(Comma, ShowArgs(more, rest)), token);
  }

  /** A comparison with comparison-free operands is always hit. */
  lemma FreeOperands(d: Tree)
    requires d.Bin? && Compares(d.token) && ComparisonFree(d.left) && ComparisonFree(d.right)
    ensures RootFirst(d)
  {
    forall t | Compares(t) ensures Uses(ShowBare(d, End), t) == (if t == d.token then 1 else 0) {
      OwnUse(d, t);
    }
    FreeUses(d.left, COMPARE, End, d.token);
    hide ShowBare, Show, Uses, ComparisonFree;
    OnlyFind(ShowBare(d, End), d.token, 0);
    assert TABLE[0..] == TABLE;
    if Inverse(d.token).Some? {
      InTable(d.token);
    } else {
      NotInTable(d.token);
    }
  }

  lemma OwnUse(d: Tree, t: Token)
    requires d.Bin? && Compares(d.token) && ComparisonFree(d.left) && ComparisonFree(d.right) && Compares(t)
    ensures Uses(ShowBare(d, End), t) == if t == d.token then 1 else 0
  {
    hide Show, ComparisonFree;
    FreeUses(d.right, COMPARE + 1, End, t);
    FreeUses(d.left, COMPARE, Then(Operator(d.token), Show(d.right, COMPARE + 1, End)), t);
  }

  lemma NotInTable(t: Token)
    requires Inverse(t).None?
    ensures t !in TABLE
  {
  }

  lemma {:induction false} OnlyFind(text: Text, token: Token, i: nat)
    requires i <= |TABLE| && Compares(token)
    requires forall t | Compares(t) :: Uses(text, t) == (if t == token then 1 else 0)
    ensures FoundFrom(text, i) == if token in TABLE[i..] then Some(token) else None
    decreases |TABLE| - i
  {
    if i < |TABLE| {
      OnlyFind(text, token, i + 1);
      assert TABLE[i..] == [TABLE[i]] + TABLE[i + 1..];
    }
  }

  // ---------- settling keeps the meaning ----------

  lemma OppositeMeaning(run: Run, memory: Memory, d: Tree)
    ensures Eval(run, memory, Opposite(d)) == Bool(Num(Eval(run, memory, d)) == 0)
  {
    if d.Bin? && Inverse(d.token).Some? {
      OppositeCompare(d.token, Eval(run, memory, d.left), Eval(run, memory, d.right));
    }
  }

  lemma OppositeCompare(token: Token, a: Datum, b: Datum)
    requires Inverse(token).Some?
    ensures Compares(token) && Compares(Inverse(token).value)
    ensures Compare(Inverse(token).value, a, b) == !Compare(token, a, b)
  {
  }

  lemma {:induction false} SettleMeaning(run: Run, memory: Memory, t: Tree)
    ensures Eval(run, memory, Settle(t)) == Eval(run, memory, t)
  {
    match t
    case Bin(token, l, r) =>
      SettleMeaning(run, memory, l);
      SettleMeaning(run, memory, r);
    case Not(e) =>
      SettleMeaning(run, memory, e);
      OppositeMeaning(run, memory, Settle(e));
    case Fn(name, args) => SettleAllMeaning(run, memory, args);
    case Sel(c, x, y) =>
      SettleMeaning(run, memory, c);
      SettleMeaning(run, memory, x);
      SettleMeaning(run, memory, y);
    case _ =>
  }

  lemma {:induction false} SettleAllMeaning(run: Run, memory: Memory, ts: Trees)
    ensures EvalAll(run, memory, SettleAll(ts)) == EvalAll(run, memory, ts)
    ensures Operands(run, memory, SettleAll(ts)) == Operands(run, memory, ts)
  {
    if ts.Cons? {
      SettleMeaning(run, memory, ts.head);
      SettleAllMeaning(run, memory, ts.tail);
      if ts.head.Bin? {
        SettleMeaning(run, memory, ts.head.left);
        SettleMeaning(run, memory, ts.head.right);
      } else if ts.head.Not? {
        OppositeIsNoSum(Settle(ts.head.operand));
      }
    }
  }

  lemma OppositeIsNoSum(d: Tree)
    ensures Opposite(d).Bin? ==> Opposite(d).token !in {Plus, Minus}
  {
  }

  lemma {:induction false} SettleSolid(t: Tree)
    requires Solid(t)
    ensures Solid(Settle(t))
  {
    match t
    case Bin(_, l, r) => SettleSolid(l); SettleSolid(r);
    case Not(e) => SettleSolid(e);
    case Fn(_, args) => SettleAllSolid(args);
    case Sel(c, x, y) => SettleSolid(c); SettleSolid(x); SettleSolid(y);
    case _ =>
  }

  lemma {:induction false} SettleAllSolid(ts: Trees)
    requires AllSolid(ts)
    ensures AllSolid(SettleAll(ts))
  {
    if ts.Cons? {
      SettleSolid(ts.head);
      SettleAllSolid(ts.tail);
    }
  }

  // ---------- a negation that misses ----------

  /** The negation of (a == b) u< c is written a != b u< c, which reads back as
      (a != b) u< c: true and false change places only in the inner comparison. */
  lemma MissedNegation(run: Run, memory: Memory, a: Value, b: Value, c: Value)
    requires run.value(a) == run.value(b) && Num(run.value(c)) == 0
    ensures
      var inner := Bin(Equal, Leaf(a), Leaf(b));
      var t := Not(Bin(LessU, inner, Leaf(c)));
      var back := Bin(LessU, Bin(NotEqual, Leaf(a), Leaf(b)), Leaf(c));
      && !Clean(t)
      && Parse(Code(t).text) == Some(back)
      && Num(Eval(run, memory, t)) == 1 && Num(Eval(run, memory, back)) == 0
  {
    MissedText(a, b, c);
    NestedClean(a, b, c);
    MissedReads(a, b, c);
    MissedValues(run, memory, a, b, c);
  }

  lemma MissedReads(a: Value, b: Value, c: Value)
    ensures
      var back := Bin(LessU, Bin(NotEqual, Leaf(a), Leaf(b)), Leaf(c));
      Parse(ShowBare(back, End)) == Some(back)
  {
    hide Parse;
    var inner := Bin(NotEqual, Leaf(a), Leaf(b));
    var back := Bin(LessU, inner, Leaf(c));
    assert Readable(Leaf(a)) && Readable(Leaf(b)) && Readable(Leaf(c));
    assert Solid(Leaf(a)) && Solid(Leaf(b)) && Solid(Leaf(c));
    assert Readable(inner) && Solid(inner);
    assert Print(back) == ShowBare(back, End);
    PrintReads(back);
  }

  lemma MissedValues(run: Run, memory: Memory, a: Value, b: Value, c: Value)
    requires run.value(a) == run.value(b) && Num(run.value(c)) == 0
    ensures
      var t := Not(Bin(LessU, Bin(Equal, Leaf(a), Leaf(b)), Leaf(c)));
      var back := Bin(LessU, Bin(NotEqual, Leaf(a), Leaf(b)), Leaf(c));
      Num(Eval(run, memory, t)) == 1 && Num(Eval(run, memory, back)) == 0
  {
    var equal, unequal := Bin(Equal, Leaf(a), Leaf(b)), Bin(NotEqual, Leaf(a), Leaf(b));
    assert Eval(run, memory, Leaf(a)) == run.value(a) && Eval(run, memory, Leaf(b)) == run.value(b);
    assert Eval(run, memory, Leaf(c)) == run.value(c);
    assert Num(Eval(run, memory, equal)) == 1 && Num(Eval(run, memory, unequal)) == 0;
    assert Num(Eval(run, memory, Bin(LessU, equal, Leaf(c)))) == 0;
  }

  lemma MissedText(a: Value, b: Value, c: Value)
    ensures
      var d := Bin(LessU, Bin(Equal, Leaf(a), Leaf(b)), Leaf(c));
      var back := Bin(LessU, Bin(NotEqual, Leaf(a), Leaf(b)), Leaf(c));
      && Found(ShowBare(d, End)) == Some(Equal)
      && Code(Not(d)).text == ShowBare(back, End)
  {
    var d := Bin(LessU, Bin(Equal, Leaf(a), Leaf(b)), Leaf(c));
    var back := Bin(LessU, Bin(NotEqual, Leaf(a), Leaf(b)), Leaf(c));
    var x := Atom(LeafSymbol(a));
    var tail := Then(Atom(LeafSymbol(b)), Then(Operator(LessU), Then(Atom(LeafSymbol(c)), End)));
    NestedText(Equal, a, b, c);
    NestedText(NotEqual, a, b, c);
    NestedClean(a, b, c);
    CleanCode(d);
    assert TABLE[0] == Equal;
    assert Uses(Then(Operator(Equal), tail), Equal) > 0;
    UsesSkips(x, Then(Operator(Equal), tail), Equal);
    assert Replace(Then(Operator(Equal), tail), Operator(Equal), Operator(NotEqual)) == Then(Operator(NotEqual), tail);
    assert Code(Not(d)) == Negated(Printed(d));
  }

  lemma NestedText(token: Token, a: Value, b: Value, c: Value)
    requires Precedence(token) == COMPARE
    ensures ShowBare(Bin(LessU, Bin(token, Leaf(a), Leaf(b)), Leaf(c)), End)
            == Then(Atom(LeafSymbol(a)), Then(Operator(token), Then(Atom(LeafSymbol(b)),
               Then(Operator(LessU), Then(Atom(LeafSymbol(c)), End)))))
  {
    var inner := Bin(token, Leaf(a), Leaf(b));
    var z: Text := Then(Atom(LeafSymbol(c)), End);
    var rest := Then(Operator(LessU), z);
    assert Show(Leaf(c), COMPARE + 1, End) == z;
    assert Show(inner, COMPARE, rest) == ShowBare(inner, rest);
    var after := Then(Operator(token), Then(Atom(LeafSymbol(b)), rest));
    assert Show(Leaf(b), COMPARE + 1, rest) == Then(Atom(LeafSymbol(b)), rest);
    assert Show(Leaf(a), COMPARE, after) == Then(Atom(LeafSymbol(a)), after);
    assert ShowBare(inner, rest) == Show(Leaf(a), COMPARE, after);
  }

  lemma NestedClean(a: Value, b: Value, c: Value)
    ensures
      var d := Bin(LessU, Bin(Equal, Leaf(a), Leaf(b)), Leaf(c));
      Clean(d) && Settle(d) == d
  {
    var inner := Bin(Equal, Leaf(a), Leaf(b));
    assert Clean(Leaf(a)) && Clean(Leaf(b)) && Clean(Leaf(c));
    assert Settle(Leaf(a)) == Leaf(a) && Settle(Leaf(b)) == Leaf(b) && Settle(Leaf(c)) == Leaf(c);
    assert Clean(inner) && Settle(inner) == inner;
  }

  // ---------- misses that make up for each other ----------

  /** The text of a comparison of a comparison. */
  function Chained(x: Token, y: Token, a: Value, b: Value, c: Value): Text
  {
    Then(Atom(LeafSymbol(a)), Then(Operator(x), Then(Atom(LeafSymbol(b)),
      Then(Operator(y), Then(Atom(LeafSymbol(c)), End)))))
  }

  lemma ChainedUses(x: Token, y: Token, a: Value, b: Value, c: Value, t: Token)
    ensures Uses(Chained(x, y, a, b, c), t) == (if x == t then 1 else 0) + (if y == t then 1 else 0)
  {
    hide Uses;
    var end := Then(Atom(LeafSymbol(c)), End);
    var rest := Then(Atom(LeafSymbol(b)), Then(Operator(y), end));
    UsesSkips(Atom(LeafSymbol(c)), End, t);
    UsesOperator(y, end, t);
    UsesSkips(Atom(LeafSymbol(b)), Then(Operator(y), end), t);
    UsesOperator(x, rest, t);
    UsesSkips(Atom(LeafSymbol(a)), Then(Operator(x), rest), t);
    UsesNone(t);
  }

  lemma UsesOperator(x: Token, rest: Text, t: Token)
    ensures Uses(Then(Operator(x), rest), t) == (if x == t then 1 else 0) + Uses(rest, t)
  {
  }

  lemma UsesNone(t: Token)
    ensures Uses(End, t) == 0
  {
  }

  lemma ChainedReplace(x: Token, y: Token, a: Value, b: Value, c: Value, u: Token)
    ensures Exchange(Chained(x, y, a, b, c), x, u) == Chained(u, y, a, b, c)
  {
    var rest := Then(Operator(x), Then(Atom(LeafSymbol(b)), Then(Operator(y), Then(Atom(LeafSymbol(c)), End))));
    assert Replace(rest, Operator(x), Operator(u)) ==
      Then(Operator(u), Then(Atom(LeafSymbol(b)), Then(Operator(y), Then(Atom(LeafSymbol(c)), End))));
  }

  lemma ChainedSecond(a: Value, b: Value, c: Value)
    ensures Exchange(Chained(NotEqual, Equal, a, b, c), Equal, NotEqual) == Chained(NotEqual, NotEqual, a, b, c)
  {
    var end := Then(Atom(LeafSymbol(c)), End);
    var rest := Then(Atom(LeafSymbol(b)), Then(Operator(Equal), end));
    assert Replace(rest, Operator(Equal), Operator(NotEqual)) == Then(Atom(LeafSymbol(b)), Then(Operator(NotEqual), end));
    assert Replace(Then(Operator(NotEqual), rest), Operator(Equal), Operator(NotEqual)) ==
      Then(Operator(NotEqual), Replace(rest, Operator(Equal), Operator(NotEqual)));
  }

  /** Negating a == b == c three times exchanges the first, the second and again the first
      operator. */
  lemma ThreeNegations(a: Value, b: Value, c: Value)
    ensures
      var start := Rendered(Chained(Equal, Equal, a, b, c), COMPARE);
      Negated(Negated(Negated(start))) == Rendered(Chained(Equal, NotEqual, a, b, c), COMPARE)
  {
    assert TABLE[0] == Equal && TABLE[1] == NotEqual;
    ChainedUses(Equal, Equal, a, b, c, Equal);
    ChainedUses(NotEqual, Equal, a, b, c, Equal);
    ChainedUses(NotEqual, NotEqual, a, b, c, Equal);
    ChainedUses(NotEqual, NotEqual, a, b, c, NotEqual);
    ChainedReplace(Equal, Equal, a, b, c, NotEqual);
    ChainedSecond(a, b, c);
    ChainedReplace(NotEqual, NotEqual, a, b, c, Equal);
    hide Chained, Uses, Exchange;
    var once := Rendered(Chained(NotEqual, Equal, a, b, c), COMPARE);
    var twice := Rendered(Chained(NotEqual, NotEqual, a, b, c), COMPARE);
    assert Found(Chained(Equal, Equal, a, b, c)) == Some(Equal);
    assert Negated(Rendered(Chained(Equal, Equal, a, b, c), COMPARE)) == once;
    assert Found(once.text) == Some(Equal);
    assert Negated(once) == twice;
    assert FoundFrom(twice.text, 1) == Some(NotEqual);
    assert Found(twice.text) == Some(NotEqual);
  }

  lemma ChainedText(x: Token, y: Token, a: Value, b: Value, c: Value)
    requires Precedence(x) == COMPARE && Precedence(y) == COMPARE
    ensures Printed(Bin(y, Bin(x, Leaf(a), Leaf(b)), Leaf(c))) == Rendered(Chained(x, y, a, b, c), COMPARE)
  {
    var inner := Bin(x, Leaf(a), Leaf(b));
    var z: Text := Then(Atom(LeafSymbol(c)), End);
    var rest := Then(Operator(y), z);
    assert Show(Leaf(c), COMPARE + 1, End) == z;
    assert Show(inner, COMPARE, rest) == ShowBare(inner, rest);
    var after := Then(Operator(x), Then(Atom(LeafSymbol(b)), rest));
    assert Show(Leaf(b), COMPARE + 1, rest) == Then(Atom(LeafSymbol(b)), rest);
    assert Show(Leaf(a), COMPARE, after) == Then(Atom(LeafSymbol(a)), after);
    assert ShowBare(inner, rest) == Show(Leaf(a), COMPARE, after);
  }

  lemma EqualsClean(a: Value, b: Value, c: Value)
    ensures
      var d := Bin(Equal, Bin(Equal, Leaf(a), Leaf(b)), Leaf(c));
      Clean(d) && Settle(d) == d && Code(d) == Printed(d)
  {
    var inner := Bin(Equal, Leaf(a), Leaf(b));
    assert Clean(Leaf(a)) && Clean(Leaf(b)) && Clean(Leaf(c));
    assert Settle(Leaf(a)) == Leaf(a) && Settle(Leaf(b)) == Leaf(b) && Settle(Leaf(c)) == Leaf(c);
    assert Clean(inner) && Settle(inner) == inner;
    CleanCode(Bin(Equal, inner, Leaf(c)));
  }

  /** Misses can make up for each other: the first negation of (a == b) == c exchanges the
      inner operator, so the tree is not clean, and yet after three of them the composed
      text is the printed form of the settled tree. */
  lemma MissesMakeUp(a: Value, b: Value, c: Value)
    ensures
      var t := Not(Not(Not(Bin(Equal, Bin(Equal, Leaf(a), Leaf(b)), Leaf(c)))));
      !Clean(t) && Code(t) == Printed(Settle(t))
  {
    var d := Bin(Equal, Bin(Equal, Leaf(a), Leaf(b)), Leaf(c));
    EqualsClean(a, b, c);
    ChainedText(Equal, Equal, a, b, c);
    ChainedText(Equal, NotEqual, a, b, c);
    ThreeNegations(a, b, c);
    hide Chained, Printed, Negated, RootFirst;
    assert Code(Not(d)) == Negated(Code(d));
    assert Code(Not(Not(d))) == Negated(Code(Not(d)));
    assert Code(Not(Not(Not(d)))) == Negated(Code(Not(Not(d))));
    var e := Bin(NotEqual, d.left, d.right);
    assert Settle(Not(d)) == e;
    assert Settle(Not(Not(d))) == d;
    assert Settle(Not(Not(Not(d)))) == e;
    LeftHasOwn(a, b, c);
    assert !Clean(Not(d)) && !Clean(Not(Not(d)));
  }

  lemma LeftHasOwn(a: Value, b: Value, c: Value)
    ensures
      var d := Bin(Equal, Bin(Equal, Leaf(a), Leaf(b)), Leaf(c));
      !RootFirst(d) && Level(d) == COMPARE
  {
    var inner := Bin(Equal, Leaf(a), Leaf(b));
    var rest := Then(Operator(Equal), Then(Atom(LeafSymbol(b)), End));
    assert Show(Leaf(b), COMPARE + 1, End) == Then(Atom(LeafSymbol(b)), End);
    assert ShowBare(inner, End) == Show(Leaf(a), COMPARE, rest) == Then(Atom(LeafSymbol(a)), rest);
    assert Show(inner, COMPARE, End) == ShowBare(inner, End);
    UsesSkips(Atom(LeafSymbol(a)), rest, Equal);
    assert Uses(rest, Equal) > 0;
  }
}
