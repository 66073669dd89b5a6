/** The printed form of recovered expressions, as a list of lexical marks, and a
    precedence parser that reads it back. */
module ExprPrint {
  import opened Basics
  import opened Ssa
  import opened ExprTree
  import opened Texts

  datatype Symbol =
    | LeafSymbol(v: Value)
    | UnkSymbol(v: Value)
    | LitSymbol(bits: nat, n: nat)
    | TruthSymbol(b: bool)
    | ZeroSymbol
    | MalformedSymbol
    | NoSymbol

  datatype Mark =
    | Atom(symbol: Symbol)
    | Operator(token: Token)
    | Bang
    | Named(name: Name)
    | Open | Close | Comma | Ask | Colon

  type Text = List<Mark>

  const SELECT := 1
  const COMPARE := 2
  const UNARY := 9
  const ATOM := 10

  function Precedence(t: Token): nat
  {
    match t
    case Bar => 3
    case Caret => 4
    case Amp => 5
    case ShiftL | ShiftU | ShiftS => 6
    case Plus | Minus => 7
    case Times | DivU | DivS | RemU | RemS => 8
    case _ => COMPARE
  }

  function SymbolOf(t: Tree): Symbol
  {
    match t
    case Leaf(v) => LeafSymbol(v)
    case Unk(v) => UnkSymbol(v)
    case Lit(bits, n) => LitSymbol(bits, n)
    case Truth(b) => TruthSymbol(b)
    case Zero => ZeroSymbol
    case Malformed => MalformedSymbol
    case _ => NoSymbol
  }

  function AtomOf(s: Symbol): Option<Tree>
  {
    match s
    case LeafSymbol(v) => Some(Leaf(v))
    case UnkSymbol(v) => Some(Unk(v))
    case LitSymbol(bits, n) => Some(Lit(bits, n))
    case TruthSymbol(b) => Some(Truth(b))
    case ZeroSymbol => Some(Zero)
    case MalformedSymbol => Some(Malformed)
    case NoSymbol => None
  }

  function Level(t: Tree): nat
  {
    match t
    case Bin(token, _, _) => Precedence(token)
    case Not(_) => UNARY
    case Sel(_, _, _) => SELECT
    case _ => ATOM
  }

  // ---------- printing ----------

  /** The marks of the tree, in brackets if it binds weaker than asked for, before the rest. */
  function Show(t: Tree, level: nat, rest: Text): Text
    decreases t, 1
  {
    if Level(t) < level then Then(Open, ShowBare(t, Then(Close, rest))) else ShowBare(t, rest)
  }

  function ShowBare(t: Tree, rest: Text): Text
    decreases t, 0
  {
    match t
    case Bin(token, l, r) =>
      Show(l, Precedence(token), Then(Operator(token), Show(r, Precedence(token) + 1, rest)))
    case Not(e) => Then(Bang, Show(e, UNARY, rest))
    case Fn(name, args) => Then(Named(name), Then(Open, ShowArgs(args, Then(Close, rest))))
    case Sel(c, x, y) =>
      Show(c, SELECT, Then(Ask, Show(x, SELECT, Then(Colon, Show(y, SELECT, rest)))))
    case _ => Then(Atom(SymbolOf(t)), rest)
  }

  function ShowArgs(ts: Trees, rest: Text): Text
    decreases ts, 0
  {
    match ts
    case Nil => rest
    case Cons(t, Nil) => Show(t, SELECT, rest)
    case Cons(t, more) => Show(t, SELECT, Then(Comma, ShowArgs(more, rest)))
  }

  function Print(t: Tree): Text
  {
    Show(t, SELECT, End)
  }

  // ---------- parsing ----------

  type Parsed = Option<(Tree, Text)>

  /** A whole expression: a binary expression, or a select. */
  function ParseFull(text: Text): (r: Parsed)
    ensures r.Some? ==> Size(r.value.1) < Size(text)
    decreases Size(text), 3
  {
    match ParseBinary(COMPARE, text)
    case None => None
    case Some((c, rest)) =>
      if rest.End? || rest.head != Ask then Some((c, rest))
      else
        match ParseFull(rest.tail)
        case None => None
        case Some((x, rest1)) =>
          if rest1.End? || rest1.head != Colon then None
          else
            match ParseFull(rest1.tail)
            case None => None
            case Some((y, rest2)) => Some((Sel(c, x, y), rest2))
  }

  /** Operators of at least the given precedence, grouped to the left. */
  function ParseBinary(level: nat, text: Text): (r: Parsed)
    ensures r.Some? ==> Size(r.value.1) < Size(text)
    decreases Size(text), 2
  {
    match ParsePrimary(text)
    case None => None
    case Some((t, rest)) => ParseMore(level, t, rest)
  }

  function ParseMore(level: nat, left: Tree, text: Text): (r: Parsed)
    ensures r.Some? ==> Size(r.value.1) <= Size(text)
    decreases Size(text), 0
  {
    if text.End? || !text.head.Operator? || Precedence(text.head.token) < level then Some((left, text))
    else
      match ParseBinary(Precedence(text.head.token) + 1, text.tail)
      case None => None
      case Some((right, rest)) => ParseMore(level, Bin(text.head.token, left, right), rest)
  }

  function ParsePrimary(text: Text): (r: Parsed)
    ensures r.Some? ==> Size(r.value.1) < Size(text)
    decreases Size(text), 1
  {
    if text.End? then None
    else
      match text.head
      case Atom(symbol) => if AtomOf(symbol).Some? then Some((AtomOf(symbol).value, text.tail)) else None
      case Bang =>
        (match ParseBinary(UNARY, text.tail)
         case None => None
         case Some((e, rest)) => Some((Not(e), rest)))
      case Open =>
        (match ParseFull(text.tail)
         case None => None
         case Some((t, rest)) => if rest.End? || rest.head != Close then None else Some((t, rest.tail)))
      case Named(name) =>
        if text.tail.End? || text.tail.head != Open then None
        else
          var inner := text.tail.tail;
          assert Size(inner) + 2 == Size(text) by { assert Size(text.tail) == 1 + Size(inner); }
          if inner.End? then None
          else if inner.head == Close then Some((Fn(name, Nil), inner.tail))
          else
            (match ParseArgs(inner)
             case None => None
             case Some((args, rest)) => Some((Fn(name, args), rest)))
      case _ => None
  }

  /** Arguments up to and including the closing bracket. */
  function ParseArgs(text: Text): (r: Option<(Trees, Text)>)
    ensures r.Some? ==> Size(r.value.1) < Size(text)
    decreases Size(text), 4
  {
    match ParseFull(text)
    case None => None
    case Some((t, rest)) =>
      if rest.End? then None
      else if rest.head == Close then Some((Cons(t, Nil), rest.tail))
      else if rest.head != Comma then None
      else
        match ParseArgs(rest.tail)
        case None => None
        case Some((more, rest1)) => Some((Cons(t, more), rest1))
  }

  function Parse(text: Text): Option<Tree>
  {
    match ParseFull(text)
    case Some((t, End)) => Some(t)
    case _ => None
  }

  // ---------- reading back ----------

  /** No holes are left and no select is the condition of a select. */
  predicate Readable(t: Tree)
  {
    match t
    case Hole(_) => false
    case Bin(_, l, r) => Readable(l) && Readable(r)
    case Not(e) => Readable(e)
    case Fn(_, args) => AllReadable(args)
    case Sel(c, x, y) => !c.Sel? && Readable(c) && Readable(x) && Readable(y)
    case _ => true
  }

  predicate AllReadable(ts: Trees)
  {
    match ts
    case Nil => true
    case Cons(t, rest) => Readable(t) && AllReadable(rest)
  }

  function HeadLevel(text: Text): nat
  {
    if text.Then? && text.head.Operator? then Precedence(text.head.token) else 0
  }

  function ShownLevel(t: Tree, level: nat): nat
  {
    if Level(t) < level then ATOM else Level(t)
  }

  /** After the printed tree, parsing goes on as if the tree had just been read. */
  lemma {:induction false} ReadBinary(t: Tree, level: nat, shown: nat, rest: Text)
    requires Readable(t) && COMPARE <= level <= shown <= ATOM
    requires HeadLevel(rest) <= ShownLevel(t, shown)
    ensures ParseBinary(level, Show(t, shown, rest)) == ParseMore(level, t, rest)
    decreases t, 6
  {
    if Level(t) < shown {
      ReadFull(t, Then(Close, rest));
    } else {
      ReadBare(t, level, rest);
    }
  }

  lemma {:induction false} ReadBare(t: Tree, level: nat, rest: Text)
    requires Readable(t) && COMPARE <= level <= Level(t)
    requires HeadLevel(rest) <= Level(t)
    ensures ParseBinary(level, ShowBare(t, rest)) == ParseMore(level, t, rest)
    decreases t, 4
  {
    match t
    case Bin(token, l, r) => ReadOperator(token, l, r, level, rest);
    case Not(e) => ReadNot(e, rest);
    case Fn(name, args) => ReadCall(name, args, rest);
    case _ =>
  }

  lemma {:induction false} ReadNot(e: Tree, rest: Text)
    requires Readable(e) && HeadLevel(rest) <= UNARY
    ensures ParsePrimary(ShowBare(Not(e), rest)) == Some((Not(e), rest))
    decreases e, 7
  {
    PrecedenceBelow(rest);
    LevelsAtLeast(e, UNARY);
    ReadBinary(e, UNARY, UNARY, rest);
    MoreStops(UNARY, e, rest);
  }

  lemma PrecedenceBelow(rest: Text)
    ensures HeadLevel(rest) < UNARY
  {
  }

  lemma {:induction false} ReadOperator(token: Token, l: Tree, r: Tree, level: nat, rest: Text)
    requires Readable(l) && Readable(r) && COMPARE <= level <= Precedence(token)
    requires HeadLevel(rest) <= Precedence(token)
    ensures ParseBinary(level, ShowBare(Bin(token, l, r), rest)) == ParseMore(level, Bin(token, l, r), rest)
    decreases Bin(token, l, r), 3, 0
  {
    hide ParseBinary, ParseMore, Readable, Show, ShowBare, Precedence;
    var p := Precedence(token);
    var after := Show(r, p + 1, rest);
    PrecedenceRange(token);
    ShowOperator(token, l, r, rest);
    LevelsAtLeast(l, p);
    LevelsAtLeast(r, p + 1);
    ReadBinary(l, level, p, Then(Operator(token), after));
    ReadBinary(r, p + 1, p + 1, rest);
    MoreStops(p + 1, r, rest);
    MoreStep(level, token, l, r, after, rest);
  }

  lemma PrecedenceRange(token: Token)
    ensures COMPARE <= Precedence(token) < UNARY
  {
  }

  lemma LevelsAtLeast(t: Tree, level: nat)
    requires level <= ATOM
    ensures ShownLevel(t, level) >= level
  {
  }

  lemma ShowOperator(token: Token, l: Tree, r: Tree, rest: Text)
    ensures ShowBare(Bin(token, l, r), rest)
            == Show(l, Precedence(token), Then(Operator(token), Show(r, Precedence(token) + 1, rest)))
  {
  }

  lemma MoreStops(level: nat, t: Tree, rest: Text)
    requires HeadLevel(rest) < level
    ensures ParseMore(level, t, rest) == Some((t, rest))
  {
  }

  lemma MoreStep(level: nat, token: Token, l: Tree, r: Tree, after: Text, rest: Text)
    requires level <= Precedence(token) && ParseBinary(Precedence(token) + 1, after) == Some((r, rest))
    ensures ParseMore(level, l, Then(Operator(token), after)) == ParseMore(level, Bin(token, l, r), rest)
  {
    hide ParseBinary, Precedence;
  }

  lemma {:induction false} ReadCall(name: Name, args: Trees, rest: Text)
    requires AllReadable(args)
    ensures ParsePrimary(ShowBare(Fn(name, args), rest)) == Some((Fn(name, args), rest))
    decreases args, 1
  {
    var inner := ShowArgs(args, Then(Close, rest));
    if args.Cons? {
      ReadArgs(args, rest);
      NotClosed(args, Then(Close, rest));
    }
  }

  lemma {:induction false} ReadFull(t: Tree, rest: Text)
    requires Readable(t) && HeadLevel(rest) == 0
    requires rest.End? || rest.head != Ask
    ensures ParseFull(Show(t, SELECT, rest)) == Some((t, rest))
    ensures ParseFull(ShowBare(t, rest)) == Some((t, rest))
    decreases t, 5
  {
    if t.Sel? {
      var rest1 := Then(Colon, Show(t.whenFalse, SELECT, rest));
      var rest0 := Then(Ask, Show(t.whenTrue, SELECT, rest1));
      ReadBare(t.condition, COMPARE, rest0);
      ReadFull(t.whenTrue, rest1);
      ReadFull(t.whenFalse, rest);
    } else {
      ReadBare(t, COMPARE, rest);
    }
  }

  lemma {:induction false} ReadArgs(ts: Trees, rest: Text)
    requires ts.Cons? && AllReadable(ts)
    ensures ParseArgs(ShowArgs(ts, Then(Close, rest))) == Some((ts, rest))
    decreases ts, 0
  {
    if ts.tail.Nil? {
      ReadFull(ts.head, Then(Close, rest));
    } else {
      ReadFull(ts.head, Then(Comma, ShowArgs(ts.tail, Then(Close, rest))));
      ReadArgs(ts.tail, rest);
    }
  }

  /** A printed tree does not start with a closing bracket. */
  lemma {:induction false} Starts(t: Tree, level: nat, rest: Text)
    ensures Show(t, level, rest).Then? && Show(t, level, rest).head != Close
    ensures ShowBare(t, rest).Then? && ShowBare(t, rest).head != Close
    decreases t
  {
    match t
    case Bin(token, l, r) =>
      var p := Precedence(token);
      Starts(l, p, Then(Operator(token), Show(r, p + 1, rest)));
      Starts(l, p, Then(Operator(token), Show(r, p + 1, Then(Close, rest))));
    case Sel(c, x, y) => Starts(c, SELECT, Then(Ask, Show(x, SELECT, Then(Colon, Show(y, SELECT, rest)))));
    case _ =>
  }

  lemma NotClosed(ts: Trees, rest: Text)
    requires ts.Cons?
    ensures ShowArgs(ts, rest).Then? && ShowArgs(ts, rest).head != Close
  {
    if ts.tail.Nil? {
      Starts(ts.head, SELECT, rest);
    } else {
      Starts(ts.head, SELECT, Then(Comma, ShowArgs(ts.tail, rest)));
    }
  }

  // ---------- selects as conditions ----------

  /** No holes are left. */
  predicate Solid(t: Tree)
  {
    match t
    case Hole(_) => false
    case Bin(_, l, r) => Solid(l) && Solid(r)
    case Not(e) => Solid(e)
    case Fn(_, args) => AllSolid(args)
    case Sel(c, x, y) => Solid(c) && Solid(x) && Solid(y)
    case _ => true
  }

  predicate AllSolid(ts: Trees)
  {
    match ts
    case Nil => true
    case Cons(t, rest) => Solid(t) && AllSolid(rest)
  }

  /** A select whose condition ends in a select is printed as if it belonged to that. */
  function Attach(c: Tree, x: Tree, y: Tree): Tree
  {
    if c.Sel? then Sel(c.condition, c.whenTrue, Attach(c.whenFalse, x, y)) else Sel(c, x, y)
  }

  /** The tree that a printed tree looks like. */
  function Seen(t: Tree): Tree
  {
    match t
    case Bin(token, l, r) => Bin(token, Seen(l), Seen(r))
    case Not(e) => Not(Seen(e))
    case Fn(name, args) => Fn(name, AllSeen(args))
    case Sel(c, x, y) => Attach(Seen(c), Seen(x), Seen(y))
    case _ => t
  }

  function AllSeen(ts: Trees): Trees
  {
    match ts
    case Nil => Nil
    case Cons(t, rest) => Cons(Seen(t), AllSeen(rest))
  }

  lemma {:induction false} AttachShown(c: Tree, x: Tree, y: Tree, rest: Text)
    ensures ShowBare(Attach(c, x, y), rest) == ShowBare(Sel(c, x, y), rest)
  {
    if c.Sel? {
      var rest' := Then(Ask, Show(x, SELECT, Then(Colon, Show(y, SELECT, rest))));
      AttachShown(c.whenFalse, x, y, rest);
      assert Show(Attach(c.whenFalse, x, y), SELECT, rest) == Show(c.whenFalse, SELECT, rest');
      assert Show(c, SELECT, rest') == ShowBare(c, rest');
    }
  }

  lemma {:induction false} SeenLevel(t: Tree)
    ensures Level(Seen(t)) == Level(t)
  {
  }

  lemma {:induction false} SeenShown(t: Tree, level: nat, rest: Text)
    ensures Show(Seen(t), level, rest) == Show(t, level, rest)
    decreases t, 1
  {
    SeenLevel(t);
    SeenBare(t, rest);
    SeenBare(t, Then(Close, rest));
  }

  lemma {:induction false} SeenBare(t: Tree, rest: Text)
    ensures ShowBare(Seen(t), rest) == ShowBare(t, rest)
    decreases t, 0
  {
    match t
    case Bin(token, l, r) =>
      var p := Precedence(token);
      SeenShown(r, p + 1, rest);
      SeenShown(l, p, Then(Operator(token), Show(r, p + 1, rest)));
    case Not(e) => SeenShown(e, UNARY, rest);
    case Fn(name, args) => SeenArgs(args, Then(Close, rest));
    case Sel(c, x, y) =>
      SeenShown(y, SELECT, rest);
      SeenShown(x, SELECT, Then(Colon, Show(y, SELECT, rest)));
      SeenShown(c, SELECT, Then(Ask, Show(x, SELECT, Then(Colon, Show(y, SELECT, rest)))));
      AttachShown(Seen(c), Seen(x), Seen(y), rest);
    case _ =>
  }

  lemma {:induction false} SeenArgs(ts: Trees, rest: Text)
    ensures ShowArgs(AllSeen(ts), rest) == ShowArgs(ts, rest)
    decreases ts, 0
  {
    match ts
    case Nil =>
    case Cons(t, Nil) => SeenShown(t, SELECT, rest);
    case Cons(t, more) =>
      SeenArgs(more, rest);
      SeenShown(t, SELECT, Then(Comma, ShowArgs(more, rest)));
  }

  lemma {:induction false} AttachReadable(c: Tree, x: Tree, y: Tree)
    requires Readable(c) && Readable(x) && Readable(y)
    ensures Readable(Attach(c, x, y))
  {
    if c.Sel? {
      AttachReadable(c.whenFalse, x, y);
    }
  }

  lemma {:induction false} SeenReadable(t: Tree)
    requires Solid(t)
    ensures Readable(Seen(t))
  {
    match t
    case Bin(_, l, r) => SeenReadable(l); SeenReadable(r);
    case Not(e) => SeenReadable(e);
    case Fn(_, args) => AllSeenReadable(args);
    case Sel(c, x, y) =>
      SeenReadable(c);
      SeenReadable(x);
      SeenReadable(y);
      AttachReadable(Seen(c), Seen(x), Seen(y));
    case _ =>
  }

  lemma {:induction false} AllSeenReadable(ts: Trees)
    requires AllSolid(ts)
    ensures AllReadable(AllSeen(ts))
  {
    if ts.Cons? {
      SeenReadable(ts.head);
      AllSeenReadable(ts.tail);
    }
  }

  lemma {:induction false} ReadableSeen(t: Tree)
    requires Readable(t)
    ensures Seen(t) == t
  {
    match t
    case Bin(_, l, r) => ReadableSeen(l); ReadableSeen(r);
    case Not(e) => ReadableSeen(e);
    case Fn(_, args) => AllReadableSeen(args);
    case Sel(c, x, y) => ReadableSeen(c); ReadableSeen(x); ReadableSeen(y);
    case _ =>
  }

  lemma {:induction false} AllReadableSeen(ts: Trees)
    requires AllReadable(ts)
    ensures AllSeen(ts) == ts
  {
    if ts.Cons? {
      ReadableSeen(ts.head);
      AllReadableSeen(ts.tail);
    }
  }

  /** Any printed tree reads back as the tree it looks like. */
  lemma ReadsAsSeen(t: Tree)
    requires Solid(t)
    ensures Parse(Print(t)) == Some(Seen(t))
  {
    SeenReadable(t);
    SeenShown(t, SELECT, End);
    ReadFull(Seen(t), End);
  }

  /** Printing loses nothing exactly when no select is the condition of a select. */
  lemma PrintReads(t: Tree)
    requires Solid(t)
    ensures Parse(Print(t)) == Some(t) <==> Readable(t)
  {
    ReadsAsSeen(t);
    SeenReadable(t);
    if Readable(t) {
      ReadableSeen(t);
    }
  }

  /** Two trees print alike exactly when they look alike; readable ones only if equal. */
  lemma PrintsAlike(t: Tree, u: Tree)
    requires Solid(t) && Solid(u)
    ensures Print(t) == Print(u) <==> Seen(t) == Seen(u)
    ensures Readable(t) && Readable(u) && Print(t) == Print(u) ==> t == u
  {
    ReadsAsSeen(t);
    ReadsAsSeen(u);
    SeenShown(t, SELECT, End);
    SeenShown(u, SELECT, End);
    PrintReads(t);
    PrintReads(u);
  }
}
