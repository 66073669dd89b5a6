/** What a caller of expression recovery gets: the composed text, clipped to the
    character limit, with a cache in front. */
module ExprResult {
  import opened Basics
  import opened Ssa
  import opened ExprTree
  import opened Texts
  import opened ExprPrint
  import opened ExprNegate
  import opened ExprRender
  import opened ExprMeaning
  import opened ExprSound
  import opened ExprBudget

  datatype Answer =
    | BadValue
    | Answer(text: string, operations: seq<OpId>, values: seq<Value>, truncated: bool, omitted: nat)

  /** The characters of a text, given how each mark is spelled. */
  function Written(spell: Mark -> string, text: Text): string
  {
    match text
    case End => ""
    case Then(mark, rest) => spell(mark) + Written(spell, rest)
  }

  predicate Fits(text: string, limit: nat)
  {
    limit == 0 || |text| <= limit
  }

  function Dots(n: nat): (s: string)
    ensures |s| == n && forall c <- s :: c == '.'
  {
    if n == 0 then "" else "." + Dots(n - 1)
  }

  function Clipped(text: string, limit: nat): string
    requires !Fits(text, limit)
  {
    if limit > 3 then text[..limit - 3] + "..." else Dots(limit)
  }

  /** The tree and the state behind an answer. */
  function Recovered(m: Module, b: Budget, v: Value): (Tree, State)
    requires m.HasValue(v)
  {
    Render(m, b, if m.definitions[v].Some? then m.definitions[v].value else 0, v, 0, true, START)
  }

  // build_uncached
  function BuildUncached(m: Module, spell: Mark -> string, v: Value, b: Budget): Answer
  {
    if !m.HasValue(v) then BadValue
    else
      var (t, st) := Recovered(m, b, v);
      var text := Written(spell, Code(t).text);
      if Fits(text, b.maxCharacters) then Answer(text, st.operations, st.values, st.truncated, st.omitted)
      else Answer(Clipped(text, b.maxCharacters), st.operations, st.values, true, st.omitted + 1)
  }

  // ---------- bounds ----------

  /** The text respects the character limit, a cut is reported, and what is left of
      a text that was cut is its beginning. */
  lemma BuildFits(m: Module, spell: Mark -> string, v: Value, b: Budget)
    requires m.HasValue(v)
    ensures
      var r := BuildUncached(m, spell, v, b);
      var (t, st) := Recovered(m, b, v);
      var full := Written(spell, Code(t).text);
      && Fits(r.text, b.maxCharacters)
      && (r.truncated <==> st.truncated || !Fits(full, b.maxCharacters))
      && (r.text == full || (!Fits(full, b.maxCharacters) && |r.text| == b.maxCharacters &&
          (b.maxCharacters > 3 ==> r.text[..b.maxCharacters - 3] <= full)))
  {
  }

  predicate AllowsMore(b: Budget, b': Budget)
  {
    AtLeast(b, b') && (b'.maxCharacters == 0 || 0 < b.maxCharacters <= b'.maxCharacters)
  }

  /** An answer that was not truncated does not depend on the budget. */
  lemma BuildLarger(m: Module, spell: Mark -> string, v: Value, b: Budget, b': Budget)
    requires AllowsMore(b, b')
    requires BuildUncached(m, spell, v, b).Answer? && !BuildUncached(m, spell, v, b).truncated
    ensures BuildUncached(m, spell, v, b') == BuildUncached(m, spell, v, b)
  {
    hide Render, Code, Written;
    var horizon := if m.definitions[v].Some? then m.definitions[v].value else 0;
    RenderLarger(m, b, b', horizon, v, 0, true, START);
  }

  // ---------- the text means the value ----------

  lemma {:induction false} RenderSolid(m: Module, b: Budget, horizon: OpId, v: Value, depth: nat, root: bool, st: State)
    requires root ==> depth == 0
    ensures Solid(Render(m, b, horizon, v, depth, root, st).0)
    decreases Room(b, depth), 1
  {
    var st0 := st.(values := Tracked(st.values, v));
    if m.HasValue(v) && m.Definition(v).Some? && v !in st0.active {
      var id, op := m.Definition(v).value, m.Defining(v);
      var (expand, st1) := CanExpand(m, b, v, id, op, horizon, depth, root, st0);
      if expand {
        FillSolid(m, b, horizon, ShapeOf(m, v, id, op), depth, Entered(m, v, id, op, st1));
      }
    }
  }

  lemma {:induction false} FillSolid(m: Module, b: Budget, horizon: OpId, shape: Tree, depth: nat, st: State)
    requires depth <= b.maxDepth
    ensures Solid(Fill(m, b, horizon, shape, depth, st).0)
    decreases Room(b, depth), 0, shape
  {
    match shape
    case Hole(v) => RenderSolid(m, b, horizon, v, depth + 1, false, st);
    case Bin(token, l, r) =>
      FillSolid(m, b, horizon, l, depth, st);
      FillSolid(m, b, horizon, r, depth, Fill(m, b, horizon, l, depth, st).1);
    case Not(e) => FillSolid(m, b, horizon, e, depth, st);
    case Fn(name, args) => FillAllSolid(m, b, horizon, args, depth, st);
    case Sel(c, x, y) =>
      var st1 := Fill(m, b, horizon, c, depth, st).1;
      FillSolid(m, b, horizon, c, depth, st);
      FillSolid(m, b, horizon, x, depth, st1);
      FillSolid(m, b, horizon, y, depth, Fill(m, b, horizon, x, depth, st1).1);
    case _ =>
  }

  lemma {:induction false} FillAllSolid(m: Module, b: Budget, horizon: OpId, shapes: Trees, depth: nat, st: State)
    requires depth <= b.maxDepth
    ensures AllSolid(FillAll(m, b, horizon, shapes, depth, st).0)
    decreases Room(b, depth), 0, shapes
  {
    match shapes
    case Nil =>
    case Cons(t, rest) =>
      FillSolid(m, b, horizon, t, depth, st);
      FillAllSolid(m, b, horizon, rest, depth, Fill(m, b, horizon, t, depth, st).1);
  }

  /** A composed text whose negations hit their comparisons reads back as the settled
      tree, up to selects that are conditions of selects. */
  lemma CodeReads(t: Tree)
    requires Solid(t) && Clean(t)
    ensures Parse(Code(t).text) == Some(Seen(Settle(t)))
  {
    hide Parse;
    CleanCode(t);
    SettleSolid(t);
    ReadsAsSeen(Settle(t));
    PrintIsBare(Settle(t));
  }

  lemma PrintIsBare(t: Tree)
    ensures Print(t) == ShowBare(t, End)
  {
  }

  /** From the module to the text and back: in every execution, reading the text that
      recovery composes for a value, with memory as it is just before the value's
      operation, gives the value. */
  lemma TextMeaning(m: Module, run: Run, b: Budget, v: Value)
    requires WellFormed(m) && Execution(m, run) && m.Definition(v).Some?
    requires Clean(Recover(m, b, v).0) && Readable(Settle(Recover(m, b, v).0))
    ensures
      var read := Parse(Code(Recover(m, b, v).0).text);
      read.Some? && Eval(run, run.before(m.Definition(v).value), read.value) == run.value(v)
  {
    hide Parse, Code, Render, WellFormed, Execution, Clean, Readable, Solid;
    var t := Recover(m, b, v).0;
    var id := m.Definition(v).value;
    RecoverMeaning(m, run, b, v);
    RenderSolid(m, b, id, v, 0, true, START);
    CodeReads(t);
    ReadableSeen(Settle(t));
    SettleMeaning(run, run.before(id), t);
  }

  // ---------- a negation that misses, from the module on ----------

  const PURE := Effects(false, false, false, false, false, false, false, false)

  /** Values 0, 1 and 2 come in; 3 is 0 == 1, 4 is 3 u< 2, and 6 compares 4 with false. */
  const MISSED := Module(
    seq(7, _ => Type(IntKind, 1)),
    [None, None, None, Some(0), Some(1), Some(2), Some(3)],
    [1, 1, 1, 1, 1, 1, 0],
    [Op(Eq, [0, 1], 0, 0, PURE, None, false), Op(ULt, [3, 2], 0, 0, PURE, None, false),
     Op(Const, [], 0, 0, PURE, None, false), Op(Eq, [4, 5], 0, 0, PURE, None, false)],
    [[0, 1, 2, 3]])

  const AMPLE := Budget(8, 64, 64, 1000, true, true)

  lemma LeafRendered(v: Value, depth: nat, st: State)
    requires v < 3
    ensures Render(MISSED, AMPLE, 3, v, depth, false, st) == (Leaf(v), st.(values := Tracked(st.values, v)))
  {
  }

  lemma MissedShapes()
    ensures ShapeOf(MISSED, 3, 0, MISSED.ops[0]) == Bin(Equal, Hole(0), Hole(1))
    ensures ShapeOf(MISSED, 4, 1, MISSED.ops[1]) == Bin(LessU, Hole(3), Hole(2))
    ensures ShapeOf(MISSED, 6, 3, MISSED.ops[3]) == Not(Hole(4))
  {
  }

  lemma Expands(v: Value, depth: nat, st: State)
    requires (v == 3 || v == 4) && depth < 8 && st.nodes < 64 && v !in st.active
    ensures
      var entered := Entered(MISSED, v, v - 3, MISSED.ops[v - 3], st.(values := Tracked(st.values, v)));
      var (t, after) := Fill(MISSED, AMPLE, 3, ShapeOf(MISSED, v, v - 3, MISSED.ops[v - 3]), depth, entered);
      && Render(MISSED, AMPLE, 3, v, depth, false, st) == (t, after.(active := after.active - {v}))
      && entered.nodes == st.nodes + 1 && entered.active == st.active + {v}
  {
    hide ShapeOf, Fill, Tracked, TrackedAll;
  }

  lemma InnerRendered(depth: nat, st: State)
    requires depth < 8 && st.nodes < 64 && 3 !in st.active
    ensures
      var (t, after) := Render(MISSED, AMPLE, 3, 3, depth, false, st);
      t == Bin(Equal, Leaf(0), Leaf(1)) && after.nodes == st.nodes + 1 && after.active == st.active
  {
    MissedShapes();
    Expands(3, depth, st);
    hide ShapeOf, Tracked, TrackedAll, Entered, Render;
    var st0 := Entered(MISSED, 3, 0, MISSED.ops[0], st.(values := Tracked(st.values, 3)));
    LeafRendered(0, depth + 1, st0);
    LeafRendered(1, depth + 1, st0.(values := Tracked(st0.values, 0)));
  }

  lemma MiddleRendered(depth: nat, st: State)
    requires depth < 7 && st.nodes < 63 && 3 !in st.active && 4 !in st.active
    ensures Render(MISSED, AMPLE, 3, 4, depth, false, st).0 == Bin(LessU, Bin(Equal, Leaf(0), Leaf(1)), Leaf(2))
  {
    MissedShapes();
    Expands(4, depth, st);
    hide ShapeOf, Tracked, TrackedAll, Entered, Render;
    var st0 := Entered(MISSED, 4, 1, MISSED.ops[1], st.(values := Tracked(st.values, 4)));
    InnerRendered(depth + 1, st0);
    LeafRendered(2, depth + 1, Render(MISSED, AMPLE, 3, 3, depth + 1, false, st0).1);
  }

  /** The module is well-formed, and the text recovered for its last value reads back as an
      expression with the opposite value. */
  lemma MissedRecovered(run: Run)
    requires run.value(0) == run.value(1) && Num(run.value(2)) == 0
    ensures WellFormed(MISSED)
    ensures
      var t := Recover(MISSED, AMPLE, 6).0;
      && Parse(Code(t).text) == Some(Bin(LessU, Bin(NotEqual, Leaf(0), Leaf(1)), Leaf(2)))
      && Num(Eval(run, run.before(3), t)) == 1
      && Num(Eval(run, run.before(3), Parse(Code(t).text).value)) == 0
  {
    MissedTree();
    hide Recover, Parse, Code;
    MissedWellFormed();
    MissedNegation(run, run.before(3), 0, 1, 2);
  }

  lemma MissedTree()
    ensures Recover(MISSED, AMPLE, 6).0 == Not(Bin(LessU, Bin(Equal, Leaf(0), Leaf(1)), Leaf(2)))
  {
    MissedShapes();
    hide ShapeOf, Tracked, TrackedAll;
    var st := Entered(MISSED, 6, 3, MISSED.ops[3], START.(values := Tracked(START.values, 6)));
    MiddleRendered(1, st);
  }

  lemma MissedWellFormed()
    ensures WellFormed(MISSED)
  {
    assert Pow2(1) == 2;
    forall v: Value ensures WellFormedAt(MISSED, v) {
    }
  }

  // ---------- the cache ----------

  /** Recovery for one module, with the answers given so far. */
  class Recovery {
    const m: Module
    const spell: Mark -> string
    var cache: map<(Value, Budget), Answer>

    constructor (m: Module, spell: Mark -> string)
      ensures this.m == m && this.spell == spell && Valid() && cache == map[]
    {
      this.m := m;
      this.spell := spell;
      cache := map[];
    }

    ghost predicate Valid()
      reads this`cache
    {
      forall key <- cache :: cache[key] == BuildUncached(m, spell, key.0, key.1)
    }

    /** The cache makes no difference to any answer, and forgets none. */
    method Build(v: Value, b: Budget) returns (answer: Answer)
      requires Valid()
      modifies this`cache
      ensures Valid()
      ensures answer == BuildUncached(m, spell, v, b)
      ensures cache == old(cache)[(v, b) := answer]
    {
      hide BuildUncached;
      if (v, b) in cache {
        answer := cache[(v, b)];
        assert cache == cache[(v, b) := answer];
      } else {
        answer := BuildUncached(m, spell, v, b);
        cache := cache[(v, b) := answer];
      }
    }

    method Clear()
      modifies this`cache
      ensures Valid() && cache == map[]
    {
      cache := map[];
    }
  }
}
