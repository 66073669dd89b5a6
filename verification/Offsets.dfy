/** Storage offsets: what values amount to relative to the stack pointer at entry,
    spread over operations and block arguments in at most 32 passes, in which the
    first offset a value gets is kept. */
module Offsets {
  import opened Basics
  import Ssa

  type Value = nat

  /** A number brought into the range of 64-bit signed integers. */
  function Wrapped(n: int): int
  {
    var low := n % TWO64;
    if low >= TWO63 then low - TWO64 else low
  }

  datatype Op = Op(opcode: Ssa.Opcode, inputs: seq<Value>, results: seq<Value>)

  datatype Edge = Edge(target: Option<nat>, arguments: seq<Value>)

  datatype Block = Block(parameters: seq<Value>, ops: seq<Op>, edges: seq<Edge>)

  /** The blocks of the program, the values known to be constant, and the blocks that
      arguments are followed into. */
  datatype Program = Program(blocks: seq<Block>, constants: map<Value, nat>, targets: set<nat>)

  /** What a pass visits, one after the other. */
  datatype Item = OpItem(op: Op) | EdgeItem(edge: Edge)

  // ---------- equations between offsets ----------

  /** The value whose offset an operation passes on, and what it adds. */
  function Source(p: Program, op: Op): Option<(Value, int)>
  {
    if op.opcode in {Ssa.IntToAddr, Ssa.AddrToInt, Ssa.ZExt, Ssa.SExt, Ssa.Trunc} && op.inputs != [] then
      Some((op.inputs[0], 0))
    else if op.opcode in {Ssa.Add, Ssa.Sub, Ssa.AddrAdd, Ssa.AddrSub} && |op.inputs| >= 2 &&
            op.inputs[1] in p.constants then
      var amount := Wrapped(p.constants[op.inputs[1]]);
      Some((op.inputs[0], if op.opcode in {Ssa.Sub, Ssa.AddrSub} then -amount else amount))
    else None
  }

  predicate ByOp(p: Program, op: Op, a: Value, b: Value, delta: int)
  {
    Source(p, op) == Some((a, delta)) && b in op.results
  }

  /** The edge is followed and passes the argument to the parameter. */
  ghost predicate ByEdge(p: Program, e: Edge, a: Value, b: Value)
  {
    && e.target.Some? && e.target.value in p.targets && e.target.value < |p.blocks|
    && exists i ::
         0 <= i < |e.arguments| && i < |p.blocks[e.target.value].parameters| &&
         e.arguments[i] == a && p.blocks[e.target.value].parameters[i] == b
  }

  ghost predicate ByItem(p: Program, item: Item, a: Value, b: Value, delta: int)
  {
    match item
    case OpItem(op) => ByOp(p, op, a, b, delta)
    case EdgeItem(e) => delta == 0 && ByEdge(p, e, a, b)
  }

  /** The second value's offset is the first's plus the difference. */
  ghost predicate Equation(p: Program, items: seq<Item>, a: Value, b: Value, delta: int)
  {
    exists item :: item in items && ByItem(p, item, a, b, delta)
  }

  /** An assignment of offsets that has the stack pointer at zero on entry and meets
      every equation of the function. */
  ghost predicate Consistent(p: Program, items: seq<Item>, entry: set<Value>, s: Value -> int)
  {
    && (forall v <- entry :: s(v) == 0)
    && (forall a, b, delta | Equation(p, items, a, b, delta) :: s(b) == Wrapped(s(a) + delta))
  }

  lemma WrappedBy(n: int) returns (k: int)
    ensures Wrapped(n) == n + k * TWO64
  {
    k := -(n / TWO64) - (if n % TWO64 >= TWO63 then 1 else 0);
  }

  lemma WrappedShift(n: int, k: int)
    ensures Wrapped(n + k * TWO64) == Wrapped(n)
  {
    assert (n + k * TWO64) % TWO64 == n % TWO64;
  }

  // ---------- offsets along trails ----------

  datatype Trail = Start(v: Value) | Then(before: Trail, v: Value, delta: int)

  ghost predicate Follows(p: Program, items: seq<Item>, entry: set<Value>, t: Trail)
  {
    match t
    case Start(v) => v in entry
    case Then(before, v, delta) => Follows(p, items, entry, before) && Equation(p, items, before.v, v, delta)
  }

  function Total(t: Trail): int
  {
    match t
    case Start(_) => 0
    case Then(before, _, delta) => Wrapped(Total(before) + delta)
  }

  /** Equations lead from an entry stack pointer to the value and add up to the offset. */
  ghost predicate Traced(p: Program, items: seq<Item>, entry: set<Value>, v: Value, offset: int)
  {
    exists t :: Follows(p, items, entry, t) && t.v == v && Total(t) == offset
  }

  lemma {:induction false} TrailAgrees(p: Program, items: seq<Item>, entry: set<Value>, s: Value -> int, t: Trail)
    requires Consistent(p, items, entry, s) && Follows(p, items, entry, t)
    ensures Total(t) == s(t.v)
  {
    if t.Then? {
      TrailAgrees(p, items, entry, s, t.before);
    }
  }

  lemma TracedStep(p: Program, items: seq<Item>, entry: set<Value>, a: Value, b: Value, offset: int, delta: int)
    requires Traced(p, items, entry, a, offset) && Equation(p, items, a, b, delta)
    ensures Traced(p, items, entry, b, Wrapped(offset + delta))
  {
    var t :| Follows(p, items, entry, t) && t.v == a && Total(t) == offset;
    var longer := Then(t, b, delta);
    assert Follows(p, items, entry, longer) && Total(longer) == Wrapped(offset + delta);
  }

  // ---------- one pass ----------

  type Table = map<Value, int>

  ghost predicate Justified(p: Program, items: seq<Item>, entry: set<Value>, offsets: Table)
  {
    forall v <- offsets :: Traced(p, items, entry, v, offsets[v])
  }

  /** Nothing that is known changes, and a change is reported exactly if something was added. */
  predicate Extends(before: Table, after: Table, changed: bool)
  {
    && (forall v <- before :: v in after && after[v] == before[v])
    && (changed <==> after != before)
  }

  /** Where the first value is known, so is the second. */
  ghost predicate ItemClosed(p: Program, item: Item, offsets: Table)
  {
    forall a, b, delta | ByItem(p, item, a, b, delta) && a in offsets :: b in offsets
  }

  /** Where the first value was known before, the second is known after. */
  ghost predicate Followed(p: Program, item: Item, before: Table, after: Table)
  {
    forall a, b, delta | ByItem(p, item, a, b, delta) && a in before :: b in after
  }

  function Emplaced(offsets: Table, v: Value, offset: int): Table
  {
    if v in offsets then offsets else offsets[v := offset]
  }

  method PassOp(p: Program, ghost items: seq<Item>, ghost entry: set<Value>, op: Op, offsets0: Table)
    returns (offsets: Table, changed: bool)
    requires OpItem(op) in items && Justified(p, items, entry, offsets0)
    ensures Justified(p, items, entry, offsets) && Extends(offsets0, offsets, changed)
    ensures changed || ItemClosed(p, OpItem(op), offsets)
    ensures Followed(p, OpItem(op), offsets0, offsets)
  {
    offsets, changed := offsets0, false;
    var source := Source(p, op);
    if source.None? || source.value.0 !in offsets {
      return;
    }
    var (a, delta) := source.value;
    var recovered := Wrapped(offsets[a] + delta);
    for k := 0 to |op.results|
      invariant Justified(p, items, entry, offsets) && Extends(offsets0, offsets, changed)
      invariant forall j | 0 <= j < k :: op.results[j] in offsets
    {
      assert ByItem(p, OpItem(op), a, op.results[k], delta);
      TracedStep(p, items, entry, a, op.results[k], offsets0[a], delta);
      changed := changed || op.results[k] !in offsets;
      offsets := Emplaced(offsets, op.results[k], recovered);
    }
  }

  method PassEdge(p: Program, ghost items: seq<Item>, ghost entry: set<Value>, e: Edge, offsets0: Table)
    returns (offsets: Table, changed: bool)
    requires EdgeItem(e) in items && Justified(p, items, entry, offsets0)
    ensures Justified(p, items, entry, offsets) && Extends(offsets0, offsets, changed)
    ensures changed || ItemClosed(p, EdgeItem(e), offsets)
    ensures Followed(p, EdgeItem(e), offsets0, offsets)
  {
    offsets, changed := offsets0, false;
    if e.target.None? || e.target.value !in p.targets || e.target.value >= |p.blocks| {
      return;
    }
    var parameters := p.blocks[e.target.value].parameters;
    var count := if |parameters| <= |e.arguments| then |parameters| else |e.arguments|;
    for k := 0 to count
      invariant Justified(p, items, entry, offsets) && Extends(offsets0, offsets, changed)
      invariant forall j | 0 <= j < k && e.arguments[j] in offsets :: changed || parameters[j] in offsets
      invariant forall j | 0 <= j < k && e.arguments[j] in offsets0 :: parameters[j] in offsets
    {
      var a := e.arguments[k];
      if a in offsets {
        assert ByItem(p, EdgeItem(e), a, parameters[k], 0);
        TracedStep(p, items, entry, a, parameters[k], offsets[a], 0);
        TracedInRange(p, items, entry, a, offsets[a]);
        changed := changed || parameters[k] !in offsets;
        offsets := Emplaced(offsets, parameters[k], offsets[a]);
      }
    }
  }

  lemma TracedInRange(p: Program, items: seq<Item>, entry: set<Value>, v: Value, offset: int)
    requires Traced(p, items, entry, v, offset)
    ensures Wrapped(offset) == offset
  {
  }

  method Pass(p: Program, items: seq<Item>, ghost entry: set<Value>, offsets0: Table)
    returns (offsets: Table, changed: bool)
    requires Justified(p, items, entry, offsets0)
    ensures Justified(p, items, entry, offsets) && Extends(offsets0, offsets, changed)
    ensures changed || forall item <- items :: ItemClosed(p, item, offsets)
    ensures forall item <- items :: Followed(p, item, offsets0, offsets)
  {
    hide Justified, ItemClosed, Followed;
    offsets, changed := offsets0, false;
    for k := 0 to |items|
      invariant Justified(p, items, entry, offsets) && Extends(offsets0, offsets, changed)
      invariant changed || forall j | 0 <= j < k :: ItemClosed(p, items[j], offsets)
      invariant forall j | 0 <= j < k :: Followed(p, items[j], offsets0, offsets)
    {
      var one: bool;
      ghost var before := offsets;
      match items[k] {
        case OpItem(op) => offsets, one := PassOp(p, items, entry, op, offsets);
        case EdgeItem(e) => offsets, one := PassEdge(p, items, entry, e, offsets);
      }
      changed := changed || one;
      forall j | 0 <= j <= k ensures Followed(p, items[j], offsets0, offsets) {
        StillFollowed(p, items[j], offsets0, before, offsets);
      }
    }
  }

  lemma StillFollowed(p: Program, item: Item, start: Table, before: Table, after: Table)
    requires forall v <- start :: v in before
    requires forall v <- before :: v in after
    ensures Followed(p, item, start, before) || Followed(p, item, before, after) ==> Followed(p, item, start, after)
  {
  }

  const PASSES := 32

  function Steps(t: Trail): nat
  {
    match t
    case Start(_) => 0
    case Then(before, _, _) => Steps(before) + 1
  }

  /** The ends of all trails of so many steps are recovered. */
  ghost predicate Within(p: Program, items: seq<Item>, entry: set<Value>, offsets: Table, steps: nat)
  {
    forall t | Follows(p, items, entry, t) && Steps(t) <= steps :: t.v in offsets
  }

  /** A pass follows all trails by one step. */
  lemma OneFurther(p: Program, items: seq<Item>, entry: set<Value>, before: Table, after: Table, steps: nat)
    requires Within(p, items, entry, before, steps) && forall v <- before :: v in after
    requires forall item <- items :: Followed(p, item, before, after)
    ensures Within(p, items, entry, after, steps + 1)
  {
    forall t | Follows(p, items, entry, t) && Steps(t) <= steps + 1 ensures t.v in after {
      if Steps(t) == steps + 1 {
        var item :| item in items && ByItem(p, item, t.before.v, t.v, t.delta);
        assert Followed(p, item, before, after);
      }
    }
  }

  /** The outcome of the passes, in whatever order they visited the items. */
  ghost predicate Outcome(p: Program, items: seq<Item>, entry: set<Value>, offsets: Table)
  {
    Justified(p, items, entry, offsets) && forall v <- entry :: v in offsets && offsets[v] == 0
  }

  /** The outcome when the passes sufficed: every value that can be traced is recovered. */
  ghost predicate Converged(p: Program, items: seq<Item>, entry: set<Value>, offsets: Table)
  {
    Outcome(p, items, entry, offsets) && forall v, n | Traced(p, items, entry, v, n) :: v in offsets
  }

  /** Every recovered offset is traced from the entry, and every value that can be traced
      is recovered, unless every pass recovered another one; those at the end of trails of
      no more steps than there are passes always are. */
  method Recover(p: Program, items: seq<Item>, entry: set<Value>) returns (offsets: Table)
    ensures Outcome(p, items, entry, offsets)
    ensures Converged(p, items, entry, offsets) || |offsets| >= |entry| + PASSES
    ensures Within(p, items, entry, offsets, PASSES)
  {
    offsets := map v | v in entry :: 0;
    assert offsets.Keys == entry;
    forall v <- offsets ensures Traced(p, items, entry, v, 0) {
      assert Follows(p, items, entry, Start(v));
    }
    var changed := true;
    for pass := 0 to PASSES
      invariant Justified(p, items, entry, offsets)
      invariant forall v <- entry :: v in offsets && offsets[v] == 0
      invariant |offsets| >= |entry| + pass
      invariant Within(p, items, entry, offsets, pass)
    {
      hide Justified, Traced, ItemClosed, Followed, Within;
      var before := offsets;
      offsets, changed := Pass(p, items, entry, offsets);
      if !changed {
        ClosedIsAll(p, items, entry, offsets);
        ConvergedWithin(p, items, entry, offsets, PASSES);
        return;
      }
      OneFurther(p, items, entry, before, offsets, pass);
      GrowsIfChanged(before, offsets);
    }
  }

  lemma ConvergedWithin(p: Program, items: seq<Item>, entry: set<Value>, offsets: Table, steps: nat)
    requires forall v, n | Traced(p, items, entry, v, n) :: v in offsets
    ensures Within(p, items, entry, offsets, steps)
  {
    forall t | Follows(p, items, entry, t) && Steps(t) <= steps ensures t.v in offsets {
      assert Traced(p, items, entry, t.v, Total(t));
    }
  }

  lemma GrowsIfChanged(before: Table, after: Table)
    requires Extends(before, after, true)
    ensures |after| > |before|
  {
    assert after.Keys != before.Keys;
    var v :| v in after && v !in before;
    SubsetSize(before.Keys, after.Keys - {v});
  }

  lemma ClosedIsAll(p: Program, items: seq<Item>, entry: set<Value>, offsets: Table)
    requires forall item <- items :: ItemClosed(p, item, offsets)
    requires forall v <- entry :: v in offsets
    ensures forall v, n | Traced(p, items, entry, v, n) :: v in offsets
  {
    forall v, n | Traced(p, items, entry, v, n) ensures v in offsets {
      var t :| Follows(p, items, entry, t) && t.v == v && Total(t) == n;
      TrailClosed(p, items, entry, offsets, t);
    }
  }

  lemma {:induction false} TrailClosed(p: Program, items: seq<Item>, entry: set<Value>, offsets: Table, t: Trail)
    requires forall item <- items :: ItemClosed(p, item, offsets)
    requires forall v <- entry :: v in offsets
    requires Follows(p, items, entry, t)
    ensures t.v in offsets
  {
    if t.Then? {
      TrailClosed(p, items, entry, offsets, t.before);
    }
  }

  // ---------- what recovered offsets are worth ----------

  /** Every recovered offset is the one that every consistent assignment has, whether or
      not the passes sufficed. */
  lemma OffsetsAgree(p: Program, items: seq<Item>, entry: set<Value>, offsets: Table, s: Value -> int)
    requires Outcome(p, items, entry, offsets) && Consistent(p, items, entry, s)
    ensures forall v <- offsets :: offsets[v] == s(v)
  {
    forall v <- offsets ensures offsets[v] == s(v) {
      var t :| Follows(p, items, entry, t) && t.v == v && Total(t) == offsets[v];
      TrailAgrees(p, items, entry, s, t);
    }
  }

  /** If the passes sufficed and a consistent assignment exists, the recovered offsets
      meet every equation they reach. */
  lemma OffsetsMeetEquations(p: Program, items: seq<Item>, entry: set<Value>, offsets: Table, s: Value -> int,
                             a: Value, b: Value, delta: int)
    requires Converged(p, items, entry, offsets) && Consistent(p, items, entry, s)
    requires Equation(p, items, a, b, delta) && a in offsets
    ensures b in offsets && offsets[b] == Wrapped(offsets[a] + delta)
  {
    hide Traced, Equation, Wrapped;
    OffsetsAgree(p, items, entry, offsets, s);
    TracedStep(p, items, entry, a, b, offsets[a], delta);
  }

  /** The order of the visits makes no difference then. */
  lemma OrderIsFree(p: Program, items: seq<Item>, items': seq<Item>, entry: set<Value>,
                    offsets: Table, offsets': Table, s: Value -> int)
    requires forall item :: item in items <==> item in items'
    requires Consistent(p, items, entry, s)
    requires Converged(p, items, entry, offsets) && Converged(p, items', entry, offsets')
    ensures offsets == offsets'
  {
    SameEquations(p, items, items');
    forall v ensures v in offsets <==> v in offsets' {
      if v in offsets {
        TracedSame(p, items, items', entry, v, offsets[v]);
      }
      if v in offsets' {
        TracedSame(p, items', items, entry, v, offsets'[v]);
      }
    }
    OffsetsAgree(p, items, entry, offsets, s);
    assert Consistent(p, items', entry, s);
    OffsetsAgree(p, items', entry, offsets', s);
  }

  lemma SameEquations(p: Program, items: seq<Item>, items': seq<Item>)
    requires forall item :: item in items <==> item in items'
    ensures forall a, b, delta :: Equation(p, items, a, b, delta) <==> Equation(p, items', a, b, delta)
  {
  }

  lemma TracedSame(p: Program, items: seq<Item>, items': seq<Item>, entry: set<Value>, v: Value, n: int)
    requires forall a, b, delta :: Equation(p, items, a, b, delta) <==> Equation(p, items', a, b, delta)
    requires Traced(p, items, entry, v, n)
    ensures Traced(p, items', entry, v, n)
  {
    var t :| Follows(p, items, entry, t) && t.v == v && Total(t) == n;
    FollowsSame(p, items, items', entry, t);
  }

  lemma {:induction false} FollowsSame(p: Program, items: seq<Item>, items': seq<Item>, entry: set<Value>, t: Trail)
    requires forall a, b, delta :: Equation(p, items, a, b, delta) <==> Equation(p, items', a, b, delta)
    requires Follows(p, items, entry, t)
    ensures Follows(p, items', entry, t)
  {
    if t.Then? {
      FollowsSame(p, items, items', entry, t.before);
    }
  }

  // ---------- the two users of the passes ----------

  function OpItems(ops: seq<Op>): seq<Item>
  {
    seq(|ops|, i requires 0 <= i < |ops| => OpItem(ops[i]))
  }

  function EdgeItems(edges: seq<Edge>): seq<Item>
  {
    seq(|edges|, i requires 0 <= i < |edges| => EdgeItem(edges[i]))
  }

  function AllOps(blocks: seq<Block>): seq<Op>
  {
    if blocks == [] then [] else blocks[0].ops + AllOps(blocks[1..])
  }

  function AllEdges(blocks: seq<Block>): seq<Edge>
  {
    if blocks == [] then [] else blocks[0].edges + AllEdges(blocks[1..])
  }

  /** The flow query visits all operations, then all edges. */
  function OpsFirst(blocks: seq<Block>): seq<Item>
  {
    OpItems(AllOps(blocks)) + EdgeItems(AllEdges(blocks))
  }

  /** The compact view visits block by block. */
  function ByBlocks(blocks: seq<Block>): seq<Item>
  {
    if blocks == [] then []
    else OpItems(blocks[0].ops) + EdgeItems(blocks[0].edges) + ByBlocks(blocks[1..])
  }

  lemma {:induction false} SameItems(blocks: seq<Block>)
    ensures forall item :: item in OpsFirst(blocks) <==> item in ByBlocks(blocks)
  {
    if blocks != [] {
      SameItems(blocks[1..]);
      ItemsIn(AllOps(blocks), AllEdges(blocks));
      ItemsIn(AllOps(blocks[1..]), AllEdges(blocks[1..]));
      ItemsIn(blocks[0].ops, blocks[0].edges);
    }
  }

  lemma ItemsIn(ops: seq<Op>, edges: seq<Edge>)
    ensures forall op :: OpItem(op) in OpItems(ops) <==> op in ops
    ensures forall e :: EdgeItem(e) in EdgeItems(edges) <==> e in edges
    ensures forall item :: item in OpItems(ops) ==> item.OpItem?
    ensures forall item :: item in EdgeItems(edges) ==> item.EdgeItem?
  {
    forall op | op in ops ensures OpItem(op) in OpItems(ops) {
      var i :| 0 <= i < |ops| && ops[i] == op;
      assert OpItems(ops)[i] == OpItem(op);
    }
    forall e | e in edges ensures EdgeItem(e) in EdgeItems(edges) {
      var i :| 0 <= i < |edges| && edges[i] == e;
      assert EdgeItems(edges)[i] == EdgeItem(e);
    }
  }

  /** Both users get the same offsets for the same blocks and the same entry. */
  lemma UsersAgree(p: Program, blocks: seq<Block>, entry: set<Value>, offsets: Table, offsets': Table, s: Value -> int)
    requires Consistent(p, OpsFirst(blocks), entry, s)
    requires Converged(p, OpsFirst(blocks), entry, offsets) && Converged(p, ByBlocks(blocks), entry, offsets')
    ensures offsets == offsets'
  {
    SameItems(blocks);
    OrderIsFree(p, OpsFirst(blocks), ByBlocks(blocks), entry, offsets, offsets', s);
  }

  datatype CfgEdge = CfgEdge(dst: nat, call: bool)

  /** The node has a block and no edge other than a call leads to it. */
  predicate EntryNode(nodes: seq<Option<nat>>, edges: seq<CfgEdge>, n: nat, block: nat)
  {
    && n < |nodes| && nodes[n] == Some(block)
    && forall e <- edges :: e.dst == n ==> e.call
  }

  /** The values named like the stack pointer among the parameters of entry nodes. */
  method EntryPointers(p: Program, nodes: seq<Option<nat>>, edges: seq<CfgEdge>, stackPointers: set<Value>)
    returns (entry: set<Value>)
    ensures forall v :: v in entry <==>
      v in stackPointers &&
      exists n: nat, b: nat :: EntryNode(nodes, edges, n, b) && b < |p.blocks| && v in p.blocks[b].parameters
  {
    var incoming := new nat[|nodes|](_ => 0);
    for i := 0 to |edges|
      invariant forall n | 0 <= n < |nodes| ::
        incoming[n] == 0 <==> forall j | 0 <= j < i && edges[j].dst == n :: edges[j].call
    {
      if edges[i].dst < |nodes| && !edges[i].call {
        incoming[edges[i].dst] := incoming[edges[i].dst] + 1;
      }
    }
    entry := {};
    for n := 0 to |nodes|
      invariant forall v :: v in entry <==>
        v in stackPointers &&
        exists k: nat, b: nat :: k < n && EntryNode(nodes, edges, k, b) && b < |p.blocks| && v in p.blocks[b].parameters
    {
      if incoming[n] == 0 && nodes[n].Some? && nodes[n].value < |p.blocks| {
        assert EntryNode(nodes, edges, n, nodes[n].value);
        entry := entry + set v | v in p.blocks[nodes[n].value].parameters && v in stackPointers;
      }
    }
  }
}
