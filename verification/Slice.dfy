/** The backward slice of a statement: the operations that its values depend on,
    found with a worklist, in program order. */
module Slice {
  import opened Basics

  type Value = nat
  type OpId = nat
  type Block = nat

  datatype Edge = Edge(target: Option<Block>, arguments: seq<Value>)

  /** Parameters, operations and terminator edges by block; inputs and addresses by
      operation; definitions by value. */
  datatype Module = Module(parameters: seq<seq<Value>>, contents: seq<seq<OpId>>, edges: seq<seq<Edge>>,
                           inputs: seq<seq<Value>>, addresses: seq<nat>, definitions: seq<Option<OpId>>)
  {
    function Parameters(b: Block): seq<Value> { if b < |parameters| then parameters[b] else [] }
    function Contents(b: Block): seq<OpId> { if b < |contents| then contents[b] else [] }
    function Edges(b: Block): seq<Edge> { if b < |edges| then edges[b] else [] }
    function Inputs(op: OpId): seq<Value> { if op < |inputs| then inputs[op] else [] }
    function Address(op: OpId): nat { if op < |addresses| then addresses[op] else 0 }
    function Definition(v: Value): Option<OpId> { if v < |definitions| then definitions[v] else None }
  }

  datatype Statement = Statement(values: seq<Value>, operations: seq<OpId>, block: Block)

  datatype Item = Item(id: OpId, block: Block)

  // ---------- the operations of the function, in order ----------

  function Items(b: Block, ops: seq<OpId>): seq<Item>
  {
    if ops == [] then [] else [Item(ops[0], b)] + Items(b, ops[1..])
  }

  function Laid(m: Module, order: seq<Block>): seq<Item>
  {
    if order == [] then [] else Laid(m, order[..|order| - 1]) + Items(order[|order| - 1], m.Contents(order[|order| - 1]))
  }

  /** The map gives the last position of every operation. */
  ghost predicate LastPositions(ordered: seq<Item>, positions: map<OpId, nat>)
  {
    && (forall op <- positions ::
      positions[op] < |ordered| && ordered[positions[op]].id == op)
    && (forall i | 0 <= i < |ordered| ::
      ordered[i].id in positions && i <= positions[ordered[i].id])
  }

  ghost predicate LastOfBlocks(ordered: seq<Item>, last: map<Block, nat>)
  {
    && (forall b <- last ::
      last[b] < |ordered| && ordered[last[b]].block == b)
    && (forall i | 0 <= i < |ordered| ::
      ordered[i].block in last && i <= last[ordered[i].block])
  }

  lemma {:induction false} ItemsGrow(b: Block, ops: seq<OpId>, k: nat)
    requires k < |ops|
    ensures Items(b, ops[..k + 1]) == Items(b, ops[..k]) + [Item(ops[k], b)]
  {
    if k == 0 {
      assert ops[..1] == [ops[0]] && ops[..0] == [];
      assert Items(b, ops[..1]) == [Item(ops[0], b)] + Items(b, ops[..1][1..]);
    } else {
      assert ops[..k + 1][1..] == ops[1..][..k] && ops[..k][1..] == ops[1..][..k - 1];
      ItemsGrow(b, ops[1..], k - 1);
    }
  }

  lemma PositionsGrow(ordered: seq<Item>, positions: map<OpId, nat>, item: Item)
    requires LastPositions(ordered, positions)
    ensures LastPositions(ordered + [item], positions[item.id := |ordered|])
  {
    var all, positions' := ordered + [item], positions[item.id := |ordered|];
    forall op <- positions' ensures positions'[op] < |all| && all[positions'[op]].id == op {
      if op != item.id {
        assert all[positions[op]] == ordered[positions[op]];
      }
    }
    forall i | 0 <= i < |all| ensures all[i].id in positions' && i <= positions'[all[i].id] {
      if i < |ordered| {
        assert all[i] == ordered[i];
      }
    }
  }

  lemma BlocksGrow(ordered: seq<Item>, last: map<Block, nat>, item: Item)
    requires LastOfBlocks(ordered, last)
    ensures LastOfBlocks(ordered + [item], last[item.block := |ordered|])
  {
    var all, last' := ordered + [item], last[item.block := |ordered|];
    forall b <- last' ensures last'[b] < |all| && all[last'[b]].block == b {
      if b != item.block {
        assert all[last[b]] == ordered[last[b]];
      }
    }
    forall i | 0 <= i < |all| ensures all[i].block in last' && i <= last'[all[i].block] {
      if i < |ordered| {
        assert all[i] == ordered[i];
      }
    }
  }

  method Layout(m: Module, order: seq<Block>)
    returns (ordered: seq<Item>, positions: map<OpId, nat>, last: map<Block, nat>)
    ensures ordered == Laid(m, order)
    ensures LastPositions(ordered, positions) && LastOfBlocks(ordered, last)
  {
    ordered, positions, last := [], map[], map[];
    assert LastPositions(ordered, positions) && LastOfBlocks(ordered, last);
    hide LastPositions, LastOfBlocks;
    assert order[..|order|] == order;
    for i := 0 to |order|
      invariant ordered == Laid(m, order[..i])
      invariant LastPositions(ordered, positions) && LastOfBlocks(ordered, last)
    {
      var b := order[i];
      var ops := m.Contents(b);
      ghost var before := ordered;
      assert ops[..|ops|] == ops && order[..i + 1][..i] == order[..i];
      for k := 0 to |ops|
        invariant ordered == before + Items(b, ops[..k])
        invariant LastPositions(ordered, positions) && LastOfBlocks(ordered, last)
      {
        ItemsGrow(b, ops, k);
        PositionsGrow(ordered, positions, Item(ops[k], b));
        BlocksGrow(ordered, last, Item(ops[k], b));
        positions := positions[ops[k] := |ordered|];
        last := last[b := |ordered|];
        ordered := ordered + [Item(ops[k], b)];
      }
    }
  }

  // ---------- the position of the seed ----------

  /** The last position, if any, whose item is chosen. */
  ghost predicate LastWhere(ordered: seq<Item>, chosen: Item -> bool, limit: Option<nat>)
  {
    match limit
    case None => forall i | 0 <= i < |ordered| :: !chosen(ordered[i])
    case Some(p) =>
      && p < |ordered| && chosen(ordered[p])
      && forall i | p < i < |ordered| :: !chosen(ordered[i])
  }

  function AtAddress(m: Module, address: nat): Item -> bool
  {
    (item: Item) => m.Address(item.id) == address
  }

  function OfSeed(seed: Statement): Item -> bool
  {
    (item: Item) => item.id in seed.operations
  }

  function InBlock(b: Block): Item -> bool
  {
    (item: Item) => item.block == b
  }

  /** The last position at the seed's address, if the slice is asked for by address;
      failing that, the last position of a seed operation; failing that, the last
      position of the seed's block. */
  ghost predicate SeedAt(m: Module, ordered: seq<Item>, seed: Statement, address: Option<nat>, limit: Option<nat>)
  {
    || (address.Some? && limit.Some? && LastWhere(ordered, AtAddress(m, address.value), limit))
    || ((address.Some? ==> LastWhere(ordered, AtAddress(m, address.value), None)) &&
        (|| (limit.Some? && LastWhere(ordered, OfSeed(seed), limit))
         || (LastWhere(ordered, OfSeed(seed), None) && LastWhere(ordered, InBlock(seed.block), limit))))
  }

  method LastOfSeed(ordered: seq<Item>, positions: map<OpId, nat>, seed: Statement) returns (limit: Option<nat>)
    requires LastPositions(ordered, positions)
    ensures LastWhere(ordered, OfSeed(seed), limit)
  {
    limit := None;
    var ops := seed.operations;
    for k := 0 to |ops|
      invariant limit.None? ==> forall j | 0 <= j < k :: ops[j] !in positions
      invariant limit.Some? ==> limit.value < |ordered| && ordered[limit.value].id in ops
      invariant limit.Some? ==> forall j | 0 <= j < k && ops[j] in positions :: positions[ops[j]] <= limit.value
    {
      if ops[k] in positions {
        var p := positions[ops[k]];
        limit := Some(if limit.Some? && limit.value > p then limit.value else p);
      }
    }
  }

  method LastOfBlock(ordered: seq<Item>, last: map<Block, nat>, b: Block) returns (limit: Option<nat>)
    requires LastOfBlocks(ordered, last)
    ensures LastWhere(ordered, InBlock(b), limit)
  {
    limit := if b in last then Some(last[b]) else None;
  }

  method LastAtAddress(m: Module, ordered: seq<Item>, address: nat) returns (limit: Option<nat>)
    ensures LastWhere(ordered, AtAddress(m, address), limit)
  {
    limit := None;
    for i := 0 to |ordered|
      invariant match limit
                case None => forall j | 0 <= j < i :: m.Address(ordered[j].id) != address
                case Some(p) =>
                  && p < i && m.Address(ordered[p].id) == address
                  && forall j | p < j < i :: m.Address(ordered[j].id) != address
    {
      if m.Address(ordered[i].id) == address {
        limit := Some(i);
      }
    }
  }

  method SeedPosition(m: Module, ordered: seq<Item>, positions: map<OpId, nat>, last: map<Block, nat>,
                      seed: Statement, address: Option<nat>) returns (limit: Option<nat>)
    requires LastPositions(ordered, positions) && LastOfBlocks(ordered, last)
    ensures SeedAt(m, ordered, seed, address, limit)
  {
    hide LastWhere, LastPositions, LastOfBlocks;
    limit := LastOfSeed(ordered, positions, seed);
    if limit.None? {
      limit := LastOfBlock(ordered, last, seed.block);
    }
    if address.Some? {
      var here := LastAtAddress(m, ordered, address.value);
      limit := if here.Some? then here else limit;
    }
  }

  // ---------- arguments that feed parameters ----------

  /** An edge within the function passes the argument to the parameter. */
  predicate Passes(m: Module, blocks: set<Block>, e: Edge, i: nat, argument: Value, parameter: Value)
  {
    && e.target.Some? && e.target.value in blocks
    && i < |e.arguments| && i < |m.Parameters(e.target.value)|
    && e.arguments[i] == argument && m.Parameters(e.target.value)[i] == parameter
  }

  ghost predicate PassedBy(m: Module, blocks: set<Block>, edges: seq<Edge>, argument: Value, parameter: Value)
  {
    exists k, i :: 0 <= k < |edges| && 0 <= i && Passes(m, blocks, edges[k], i, argument, parameter)
  }

  ghost predicate Feeds(m: Module, order: seq<Block>, blocks: set<Block>, argument: Value, parameter: Value)
  {
    exists j :: 0 <= j < |order| && PassedBy(m, blocks, m.Edges(order[j]), argument, parameter)
  }

  predicate Has(incoming: map<Value, seq<Value>>, argument: Value, parameter: Value)
  {
    parameter in incoming && argument in incoming[parameter]
  }

  function Recorded(incoming: map<Value, seq<Value>>, argument: Value, parameter: Value): map<Value, seq<Value>>
  {
    incoming[parameter := (if parameter in incoming then incoming[parameter] else []) + [argument]]
  }

  method RecordEdge(m: Module, blocks: set<Block>, e: Edge, incoming: map<Value, seq<Value>>)
    returns (r: map<Value, seq<Value>>)
    ensures forall a, p ::
      Has(r, a, p) <==> Has(incoming, a, p) || exists i: nat :: Passes(m, blocks, e, i, a, p)
  {
    r := incoming;
    if e.target.None? || e.target.value !in blocks {
      return;
    }
    var parameters := m.Parameters(e.target.value);
    var count := if |parameters| <= |e.arguments| then |parameters| else |e.arguments|;
    for i := 0 to count
      invariant forall a, p ::
        Has(r, a, p) <==> Has(incoming, a, p) || exists k: nat :: k < i && Passes(m, blocks, e, k, a, p)
    {
      assert Passes(m, blocks, e, i, e.arguments[i], parameters[i]);
      ghost var r0 := r;
      r := Recorded(r, e.arguments[i], parameters[i]);
      assert forall a, p :: Has(r, a, p) <==> Has(r0, a, p) || (a == e.arguments[i] && p == parameters[i]);
    }
  }

  method Incoming(m: Module, order: seq<Block>, blocks: set<Block>) returns (incoming: map<Value, seq<Value>>)
    ensures forall a, p :: Has(incoming, a, p) <==> Feeds(m, order, blocks, a, p)
  {
    incoming := map[];
    assert forall a, p :: !Has(incoming, a, p);
    hide Passes, Has;
    for j := 0 to |order|
      invariant forall a, p ::
        Has(incoming, a, p) <==> exists i :: 0 <= i < j && PassedBy(m, blocks, m.Edges(order[i]), a, p)
    {
      var edges := m.Edges(order[j]);
      ghost var before := incoming;
      for k := 0 to |edges|
        invariant forall a, p ::
          Has(incoming, a, p) <==>
          Has(before, a, p) || exists e, i :: 0 <= e < k && 0 <= i && Passes(m, blocks, edges[e], i, a, p)
      {
        incoming := RecordEdge(m, blocks, edges[k], incoming);
      }
    }
  }

  // ---------- the slice ----------

  /** What a slice is asked for: how arguments feed parameters, where operations are,
      and from where to look back. */
  datatype Query = Query(m: Module, incoming: map<Value, seq<Value>>, positions: map<OpId, nat>,
                         seed: Statement, limit: Option<nat>)
  {
    /** The operation is in the function and not after the seed. */
    predicate Admitted(op: OpId)
    {
      op in positions && (limit.None? || positions[op] <= limit.value)
    }

    predicate Starts(v: Value)
    {
      v in seed.values || exists i :: 0 <= i < |seed.operations| && v in m.Inputs(seed.operations[i])
    }

    /** The second value is one that the first directly depends on. */
    predicate DependsOn(v: Value, w: Value)
    {
      || Has(incoming, w, v)
      || (m.Definition(v).Some? && Admitted(m.Definition(v).value) && w in m.Inputs(m.Definition(v).value))
    }

    ghost predicate Chain(values: seq<Value>)
    {
      && values != [] && Starts(values[0])
      && forall i | 0 <= i < |values| - 1 :: DependsOn(values[i], values[i + 1])
    }

    /** A chain of dependencies leads from the seed to the value. */
    ghost predicate Reached(v: Value)
    {
      exists values :: Chain(values) && values[|values| - 1] == v
    }

    /** The operations of the slice: those of the seed and the admitted definitions
        of reached values. */
    ghost predicate Selects(op: OpId)
    {
      op in seed.operations ||
      (Admitted(op) && exists v :: Reached(v) && m.Definition(v) == Some(op))
    }

    lemma StartReached(v: Value)
      requires Starts(v)
      ensures Reached(v)
    {
      assert Chain([v]);
    }

    lemma StepReached(v: Value, w: Value)
      requires Reached(v) && DependsOn(v, w)
      ensures Reached(w)
    {
      var values :| Chain(values) && values[|values| - 1] == v;
      assert Chain(values + [w]);
    }

    /** All values that the worklist can ever hold. */
    ghost function Universe(): set<Value>
    {
      set v | v in seed.values + Flat(m.inputs) + FlatMap(incoming)
    }
  }

  function Flat(ss: seq<seq<Value>>): seq<Value>
  {
    if ss == [] then [] else ss[0] + Flat(ss[1..])
  }

  ghost function FlatMap(incoming: map<Value, seq<Value>>): seq<Value>
  {
    if incoming == map[] then []
    else
      var p :| p in incoming;
      incoming[p] + FlatMap(incoming - {p})
  }

  lemma {:induction false} InFlat(ss: seq<seq<Value>>, i: nat, v: Value)
    requires i < |ss| && v in ss[i]
    ensures v in Flat(ss)
  {
    if i > 0 {
      InFlat(ss[1..], i - 1, v);
    }
  }

  lemma {:induction false} InFlatMap(incoming: map<Value, seq<Value>>, v: Value, w: Value)
    requires Has(incoming, w, v)
    ensures w in FlatMap(incoming)
    decreases |incoming|
  {
    var p :| p in incoming && FlatMap(incoming) == incoming[p] + FlatMap(incoming - {p});
    if p != v {
      InFlatMap(incoming - {p}, v, w);
    }
  }

  // ---------- the worklist ----------

  ghost predicate Sound(q: Query, pending: seq<Value>, visited: set<Value>, selected: set<OpId>)
  {
    && (forall v <- pending :: q.Reached(v))
    && (forall v <- visited :: q.Reached(v))
    && (forall op <- selected :: q.Selects(op))
  }

  /** Everything that what was seen depends on was seen or is waiting. */
  ghost predicate Covered(q: Query, pending: seq<Value>, visited: set<Value>, selected: set<OpId>)
  {
    && (forall v | q.Starts(v) :: v in pending || v in visited)
    && (forall op <- q.seed.operations :: op in selected)
    && (forall op, w | op in selected && w in q.m.Inputs(op) :: w in pending || w in visited)
    && (forall v <- visited :: Handled(q, v, pending, visited, selected))
  }

  ghost predicate Handled(q: Query, v: Value, pending: seq<Value>, visited: set<Value>, selected: set<OpId>)
  {
    && (forall w | Has(q.incoming, w, v) :: w in pending || w in visited)
    && (q.m.Definition(v).Some? && q.Admitted(q.m.Definition(v).value) ==> q.m.Definition(v).value in selected)
  }

  /** With nothing waiting, the worklist has found exactly the slice. */
  lemma CoveredIsAll(q: Query, visited: set<Value>, selected: set<OpId>)
    requires Sound(q, [], visited, selected) && Covered(q, [], visited, selected)
    ensures forall v :: v in visited <==> q.Reached(v)
    ensures forall op :: op in selected <==> q.Selects(op)
  {
    forall v | q.Reached(v) ensures v in visited {
      var values :| q.Chain(values) && values[|values| - 1] == v;
      ChainCovered(q, visited, selected, values);
    }
    forall op | q.Selects(op) ensures op in selected {
      if op !in q.seed.operations {
        var v :| q.Reached(v) && q.m.Definition(v) == Some(op);
        assert Handled(q, v, [], visited, selected);
      }
    }
  }

  lemma {:induction false} ChainCovered(q: Query, visited: set<Value>, selected: set<OpId>, values: seq<Value>)
    requires Covered(q, [], visited, selected) && q.Chain(values)
    ensures values[|values| - 1] in visited
  {
    if |values| > 1 {
      var front := values[..|values| - 1];
      ChainCovered(q, visited, selected, front);
      var v, w := values[|values| - 2], values[|values| - 1];
      assert q.DependsOn(v, w) && Handled(q, v, [], visited, selected);
    }
  }

  /** The reached values are the least set that has the seed's values and is closed
      under dependencies. */
  lemma ReachedIsLeast(q: Query, values: set<Value>, v: Value)
    requires forall w | q.Starts(w) :: w in values
    requires forall u, w | u in values && q.DependsOn(u, w) :: w in values
    requires q.Reached(v)
    ensures v in values
  {
    var chain :| q.Chain(chain) && chain[|chain| - 1] == v;
    ChainWithin(q, values, chain);
  }

  lemma {:induction false} ChainWithin(q: Query, values: set<Value>, chain: seq<Value>)
    requires forall w | q.Starts(w) :: w in values
    requires forall u, w | u in values && q.DependsOn(u, w) :: w in values
    requires q.Chain(chain)
    ensures chain[|chain| - 1] in values
  {
    if |chain| > 1 {
      ChainWithin(q, values, chain[..|chain| - 1]);
      assert q.DependsOn(chain[|chain| - 2], chain[|chain| - 1]);
    }
  }

  lemma StartIn(q: Query, v: Value)
    requires q.Starts(v)
    ensures v in q.Universe()
  {
    if v !in q.seed.values {
      var i :| 0 <= i < |q.seed.operations| && v in q.m.Inputs(q.seed.operations[i]);
      InFlat(q.m.inputs, q.seed.operations[i], v);
    }
  }

  lemma DependsIn(q: Query, v: Value, w: Value)
    requires q.DependsOn(v, w)
    ensures w in q.Universe()
  {
    if Has(q.incoming, w, v) {
      InFlatMap(q.incoming, v, w);
    } else {
      InFlat(q.m.inputs, q.m.Definition(v).value, w);
    }
  }

  lemma {:induction false} ReachedIn(q: Query, v: Value)
    requires q.Reached(v)
    ensures v in q.Universe()
  {
    var values :| q.Chain(values) && values[|values| - 1] == v;
    if |values| == 1 {
      StartIn(q, v);
    } else {
      assert q.DependsOn(values[|values| - 2], values[|values| - 1]);
      DependsIn(q, values[|values| - 2], v);
    }
  }

  lemma StartsBy(q: Query, v: Value)
    ensures q.Starts(v) <==>
      v in q.seed.values || exists i :: 0 <= i < |q.seed.operations| && v in q.m.Inputs(q.seed.operations[i])
  {
  }

  lemma StartWorked(q: Query, pending: seq<Value>, selected: set<OpId>)
    requires forall v <- pending :: q.Reached(v)
    requires forall v :: v in pending <==>
      v in q.seed.values || exists i :: 0 <= i < |q.seed.operations| && v in q.m.Inputs(q.seed.operations[i])
    requires forall op :: op in selected <==> op in q.seed.operations
    ensures Sound(q, pending, {}, selected) && Covered(q, pending, {}, selected)
  {
    hide q.Reached;
  }

  method StartWork(q: Query) returns (pending: seq<Value>, selected: set<OpId>)
    ensures Sound(q, pending, {}, selected) && Covered(q, pending, {}, selected)
  {
    hide *;
    pending, selected := q.seed.values, {};
    var ops := q.seed.operations;
    for k := 0 to |ops|
      invariant forall v :: v in pending <==> v in q.seed.values || exists i :: 0 <= i < k && v in q.m.Inputs(ops[i])
      invariant forall op :: op in selected <==> op in ops[..k]
    {
      selected := selected + {ops[k]};
      pending := pending + q.m.Inputs(ops[k]);
    }
    assert ops[..|ops|] == ops;
    forall v <- pending ensures q.Starts(v) && q.Reached(v) {
      StartsBy(q, v);
      q.StartReached(v);
    }
    StartWorked(q, pending, selected);
  }

  /** What taking the last value from the worklist does: nothing but removing it if it
      was visited, otherwise its dependencies are added. */
  ghost predicate Took(q: Query, pending: seq<Value>, visited: set<Value>, selected: set<OpId>,
                       pending': seq<Value>, visited': set<Value>, selected': set<OpId>)
    requires pending != []
  {
    var v, front := pending[|pending| - 1], pending[..|pending| - 1];
    && visited' == visited + {v}
    && selected <= selected'
    && (forall w <- front :: w in pending')
    && (forall w <- pending' :: w in front || q.DependsOn(v, w))
    && (if v in visited then pending' == front && selected' == selected
        else
          && Handled(q, v, pending', visited', selected')
          && forall op | op in selected' - selected ::
            q.Admitted(op) && q.m.Definition(v) == Some(op) && forall w <- q.m.Inputs(op) :: w in pending')
  }

  lemma TookSound(q: Query, pending: seq<Value>, visited: set<Value>, selected: set<OpId>,
                  pending': seq<Value>, visited': set<Value>, selected': set<OpId>)
    requires pending != [] && Took(q, pending, visited, selected, pending', visited', selected')
    requires Sound(q, pending, visited, selected)
    ensures Sound(q, pending', visited', selected')
  {
    hide q.Reached, q.DependsOn, q.Admitted, Handled;
    var v := pending[|pending| - 1];
    forall w <- pending' ensures q.Reached(w) {
      if w !in pending[..|pending| - 1] {
        q.StepReached(v, w);
      }
    }
    forall op <- selected' ensures q.Selects(op) {
      if op !in selected {
        assert q.Reached(v);
      }
    }
  }

  lemma TookCovered(q: Query, pending: seq<Value>, visited: set<Value>, selected: set<OpId>,
                    pending': seq<Value>, visited': set<Value>, selected': set<OpId>)
    requires pending != [] && Took(q, pending, visited, selected, pending', visited', selected')
    requires Covered(q, pending, visited, selected)
    ensures Covered(q, pending', visited', selected')
  {
    hide q.DependsOn, q.Admitted, q.Starts;
    var v, front := pending[|pending| - 1], pending[..|pending| - 1];
    assert pending == front + [v];
    forall u <- visited' ensures Handled(q, u, pending', visited', selected') {
      if u in visited {
        assert Handled(q, u, pending, visited, selected);
      }
    }
    assert forall op | op in selected' :: op in selected || op in selected' - selected;
  }

  /** The values and operations that the seed's values depend on. */
  method Close(q: Query) returns (visited: set<Value>, selected: set<OpId>)
    ensures forall v :: v in visited <==> q.Reached(v)
    ensures forall op :: op in selected <==> q.Selects(op)
  {
    hide Sound, Covered, q.Reached, q.Selects, q.Universe, q.Starts, q.Admitted;
    var pending: seq<Value>;
    pending, selected := StartWork(q);
    visited := {};
    while pending != []
      invariant Sound(q, pending, visited, selected) && Covered(q, pending, visited, selected)
      decreases |q.Universe() - visited|, |pending|
    {
      var v := pending[|pending| - 1];
      ghost var pending0, visited0, selected0 := pending, visited, selected;
      pending := pending[..|pending| - 1];
      if v !in visited {
        visited := visited + {v};
        if v in q.incoming {
          pending := pending + q.incoming[v];
        }
        var definition := q.m.Definition(v);
        if definition.Some? && q.Admitted(definition.value) && definition.value !in selected {
          selected := selected + {definition.value};
          pending := pending + q.m.Inputs(definition.value);
        }
        VisitShrinks(q, pending0, visited0, selected0);
      } else {
        assert visited == visited + {v};
      }
      assert Took(q, pending0, visited0, selected0, pending, visited, selected);
      TookSound(q, pending0, visited0, selected0, pending, visited, selected);
      TookCovered(q, pending0, visited0, selected0, pending, visited, selected);
    }
    CoveredIsAll(q, visited, selected);
  }

  lemma VisitShrinks(q: Query, pending: seq<Value>, visited: set<Value>, selected: set<OpId>)
    requires pending != [] && pending[|pending| - 1] !in visited && Sound(q, pending, visited, selected)
    ensures |q.Universe() - (visited + {pending[|pending| - 1]})| < |q.Universe() - visited|
  {
    hide q.Reached, q.Selects, q.Universe;
    var v := pending[|pending| - 1];
    ReachedIn(q, v);
    assert q.Universe() - visited == q.Universe() - (visited + {v}) + {v};
  }

  // ---------- the command ----------

  /** The operations of the slice, in program order, up to the seed. */
  ghost predicate Listed(q: Query, ordered: seq<Item>, r: seq<nat>)
  {
    && (forall i, j | 0 <= i < j < |r| :: r[i] < r[j])
    && (forall p: nat :: p in r <==>
      p < |ordered| && (q.limit.None? || p <= q.limit.value) && q.Selects(ordered[p].id))
  }

  method List(q: Query, ordered: seq<Item>, selected: set<OpId>) returns (r: seq<nat>)
    requires forall op :: op in selected <==> q.Selects(op)
    ensures Listed(q, ordered, r)
  {
    r := [];
    for p := 0 to |ordered|
      invariant forall i | 0 <= i < |r| :: r[i] < p
      invariant forall i, j | 0 <= i < j < |r| :: r[i] < r[j]
      invariant forall k: nat :: k in r <==>
        k < p && (q.limit.None? || k <= q.limit.value) && ordered[k].id in selected
    {
      if ordered[p].id in selected && (q.limit.None? || p <= q.limit.value) {
        r := r + [p];
      }
    }
  }

  function Blocks(order: seq<Block>): set<Block>
  {
    set b | b in order
  }

  /** The positions of the operations that the slice of a statement prints. */
  method BackwardSlice(m: Module, order: seq<Block>, seed: Statement, address: Option<nat>)
    returns (ghost q: Query, ordered: seq<Item>, r: seq<nat>)
    ensures q.m == m && q.seed == seed && ordered == Laid(m, order)
    ensures LastPositions(ordered, q.positions) && SeedAt(m, ordered, seed, address, q.limit)
    ensures forall a, p ::
      Has(q.incoming, a, p) <==> Feeds(m, order, Blocks(order), a, p)
    ensures Listed(q, ordered, r)
  {
    hide *;
    var positions, last;
    ordered, positions, last := Layout(m, order);
    var limit := SeedPosition(m, ordered, positions, last, seed, address);
    var incoming := Incoming(m, order, Blocks(order));
    var query := Query(m, incoming, positions, seed, limit);
    q := query;
    var visited, selected := Close(query);
    r := List(query, ordered, selected);
  }
}
