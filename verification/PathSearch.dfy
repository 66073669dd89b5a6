/** The call/return-matching breadth-first path search of a flow query. */
module PathSearch {
  import opened Basics

  const INVALID_NODE: nat := 0xFFFF_FFFF

  datatype EdgeKind = CallEdge | IndirectCall | CallReturn | TailCall | ReturnEdge | OtherEdge

  datatype Edge = Edge(kind: EdgeKind, dst: nat, condition: nat)

  /** A node's edges carry consecutive ids that start at its offset. */
  datatype Node = Node(edgeOffset: nat, edges: seq<Edge>)

  type Graph = seq<Node>

  datatype Path = Path(nodes: seq<nat>, edges: seq<nat>, depth: nat)

  datatype Item = Item(node: nat, returnStack: seq<nat>, depth: nat, history: seq<nat>, path: Path)

  function EdgesOf(g: Graph, node: nat): seq<Edge>
  {
    if node < |g| then g[node].edges else []
  }

  /** Where a call at these edges continues: the first call-return edge, if any. */
  function Continuation(edges: seq<Edge>): nat
  {
    if edges == [] then INVALID_NODE
    else if edges[0].kind == CallReturn then edges[0].dst
    else Continuation(edges[1..])
  }

  /** Contexts are remembered as 64-bit numbers. */
  function ContextKey(g: Graph, depth: nat, node: nat): nat
  {
    (depth * |g| + node) % TWO64
  }

  function Initial(start: nat): Item
  {
    Item(start, [], 0, [start], Path([start], [], 0))
  }

  /** Entering the destination of an edge, unless it is no node or a known context. */
  function Enter(g: Graph, item: Item, destination: nat, stack: seq<nat>, depth: nat, edge: nat): Option<Item>
  {
    var key := ContextKey(g, depth, destination);
    if destination == INVALID_NODE || destination >= |g| || key in item.history then None
    else Some(Item(destination, stack, depth, item.history + [key],
                   Path(item.path.nodes + [destination], item.path.edges + [edge],
                        Max(item.path.depth, depth))))
  }

  /** Following one edge of the item's node: calls push their continuation, tail
      calls only deepen, returns go back to the innermost open call if there is one. */
  function Follow(g: Graph, functionDepth: nat, item: Item, index: nat): Option<Item>
    requires index < |EdgesOf(g, item.node)|
  {
    var edges := EdgesOf(g, item.node);
    var e := edges[index];
    var id := g[item.node].edgeOffset + index;
    match e.kind
    case CallEdge | IndirectCall =>
      if item.depth >= functionDepth then None
      else Enter(g, item, e.dst, item.returnStack + [Continuation(edges)], item.depth + 1, id)
    case TailCall =>
      if item.depth >= functionDepth then None
      else Enter(g, item, e.dst, item.returnStack, item.depth + 1, id)
    case ReturnEdge =>
      var n := |item.returnStack|;
      if n == 0 then Enter(g, item, e.dst, [], item.depth, id)
      else Enter(g, item, item.returnStack[n - 1], item.returnStack[..n - 1],
                 if item.depth != 0 then item.depth - 1 else 0, id)
    case _ => Enter(g, item, e.dst, item.returnStack, item.depth, id)
  }

  // ---------- the walks a search is to find ----------

  /** Where a sequence of edge ids leads from the start, if it is a matched walk
      without a repeated context that does not go on beyond the goal. */
  function Walk(g: Graph, functionDepth: nat, start: nat, goal: nat, es: seq<nat>): Option<Item>
  {
    if es == [] then Some(Initial(start))
    else
      var n := |es| - 1;
      match Walk(g, functionDepth, start, goal, es[..n])
      case None => None
      case Some(item) =>
        if item.node == goal || item.node >= |g| then None
        else
          var offset := g[item.node].edgeOffset;
          if offset <= es[n] < offset + |g[item.node].edges|
          then Follow(g, functionDepth, item, es[n] - offset)
          else None
  }

  predicate GoalWalk(g: Graph, functionDepth: nat, start: nat, goal: nat, es: seq<nat>)
  {
    var end := Walk(g, functionDepth, start, goal, es);
    end.Some? && end.value.node == goal
  }

  /** What holds of every item a walk leads to: its record is the walk itself,
      calls are never open deeper than the depth, and no context repeats. */
  predicate Consistent(g: Graph, functionDepth: nat, start: nat, item: Item)
  {
    && |item.path.nodes| == |item.path.edges| + 1 == |item.history|
    && item.path.nodes[0] == start && item.path.nodes[|item.path.edges|] == item.node
    && item.node < |g|
    && |item.returnStack| <= item.depth <= item.path.depth <= functionDepth
    && (forall k :: k in item.history ==> k < (functionDepth + 1) * |g|)
    && (forall i, j :: 0 <= i < j < |item.history| ==> item.history[i] != item.history[j])
    && Joined(g, item.path.nodes, item.path.edges)
  }

  /** Every recorded edge leaves the node recorded before it, and unless it is a
      return edge it leads to the node recorded after it. */
  predicate Joined(g: Graph, nodes: seq<nat>, edges: seq<nat>)
    requires |nodes| == |edges| + 1
  {
    forall i :: 0 <= i < |edges| ==> Joins(g, nodes[i], edges[i], nodes[i + 1])
  }

  predicate Joins(g: Graph, from: nat, edge: nat, to: nat)
  {
    && from < |g|
    && g[from].edgeOffset <= edge < g[from].edgeOffset + |g[from].edges|
    && var e := g[from].edges[edge - g[from].edgeOffset];
       (e.kind == ReturnEdge || e.dst == to)
  }

  lemma KeyBelow(g: Graph, functionDepth: nat, depth: nat, node: nat)
    requires depth <= functionDepth && node < |g|
    ensures ContextKey(g, depth, node) < (functionDepth + 1) * |g|
  {
    Scale(depth + 1, functionDepth + 1, |g|);
  }

  lemma EnterConsistent(g: Graph, functionDepth: nat, start: nat, item: Item,
                        destination: nat, stack: seq<nat>, depth: nat, edge: nat)
    requires Consistent(g, functionDepth, start, item)
    requires |stack| <= depth <= functionDepth
    requires Joins(g, item.node, edge, destination)
    requires Enter(g, item, destination, stack, depth, edge).Some?
    ensures Consistent(g, functionDepth, start, Enter(g, item, destination, stack, depth, edge).value)
  {
    var next := Enter(g, item, destination, stack, depth, edge).value;
    KeyBelow(g, functionDepth, depth, destination);
    forall i | 0 <= i < |next.path.edges|
      ensures Joins(g, next.path.nodes[i], next.path.edges[i], next.path.nodes[i + 1])
    {
      if i < |item.path.edges| {
        assert Joins(g, item.path.nodes[i], item.path.edges[i], item.path.nodes[i + 1]);
      }
    }
  }

  lemma FollowConsistent(g: Graph, functionDepth: nat, start: nat, item: Item, index: nat)
    requires Consistent(g, functionDepth, start, item)
    requires index < |EdgesOf(g, item.node)|
    requires Follow(g, functionDepth, item, index).Some?
    ensures Consistent(g, functionDepth, start, Follow(g, functionDepth, item, index).value)
    ensures Follow(g, functionDepth, item, index).value.path.edges
            == item.path.edges + [g[item.node].edgeOffset + index]
  {
    var edges := EdgesOf(g, item.node);
    var e, id := edges[index], g[item.node].edgeOffset + index;
    var n := |item.returnStack|;
    hide Consistent;
    match e.kind
    case CallEdge | IndirectCall =>
      EnterConsistent(g, functionDepth, start, item, e.dst, item.returnStack + [Continuation(edges)],
                      item.depth + 1, id);
    case TailCall =>
      EnterConsistent(g, functionDepth, start, item, e.dst, item.returnStack, item.depth + 1, id);
    case ReturnEdge =>
      if n == 0 {
        EnterConsistent(g, functionDepth, start, item, e.dst, [], item.depth, id);
      } else {
        EnterConsistent(g, functionDepth, start, item, item.returnStack[n - 1], item.returnStack[..n - 1],
                        item.depth - 1, id);
      }
    case _ =>
      EnterConsistent(g, functionDepth, start, item, e.dst, item.returnStack, item.depth, id);
  }

  lemma InitialConsistent(g: Graph, functionDepth: nat, start: nat)
    requires start < |g|
    ensures Consistent(g, functionDepth, start, Initial(start))
  {
    Scale(1, functionDepth + 1, |g|);
  }

  lemma InNode(g: Graph, functionDepth: nat, start: nat, item: Item)
    requires Consistent(g, functionDepth, start, item)
    ensures item.node < |g|
  {
  }

  lemma {:induction false} WalkConsistent(g: Graph, functionDepth: nat, start: nat, goal: nat, es: seq<nat>)
    requires start < |g| && Walk(g, functionDepth, start, goal, es).Some?
    ensures var item := Walk(g, functionDepth, start, goal, es).value;
      Consistent(g, functionDepth, start, item) && item.path.edges == es
  {
    hide Consistent, Follow;
    if es == [] {
      InitialConsistent(g, functionDepth, start);
    } else {
      var n := |es| - 1;
      assert es == es[..n] + [es[n]];
      WalkConsistent(g, functionDepth, start, goal, es[..n]);
      var item := Walk(g, functionDepth, start, goal, es[..n]).value;
      InNode(g, functionDepth, start, item);
      FollowConsistent(g, functionDepth, start, item, es[n] - g[item.node].edgeOffset);
    }
  }

  /** A walk's prefixes are walks that have not reached the goal. */
  lemma {:induction false} WalkPrefix(g: Graph, functionDepth: nat, start: nat, goal: nat, es: seq<nat>, n: nat)
    requires n < |es| && Walk(g, functionDepth, start, goal, es).Some?
    ensures
      var item := Walk(g, functionDepth, start, goal, es[..n]);
      && item.Some? && item.value.node != goal
      && Walk(g, functionDepth, start, goal, es[..n + 1]).Some?
  {
    var m := |es| - 1;
    if n == m {
      assert es[..n + 1] == es;
    } else {
      WalkPrefix(g, functionDepth, start, goal, es[..m], n);
      assert es[..m][..n] == es[..n];
      assert es[..m][..n + 1] == es[..n + 1];
    }
  }

  // ---------- context keys ----------

  ghost predicate Context(g: Graph, functionDepth: nat, depth: nat, node: nat)
  {
    depth <= functionDepth && node < |g|
  }

  /** The keys tell all contexts apart exactly when the numbers do not wrap around. */
  lemma KeysInjective(g: Graph, functionDepth: nat)
    requires |g| > 0
    ensures (functionDepth + 1) * |g| <= TWO64 <==>
      (forall d, n, e, m | Context(g, functionDepth, d, n) && Context(g, functionDepth, e, m) ::
        ContextKey(g, d, n) == ContextKey(g, e, m) ==> d == e && n == m)
  {
    if (functionDepth + 1) * |g| <= TWO64 {
      forall d, n, e, m | Context(g, functionDepth, d, n) && Context(g, functionDepth, e, m) &&
          ContextKey(g, d, n) == ContextKey(g, e, m)
        ensures d == e && n == m
      {
        Unwrapped(g, functionDepth, d, n);
        Unwrapped(g, functionDepth, e, m);
        DivisionUnique(|g|, d, n, e, m);
      }
    } else {
      var d, n := TWO64 / |g|, TWO64 % |g|;
      assert d * |g| + n == TWO64;
      if functionDepth + 1 <= d {
        Scale(functionDepth + 1, d, |g|);
      }
      assert Context(g, functionDepth, d, n) && Context(g, functionDepth, 0, 0);
      assert ContextKey(g, d, n) == 0 == ContextKey(g, 0, 0);
      assert d != 0 || n != 0;
    }
  }

  lemma Unwrapped(g: Graph, functionDepth: nat, d: nat, n: nat)
    requires (functionDepth + 1) * |g| <= TWO64 && d <= functionDepth && n < |g|
    ensures ContextKey(g, d, n) == d * |g| + n
  {
    Scale(d + 1, functionDepth + 1, |g|);
  }

  lemma Scale(a: nat, b: nat, k: nat)
    requires a <= b
    ensures a * k <= b * k
  {
  }

  lemma DivisionUnique(k: nat, d: nat, n: nat, e: nat, m: nat)
    requires n < k && m < k && d * k + n == e * k + m
    ensures d == e && n == m
  {
    if d < e {
      Scale(d + 1, e, k);
    } else if e < d {
      Scale(e + 1, d, k);
    }
  }
}
