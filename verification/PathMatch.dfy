/** Matched walks described without a search: a return goes back to the call that it
    answers, contexts do not repeat, and calls are not nested too deep. */
module PathMatch {
  import opened Basics
  import opened PathSearch

  // ---------- calls and the returns that answer them ----------

  datatype Move = Opens | Closes | Deepens | Stays

  function MoveOf(kind: EdgeKind): Move
  {
    match kind
    case CallEdge | IndirectCall => Opens
    case ReturnEdge => Closes
    case TailCall => Deepens
    case _ => Stays
  }

  /** Every call made from one step to another is answered, and every return answers one. */
  ghost predicate Balanced(moves: seq<Move>, i: nat, j: nat)
    requires i <= j <= |moves|
    decreases j - i
  {
    || i == j
    || (moves[i] in {Deepens, Stays} && Balanced(moves, i + 1, j))
    || (moves[i] == Opens && exists k: nat | i < k < j ::
          moves[k] == Closes && Balanced(moves, i + 1, k) && Balanced(moves, k + 1, j))
  }

  /** The return answers the call: what happens between them is balanced. */
  ghost predicate Answers(moves: seq<Move>, c: nat, r: nat)
    requires r <= |moves|
  {
    c < r && moves[c] == Opens && Balanced(moves, c + 1, r)
  }

  ghost predicate Answered(moves: seq<Move>, r: nat)
    requires r <= |moves|
  {
    exists c :: Answers(moves, c, r)
  }

  /** Calls and tail calls so far, less the returns that answered a call. */
  ghost function Depth(moves: seq<Move>, n: nat): int
    requires n <= |moves|
  {
    if n == 0 then 0
    else
      Depth(moves, n - 1) +
      (if moves[n - 1] in {Opens, Deepens} then 1
       else if moves[n - 1] == Closes && Answered(moves, n - 1) then -1
       else 0)
  }

  // ---------- the calls that are open ----------

  function OpenCalls(moves: seq<Move>, n: nat): (open: seq<nat>)
    requires n <= |moves|
    ensures forall i | 0 <= i < |open| :: open[i] < n
  {
    if n == 0 then []
    else
      var before := OpenCalls(moves, n - 1);
      match moves[n - 1]
      case Opens => before + [n - 1]
      case Closes => if before == [] then [] else before[..|before| - 1]
      case _ => before
  }

  lemma {:induction false} BalancedKeeps(moves: seq<Move>, i: nat, j: nat)
    requires i <= j <= |moves| && Balanced(moves, i, j)
    ensures OpenCalls(moves, j) == OpenCalls(moves, i)
    decreases j - i
  {
    if i < j {
      if moves[i] in {Deepens, Stays} {
        BalancedKeeps(moves, i + 1, j);
      } else {
        var k: nat :| i < k < j && moves[k] == Closes && Balanced(moves, i + 1, k) && Balanced(moves, k + 1, j);
        BalancedKeeps(moves, i + 1, k);
        BalancedKeeps(moves, k + 1, j);
        assert OpenCalls(moves, k) == OpenCalls(moves, i) + [i];
      }
    }
  }

  lemma {:induction false} BalancedJoins(moves: seq<Move>, i: nat, j: nat, k: nat)
    requires i <= j <= k <= |moves| && Balanced(moves, i, j) && Balanced(moves, j, k)
    ensures Balanced(moves, i, k)
    decreases j - i
  {
    if i < j {
      if moves[i] in {Deepens, Stays} {
        BalancedJoins(moves, i + 1, j, k);
      } else {
        var r: nat :| i < r < j && moves[r] == Closes && Balanced(moves, i + 1, r) && Balanced(moves, r + 1, j);
        BalancedJoins(moves, r + 1, j, k);
      }
    }
  }

  /** The innermost open call is the one that a return would answer. */
  ghost predicate Innermost(moves: seq<Move>, n: nat, c: nat)
    requires n <= |moves|
  {
    Answers(moves, c, n) && OpenCalls(moves, n) == OpenCalls(moves, c) + [c]
  }

  lemma {:induction false} InnermostIsAnswered(moves: seq<Move>, n: nat)
    requires n <= |moves| && OpenCalls(moves, n) != []
    ensures
      var open := OpenCalls(moves, n);
      Innermost(moves, n, open[|open| - 1])
    decreases n
  {
    OpenStep(moves, n);
    hide Balanced, OpenCalls, Innermost;
    var open, before := OpenCalls(moves, n), OpenCalls(moves, n - 1);
    match moves[n - 1]
    case Opens => NewestIsInnermost(moves, n);
    case Closes =>
      InnermostIsAnswered(moves, n - 1);
      var c := before[|before| - 1];
      OuterIsLeft(moves, c, n);
      InnermostIsAnswered(moves, c);
      OuterIsAnswered(moves, c, n, open[|open| - 1]);
    case _ =>
      InnermostIsAnswered(moves, n - 1);
      InnermostStays(moves, n, open[|open| - 1]);
  }

  lemma NewestIsInnermost(moves: seq<Move>, n: nat)
    requires 0 < n <= |moves| && moves[n - 1] == Opens
    ensures Innermost(moves, n, n - 1)
  {
    StillBalanced(moves, n);
  }

  lemma InnermostStays(moves: seq<Move>, n: nat, c: nat)
    requires 0 < n <= |moves| && moves[n - 1] in {Deepens, Stays} && Innermost(moves, n - 1, c)
    ensures Innermost(moves, n, c)
  {
    OpenStep(moves, n);
    hide Balanced, OpenCalls;
    StayIsBalanced(moves, n - 1);
    BalancedJoins(moves, c + 1, n - 1, n);
  }

  lemma OuterIsLeft(moves: seq<Move>, c: nat, n: nat)
    requires 0 < n <= |moves| && moves[n - 1] == Closes && Innermost(moves, n - 1, c)
    ensures c < n - 1 && OpenCalls(moves, n) == OpenCalls(moves, c)
  {
    OpenStep(moves, n);
    hide Balanced, OpenCalls;
    assert (OpenCalls(moves, c) + [c])[..|OpenCalls(moves, c)|] == OpenCalls(moves, c);
  }

  /** When the innermost call was answered, the next one out is innermost. */
  lemma OuterIsAnswered(moves: seq<Move>, c: nat, n: nat, outer: nat)
    requires 0 < n <= |moves| && moves[n - 1] == Closes && Innermost(moves, n - 1, c) && Innermost(moves, c, outer)
    ensures Innermost(moves, n, outer)
  {
    OuterIsLeft(moves, c, n);
    hide Balanced, OpenCalls;
    AnsweredCall(moves, c, n);
    BalancedJoins(moves, outer + 1, c, n);
  }

  lemma OpenStep(moves: seq<Move>, n: nat)
    requires 0 < n <= |moves|
    ensures
      var before := OpenCalls(moves, n - 1);
      OpenCalls(moves, n) ==
        if moves[n - 1] == Opens then before + [n - 1]
        else if moves[n - 1] == Closes && before != [] then before[..|before| - 1]
        else before
  {
  }

  lemma StayIsBalanced(moves: seq<Move>, i: nat)
    requires i < |moves| && moves[i] in {Deepens, Stays}
    ensures Balanced(moves, i, i + 1)
  {
    assert Balanced(moves, i + 1, i + 1);
  }

  lemma StillBalanced(moves: seq<Move>, n: nat)
    requires n <= |moves|
    ensures Balanced(moves, n, n)
  {
  }

  lemma AnsweredCall(moves: seq<Move>, c: nat, n: nat)
    requires n <= |moves| && 0 < n && moves[n - 1] == Closes && c < n - 1 && Answers(moves, c, n - 1)
    ensures Balanced(moves, c, n)
  {
    assert Balanced(moves, n, n);
  }

  /** A return answers at most one call: the innermost one that is open. */
  lemma AnswersInnermost(moves: seq<Move>, c: nat, n: nat)
    requires n <= |moves| && Answers(moves, c, n)
    ensures OpenCalls(moves, n) == OpenCalls(moves, c) + [c]
  {
    BalancedKeeps(moves, c + 1, n);
  }

  lemma AnsweredIfOpen(moves: seq<Move>, n: nat)
    requires n <= |moves|
    ensures Answered(moves, n) <==> OpenCalls(moves, n) != []
  {
    if OpenCalls(moves, n) != [] {
      InnermostIsAnswered(moves, n);
    }
    if Answered(moves, n) {
      var c :| Answers(moves, c, n);
      AnswersInnermost(moves, c, n);
    }
  }

  // ---------- beginnings of a sequence of moves ----------

  lemma {:induction false} BalancedWithin(moves: seq<Move>, m: nat, i: nat, j: nat)
    requires i <= j <= m <= |moves|
    ensures Balanced(moves[..m], i, j) <==> Balanced(moves, i, j)
    decreases j - i
  {
    if i < j {
      var front := moves[..m];
      assert front[i] == moves[i] && forall k | i < k < j :: front[k] == moves[k];
      BalancedWithin(moves, m, i + 1, j);
      forall k: nat | i < k < j && moves[k] == Closes
        ensures Balanced(moves[..m], i + 1, k) <==> Balanced(moves, i + 1, k)
        ensures Balanced(moves[..m], k + 1, j) <==> Balanced(moves, k + 1, j)
      {
        BalancedWithin(moves, m, i + 1, k);
        BalancedWithin(moves, m, k + 1, j);
      }
    }
  }

  lemma AnswersWithin(moves: seq<Move>, m: nat, n: nat)
    requires n <= m <= |moves|
    ensures forall c :: Answers(moves[..m], c, n) <==> Answers(moves, c, n)
  {
    forall c: nat | c < n ensures Answers(moves[..m], c, n) <==> Answers(moves, c, n) {
      BalancedWithin(moves, m, c + 1, n);
    }
  }

  lemma {:induction false} DepthWithin(moves: seq<Move>, m: nat, n: nat)
    requires n <= m <= |moves|
    ensures Depth(moves[..m], n) == Depth(moves, n)
  {
    if n > 0 {
      DepthWithin(moves, m, n - 1);
      AnswersWithin(moves, m, n - 1);
      assert Answered(moves[..m], n - 1) <==> Answered(moves, n - 1);
    }
  }

  lemma {:induction false} OpenCallsWithin(moves: seq<Move>, m: nat, n: nat)
    requires n <= m <= |moves|
    ensures OpenCalls(moves[..m], n) == OpenCalls(moves, n)
  {
    if n > 0 {
      OpenCallsWithin(moves, m, n - 1);
    }
  }

  // ---------- matched walks ----------

  predicate ValidEdge(g: Graph, node: nat, id: nat)
  {
    node < |g| && g[node].edgeOffset <= id < g[node].edgeOffset + |g[node].edges|
  }

  function EdgeAt(g: Graph, node: nat, id: nat): Edge
    requires ValidEdge(g, node, id)
  {
    g[node].edges[id - g[node].edgeOffset]
  }

  predicate ValidEdges(g: Graph, nodes: seq<nat>, es: seq<nat>)
  {
    |nodes| == |es| + 1 && forall i | 0 <= i < |es| :: ValidEdge(g, nodes[i], es[i])
  }

  function Moves(g: Graph, nodes: seq<nat>, es: seq<nat>): (moves: seq<Move>)
    requires ValidEdges(g, nodes, es)
    ensures |moves| == |es|
  {
    seq(|es|, i requires 0 <= i < |es| => MoveOf(EdgeAt(g, nodes[i], es[i]).kind))
  }

  /** A step leads to the destination of its edge; a return that answers a call leads to
      the continuation of that call instead. */
  ghost predicate StepFits(g: Graph, nodes: seq<nat>, moves: seq<Move>, i: nat, e: Edge)
    requires i < |moves| && i + 1 < |nodes|
  {
    if moves[i] == Closes && Answered(moves, i) then
      forall c: nat | Answers(moves, c, i) :: nodes[i + 1] == Continuation(EdgesOf(g, nodes[c]))
    else nodes[i + 1] == e.dst
  }

  ghost function Context(g: Graph, nodes: seq<nat>, moves: seq<Move>, i: nat): nat
    requires i <= |moves| && i < |nodes|
  {
    var depth := Depth(moves, i);
    ContextKey(g, if depth >= 0 then depth else 0, nodes[i])
  }

  /** A walk along edges whose returns match its calls, that stops at the goal, makes no
      call at the depth limit, and is in no context twice. */
  ghost predicate Matched(g: Graph, functionDepth: nat, start: nat, goal: nat, nodes: seq<nat>, es: seq<nat>)
  {
    && ValidEdges(g, nodes, es) && nodes[0] == start
    && var moves := Moves(g, nodes, es);
    && Fitting(g, nodes, es, moves) && InGraph(g, goal, nodes)
    && Shallow(functionDepth, moves) && NoContextTwice(g, nodes, moves)
  }

  ghost predicate Fitting(g: Graph, nodes: seq<nat>, es: seq<nat>, moves: seq<Move>)
    requires ValidEdges(g, nodes, es) && |moves| == |es|
  {
    forall i | 0 <= i < |es| :: StepFits(g, nodes, moves, i, EdgeAt(g, nodes[i], es[i]))
  }

  predicate InGraph(g: Graph, goal: nat, nodes: seq<nat>)
  {
    && (forall i | 0 <= i < |nodes| - 1 :: nodes[i] != goal)
    && (forall i | 0 < i < |nodes| :: nodes[i] != INVALID_NODE && nodes[i] < |g|)
  }

  ghost predicate Shallow(functionDepth: nat, moves: seq<Move>)
  {
    forall i | 0 <= i < |moves| && moves[i] in {Opens, Deepens} :: Depth(moves, i) < functionDepth
  }

  ghost predicate NoContextTwice(g: Graph, nodes: seq<nat>, moves: seq<Move>)
    requires |nodes| == |moves| + 1
  {
    forall i, j | 0 <= i < j < |nodes| :: Context(g, nodes, moves, i) != Context(g, nodes, moves, j)
  }

  // ---------- what the search keeps of a walk ----------

  function Continuations(g: Graph, nodes: seq<nat>, calls: seq<nat>): seq<nat>
    requires forall i | 0 <= i < |calls| :: calls[i] < |nodes|
  {
    seq(|calls|, i requires 0 <= i < |calls| => Continuation(EdgesOf(g, nodes[calls[i]])))
  }

  /** The item's record is the walk, its stack the continuations of the open calls, its
      history the contexts. */
  ghost predicate Tracks(g: Graph, item: Item, nodes: seq<nat>, es: seq<nat>)
    requires ValidEdges(g, nodes, es)
  {
    var moves := Moves(g, nodes, es);
    && item.path.nodes == nodes && item.path.edges == es && item.node == nodes[|es|]
    && item.returnStack == Continuations(g, nodes, OpenCalls(moves, |es|))
    && item.depth == Depth(moves, |es|) >= |OpenCalls(moves, |es|)|
    && |item.history| == |nodes| && forall i | 0 <= i < |nodes| :: item.history[i] == Context(g, nodes, moves, i)
  }

  // ---------- one step further ----------

  /** Where an edge leads after a walk. */
  function Destination(g: Graph, nodes: seq<nat>, moves: seq<Move>, e: Edge): nat
    requires |nodes| == |moves| + 1
  {
    var open := OpenCalls(moves, |moves|);
    if e.kind == ReturnEdge && open != [] then Continuation(EdgesOf(g, nodes[open[|open| - 1]])) else e.dst
  }

  function DepthAfter(moves: seq<Move>, depth: int, e: Edge): int
  {
    match MoveOf(e.kind)
    case Opens | Deepens => depth + 1
    case Closes => if OpenCalls(moves, |moves|) == [] then depth else depth - 1
    case _ => depth
  }

  ghost predicate Enters(g: Graph, functionDepth: nat, item: Item, moves: seq<Move>, e: Edge, d: nat)
  {
    && (MoveOf(e.kind) in {Opens, Deepens} ==> item.depth < functionDepth)
    && d != INVALID_NODE && d < |g|
    && DepthAfter(moves, item.depth, e) >= 0 && ContextKey(g, DepthAfter(moves, item.depth, e), d) !in item.history
  }

  lemma MovesExtend(g: Graph, nodes: seq<nat>, es: seq<nat>, d: nat, id: nat)
    requires ValidEdges(g, nodes, es) && ValidEdge(g, nodes[|es|], id)
    ensures ValidEdges(g, nodes + [d], es + [id])
    ensures Moves(g, nodes + [d], es + [id]) == Moves(g, nodes, es) + [MoveOf(EdgeAt(g, nodes[|es|], id).kind)]
  {
    var nodes', es' := nodes + [d], es + [id];
    forall i | 0 <= i < |es'| ensures ValidEdge(g, nodes'[i], es'[i]) && nodes'[i] == nodes[i] {
    }
    var moves, moves' := Moves(g, nodes, es), Moves(g, nodes', es');
    forall i | 0 <= i < |es| ensures moves'[i] == moves[i] {
      assert nodes'[i] == nodes[i] && es'[i] == es[i];
    }
  }

  /** What a step does to the open calls and the depth. */
  lemma StepCounts(moves: seq<Move>, move: Move)
    ensures
      var n, all, open := |moves|, moves + [move], OpenCalls(moves, |moves|);
      && OpenCalls(all, n + 1) ==
         (if move == Opens then open + [n] else if move == Closes && open != [] then open[..|open| - 1] else open)
      && Depth(all, n + 1) == Depth(moves, n) +
         (if move in {Opens, Deepens} then 1 else if move == Closes && open != [] then -1 else 0)
  {
    var n, all := |moves|, moves + [move];
    assert all[..n] == moves == moves[..n];
    OpenCallsWithin(all, n, n);
    DepthWithin(all, n, n);
    AnswersWithin(all, n, n);
    AnsweredIfOpen(moves, n);
    assert Answered(all, n) <==> Answered(moves, n);
  }

  lemma ContextsStay(g: Graph, nodes: seq<nat>, moves: seq<Move>, d: nat, move: Move)
    requires |nodes| == |moves| + 1
    ensures forall i | 0 <= i < |nodes| :: Context(g, nodes + [d], moves + [move], i) == Context(g, nodes, moves, i)
  {
    var n, all := |moves|, moves + [move];
    assert all[..n] == moves;
    forall i | 0 <= i < |nodes| ensures Context(g, nodes + [d], all, i) == Context(g, nodes, moves, i) {
      DepthWithin(all, n, i);
    }
  }

  /** The stack of continuations after a step. */
  function StackAfter(g: Graph, node: nat, stack: seq<nat>, e: Edge): seq<nat>
  {
    match MoveOf(e.kind)
    case Opens => stack + [Continuation(EdgesOf(g, node))]
    case Closes => if stack == [] then [] else stack[..|stack| - 1]
    case _ => stack
  }

  lemma StackIs(g: Graph, nodes: seq<nat>, moves: seq<Move>, e: Edge, d: nat)
    requires |nodes| == |moves| + 1
    ensures Continuations(g, nodes + [d], OpenCalls(moves + [MoveOf(e.kind)], |moves| + 1))
            == StackAfter(g, nodes[|moves|], Continuations(g, nodes, OpenCalls(moves, |moves|)), e)
  {
    hide OpenCalls, Depth, Continuation;
    StepCounts(moves, MoveOf(e.kind));
    var open := OpenCalls(moves, |moves|);
    SameContinuations(g, nodes, open, d);
    match MoveOf(e.kind)
    case Opens => assert (nodes + [d])[|moves|] == nodes[|moves|];
    case Closes => SameContinuations(g, nodes, if open == [] then [] else open[..|open| - 1], d);
    case _ =>
  }

  lemma SameContinuations(g: Graph, nodes: seq<nat>, calls: seq<nat>, d: nat)
    requires forall i | 0 <= i < |calls| :: calls[i] < |nodes|
    ensures Continuations(g, nodes + [d], calls) == Continuations(g, nodes, calls)
  {
  }

  lemma FollowIsEnter(g: Graph, functionDepth: nat, item: Item, nodes: seq<nat>, es: seq<nat>, id: nat)
    requires ValidEdges(g, nodes, es) && Tracks(g, item, nodes, es) && ValidEdge(g, nodes[|es|], id)
    ensures
      var moves, e := Moves(g, nodes, es), EdgeAt(g, nodes[|es|], id);
      && DepthAfter(moves, item.depth, e) >= 0
      && Follow(g, functionDepth, item, id - g[item.node].edgeOffset) ==
         if MoveOf(e.kind) in {Opens, Deepens} && item.depth >= functionDepth then None
         else Enter(g, item, Destination(g, nodes, moves, e), StackAfter(g, item.node, item.returnStack, e),
                    DepthAfter(moves, item.depth, e), id)
  {
    hide Context, Depth, OpenCalls, Enter, Continuation;
    assert item.returnStack == [] <==> OpenCalls(Moves(g, nodes, es), |es|) == [];
  }

  lemma DepthIs(g: Graph, item: Item, nodes: seq<nat>, es: seq<nat>, e: Edge)
    requires ValidEdges(g, nodes, es) && Tracks(g, item, nodes, es)
    ensures
      var moves := Moves(g, nodes, es);
      var all := moves + [MoveOf(e.kind)];
      DepthAfter(moves, item.depth, e) == Depth(all, |all|) >= |OpenCalls(all, |all|)|
  {
    hide Context, Continuations;
    StepCounts(Moves(g, nodes, es), MoveOf(e.kind));
  }

  lemma HistoryIs(g: Graph, item: Item, nodes: seq<nat>, es: seq<nat>, e: Edge, d: nat)
    requires ValidEdges(g, nodes, es) && Tracks(g, item, nodes, es)
    ensures
      var moves := Moves(g, nodes, es);
      var all := moves + [MoveOf(e.kind)];
      && Depth(all, |all|) >= 0
      && forall i | 0 <= i <= |nodes| ::
           (item.history + [ContextKey(g, Depth(all, |all|), d)])[i] == Context(g, nodes + [d], all, i)
  {
    var moves := Moves(g, nodes, es);
    var all := moves + [MoveOf(e.kind)];
    DepthIs(g, item, nodes, es, e);
    ContextsStay(g, nodes, moves, d, MoveOf(e.kind));
    hide Depth, OpenCalls, Continuations, Moves, ContextKey;
    assert Context(g, nodes + [d], all, |nodes|) == ContextKey(g, Depth(all, |all|), d);
    hide Context;
  }

  lemma EnterTracks(g: Graph, item: Item, nodes: seq<nat>, es: seq<nat>, id: nat)
    requires ValidEdges(g, nodes, es) && Tracks(g, item, nodes, es) && ValidEdge(g, nodes[|es|], id)
    requires DepthAfter(Moves(g, nodes, es), item.depth, EdgeAt(g, nodes[|es|], id)) >= 0
    ensures
      var moves, e := Moves(g, nodes, es), EdgeAt(g, nodes[|es|], id);
      var d := Destination(g, nodes, moves, e);
      var next := Enter(g, item, d, StackAfter(g, item.node, item.returnStack, e), DepthAfter(moves, item.depth, e), id);
      && ValidEdges(g, nodes + [d], es + [id])
      && (next.Some? ==> Tracks(g, next.value, nodes + [d], es + [id]))
  {
    hide Depth, OpenCalls, Destination, StackAfter, DepthAfter, Context, ContextKey, Continuations, Moves;
    var moves, e := Moves(g, nodes, es), EdgeAt(g, nodes[|es|], id);
    var d := Destination(g, nodes, moves, e);
    MovesExtend(g, nodes, es, d, id);
    DepthIs(g, item, nodes, es, e);
    HistoryIs(g, item, nodes, es, e, d);
    StackIs(g, nodes, moves, e, d);
  }

  /** The search follows an edge exactly if the walk may be continued by it, and then
      keeps track of the longer walk. */
  lemma FollowTracks(g: Graph, functionDepth: nat, item: Item, nodes: seq<nat>, es: seq<nat>, id: nat)
    requires ValidEdges(g, nodes, es) && Tracks(g, item, nodes, es) && ValidEdge(g, nodes[|es|], id)
    ensures
      var moves, e := Moves(g, nodes, es), EdgeAt(g, nodes[|es|], id);
      var d := Destination(g, nodes, moves, e);
      var next := Follow(g, functionDepth, item, id - g[item.node].edgeOffset);
      && ValidEdges(g, nodes + [d], es + [id])
      && (next.Some? <==> Enters(g, functionDepth, item, moves, e, d))
      && (next.Some? ==> Tracks(g, next.value, nodes + [d], es + [id]))
  {
    assert item.node == nodes[|es|];
    hide Tracks, Destination, StackAfter, DepthAfter, Moves, Follow, ContextKey;
    FollowIsEnter(g, functionDepth, item, nodes, es, id);
    EnterTracks(g, item, nodes, es, id);
  }

  // ---------- the search's walks are the matched ones ----------

  /** A destination fits if it is where the edge leads. */
  lemma FitsIsDestination(g: Graph, nodes: seq<nat>, moves: seq<Move>, e: Edge, d: nat)
    requires |nodes| == |moves| + 1
    ensures StepFits(g, nodes + [d], moves + [MoveOf(e.kind)], |moves|, e) <==> d == Destination(g, nodes, moves, e)
  {
    var n, all := |moves|, moves + [MoveOf(e.kind)];
    assert all[..n] == moves == moves[..n];
    AnswersWithin(all, n, n);
    AnsweredIfOpen(moves, n);
    var open := OpenCalls(moves, n);
    if open != [] {
      InnermostIsAnswered(moves, n);
      var c := open[|open| - 1];
      assert Answers(all, c, n);
      forall b: nat | Answers(all, b, n) ensures b == c {
        AnswersInnermost(moves, b, n);
      }
    }
  }

  lemma StepFitsStays(g: Graph, nodes: seq<nat>, moves: seq<Move>, d: nat, move: Move, i: nat, e: Edge)
    requires |nodes| == |moves| + 1 && i < |moves|
    ensures StepFits(g, nodes + [d], moves + [move], i, e) <==> StepFits(g, nodes, moves, i, e)
  {
    var n, all := |moves|, moves + [move];
    assert all[..n] == moves;
    AnswersWithin(all, n, i);
    assert Answered(all, i) <==> Answered(moves, i);
    assert (nodes + [d])[i + 1] == nodes[i + 1];
  }

  lemma FittingExtends(g: Graph, nodes: seq<nat>, es: seq<nat>, d: nat, id: nat)
    requires ValidEdges(g, nodes, es) && ValidEdge(g, nodes[|es|], id) && ValidEdges(g, nodes + [d], es + [id])
    ensures
      var moves, e := Moves(g, nodes, es), EdgeAt(g, nodes[|es|], id);
      Fitting(g, nodes + [d], es + [id], moves + [MoveOf(e.kind)]) <==>
        Fitting(g, nodes, es, moves) && d == Destination(g, nodes, moves, e)
  {
    hide StepFits, Moves, Destination;
    var moves, e := Moves(g, nodes, es), EdgeAt(g, nodes[|es|], id);
    var nodes', es', moves' := nodes + [d], es + [id], moves + [MoveOf(e.kind)];
    FitsIsDestination(g, nodes, moves, e, d);
    assert nodes'[|es|] == nodes[|es|] && es'[|es|] == id;
    forall i | 0 <= i < |es| ensures
        StepFits(g, nodes', moves', i, EdgeAt(g, nodes'[i], es'[i])) <==>
        StepFits(g, nodes, moves, i, EdgeAt(g, nodes[i], es[i])) {
      assert nodes'[i] == nodes[i] && es'[i] == es[i];
      StepFitsStays(g, nodes, moves, d, MoveOf(e.kind), i, EdgeAt(g, nodes[i], es[i]));
    }
  }

  lemma ShallowExtends(functionDepth: nat, moves: seq<Move>, move: Move)
    ensures Shallow(functionDepth, moves + [move]) <==>
      Shallow(functionDepth, moves) && (move in {Opens, Deepens} ==> Depth(moves, |moves|) < functionDepth)
  {
    hide Depth;
    var all := moves + [move];
    assert all[..|moves|] == moves;
    forall i | 0 <= i <= |moves| ensures Depth(all, i) == Depth(moves, i) {
      DepthWithin(all, |moves|, i);
    }
    assert all[|moves|] == move;
    assert forall i | 0 <= i < |moves| :: all[i] == moves[i];
  }

  lemma ContextsExtend(g: Graph, nodes: seq<nat>, moves: seq<Move>, d: nat, move: Move)
    requires |nodes| == |moves| + 1
    ensures NoContextTwice(g, nodes + [d], moves + [move]) <==>
      && NoContextTwice(g, nodes, moves)
      && forall i | 0 <= i < |nodes| :: Context(g, nodes, moves, i) != Context(g, nodes + [d], moves + [move], |nodes|)
  {
    hide Context;
    ContextsStay(g, nodes, moves, d, move);
    assert |nodes + [d]| == |nodes| + 1;
  }

  /** The new context is one the item does not remember. */
  lemma NewContext(g: Graph, item: Item, nodes: seq<nat>, es: seq<nat>, d: nat, id: nat)
    requires ValidEdges(g, nodes, es) && Tracks(g, item, nodes, es) && ValidEdge(g, nodes[|es|], id)
    ensures
      var moves, e := Moves(g, nodes, es), EdgeAt(g, nodes[|es|], id);
      var depth := DepthAfter(moves, item.depth, e);
      && depth >= 0
      && ((ContextKey(g, depth, d) !in item.history) <==>
          forall i | 0 <= i < |nodes| ::
            Context(g, nodes, moves, i) != Context(g, nodes + [d], moves + [MoveOf(e.kind)], |nodes|))
  {
    var moves, e := Moves(g, nodes, es), EdgeAt(g, nodes[|es|], id);
    DepthIs(g, item, nodes, es, e);
    HistoryIs(g, item, nodes, es, e, d);
    ContextsStay(g, nodes, moves, d, MoveOf(e.kind));
    hide Depth, OpenCalls, Moves, ContextKey, Context, DepthAfter, Continuations;
    var all := moves + [MoveOf(e.kind)];
    var more := item.history + [ContextKey(g, Depth(all, |all|), d)];
    assert more[|nodes|] == Context(g, nodes + [d], all, |nodes|);
    assert forall i | 0 <= i < |nodes| :: item.history[i] == Context(g, nodes, moves, i);
  }

  /** A longer walk is matched if and only if the shorter one is and the search may go on. */
  lemma MatchedExtends(g: Graph, functionDepth: nat, start: nat, goal: nat, item: Item, nodes: seq<nat>, es: seq<nat>,
                       d: nat, id: nat)
    requires ValidEdges(g, nodes, es) && Tracks(g, item, nodes, es) && ValidEdge(g, nodes[|es|], id)
    ensures
      var moves, e := Moves(g, nodes, es), EdgeAt(g, nodes[|es|], id);
      Matched(g, functionDepth, start, goal, nodes + [d], es + [id]) <==>
        && Matched(g, functionDepth, start, goal, nodes, es)
        && nodes[|es|] != goal && d == Destination(g, nodes, moves, e)
        && Enters(g, functionDepth, item, moves, e, d)
  {
    var moves, e := Moves(g, nodes, es), EdgeAt(g, nodes[|es|], id);
    assert item.depth == Depth(moves, |moves|);
    hide Tracks, Moves, Fitting, Shallow, NoContextTwice, Destination, DepthAfter, Context, ContextKey, Depth;
    MovesExtend(g, nodes, es, d, id);
    FittingExtends(g, nodes, es, d, id);
    ShallowExtends(functionDepth, moves, MoveOf(e.kind));
    ContextsExtend(g, nodes, moves, d, MoveOf(e.kind));
    NewContext(g, item, nodes, es, d, id);
    InGraphExtends(g, goal, nodes, d);
    hide InGraph, MoveOf;
  }

  lemma InGraphExtends(g: Graph, goal: nat, nodes: seq<nat>, d: nat)
    requires nodes != []
    ensures InGraph(g, goal, nodes + [d]) <==>
      InGraph(g, goal, nodes) && nodes[|nodes| - 1] != goal && d != INVALID_NODE && d < |g|
  {
    var all := nodes + [d];
    assert forall i | 0 <= i < |nodes| :: all[i] == nodes[i];
    assert all[|nodes|] == d;
  }

  lemma StartTracks(g: Graph, functionDepth: nat, start: nat, goal: nat)
    requires start < |g| <= INVALID_NODE
    ensures ValidEdges(g, [start], []) && Tracks(g, Initial(start), [start], [])
    ensures Matched(g, functionDepth, start, goal, [start], [])
  {
  }

  /** The nodes that the search records for a sequence of edges it can follow. */
  function NodesOf(g: Graph, functionDepth: nat, start: nat, goal: nat, es: seq<nat>): seq<nat>
    requires Walk(g, functionDepth, start, goal, es).Some?
  {
    Walk(g, functionDepth, start, goal, es).value.path.nodes
  }

  /** The walks of the search are exactly the matched walks. */
  lemma {:induction false} WalksAreMatched(g: Graph, functionDepth: nat, start: nat, goal: nat, es: seq<nat>, nodes: seq<nat>)
    requires start < |g| <= INVALID_NODE
    ensures Matched(g, functionDepth, start, goal, nodes, es) <==>
      Walk(g, functionDepth, start, goal, es).Some? && nodes == NodesOf(g, functionDepth, start, goal, es)
    ensures Walk(g, functionDepth, start, goal, es).Some? ==>
      var seen := NodesOf(g, functionDepth, start, goal, es);
      ValidEdges(g, seen, es) && Tracks(g, Walk(g, functionDepth, start, goal, es).value, seen, es)
    decreases |es|
  {
    hide Tracks, Moves, Fitting, Shallow, NoContextTwice, InGraph, Follow, Enters, Destination;
    if es == [] {
      StartTracks(g, functionDepth, start, goal);
      assert Matched(g, functionDepth, start, goal, nodes, []) ==> nodes == [start];
    } else {
      var n := |es| - 1;
      var front, id := es[..n], es[n];
      assert es == front + [id];
      var before, d := if nodes == [] then [] else nodes[..|nodes| - 1], if nodes == [] then 0 else nodes[|nodes| - 1];
      assert nodes != [] ==> nodes == before + [d];
      WalksAreMatched(g, functionDepth, start, goal, front, before);
      MatchedFront(g, functionDepth, start, goal, nodes, es);
      var walk := Walk(g, functionDepth, start, goal, front);
      if walk.Some? {
        var item, seen := walk.value, walk.value.path.nodes;
        WalksAreMatched(g, functionDepth, start, goal, front, seen);
        TracksNode(g, item, seen, front);
        if ValidEdge(g, item.node, id) {
          FollowTracks(g, functionDepth, item, seen, front, id);
          MatchedExtends(g, functionDepth, start, goal, item, seen, front, d, id);
          FollowRecords(g, functionDepth, item, seen, front, id);
          assert seen + [d] == nodes <==> nodes != [] && seen == before;
        }
      }
    }
  }

  lemma TracksNode(g: Graph, item: Item, nodes: seq<nat>, es: seq<nat>)
    requires ValidEdges(g, nodes, es) && Tracks(g, item, nodes, es)
    ensures item.node == nodes[|es|]
  {
  }

  /** Without its last step a matched walk is matched, and its last edge leaves from there. */
  lemma MatchedFront(g: Graph, functionDepth: nat, start: nat, goal: nat, nodes: seq<nat>, es: seq<nat>)
    requires es != []
    ensures Matched(g, functionDepth, start, goal, nodes, es) ==>
      && |nodes| == |es| + 1 && ValidEdge(g, nodes[|es| - 1], es[|es| - 1])
      && Matched(g, functionDepth, start, goal, nodes[..|es|], es[..|es| - 1])
  {
    if Matched(g, functionDepth, start, goal, nodes, es) {
      var n := |es| - 1;
      var before, front, d, id := nodes[..n + 1], es[..n], nodes[n + 1], es[n];
      assert nodes == before + [d] && es == front + [id];
      assert ValidEdges(g, before, front);
      var moves, e := Moves(g, before, front), EdgeAt(g, before[n], id);
      hide StepFits, Moves, Context, Depth, Destination;
      MovesExtend(g, before, front, d, id);
      FittingExtends(g, before, front, d, id);
      ShallowExtends(functionDepth, moves, MoveOf(e.kind));
      ContextsExtend(g, before, moves, d, MoveOf(e.kind));
      InGraphExtends(g, goal, before, d);
    }
  }

  lemma FollowRecords(g: Graph, functionDepth: nat, item: Item, nodes: seq<nat>, es: seq<nat>, id: nat)
    requires ValidEdges(g, nodes, es) && Tracks(g, item, nodes, es) && ValidEdge(g, nodes[|es|], id)
    ensures
      var next := Follow(g, functionDepth, item, id - g[item.node].edgeOffset);
      next.Some? ==> next.value.path.nodes == nodes + [Destination(g, nodes, Moves(g, nodes, es), EdgeAt(g, nodes[|es|], id))]
  {
    FollowTracks(g, functionDepth, item, nodes, es, id);
    hide Follow, Destination, Moves, Context;
  }
}
