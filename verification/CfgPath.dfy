/** The path command: breadth-first search of the control-flow graph with an array
    of parents, from which a shortest path is read back. */
module CfgPath {
  import opened Basics

  type Node = nat

  /** The edges of every node; an edge may lead out of the graph. */
  datatype Graph = Graph(edges: seq<seq<Option<Node>>>)
  {
    predicate Edge(u: Node, v: Node)
    {
      u < |edges| && v < |edges| && Some(v) in edges[u]
    }

    /** The nodes follow one another along edges from the first to the last given. */
    ghost predicate Path(start: Node, goal: Node, path: seq<Node>)
    {
      && path != [] && path[0] == start && path[|path| - 1] == goal
      && forall i | 0 <= i < |path| - 1 :: Edge(path[i], path[i + 1])
    }

    ghost predicate Connected(start: Node, goal: Node)
    {
      exists path :: Path(start, goal, path)
    }
  }

  datatype Reason = StateBudget | Canceled | UnreachableOrTime

  datatype Outcome = Found(path: seq<Node>) | Lost(visited: nat, reason: Reason)

  // ---------- invariants ----------

  /** The discovered nodes form a tree of parents rooted at the start; the depth of a
      node is the number of edges up to it. */
  ghost predicate Rooted(g: Graph, start: Node, parent: seq<Option<Node>>, depth: map<Node, nat>)
  {
    && |parent| == |g.edges|
    && (forall v | 0 <= v < |parent| :: parent[v].Some? <==> v in depth)
    && (forall v <- depth :: v < |parent|)
    && start in depth && depth[start] == 0 && parent[start] == Some(start)
    && (forall v <- depth ::
      v != start ==> parent[v].value in depth && depth[v] == depth[parent[v].value] + 1 && g.Edge(parent[v].value, v))
  }

  ghost predicate Ordered(depth: map<Node, nat>, queue: seq<Node>)
  {
    && (forall v <- queue :: v in depth)
    && (forall i, j | 0 <= i < j < |queue| :: queue[i] != queue[j] && depth[queue[i]] <= depth[queue[j]])
  }

  /** Discovered nodes are done or wait in the queue, which is ordered by depth and
      spans at most two depths, none below those that are done. */
  ghost predicate Layered(depth: map<Node, nat>, queue: seq<Node>, done: set<Node>)
  {
    && (forall v :: v in depth <==> v in done || v in queue)
    && (forall v <- queue :: v !in done)
    && Ordered(depth, queue)
    && (forall v <- queue :: depth[v] <= depth[queue[0]] + 1)
    && (queue != [] ==> forall v <- done :: depth[v] <= depth[queue[0]])
  }

  /** The successors of done nodes are discovered at no more than one edge further. */
  ghost predicate Expanded(g: Graph, depth: map<Node, nat>, done: set<Node>)
  {
    forall u, v | u in done && g.Edge(u, v) :: u in depth && v in depth && depth[v] <= depth[u] + 1
  }

  // ---------- what the invariants give ----------

  /** A path either stays within depths no larger than its length, or is longer than
      the depth of the queue's front. */
  lemma {:induction false} PathCovered(g: Graph, start: Node, parent: seq<Option<Node>>, depth: map<Node, nat>,
                                       queue: seq<Node>, done: set<Node>, v: Node, path: seq<Node>)
    requires Rooted(g, start, parent, depth) && Layered(depth, queue, done) && Expanded(g, depth, done)
    requires g.Path(start, v, path)
    ensures (v in depth && depth[v] < |path|) || (queue != [] && depth[queue[0]] + 1 < |path|)
    decreases |path|
  {
    assert start in depth && depth[start] == 0;
    hide Rooted;
    if |path| > 1 {
      var front, u := path[..|path| - 1], path[|path| - 2];
      PathCovered(g, start, parent, depth, queue, done, u, front);
      assert g.Edge(u, v);
      if u in depth && depth[u] < |front| && u !in done {
        var i :| 0 <= i < |queue| && queue[i] == u;
        assert depth[queue[0]] <= depth[queue[i]];
      }
    }
  }

  /** With an empty queue everything connected is discovered. */
  lemma EmptyQueueIsAll(g: Graph, start: Node, parent: seq<Option<Node>>, depth: map<Node, nat>, done: set<Node>,
                        goal: Node)
    requires Rooted(g, start, parent, depth) && Layered(depth, [], done) && Expanded(g, depth, done)
    requires g.Connected(start, goal)
    ensures goal in depth
  {
    var path :| g.Path(start, goal, path);
    PathCovered(g, start, parent, depth, [], done, goal, path);
  }

  /** A discovered node is nearer than any path, unless it is below the queue's front layers. */
  lemma DiscoveredIsShortest(g: Graph, start: Node, parent: seq<Option<Node>>, depth: map<Node, nat>,
                             queue: seq<Node>, done: set<Node>, goal: Node, path: seq<Node>)
    requires Rooted(g, start, parent, depth) && Layered(depth, queue, done) && Expanded(g, depth, done)
    requires goal in depth && g.Path(start, goal, path)
    ensures depth[goal] < |path|
  {
    PathCovered(g, start, parent, depth, queue, done, goal, path);
    if goal !in done {
      var i :| 0 <= i < |queue| && queue[i] == goal;
      assert depth[queue[i]] <= depth[queue[0]] + 1;
    } else if queue != [] {
      assert depth[goal] <= depth[queue[0]];
    }
  }

  lemma WithinGraph(done: set<Node>, n: nat)
    requires forall v <- done :: v < n
    ensures |done| <= n
    decreases n
  {
    if n > 0 {
      WithinGraph(done - {n - 1}, n - 1);
    } else if v :| v in done {
      assert false;
    }
  }

  // ---------- the search ----------

  /** The nodes added while one node is expanded, after the first edges were seen. */
  ghost predicate Expanding(g: Graph, depth: map<Node, nat>, queue: seq<Node>, done: set<Node>, node: Node, edges: nat)
    requires node < |g.edges| && edges <= |g.edges[node]|
  {
    && node in depth && node !in done && node !in queue
    && (forall v :: v in depth <==> v in done || v in queue || v == node)
    && (forall v <- queue :: v !in done)
    && Ordered(depth, queue)
    && (forall v <- queue :: depth[node] <= depth[v] <= depth[node] + 1)
    && (forall v <- done :: depth[v] <= depth[node])
    && (forall i | 0 <= i < edges ::
      g.edges[node][i].Some? && g.edges[node][i].value < |g.edges| ==> g.edges[node][i].value in depth)
  }

  lemma Popped(g: Graph, depth: map<Node, nat>, queue: seq<Node>, done: set<Node>)
    requires Layered(depth, queue, done) && queue != [] && queue[0] < |g.edges|
    ensures Expanding(g, depth, queue[1..], done, queue[0], 0)
  {
    var node, rest := queue[0], queue[1..];
    PopOrdered(depth, queue);
    hide Ordered;
    assert queue == [node] + rest;
    assert forall v :: v in queue <==> v == node || v in rest;
  }

  lemma PopOrdered(depth: map<Node, nat>, queue: seq<Node>)
    requires Ordered(depth, queue) && queue != []
    ensures Ordered(depth, queue[1..])
    ensures forall v <- queue[1..] :: v != queue[0] && depth[queue[0]] <= depth[v]
  {
    var rest := queue[1..];
    assert forall i | 0 <= i < |rest| :: rest[i] == queue[i + 1];
  }

  lemma PushOrdered(depth: map<Node, nat>, queue: seq<Node>, v: Node, d: nat)
    requires Ordered(depth, queue) && v !in depth
    requires forall u <- queue :: depth[u] <= d
    ensures Ordered(depth[v := d], queue + [v])
  {
    var depth', queue' := depth[v := d], queue + [v];
    forall i, j | 0 <= i < j < |queue'| ensures queue'[i] != queue'[j] && depth'[queue'[i]] <= depth'[queue'[j]] {
      assert queue'[i] == queue[i] && queue[i] in queue;
    }
  }

  lemma Finished(g: Graph, depth: map<Node, nat>, queue: seq<Node>, done: set<Node>, node: Node)
    requires node < |g.edges| && Expanding(g, depth, queue, done, node, |g.edges[node]|)
    requires Expanded(g, depth, done)
    ensures node !in done && Layered(depth, queue, done + {node}) && Expanded(g, depth, done + {node})
  {
    forall v | g.Edge(node, v) ensures v in depth && depth[v] <= depth[node] + 1 {
      var i :| 0 <= i < |g.edges[node]| && g.edges[node][i] == Some(v);
    }
  }

  lemma RootedGrows(g: Graph, start: Node, parent: seq<Option<Node>>, depth: map<Node, nat>, node: Node, v: Node)
    requires Rooted(g, start, parent, depth) && node in depth && g.Edge(node, v) && v !in depth
    ensures Rooted(g, start, parent[v := Some(node)], depth[v := depth[node] + 1])
  {
    var parent', depth' := parent[v := Some(node)], depth[v := depth[node] + 1];
    forall u <- depth' | u != start
      ensures parent'[u].Some? && parent'[u].value in depth'
      ensures depth'[u] == depth'[parent'[u].value] + 1 && g.Edge(parent'[u].value, u)
    {
      if u != v {
        assert parent'[u] == parent[u];
      }
    }
  }

  lemma ExpandedGrows(g: Graph, depth: map<Node, nat>, done: set<Node>, v: Node, d: nat)
    requires Expanded(g, depth, done) && v !in depth
    ensures Expanded(g, depth[v := d], done)
  {
  }

  lemma ExpandingGrows(g: Graph, depth: map<Node, nat>, queue: seq<Node>, done: set<Node>, node: Node, i: nat, v: Node)
    requires node < |g.edges| && i < |g.edges[node]| && g.edges[node][i] == Some(v)
    requires Expanding(g, depth, queue, done, node, i) && v !in depth
    ensures Expanding(g, depth[v := depth[node] + 1], queue + [v], done, node, i + 1)
  {
    assert forall u <- queue :: u in depth;
    hide Ordered;
    PushOrdered(depth, queue, v, depth[node] + 1);
  }

  lemma ParentsGiven(g: Graph, start: Node, parent: seq<Option<Node>>, depth: map<Node, nat>)
    requires Rooted(g, start, parent, depth)
    ensures forall v | 0 <= v < |parent| :: parent[v].Some? <==> v in depth
  {
  }

  lemma NodeWaits(g: Graph, depth: map<Node, nat>, queue: seq<Node>, done: set<Node>, node: Node, edges: nat)
    requires node < |g.edges| && edges <= |g.edges[node]| && Expanding(g, depth, queue, done, node, edges)
    ensures node in depth
  {
  }

  lemma NothingNew(g: Graph, depth: map<Node, nat>, queue: seq<Node>, done: set<Node>, node: Node, i: nat)
    requires node < |g.edges| && i < |g.edges[node]| && Expanding(g, depth, queue, done, node, i)
    requires
      var next := g.edges[node][i];
      next.None? || next.value >= |g.edges| || next.value in depth
    ensures Expanding(g, depth, queue, done, node, i + 1)
  {
  }

  /** Gives every new successor of the node its parent and puts it in the queue. */
  method Expand(g: Graph, start: Node, parent: array<Option<Node>>, node: Node, queue0: seq<Node>,
                ghost depth0: map<Node, nat>, ghost done: set<Node>)
    returns (queue: seq<Node>, ghost depth: map<Node, nat>)
    requires node < |g.edges| && parent.Length == |g.edges|
    requires Rooted(g, start, parent[..], depth0) && Expanded(g, depth0, done)
    requires Expanding(g, depth0, queue0, done, node, 0)
    modifies parent
    ensures Rooted(g, start, parent[..], depth) && Expanded(g, depth, done)
    ensures Expanding(g, depth, queue, done, node, |g.edges[node]|)
  {
    hide Rooted, Expanded, Expanding;
    queue, depth := queue0, depth0;
    for i := 0 to |g.edges[node]|
      invariant Rooted(g, start, parent[..], depth) && Expanded(g, depth, done)
      invariant Expanding(g, depth, queue, done, node, i)
    {
      var next := g.edges[node][i];
      ParentsGiven(g, start, parent[..], depth);
      NodeWaits(g, depth, queue, done, node, i);
      if next.None? || next.value >= parent.Length || parent[next.value].Some? {
        NothingNew(g, depth, queue, done, node, i);
      } else {
        assert g.Edge(node, next.value);
        RootedGrows(g, start, parent[..], depth, node, next.value);
        ExpandedGrows(g, depth, done, next.value, depth[node] + 1);
        ExpandingGrows(g, depth, queue, done, node, i, next.value);
        parent[next.value] := Some(node);
        queue := queue + [next.value];
        depth := depth[next.value := depth[node] + 1];
      }
    }
  }

  lemma Begun(g: Graph, start: Node, parent: seq<Option<Node>>)
    requires |parent| == |g.edges| && start < |parent| && parent[start] == Some(start)
    requires forall v | 0 <= v < |parent| && v != start :: parent[v].None?
    ensures Rooted(g, start, parent, map[start := 0]) && Layered(map[start := 0], [start], {})
    ensures Expanded(g, map[start := 0], {})
  {
  }

  lemma FrontInGraph(g: Graph, start: Node, parent: seq<Option<Node>>, depth: map<Node, nat>,
                     queue: seq<Node>, done: set<Node>)
    requires Rooted(g, start, parent, depth) && Layered(depth, queue, done) && queue != []
    ensures queue[0] < |g.edges|
  {
    assert queue[0] in depth;
  }

  /** What is known when the search stops: the goal is undiscovered with work left,
      unreachable, or at its shortest distance. */
  lemma SearchEnded(g: Graph, start: Node, goal: Node, parent: seq<Option<Node>>, depth: map<Node, nat>,
                    queue: seq<Node>, done: set<Node>)
    requires Rooted(g, start, parent, depth) && Layered(depth, queue, done) && Expanded(g, depth, done)
    requires goal < |g.edges|
    ensures goal in depth <==> parent[goal].Some?
    ensures goal in depth ==> forall path | g.Path(start, goal, path) :: depth[goal] < |path|
    ensures goal !in depth && queue == [] ==> !g.Connected(start, goal)
  {
    assert goal in depth <==> parent[goal].Some?;
    hide Rooted, Layered, Expanded, g.Connected, g.Path;
    if goal in depth {
      forall path | g.Path(start, goal, path) ensures depth[goal] < |path| {
        DiscoveredIsShortest(g, start, parent, depth, queue, done, goal, path);
      }
    } else if queue == [] && g.Connected(start, goal) {
      EmptyQueueIsAll(g, start, parent, depth, done, goal);
    }
  }

  method Search(g: Graph, start: Node, goal: Node, maxStates: nat, signals: nat -> Signal, parent: array<Option<Node>>)
    returns (visited: nat, ghost depth: map<Node, nat>)
    requires start < |g.edges| && goal < |g.edges|
    requires parent.Length == |g.edges| && forall v | 0 <= v < parent.Length :: parent[v].None?
    modifies parent
    ensures Rooted(g, start, parent[..], depth)
    ensures maxStates != 0 ==> visited <= maxStates
    ensures goal in depth ==> forall path | g.Path(start, goal, path) :: depth[goal] < |path|
    ensures goal !in depth ==>
      (maxStates != 0 && visited >= maxStates) || signals(visited) != Quiet || !g.Connected(start, goal)
  {
    hide Rooted, Layered, Ordered, Expanded, Expanding, g.Connected, g.Path;
    var queue: seq<Node> := [start];
    parent[start] := Some(start);
    visited := 0;
    depth := map[start := 0];
    ghost var done: set<Node> := {};
    Begun(g, start, parent[..]);
    while queue != [] && parent[goal].None? && (maxStates == 0 || visited < maxStates) && signals(visited) == Quiet
      invariant Rooted(g, start, parent[..], depth) && Layered(depth, queue, done) && Expanded(g, depth, done)
      invariant |done| == visited && forall v <- done :: v < |g.edges|
      invariant maxStates != 0 ==> visited <= maxStates
      decreases |g.edges| - visited
    {
      FrontInGraph(g, start, parent[..], depth, queue, done);
      Popped(g, depth, queue, done);
      var node := queue[0];
      queue := queue[1..];
      visited := visited + 1;
      queue, depth := Expand(g, start, parent, node, queue, depth, done);
      Finished(g, depth, queue, done, node);
      done := done + {node};
      WithinGraph(done, |g.edges|);
    }
    assert parent[..][goal] == parent[goal];
    SearchEnded(g, start, goal, parent[..], depth, queue, done);
  }

  /** The path from the start, read back along the parents from the goal. */
  method ReadBack(g: Graph, start: Node, goal: Node, parent: array<Option<Node>>, ghost depth: map<Node, nat>)
    returns (path: seq<Node>)
    requires Rooted(g, start, parent[..], depth) && goal in depth
    ensures g.Path(start, goal, path) && |path| == depth[goal] + 1
  {
    var node := goal;
    path := [goal];
    while node != start
      invariant node in depth && g.Path(node, goal, path) && |path| + depth[node] == depth[goal] + 1
      decreases depth[node]
    {
      assert parent[..][node] == parent[node];
      node := parent[node].value;
      path := [node] + path;
    }
  }

  /** The path that the command reports is a shortest one. It reports none only if
      there is none, or the state budget, a cancellation or the clock ended the search. */
  method FindPath(g: Graph, start: Node, goal: Node, maxStates: nat, signals: nat -> Signal, canceledAfter: bool)
    returns (r: Outcome)
    requires start < |g.edges| && goal < |g.edges|
    ensures r.Found? ==> g.Path(start, goal, r.path)
    ensures r.Found? ==> forall path | g.Path(start, goal, path) :: |r.path| <= |path|
    ensures r.Lost? && maxStates != 0 ==> r.visited <= maxStates
    ensures r.Lost? ==> (r.reason == StateBudget <==> maxStates != 0 && r.visited >= maxStates)
    ensures r.Lost? ==> (r.reason == Reason.Canceled ==> canceledAfter)
    ensures r.Lost? && r.reason != StateBudget && signals(r.visited) == Quiet ==> !g.Connected(start, goal)
  {
    hide Rooted, g.Path, g.Connected;
    var parent := new Option<Node>[|g.edges|](_ => None);
    var visited: nat;
    ghost var depth;
    visited, depth := Search(g, start, goal, maxStates, signals, parent);
    ParentsGiven(g, start, parent[..], depth);
    assert parent[..][goal] == parent[goal] && |parent[..]| == parent.Length;
    if parent[goal].None? {
      r := Lost(visited,
                if maxStates != 0 && visited >= maxStates then StateBudget
                else if canceledAfter then Reason.Canceled else UnreachableOrTime);
    } else {
      var path := ReadBack(g, start, goal, parent, depth);
      r := Found(path);
    }
  }
}
