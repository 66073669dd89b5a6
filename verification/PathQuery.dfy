/** The breadth-first loop over matched walks: what its queue stands for at any
    moment, why it ends, and what the found paths are when it stops. */
module PathQuery {
  import opened Basics
  import opened PathSearch

  datatype Query = Query(graph: Graph, functionDepth: nat, start: nat, goal: nat)

  function WalkOf(q: Query, es: seq<nat>): Option<Item>
  {
    Walk(q.graph, q.functionDepth, q.start, q.goal, es)
  }

  /** The record of a walk. */
  function PathOf(q: Query, es: seq<nat>): Path
  {
    match WalkOf(q, es)
    case Some(item) => item.path
    case None => Initial(q.start).path
  }

  /** Only queries between given nodes of a graph with nodes are searched. */
  predicate Searchable(q: Query)
  {
    q.start != INVALID_NODE && q.goal != INVALID_NODE && q.graph != []
  }

  predicate Reaches(q: Query, es: seq<nat>)
  {
    Searchable(q) && GoalWalk(q.graph, q.functionDepth, q.start, q.goal, es)
  }

  /** The items entered along the first n edges of an item's node. */
  function Children(q: Query, item: Item, n: nat): seq<Item>
    requires n <= |EdgesOf(q.graph, item.node)|
  {
    if n == 0 then []
    else
      Children(q, item, n - 1) +
      match Follow(q.graph, q.functionDepth, item, n - 1)
      case Some(next) => [next]
      case None => []
  }

  function AllChildren(q: Query, item: Item): seq<Item>
  {
    Children(q, item, |EdgesOf(q.graph, item.node)|)
  }

  // ---------- the order of the walks ----------

  /** At the k-th edge two walks part, and the first one takes the smaller edge id. */
  predicate PartsAt(a: seq<nat>, b: seq<nat>, k: nat)
  {
    k < |a| && k < |b| && a[..k] == b[..k] && a[k] < b[k]
  }

  /** Shorter walks come first, and of equally long ones the one with the smaller
      edge id where they part. */
  ghost predicate Precedes(a: seq<nat>, b: seq<nat>)
  {
    |a| < |b| || (|a| == |b| && exists k: nat :: PartsAt(a, b, k))
  }

  lemma SameBefore(a: seq<nat>, b: seq<nat>, k: nat, i: nat)
    requires k <= |a| && k <= |b| && a[..k] == b[..k]
    ensures i < k ==> a[i] == b[i]
  {
    if i < k {
      assert a[..k][i] == b[..k][i];
    }
  }

  lemma PrecedesOneWay(a: seq<nat>, b: seq<nat>)
    requires Precedes(a, b)
    ensures !Precedes(b, a)
  {
    if |a| == |b| {
      var k: nat :| PartsAt(a, b, k);
      forall l: nat | PartsAt(b, a, l) ensures false {
        SameBefore(a, b, l, k);
        SameBefore(a, b, k, l);
      }
    }
  }

  lemma PrecedesFurther(a: seq<nat>, b: seq<nat>, c: seq<nat>)
    requires Precedes(a, b) && Precedes(b, c)
    ensures Precedes(a, c)
  {
    if |a| == |b| == |c| {
      var k: nat :| PartsAt(a, b, k);
      var l: nat :| PartsAt(b, c, l);
      var first := if k < l then k else l;
      assert a[..first] == a[..k][..first] == b[..k][..first] == b[..first];
      assert b[..first] == b[..l][..first] == c[..l][..first] == c[..first];
      SameBefore(b, c, l, k);
      SameBefore(a, b, k, l);
      assert PartsAt(a, c, first);
    }
  }

  // ---------- what the queue stands for ----------

  /** The found paths and then the waiting items, in order, as edge sequences. */
  ghost function Line(found: seq<Path>, queue: seq<Item>, i: nat): seq<nat>
    requires i < |found| + |queue|
  {
    if i < |found| then found[i].edges else queue[i - |found|].path.edges
  }

  /** The walks come in their order, and none continues an earlier one. */
  ghost predicate Ordered(found: seq<Path>, queue: seq<Item>)
  {
    forall i, j :: 0 <= i < j < |found| + |queue| ==>
      Precedes(Line(found, queue, i), Line(found, queue, j)) && !(Line(found, queue, i) <= Line(found, queue, j))
  }

  /** The waiting items are at most one edge ahead of the first, and then they continue
      walks that came before it. */
  ghost predicate Waiting(q: Query, queue: seq<Item>)
  {
    && (forall i :: 0 <= i < |queue| ==> WalkOf(q, queue[i].path.edges) == Some(queue[i]))
    && (forall i :: 0 <= i < |queue| ==> NotFarAhead(queue[0].path.edges, queue[i].path.edges))
  }

  ghost predicate NotFarAhead(first: seq<nat>, es: seq<nat>)
  {
    |es| <= |first| || (|es| == |first| + 1 && Precedes(es[..|first|], first))
  }

  /** The path is the record of a walk that reaches the goal. */
  ghost predicate Genuine(q: Query, path: Path)
  {
    Reaches(q, path.edges) && PathOf(q, path.edges) == path
  }

  ghost predicate Listed(found: seq<Path>, es: seq<nat>)
  {
    exists i :: 0 <= i < |found| && found[i].edges == es
  }

  /** Some waiting item is still to be continued to this walk. */
  ghost predicate Ahead(queue: seq<Item>, es: seq<nat>)
  {
    exists i :: 0 <= i < |queue| && queue[i].path.edges <= es
  }

  ghost predicate Frontier(q: Query, found: seq<Path>, queue: seq<Item>)
  {
    && Waiting(q, queue)
    && (forall i :: 0 <= i < |found| ==> Genuine(q, found[i]))
    && Ordered(found, queue)
    && (forall es :: Reaches(q, es) ==> Listed(found, es) || Ahead(queue, es))
  }

  lemma StartFrontier(q: Query)
    ensures Frontier(q, [], [Initial(q.start)])
  {
    var queue := [Initial(q.start)];
    forall es | Reaches(q, es) ensures Ahead(queue, es) {
      assert queue[0].path.edges <= es;
    }
  }

  /** At the goal, the first item of the queue becomes a found path. */
  lemma GoalFrontier(q: Query, found: seq<Path>, queue: seq<Item>)
    requires Searchable(q) && Frontier(q, found, queue) && queue != [] && queue[0].node == q.goal
    ensures Frontier(q, found + [queue[0].path], queue[1..])
  {
    GoalOrdered(found, queue);
    GoalCovers(q, found, queue);
    RestWaits(q, found, queue);
    GoalGenuine(q, queue);
    hide Walk, Ordered, Waiting, Precedes, Ahead;
  }

  lemma GoalGenuine(q: Query, queue: seq<Item>)
    requires Waiting(q, queue) && queue != [] && queue[0].node == q.goal && Searchable(q)
    ensures Genuine(q, queue[0].path)
  {
  }

  lemma RestWaits(q: Query, found: seq<Path>, queue: seq<Item>)
    requires Waiting(q, queue) && Ordered(found, queue) && queue != []
    ensures Waiting(q, queue[1..])
  {
    hide Walk, Precedes;
    forall i | 0 <= i < |queue| - 1 ensures NotFarAhead(queue[1].path.edges, queue[1..][i].path.edges) {
      FirstIsLeast(found, queue);
      StillNotFarAhead(queue[0].path.edges, queue[1].path.edges, queue[i + 1].path.edges);
    }
  }

  lemma StillNotFarAhead(first: seq<nat>, second: seq<nat>, es: seq<nat>)
    requires Precedes(first, second) && NotFarAhead(first, second) && NotFarAhead(first, es)
    ensures NotFarAhead(second, es)
  {
    if |second| == |first| && |es| == |first| + 1 {
      PrecedesFurther(es[..|first|], first, second);
    }
  }

  lemma GoalOrdered(found: seq<Path>, queue: seq<Item>)
    requires Ordered(found, queue) && queue != []
    ensures Ordered(found + [queue[0].path], queue[1..])
  {
    var found', queue' := found + [queue[0].path], queue[1..];
    forall i, j | 0 <= i < j < |found'| + |queue'|
      ensures Precedes(Line(found', queue', i), Line(found', queue', j))
      ensures !(Line(found', queue', i) <= Line(found', queue', j))
    {
      assert Line(found', queue', i) == Line(found, queue, i);
      assert Line(found', queue', j) == Line(found, queue, j);
    }
  }

  lemma GoalCovers(q: Query, found: seq<Path>, queue: seq<Item>)
    requires Frontier(q, found, queue) && queue != [] && queue[0].node == q.goal
    ensures forall es :: Reaches(q, es) ==> Listed(found + [queue[0].path], es) || Ahead(queue[1..], es)
  {
    var found', queue' := found + [queue[0].path], queue[1..];
    hide Ordered, Walk, Genuine;
    forall es | Reaches(q, es) ensures Listed(found', es) || Ahead(queue', es) {
      if Listed(found, es) {
        var i :| 0 <= i < |found| && found[i].edges == es;
        assert found'[i].edges == es;
      } else {
        var i :| 0 <= i < |queue| && queue[i].path.edges <= es;
        if i == 0 {
          NothingBeyondGoal(q, queue[0], es);
          assert found'[|found|].edges == es;
        } else {
          assert queue'[i - 1].path.edges <= es;
        }
      }
    }
  }

  lemma FirstIsLeast(found: seq<Path>, queue: seq<Item>)
    requires Ordered(found, queue) && |queue| >= 2
    ensures Precedes(queue[0].path.edges, queue[1].path.edges)
  {
    assert Line(found, queue, |found|) == queue[0].path.edges;
    assert Line(found, queue, |found| + 1) == queue[1].path.edges;
  }

  lemma NothingBeyondGoal(q: Query, item: Item, es: seq<nat>)
    requires WalkOf(q, item.path.edges) == Some(item) && item.node == q.goal
    requires item.path.edges <= es && WalkOf(q, es).Some?
    ensures item.path.edges == es
  {
    var n := |item.path.edges|;
    assert es[..n] == item.path.edges;
    if n < |es| {
      WalkPrefix(q.graph, q.functionDepth, q.start, q.goal, es, n);
    }
  }

  // ---------- children ----------

  /** Each child is the walk extended by one edge, and edge ids ascend. */
  lemma {:induction false} ChildrenWalk(q: Query, item: Item, n: nat)
    requires n <= |EdgesOf(q.graph, item.node)|
    requires WalkOf(q, item.path.edges) == Some(item) && item.node != q.goal
    ensures forall k :: 0 <= k < |Children(q, item, n)| ==> Child(q, item, n, Children(q, item, n)[k])
    ensures Ascending(Children(q, item, n), |item.path.edges|)
  {
    hide Walk, Follow;
    if n > 0 {
      ChildrenWalk(q, item, n - 1);
      var before := Children(q, item, n - 1);
      forall k | 0 <= k < |before| ensures Child(q, item, n, before[k]) {
        assert Child(q, item, n - 1, before[k]);
      }
      var next := Follow(q.graph, q.functionDepth, item, n - 1);
      if next.Some? {
        FollowedChild(q, item, n - 1);
        forall k | 0 <= k < |before|
          ensures before[k].path.edges[|item.path.edges|] < next.value.path.edges[|item.path.edges|]
        {
          assert Child(q, item, n - 1, before[k]);
        }
      }
    }
  }

  ghost predicate Ascending(children: seq<Item>, m: nat)
  {
    && (forall k :: 0 <= k < |children| ==> |children[k].path.edges| == m + 1)
    && (forall j, k :: 0 <= j < k < |children| ==> children[j].path.edges[m] < children[k].path.edges[m])
  }

  lemma FollowedChild(q: Query, item: Item, index: nat)
    requires index < |EdgesOf(q.graph, item.node)| && Follow(q.graph, q.functionDepth, item, index).Some?
    requires WalkOf(q, item.path.edges) == Some(item) && item.node != q.goal
    ensures
      var next := Follow(q.graph, q.functionDepth, item, index).value;
      && Child(q, item, index + 1, next)
      && next.path.edges[|item.path.edges|] == q.graph[item.node].edgeOffset + index
  {
    hide Walk;
    FollowEdges(q, item, index);
    ExtendWalk(q, item, index);
  }

  ghost predicate Child(q: Query, item: Item, n: nat, child: Item)
  {
    && item.node < |q.graph|
    && WalkOf(q, child.path.edges) == Some(child)
    && |child.path.edges| == |item.path.edges| + 1
    && item.path.edges <= child.path.edges
    && child.path.edges[|item.path.edges|] < q.graph[item.node].edgeOffset + n
  }

  lemma FollowEdges(q: Query, item: Item, index: nat)
    requires index < |EdgesOf(q.graph, item.node)| && Follow(q.graph, q.functionDepth, item, index).Some?
    ensures Follow(q.graph, q.functionDepth, item, index).value.path.edges
            == item.path.edges + [q.graph[item.node].edgeOffset + index]
  {
  }

  lemma ExtendWalk(q: Query, item: Item, index: nat)
    requires index < |EdgesOf(q.graph, item.node)|
    requires WalkOf(q, item.path.edges) == Some(item) && item.node != q.goal
    ensures WalkOf(q, item.path.edges + [q.graph[item.node].edgeOffset + index])
            == Follow(q.graph, q.functionDepth, item, index)
  {
    var es := item.path.edges + [q.graph[item.node].edgeOffset + index];
    assert es[..|es| - 1] == item.path.edges;
  }

  lemma {:induction false} ChildAt(q: Query, item: Item, n: nat, index: nat)
    requires index < n <= |EdgesOf(q.graph, item.node)|
    requires Follow(q.graph, q.functionDepth, item, index).Some?
    ensures Follow(q.graph, q.functionDepth, item, index).value in Children(q, item, n)
  {
    if index < n - 1 {
      ChildAt(q, item, n - 1, index);
    }
  }

  /** A walk that continues an item goes through one of its children. */
  lemma ContinuesThroughChild(q: Query, item: Item, es: seq<nat>) returns (child: Item)
    requires WalkOf(q, item.path.edges) == Some(item) && item.node != q.goal
    requires item.path.edges <= es && Reaches(q, es)
    ensures child in AllChildren(q, item) && child.path.edges <= es
  {
    hide Walk, Follow;
    var n := |item.path.edges|;
    assert es[..n] == item.path.edges;
    TakeAll(es, n);
    WalkPrefix(q.graph, q.functionDepth, q.start, q.goal, es, n);
    assert es[..n + 1] == es[..n] + [es[n]];
    child := StepOfWalk(q, item, es[n]);
  }

  lemma TakeAll(s: seq<nat>, n: nat)
    requires n <= |s|
    ensures n == |s| ==> s[..n] == s
  {
  }

  lemma StepOfWalk(q: Query, item: Item, edge: nat) returns (child: Item)
    requires WalkOf(q, item.path.edges) == Some(item) && item.node != q.goal
    requires WalkOf(q, item.path.edges + [edge]).Some?
    ensures child in AllChildren(q, item) && child.path.edges == item.path.edges + [edge]
  {
    hide Follow;
    var es := item.path.edges + [edge];
    assert es[..|item.path.edges|] == item.path.edges;
    var index := edge - q.graph[item.node].edgeOffset;
    child := Follow(q.graph, q.functionDepth, item, index).value;
    FollowEdges(q, item, index);
    ChildAt(q, item, |EdgesOf(q.graph, item.node)|, index);
  }

  /** Away from the goal, the first item of the queue is replaced by its children at the end. */
  lemma ExpandFrontier(q: Query, found: seq<Path>, queue: seq<Item>)
    requires Frontier(q, found, queue) && queue != [] && queue[0].node != q.goal
    ensures Frontier(q, found, queue[1..] + AllChildren(q, queue[0]))
  {
    var item, rest, children := queue[0], queue[1..], AllChildren(q, queue[0]);
    ChildrenWalk(q, item, |EdgesOf(q.graph, item.node)|);
    ExpandWaiting(q, found, queue);
    ExpandOrdered(q, found, queue, children, |EdgesOf(q.graph, item.node)|);
    hide Walk, Children, Child, Ascending, Ordered, Waiting, Precedes;
    forall es | Reaches(q, es) ensures Listed(found, es) || Ahead(rest + children, es) {
      if !Listed(found, es) {
        var i :| 0 <= i < |queue| && queue[i].path.edges <= es;
        if i == 0 {
          var child := ContinuesThroughChild(q, item, es);
          var k :| 0 <= k < |children| && children[k] == child;
          assert (rest + children)[|rest| + k] == child;
        } else {
          assert (rest + children)[i - 1] == queue[i];
        }
      }
    }
  }

  lemma ExpandWaiting(q: Query, found: seq<Path>, queue: seq<Item>)
    requires Frontier(q, found, queue) && queue != [] && queue[0].node != q.goal
    ensures Waiting(q, queue[1..] + AllChildren(q, queue[0]))
  {
    var item, rest, children := queue[0], queue[1..], AllChildren(q, queue[0]);
    var n := |EdgesOf(q.graph, item.node)|;
    ChildrenWalk(q, item, n);
    var queue' := rest + children;
    forall i | 0 <= i < |queue'|
      ensures WalkOf(q, queue'[i].path.edges) == Some(queue'[i])
      ensures NotFarAhead(queue'[0].path.edges, queue'[i].path.edges)
    {
      if i >= |rest| {
        assert Child(q, item, n, children[i - |rest|]);
      }
      if rest == [] {
        assert Child(q, item, n, children[0]);
      } else {
        FirstIsLeast(found, queue);
        if i < |rest| {
          StillNotFarAhead(item.path.edges, queue[1].path.edges, queue[i + 1].path.edges);
        } else {
          assert queue'[i].path.edges[..|item.path.edges|] == item.path.edges;
        }
      }
    }
  }

  lemma ExpandOrdered(q: Query, found: seq<Path>, queue: seq<Item>, children: seq<Item>, n: nat)
    requires Waiting(q, queue) && Ordered(found, queue) && queue != []
    requires forall k :: 0 <= k < |children| ==> Child(q, queue[0], n, children[k])
    requires Ascending(children, |queue[0].path.edges|)
    ensures Ordered(found, queue[1..] + children)
  {
    var queue' := queue[1..] + children;
    hide Line;
    forall i, j | 0 <= i < j < |found| + |queue'|
      ensures Precedes(Line(found, queue', i), Line(found, queue', j))
      ensures !(Line(found, queue', i) <= Line(found, queue', j))
    {
      ExpandedPair(q, found, queue, children, n, i, j);
    }
  }

  lemma ExpandedLine(found: seq<Path>, queue: seq<Item>, children: seq<Item>, i: nat)
    requires queue != [] && i < |found| + |queue| - 1 + |children|
    ensures Line(found, queue[1..] + children, i) ==
      if i < |found| then Line(found, queue, i)
      else if i < |found| + |queue| - 1 then Line(found, queue, i + 1)
      else children[i - (|found| + |queue| - 1)].path.edges
  {
  }

  lemma ExpandedPair(q: Query, found: seq<Path>, queue: seq<Item>, children: seq<Item>, n: nat, i: nat, j: nat)
    requires Waiting(q, queue) && Ordered(found, queue) && queue != []
    requires forall k :: 0 <= k < |children| ==> Child(q, queue[0], n, children[k])
    requires Ascending(children, |queue[0].path.edges|)
    requires i < j < |found| + |queue| - 1 + |children|
    ensures
      var queue' := queue[1..] + children;
      Precedes(Line(found, queue', i), Line(found, queue', j)) && !(Line(found, queue', i) <= Line(found, queue', j))
  {
    hide Line, Waiting, Ordered, Ascending, Child, Precedes;
    ExpandedLine(found, queue, children, i);
    ExpandedLine(found, queue, children, j);
    var h, c := |found|, |found| + |queue| - 1;
    var earlier := if i < h then i else i + 1;
    if j < c {
      OrderedAt(found, queue, earlier, if j < h then j else j + 1);
    } else if i < c {
      EarlierThanChild(q, found, queue, earlier, children[j - c], n);
    } else {
      SiblingsInOrder(q, queue[0], n, children, i - c, j - c);
    }
  }

  lemma OrderedAt(found: seq<Path>, queue: seq<Item>, i: nat, j: nat)
    requires Ordered(found, queue) && i < j < |found| + |queue|
    ensures Precedes(Line(found, queue, i), Line(found, queue, j)) && !(Line(found, queue, i) <= Line(found, queue, j))
  {
  }

  lemma SiblingsInOrder(q: Query, item: Item, n: nat, children: seq<Item>, i: nat, j: nat)
    requires Ascending(children, |item.path.edges|) && i < j < |children|
    requires Child(q, item, n, children[i]) && Child(q, item, n, children[j])
    ensures Precedes(children[i].path.edges, children[j].path.edges)
    ensures !(children[i].path.edges <= children[j].path.edges)
  {
    var m := |item.path.edges|;
    assert children[i].path.edges[..m] == item.path.edges == children[j].path.edges[..m];
    assert PartsAt(children[i].path.edges, children[j].path.edges, m);
  }

  lemma EarlierThanChild(q: Query, found: seq<Path>, queue: seq<Item>, i: nat, child: Item, n: nat)
    requires Waiting(q, queue) && Ordered(found, queue) && queue != []
    requires i < |found| + |queue| && i != |found| && Child(q, queue[0], n, child)
    ensures Precedes(Line(found, queue, i), child.path.edges)
    ensures !(Line(found, queue, i) <= child.path.edges)
  {
    var line, parent := Line(found, queue, i), queue[0].path.edges;
    assert Line(found, queue, |found|) == parent;
    hide Walk;
    if i < |found| {
      OrderedAt(found, queue, i, |found|);
    } else {
      OrderedAt(found, queue, |found|, i);
      assert line == queue[i - |found|].path.edges && NotFarAhead(parent, line);
    }
    if |line| == |parent| + 1 {
      PartsBeforeChild(line, parent, child.path.edges);
    } else if line <= child.path.edges {
      PrefixOfChild(line, parent, child.path.edges);
    }
  }

  lemma PartsBeforeChild(line: seq<nat>, parent: seq<nat>, child: seq<nat>)
    requires |line| == |child| == |parent| + 1 && parent <= child
    requires Precedes(line[..|parent|], parent)
    ensures Precedes(line, child) && !(line <= child)
  {
    var k: nat :| PartsAt(line[..|parent|], parent, k);
    assert line[..k] == line[..|parent|][..k] == parent[..k];
    assert child[..|parent|] == parent && child[..k] == parent[..k];
    assert PartsAt(line, child, k);
  }

  lemma PrefixOfChild(line: seq<nat>, parent: seq<nat>, child: seq<nat>)
    requires parent <= child && |child| == |parent| + 1 && line <= child
    ensures line <= parent || parent <= line
  {
  }

  // ---------- why the search ends ----------

  function Power(base: nat, exponent: nat): nat
  {
    if exponent == 0 then 1 else base * Power(base, exponent - 1)
  }

  function MaxDegree(g: Graph): nat
  {
    if g == [] then 0 else Max(|g[0].edges|, MaxDegree(g[1..]))
  }

  lemma {:induction false} DegreeBounded(g: Graph, node: nat)
    ensures |EdgesOf(g, node)| <= MaxDegree(g)
  {
    if 0 < node < |g| {
      DegreeBounded(g[1..], node - 1);
    }
  }

  /** How many more contexts an item can enter. */
  function Slack(q: Query, item: Item): nat
  {
    var contexts := (q.functionDepth + 1) * |q.graph|;
    if |item.history| <= contexts then contexts - |item.history| else 0
  }

  function Weight(q: Query, item: Item): nat
  {
    Power(MaxDegree(q.graph) + 1, Slack(q, item))
  }

  function Weights(q: Query, items: seq<Item>): nat
  {
    if items == [] then 0 else Weight(q, items[0]) + Weights(q, items[1..])
  }

  lemma {:induction false} WeightsAppend(q: Query, a: seq<Item>, b: seq<Item>)
    ensures Weights(q, a + b) == Weights(q, a) + Weights(q, b)
  {
    if a == [] {
      assert a + b == b;
    } else {
      assert (a + b)[1..] == a[1..] + b;
      WeightsAppend(q, a[1..], b);
    }
  }

  function Below(bound: nat): (s: set<nat>)
    ensures forall n: nat :: n in s <==> n < bound
    ensures |s| == bound
  {
    if bound == 0 then {} else Below(bound - 1) + {bound - 1}
  }

  lemma DistinctBelow(s: seq<nat>, bound: nat)
    requires (forall k :: k in s ==> k < bound) && Distinct(s)
    ensures |s| <= bound
  {
    MembersCount(s);
    SubsetSize(Members(s), Below(bound));
  }

  /** An item whose history fits has a child with exactly one context less to enter. */
  lemma ChildSlack(q: Query, item: Item, child: Item, n: nat)
    requires q.start < |q.graph| && Child(q, item, n, child)
    requires WalkOf(q, item.path.edges) == Some(item)
    ensures Slack(q, item) == Slack(q, child) + 1
  {
    hide Walk, Joined;
    HistoryFits(q, item);
    HistoryFits(q, child);
  }

  lemma HistoryFits(q: Query, item: Item)
    requires q.start < |q.graph| && WalkOf(q, item.path.edges) == Some(item)
    ensures |item.history| == |item.path.edges| + 1 <= (q.functionDepth + 1) * |q.graph|
  {
    hide Walk, Joined;
    WalkConsistent(q.graph, q.functionDepth, q.start, q.goal, item.path.edges);
    DistinctBelow(item.history, (q.functionDepth + 1) * |q.graph|);
  }

  lemma {:induction false} ChildrenCount(q: Query, item: Item, n: nat)
    requires n <= |EdgesOf(q.graph, item.node)|
    ensures |Children(q, item, n)| <= n
  {
    if n > 0 {
      ChildrenCount(q, item, n - 1);
    }
  }

  lemma {:induction false} EqualWeights(q: Query, items: seq<Item>, slack: nat)
    requires forall k :: 0 <= k < |items| ==> Slack(q, items[k]) == slack
    ensures Weights(q, items) == |items| * Power(MaxDegree(q.graph) + 1, slack)
  {
    hide Slack, Power;
    if items != [] {
      EqualWeights(q, items[1..], slack);
      OneMore(|items| - 1, Power(MaxDegree(q.graph) + 1, slack));
    }
  }

  lemma OneMore(n: nat, p: nat)
    ensures (n + 1) * p == n * p + p
  {
  }

  lemma {:induction false} PowerPositive(base: nat, exponent: nat)
    requires base > 0
    ensures Power(base, exponent) > 0
  {
    if exponent > 0 {
      PowerPositive(base, exponent - 1);
      assert base * Power(base, exponent - 1) > 0;
    }
  }

  lemma {:induction false} StartsInGraph(q: Query, es: seq<nat>)
    requires WalkOf(q, es).Some? && WalkOf(q, es).value.node < |q.graph|
    ensures q.start < |q.graph|
  {
    if es != [] {
      StartsInGraph(q, es[..|es| - 1]);
    }
  }

  /** Children weigh less, all together, than their parent. */
  lemma ChildrenWeighLess(q: Query, item: Item)
    requires WalkOf(q, item.path.edges) == Some(item) && item.node != q.goal
    ensures Weights(q, AllChildren(q, item)) < Weight(q, item)
  {
    hide Power, Walk, Children, Child, Slack, Ascending;
    var n := |EdgesOf(q.graph, item.node)|;
    var children := AllChildren(q, item);
    var base := MaxDegree(q.graph) + 1;
    ChildrenWalk(q, item, n);
    ChildrenCount(q, item, n);
    DegreeBounded(q.graph, item.node);
    PowerPositive(base, Slack(q, item));
    if children != [] {
      assert Child(q, item, n, children[0]);
      StartsInGraph(q, item.path.edges);
      ChildSlack(q, item, children[0], n);
      var slack := Slack(q, children[0]);
      forall k | 0 <= k < |children| ensures Slack(q, children[k]) == slack {
        assert Child(q, item, n, children[k]);
        ChildSlack(q, item, children[k], n);
      }
      EqualWeights(q, children, slack);
      FewerThanBase(|children|, base, slack);
    }
  }

  lemma FewerThanBase(count: nat, base: nat, slack: nat)
    requires count < base
    ensures count * Power(base, slack) < Power(base, slack + 1)
  {
    PowerPositive(base, slack);
    FewerCopies(count, base, Power(base, slack));
  }

  lemma FewerCopies(a: nat, b: nat, k: nat)
    requires a < b && k > 0
    ensures a * k < b * k
  {
  }

  lemma ExpandWeighsLess(q: Query, queue: seq<Item>)
    requires Waiting(q, queue) && queue != [] && queue[0].node != q.goal
    ensures Weights(q, queue[1..] + AllChildren(q, queue[0])) < Weights(q, queue)
  {
    ChildrenWeighLess(q, queue[0]);
    WeightsAppend(q, queue[1..], AllChildren(q, queue[0]));
  }

  lemma DropWeighsLess(q: Query, queue: seq<Item>)
    requires queue != []
    ensures Weights(q, queue[1..]) < Weights(q, queue)
  {
    PowerPositive(MaxDegree(q.graph) + 1, Slack(q, queue[0]));
  }

  // ---------- what a search promises ----------

  datatype Limits = Limits(maxStates: nat, maxPaths: nat)

  function PathLimit(limits: Limits): nat
  {
    if limits.maxPaths == 0 then Max(1, limits.maxStates) else limits.maxPaths
  }

  /** What is promised about the found paths, whatever ended the search: each is
      the record of a walk to the goal, they are listed in their order and none twice,
      and everything that is missing comes after everything that was found. */
  ghost predicate Listing(q: Query, found: seq<Path>)
  {
    && (forall i :: 0 <= i < |found| ==> Genuine(q, found[i]))
    && (forall i, j :: 0 <= i < j < |found| ==> Precedes(found[i].edges, found[j].edges))
    && (forall es, i :: Reaches(q, es) && !Listed(found, es) && 0 <= i < |found| ==>
          Precedes(found[i].edges, es))
  }

  ghost predicate Exhaustive(q: Query, found: seq<Path>)
  {
    forall es :: Reaches(q, es) ==> Listed(found, es)
  }

  lemma FrontierListing(q: Query, found: seq<Path>, queue: seq<Item>)
    requires Frontier(q, found, queue)
    ensures Listing(q, found) && (queue == [] ==> Exhaustive(q, found))
  {
    hide Walk, Ordered, Waiting, Precedes;
    forall i, j | 0 <= i < j < |found| ensures Precedes(found[i].edges, found[j].edges) {
      OrderedAt(found, queue, i, j);
    }
    forall es, i | Reaches(q, es) && !Listed(found, es) && 0 <= i < |found|
      ensures Precedes(found[i].edges, es)
    {
      AheadIsLater(found, queue, i, es);
    }
  }

  lemma AheadIsLater(found: seq<Path>, queue: seq<Item>, i: nat, es: seq<nat>)
    requires Ordered(found, queue) && i < |found| && Ahead(queue, es)
    ensures Precedes(found[i].edges, es)
  {
    var k :| 0 <= k < |queue| && queue[k].path.edges <= es;
    OrderedAt(found, queue, i, |found| + k);
    if |es| == |queue[k].path.edges| {
      assert es == queue[k].path.edges;
    }
  }

  // ---------- which walks a search lists ----------

  ghost predicate AllReach(q: Query, walks: seq<seq<nat>>)
  {
    Distinct(walks) && forall i :: 0 <= i < |walks| ==> Reaches(q, walks[i])
  }

  ghost predicate AllPrecede(walks: seq<seq<nat>>, es: seq<nat>)
  {
    forall i :: 0 <= i < |walks| ==> Precedes(walks[i], es)
  }

  /** The walk is one of the first n that lead to the goal: there are not n others before it. */
  ghost predicate First(q: Query, n: nat, es: seq<nat>)
  {
    Reaches(q, es) && forall walks | AllReach(q, walks) && AllPrecede(walks, es) :: |walks| < n
  }

  /** More than n walks lead to the goal. */
  ghost predicate Crowded(q: Query, n: nat)
  {
    exists walks :: AllReach(q, walks) && |walks| > n
  }

  ghost predicate FirstListed(q: Query, found: seq<Path>, n: nat)
  {
    forall es :: Listed(found, es) <==> First(q, n, es)
  }

  function Edges(found: seq<Path>): seq<seq<nat>>
  {
    seq(|found|, i requires 0 <= i < |found| => found[i].edges)
  }

  /** Only what is listed at an earlier position comes before a listed walk. */
  lemma BeforeListed(q: Query, found: seq<Path>, i: nat, es: seq<nat>)
    requires Listing(q, found) && i < |found| && Reaches(q, es) && Precedes(es, found[i].edges)
    ensures es in Edges(found)[..i]
  {
    hide Walk, Precedes;
    PrecedesOneWay(es, found[i].edges);
    assert Listed(found, es);
    var j :| 0 <= j < |found| && found[j].edges == es;
    assert Edges(found)[j] == es;
    ListedEarlier(q, found, j, i);
    assert Edges(found)[..i][j] == es;
  }

  lemma ListedEarlier(q: Query, found: seq<Path>, j: nat, i: nat)
    requires Listing(q, found) && i < |found| && j < |found|
    requires Precedes(found[j].edges, found[i].edges)
    ensures j < i
  {
    PrecedesOneWay(found[j].edges, found[i].edges);
  }

  /** Whatever is listed is among the first walks. */
  lemma ListedIsFirst(q: Query, found: seq<Path>, n: nat, es: seq<nat>)
    requires Listing(q, found) && |found| <= n && Listed(found, es)
    ensures First(q, n, es)
  {
    hide Walk, Precedes;
    var i :| 0 <= i < |found| && found[i].edges == es;
    assert Genuine(q, found[i]);
    forall walks | AllReach(q, walks) && AllPrecede(walks, es) ensures |walks| < n {
      forall x | x in walks ensures x in Edges(found)[..i] {
        BeforeListed(q, found, i, x);
      }
      DistinctAmong(walks, Edges(found)[..i]);
    }
  }

  /** A list of n walks, or of all there are, is that of the first n walks. */
  lemma FullListing(q: Query, found: seq<Path>, n: nat)
    requires Listing(q, found) && |found| <= n && (|found| == n || Exhaustive(q, found))
    ensures FirstListed(q, found, n)
  {
    hide Walk, Precedes;
    forall es ensures Listed(found, es) <==> First(q, n, es) {
      if Listed(found, es) {
        ListedIsFirst(q, found, n, es);
      } else if Reaches(q, es) {
        EdgesReach(q, found);
        assert AllPrecede(Edges(found), es);
      }
    }
  }

  lemma EdgesReach(q: Query, found: seq<Path>)
    requires Listing(q, found)
    ensures AllReach(q, Edges(found))
  {
    hide Walk, Precedes;
    forall i, j | 0 <= i < j < |found| ensures found[i].edges != found[j].edges {
      PrecedesOneWay(found[i].edges, found[j].edges);
    }
    forall i | 0 <= i < |found| ensures Reaches(q, found[i].edges) {
      assert Genuine(q, found[i]);
    }
  }

  lemma FirstOfMore(q: Query, n: nat, m: nat, es: seq<nat>)
    requires First(q, n, es) && n <= m
    ensures First(q, m, es)
  {
  }

  /** The first n walks are all walks if and only if there are no more than n. */
  lemma FirstAreAll(q: Query, n: nat)
    ensures (forall es :: Reaches(q, es) ==> First(q, n, es)) <==> !Crowded(q, n)
  {
    hide Walk, Precedes;
    if walks :| AllReach(q, walks) && |walks| > n {
      LastOfMany(q, walks, n);
    }
    forall es | Reaches(q, es) && !First(q, n, es) ensures Crowded(q, n) {
      var walks :| AllReach(q, walks) && AllPrecede(walks, es) && |walks| >= n;
      if es in walks {
        PrecedesOneWay(es, es);
      }
      assert AllReach(q, walks + [es]);
    }
  }

  /** Of more than n walks, one has n others before it. */
  lemma LastOfMany(q: Query, walks: seq<seq<nat>>, n: nat)
    requires AllReach(q, walks) && |walks| > n
    ensures exists es :: Reaches(q, es) && !First(q, n, es)
  {
    hide Walk;
    var i := LatestOf(walks);
    var others := walks[..i] + walks[i + 1..];
    assert AllReach(q, others) && AllPrecede(others, walks[i]);
    assert Reaches(q, walks[i]) && !First(q, n, walks[i]);
  }

  lemma PrecedesOrEqual(a: seq<nat>, b: seq<nat>)
    ensures a == b || Precedes(a, b) || Precedes(b, a)
  {
    if |a| == |b| && a != b {
      var k := FirstDifference(a, b);
      assert PartsAt(a, b, k) || PartsAt(b, a, k);
    }
  }

  lemma {:induction false} FirstDifference(a: seq<nat>, b: seq<nat>) returns (k: nat)
    requires |a| == |b| && a != b
    ensures k < |a| && a[..k] == b[..k] && a[k] != b[k]
  {
    var n := |a| - 1;
    if a[..n] == b[..n] {
      assert a == a[..n] + [a[n]] && b == b[..n] + [b[n]];
      k := n;
    } else {
      k := FirstDifference(a[..n], b[..n]);
      assert a[..n][..k] == a[..k] && b[..n][..k] == b[..k];
    }
  }

  lemma {:induction false} LatestOf(walks: seq<seq<nat>>) returns (i: nat)
    requires walks != [] && Distinct(walks)
    ensures i < |walks| && forall j :: 0 <= j < |walks| && j != i ==> Precedes(walks[j], walks[i])
  {
    hide Precedes;
    var n := |walks| - 1;
    i := n;
    if n > 0 {
      var k := LatestOf(walks[..n]);
      PrecedesOrEqual(walks[k], walks[n]);
      if Precedes(walks[n], walks[k]) {
        i := k;
      } else {
        forall j | 0 <= j < n && j != k ensures Precedes(walks[j], walks[n]) {
          PrecedesFurther(walks[j], walks[k], walks[n]);
        }
      }
    }
  }

  /** The search is exhaustive if and only if there are no more walks than it may list. */
  lemma ExhaustiveUnlessCrowded(q: Query, found: seq<Path>, n: nat)
    requires FirstListed(q, found, n)
    ensures Exhaustive(q, found) <==> !Crowded(q, n)
  {
    FirstAreAll(q, n);
  }

  // ---------- the search ----------

  method Expand(q: Query, item: Item, queue: seq<Item>) returns (longer: seq<Item>)
    ensures longer == queue + AllChildren(q, item)
  {
    longer := queue;
    var edges := EdgesOf(q.graph, item.node);
    for index := 0 to |edges|
      invariant longer == queue + Children(q, item, index)
    {
      var next := Follow(q.graph, q.functionDepth, item, index);
      if next.Some? {
        longer := longer + [next.value];
      }
    }
  }

  // find_paths
  method FindPaths(q: Query, limits: Limits, signal: nat -> Signal, checks: nat, completion: Completion)
    returns (found: seq<Path>, checks': nat, completion': Completion, ghost drained: bool)
    ensures Listing(q, found) && |found| <= PathLimit(limits)
    ensures drained ==> Exhaustive(q, found)
    ensures !drained ==>
      || (exists n :: checks <= n < checks' && signal(n) != Quiet)
      || (limits.maxStates != 0 && completion' != Complete)
      || |found| == PathLimit(limits)
    // what is listed is among the first walks, and unless the search was cut short these are all listed
    ensures forall es :: Listed(found, es) ==> First(q, PathLimit(limits), es)
    ensures
      && (forall n :: checks <= n < checks' ==> signal(n) == Quiet)
      && (limits.maxStates == 0 || completion' == Complete)
      ==> FirstListed(q, found, PathLimit(limits))
    ensures signal(checks) != Quiet ==> found == []
    ensures completion' == completion || (completion == Complete && completion' == Limited && limits.maxStates != 0)
    ensures checks <= checks'
  {
    hide First, FirstListed, Walk, AllChildren;
    found, checks', completion', drained := [], checks, completion, true;
    if !Searchable(q) {
      FullListing(q, found, PathLimit(limits));
      return;
    }
    var queue := [Initial(q.start)];
    var searchStates := 0;
    StartFrontier(q);
    while queue != []
      invariant Frontier(q, found, queue)
      invariant |found| < PathLimit(limits)
      invariant checks <= checks' && completion' == completion
      invariant signal(checks) != Quiet ==> found == [] && checks' == checks
      decreases Weights(q, queue)
    {
      checks' := checks' + 1;
      if signal(checks' - 1) != Quiet { break; }
      if limits.maxStates != 0 && searchStates >= limits.maxStates {
        if completion' == Complete { completion' := Limited; }
        break;
      }
      var item := queue[0];
      searchStates := searchStates + 1;
      if item.node == q.goal {
        GoalFrontier(q, found, queue);
        DropWeighsLess(q, queue);
        queue := queue[1..];
        found := found + [item.path];
        if |found| >= PathLimit(limits) { break; }
        continue;
      }
      ExpandFrontier(q, found, queue);
      ExpandWeighsLess(q, queue);
      queue := Expand(q, item, queue[1..]);
    }
    drained := queue == [];
    FrontierListing(q, found, queue);
    forall es | Listed(found, es) ensures First(q, PathLimit(limits), es) {
      ListedIsFirst(q, found, PathLimit(limits), es);
    }
    if drained || |found| == PathLimit(limits) {
      FullListing(q, found, PathLimit(limits));
    }
  }
}
