/** What a no-flow verdict is worth for reach targets: exactly when it is right for every
    program and taint, and a graph on which the path limit or an interruption make it wrong. */
module TaintLimits {
  import opened Basics
  import opened TaintTags
  import opened TaintProgram
  import opened TaintVerdict
  import opened PathSearch
  import PathQuery

  /** The condition is that of an edge along the path. */
  ghost predicate Carries(g: Graph, path: Path, condition: Value)
  {
    condition != INVALID_VALUE &&
    exists i :: 0 <= i < |path.edges| && i < |path.nodes| && ConditionAt(g, path, i) == condition
  }

  ghost predicate OnWalk(e: Setting, s: nat, t: nat, condition: Value)
    requires s < |e.starts| && t < |e.targets|
  {
    exists es :: PathQuery.Reaches(e.Query(s, t), es) &&
      Carries(e.graph, PathQuery.PathOf(e.Query(s, t), es), condition)
  }

  /** The condition is on one of the walks that the path limit lets a search list. */
  ghost predicate OnFirstWalk(e: Setting, s: nat, t: nat, condition: Value)
    requires s < |e.starts| && t < |e.targets|
  {
    exists es :: PathQuery.First(e.Query(s, t), e.Limit(), es) &&
      Carries(e.graph, PathQuery.PathOf(e.Query(s, t), es), condition)
  }

  ghost predicate IsTarget(e: Setting, condition: Value)
  {
    exists t :: 0 <= t < |e.targets| && !e.targets[t].reach && condition in e.targets[t].values
  }

  ghost predicate OnSomeFirstWalk(e: Setting, s: nat, condition: Value)
    requires s < |e.starts|
  {
    exists t :: 0 <= t < |e.targets| && e.targets[t].reach && OnFirstWalk(e, s, t, condition)
  }

  /** No source influences the way to a reach target. */
  ghost predicate NothingInfluenced(p: Program, e: Setting)
  {
    forall s, t :: 0 <= s < |e.starts| && 0 <= t < |e.targets| && e.targets[t].reach ==>
      Uninfluenced(e.Query(s, t), p, e.options, s)
  }

  ghost predicate Asks(p: Program, e: Setting)
  {
    |p.sources| == |e.starts|
  }

  // ---------- a program that taints one condition ----------

  function OneSource(n: nat, source: nat, condition: Value): seq<Source>
  {
    seq(n, s => Source(Plain, if s == source then [condition] else [], 0, 0))
  }

  function OneTaint(n: nat, source: nat, condition: Value): Program
  {
    Program([], [], OneSource(n, source, condition), {}, {}, map[], map[], map[])
  }

  lemma OneTaintFlows(n: nat, source: nat, condition: Value, o: Options, s: nat, values: seq<Value>)
    requires source < n && condition != INVALID_VALUE
    ensures Flows(OneTaint(n, source, condition), o, s, values) <==> s == source && condition in values
  {
    var p := OneTaint(n, source, condition);
    forall c: Config ensures Reachable(p, o.functionDepth, c) <==> Seed(p, c) {
      StillReachable(p, o.functionDepth, c);
    }
    if s == source && condition in values {
      var c := Config(condition, SeedKey(s, Plain), 0);
      assert Seed(p, c) && c.value in values;
    }
  }

  /** A condition on a walk that nothing would notice is what a query misses. */
  lemma OneTaintInfluences(e: Setting, s: nat, t: nat, condition: Value)
    requires s < |e.starts| && t < |e.targets| && e.targets[t].reach && OnWalk(e, s, t, condition)
    ensures !NothingInfluenced(OneTaint(|e.starts|, s, condition), e)
  {
    hide PathQuery.PathOf, PathQuery.Reaches;
    var p, q := OneTaint(|e.starts|, s, condition), e.Query(s, t);
    var es :| PathQuery.Reaches(q, es) && Carries(e.graph, PathQuery.PathOf(q, es), condition);
    OneTaintFlows(|e.starts|, s, condition, e.options, s, [condition]);
    var path := PathQuery.PathOf(q, es);
    var i :| 0 <= i < |path.edges| && i < |path.nodes| && ConditionAt(e.graph, path, i) == condition;
    assert FlowsIntoCondition(q, p, e.options, s, path, i);
  }

  lemma OneTaintUnreached(e: Setting, s: nat, condition: Value)
    requires s < |e.starts| && condition != INVALID_VALUE && !IsTarget(e, condition)
    ensures Unreached(OneTaint(|e.starts|, s, condition), e)
  {
    forall r, t | 0 <= t < |e.targets| && !e.targets[t].reach
      ensures !Flows(OneTaint(|e.starts|, s, condition), e.options, r, e.targets[t].values)
    {
      if r >= 0 {
        OneTaintFlows(|e.starts|, s, condition, e.options, r, e.targets[t].values);
      }
    }
  }

  lemma OneTaintNotFound(e: Setting, s: nat, condition: Value)
    requires s < |e.starts| && condition != INVALID_VALUE
    requires !IsTarget(e, condition) && !OnSomeFirstWalk(e, s, condition)
    ensures NothingFound(OneTaint(|e.starts|, s, condition), e)
  {
    var p := OneTaint(|e.starts|, s, condition);
    OneTaintUnreached(e, s, condition);
    hide Flows, Unreached, PathQuery.First, PathQuery.PathOf;
    forall r, t, es | 0 <= r < |e.starts| && 0 <= t < |e.targets| && e.targets[t].reach &&
        PathQuery.First(e.Query(r, t), e.Limit(), es)
      ensures !InfluencedAlong(e.Query(r, t), p, e.options, r, PathQuery.PathOf(e.Query(r, t), es))
    {
      var q := e.Query(r, t);
      var path := PathQuery.PathOf(q, es);
      forall i | 0 <= i < |path.edges| && i < |path.nodes| ensures !FlowsIntoCondition(q, p, e.options, r, path, i) {
        OneTaintFlows(|e.starts|, s, condition, e.options, r, [ConditionAt(e.graph, path, i)]);
        assert ConditionAt(e.graph, path, i) == condition ==> OnFirstWalk(e, r, t, condition);
      }
    }
  }

  // ---------- when a no-flow verdict is right ----------

  /** The walk that a source influences has a condition that the source flows into. */
  lemma InfluencedCondition(p: Program, e: Setting, s: nat, t: nat) returns (condition: Value)
    requires s < |e.starts| && t < |e.targets| && !Uninfluenced(e.Query(s, t), p, e.options, s)
    ensures OnWalk(e, s, t, condition) && Flows(p, e.options, s, [condition])
  {
    hide PathQuery.PathOf, PathQuery.Reaches, Flows;
    var q := e.Query(s, t);
    var es :| PathQuery.Reaches(q, es) &&
      InfluencedAlong(q, p, e.options, s, PathQuery.PathOf(q, es));
    var path := PathQuery.PathOf(q, es);
    var i :| 0 <= i < |path.edges| && i < |path.nodes| && FlowsIntoCondition(q, p, e.options, s, path, i);
    condition := ConditionAt(e.graph, path, i);
  }

  lemma TargetReached(p: Program, e: Setting, s: nat, condition: Value)
    requires IsTarget(e, condition) && Flows(p, e.options, s, [condition])
    ensures !Unreached(p, e)
  {
    var t :| 0 <= t < |e.targets| && !e.targets[t].reach && condition in e.targets[t].values;
    var c: Config :| c.value in [condition] && c.key.source == s && Reachable(p, e.options.functionDepth, c);
    assert c.value in e.targets[t].values;
    assert Flows(p, e.options, s, e.targets[t].values);
  }

  lemma FirstWalkInfluenced(p: Program, e: Setting, s: nat, condition: Value)
    requires s < |e.starts| && OnSomeFirstWalk(e, s, condition) && Flows(p, e.options, s, [condition])
    ensures !NothingFound(p, e)
  {
    hide PathQuery.PathOf, PathQuery.AllReach, Flows;
    var t :| 0 <= t < |e.targets| && e.targets[t].reach && OnFirstWalk(e, s, t, condition);
    var q := e.Query(s, t);
    var es :| PathQuery.First(q, e.Limit(), es) &&
      Carries(e.graph, PathQuery.PathOf(q, es), condition);
    var path := PathQuery.PathOf(q, es);
    var i :| 0 <= i < |path.edges| && i < |path.nodes| && ConditionAt(e.graph, path, i) == condition;
    assert FlowsIntoCondition(q, p, e.options, s, path, i);
  }

  /** An uninterrupted query that answers no flow is right, whatever the program and
      whatever its sources taint, if and only if every condition on a walk to a reach
      target is also on a walk that a search lists, or is itself a target. */
  lemma NoFlowIsRight(e: Setting)
    ensures (forall p | Asks(p, e) && NothingFound(p, e) :: NothingInfluenced(p, e)) <==>
      (forall s, t, c | 0 <= s < |e.starts| && 0 <= t < |e.targets| && e.targets[t].reach && OnWalk(e, s, t, c) ::
        IsTarget(e, c) || OnSomeFirstWalk(e, s, c))
  {
    hide OnWalk, OnSomeFirstWalk, IsTarget, NothingFound, Uninfluenced, Flows;
    forall s, t, c | 0 <= s < |e.starts| && 0 <= t < |e.targets| && e.targets[t].reach && OnWalk(e, s, t, c) &&
        !IsTarget(e, c) && !OnSomeFirstWalk(e, s, c)
      ensures exists p :: Asks(p, e) && NothingFound(p, e) && !NothingInfluenced(p, e)
    {
      WalkConditionValid(e, s, t, c);
      OneTaintNotFound(e, s, c);
      OneTaintInfluences(e, s, t, c);
      assert Asks(OneTaint(|e.starts|, s, c), e);
    }
    forall p, s, t | Asks(p, e) && NothingFound(p, e) && 0 <= s < |e.starts| && 0 <= t < |e.targets| &&
        e.targets[t].reach && !Uninfluenced(e.Query(s, t), p, e.options, s)
      ensures exists c :: OnWalk(e, s, t, c) && !IsTarget(e, c) && !OnSomeFirstWalk(e, s, c)
    {
      var c := InfluencedCondition(p, e, s, t);
      UnreachedToo(p, e);
      if IsTarget(e, c) {
        TargetReached(p, e, s, c);
      }
      if OnSomeFirstWalk(e, s, c) {
        FirstWalkInfluenced(p, e, s, c);
      }
    }
  }

  lemma UnreachedToo(p: Program, e: Setting)
    requires NothingFound(p, e)
    ensures Unreached(p, e)
  {
  }

  lemma WalkConditionValid(e: Setting, s: nat, t: nat, c: Value)
    requires s < |e.starts| && t < |e.targets| && OnWalk(e, s, t, c)
    ensures c != INVALID_VALUE
  {
  }

  /** With a single reach target it is the listed walks that must have all conditions. */
  lemma NoFlowIsRightForOne(e: Setting)
    requires |e.targets| == 1 && e.targets[0].reach
    ensures (forall p | Asks(p, e) && NothingFound(p, e) :: NothingInfluenced(p, e)) <==>
      (forall s, c | 0 <= s < |e.starts| && OnWalk(e, s, 0, c) :: OnFirstWalk(e, s, 0, c))
  {
    NoFlowIsRight(e);
    hide OnWalk, OnFirstWalk, NothingFound, NothingInfluenced;
    assert forall c :: !IsTarget(e, c);
    assert forall s, c | 0 <= s < |e.starts| :: OnSomeFirstWalk(e, s, c) <==> OnFirstWalk(e, s, 0, c);
  }

  /** A query whose path searches are interrupted at once is right, whatever the program,
      if and only if all conditions on the walks are targets themselves. */
  lemma CutNoFlowIsRight(e: Setting)
    ensures (forall p | Asks(p, e) && Unreached(p, e) :: NothingInfluenced(p, e)) <==>
      (forall s, t, c | 0 <= s < |e.starts| && 0 <= t < |e.targets| && e.targets[t].reach && OnWalk(e, s, t, c) ::
        IsTarget(e, c))
  {
    hide OnWalk, IsTarget, Unreached, Uninfluenced, Flows;
    forall s, t, c | 0 <= s < |e.starts| && 0 <= t < |e.targets| && e.targets[t].reach && OnWalk(e, s, t, c) &&
        !IsTarget(e, c)
      ensures exists p :: Asks(p, e) && Unreached(p, e) && !NothingInfluenced(p, e)
    {
      WalkConditionValid(e, s, t, c);
      OneTaintUnreached(e, s, c);
      OneTaintInfluences(e, s, t, c);
      assert Asks(OneTaint(|e.starts|, s, c), e);
    }
    forall p, s, t | Asks(p, e) && Unreached(p, e) && 0 <= s < |e.starts| && 0 <= t < |e.targets| &&
        e.targets[t].reach && !Uninfluenced(e.Query(s, t), p, e.options, s)
      ensures exists c :: OnWalk(e, s, t, c) && !IsTarget(e, c)
    {
      var c := InfluencedCondition(p, e, s, t);
      if IsTarget(e, c) {
        TargetReached(p, e, s, c);
      }
    }
  }

  // ---------- a hidden detour ----------

  const PLAIN: Value := 7
  const TAINTED: Value := 8

  /** Node 0 branches on a plain condition to node 1 or node 2, and node 2 on a tainted
      one to node 1 or node 3. */
  const FORK: Graph := [
    Node(0, [Edge(OtherEdge, 1, PLAIN), Edge(OtherEdge, 2, PLAIN)]),
    Node(2, []),
    Node(2, [Edge(OtherEdge, 1, TAINTED), Edge(OtherEdge, 3, TAINTED)]),
    Node(4, [])]

  const NO_ARGUMENTS := Terminator(Jump([], []), Jump([], []))

  const BRANCHES := Program(
    [], [NO_ARGUMENTS, NO_ARGUMENTS, NO_ARGUMENTS, NO_ARGUMENTS],
    [Source(Plain, [TAINTED], 0, 0)], {}, {}, map[], map[], map[])

  /** Does the tainted value influence the way from node 0 to node 1? */
  function Question(maxPaths: nat, signal: nat -> Signal): Setting
  {
    Setting(FORK, Options(0, 0, 0), maxPaths, [0], [Target(true, 1, [])], signal)
  }

  const WAY := PathQuery.Query(FORK, 0, 0, 1)

  lemma WalksOfOne(edge: nat)
    ensures PathQuery.WalkOf(WAY, [edge]) ==
      match edge
      case 0 => Some(Item(1, [], 0, [0, 1], Path([0, 1], [0], 0)))
      case 1 => Some(Item(2, [], 0, [0, 2], Path([0, 2], [1], 0)))
      case _ => None
  {
    assert [edge][..0] == [];
    assert PathQuery.WalkOf(WAY, []) == Some(Initial(0));
    if edge < 2 {
      EnterFork(Initial(0), edge + 1, edge);
      assert [0] + [edge + 1] == [0, edge + 1] && [] + [edge] == [edge];
    }
  }

  lemma EnterFork(item: Item, destination: nat, edge: nat)
    requires destination < 4 && destination !in item.history
    ensures Enter(FORK, item, destination, item.returnStack, 0, edge) ==
      Some(Item(destination, item.returnStack, 0, item.history + [destination],
                Path(item.path.nodes + [destination], item.path.edges + [edge], item.path.depth)))
  {
    assert ContextKey(FORK, 0, destination) == destination;
  }

  lemma WalksOfTwo(first: nat, second: nat)
    ensures PathQuery.WalkOf(WAY, [first, second]) ==
      if first == 1 && second == 2 then Some(Item(1, [], 0, [0, 2, 1], Path([0, 2, 1], [1, 2], 0)))
      else if first == 1 && second == 3 then Some(Item(3, [], 0, [0, 2, 3], Path([0, 2, 3], [1, 3], 0)))
      else None
  {
    assert [first, second][..1] == [first];
    WalksOfOne(first);
    if first == 1 && (second == 2 || second == 3) {
      var end := if second == 2 then 1 else 3;
      EnterFork(PathQuery.WalkOf(WAY, [1]).value, end, second);
      assert [0, 2] + [end] == [0, 2, end] && [1] + [second] == [1, second];
    }
  }

  lemma NothingLonger(es: seq<nat>)
    requires |es| > 2
    ensures PathQuery.WalkOf(WAY, es).None?
  {
    assert es[..2] == [es[0], es[1]];
    WalksOfTwo(es[0], es[1]);
    assert es[..3][..2] == es[..2];
    assert PathQuery.WalkOf(WAY, es[..3]).None?;
    if PathQuery.WalkOf(WAY, es).Some? {
      WalkPrefix(FORK, 0, 0, 1, es, 2);
    }
  }

  /** There are no other walks. */
  lemma TwoWays(es: seq<nat>)
    ensures PathQuery.Reaches(WAY, es) <==> es == [0] || es == [1, 2]
  {
    WalksOfOne(0);
    WalksOfTwo(1, 2);
    if |es| == 1 {
      assert es == [es[0]];
      WalksOfOne(es[0]);
    } else if |es| == 2 {
      assert es == [es[0], es[1]];
      WalksOfTwo(es[0], es[1]);
    } else if |es| > 2 {
      NothingLonger(es);
    }
  }

  /** Of the two walks the direct one comes first. */
  lemma FirstWays(es: seq<nat>)
    ensures PathQuery.First(WAY, 1, es) <==> es == [0]
    ensures PathQuery.First(WAY, 2, es) <==> es == [0] || es == [1, 2]
  {
    TwoWays([0]);
    TwoWays(es);
    hide PathQuery.Reaches;
    forall walks | PathQuery.AllReach(WAY, walks) && PathQuery.AllPrecede(walks, es) && es in {[0], [1, 2]}
      ensures |walks| <= 1 && (es == [0] ==> walks == [])
    {
      NoneTwice(walks, es);
    }
    if es == [1, 2] {
      assert PathQuery.AllReach(WAY, [[0]]) && PathQuery.AllPrecede([[0]], es);
    }
  }

  lemma NoneTwice(walks: seq<seq<nat>>, es: seq<nat>)
    requires PathQuery.AllReach(WAY, walks) && PathQuery.AllPrecede(walks, es) && es in {[0], [1, 2]}
    ensures |walks| <= 1 && (es == [0] ==> walks == [])
  {
    hide PathQuery.Reaches;
    forall x | x in walks ensures es == [1, 2] && x in [[0]] {
      var i :| 0 <= i < |walks| && walks[i] == x;
      TwoWays(walks[i]);
      assert PathQuery.Precedes(walks[i], es);
    }
    DistinctAmong(walks, [[0]]);
    if walks != [] {
      assert walks[0] in walks;
    }
  }

  lemma DetourInfluenced(e: Setting)
    requires exists maxPaths: nat, signal :: e == Question(maxPaths, signal)
    ensures !NothingInfluenced(BRANCHES, e)
    ensures InfluencedAlong(WAY, BRANCHES, e.options, 0, PathQuery.PathOf(WAY, [1, 2]))
  {
    TwoWays([1, 2]);
    WalksOfTwo(1, 2);
    var path := PathQuery.PathOf(WAY, [1, 2]);
    TaintedFlows(e.options, TAINTED);
    assert ConditionAt(FORK, path, 1) == TAINTED;
    assert FlowsIntoCondition(WAY, BRANCHES, e.options, 0, path, 1);
    assert e.Query(0, 0) == WAY;
    assert !Uninfluenced(e.Query(0, 0), BRANCHES, e.options, 0);
  }

  lemma TaintedFlows(o: Options, v: Value)
    ensures Flows(BRANCHES, o, 0, [v]) <==> v == TAINTED
  {
    forall c: Config ensures Reachable(BRANCHES, o.functionDepth, c) <==> Seed(BRANCHES, c) {
      StillReachable(BRANCHES, o.functionDepth, c);
    }
    var c := Config(TAINTED, SeedKey(0, Plain), 0);
    assert Seed(BRANCHES, c) && c.value in [TAINTED];
  }

  lemma DirectUninfluenced(e: Setting)
    requires e == Question(0, e.signal)
    ensures NothingFound(BRANCHES, e)
  {
    hide PathQuery.First;
    forall es | PathQuery.First(WAY, 1, es)
      ensures !InfluencedAlong(WAY, BRANCHES, e.options, 0, PathQuery.PathOf(WAY, es))
    {
      FirstWays(es);
      WalksOfOne(0);
      assert ConditionAt(FORK, Path([0, 1], [0], 0), 0) == PLAIN;
      TaintedFlows(e.options, PLAIN);
    }
    assert e.Query(0, 0) == WAY && e.Limit() == 1;
  }

  lemma DetourFound(e: Setting)
    requires e == Question(2, e.signal)
    ensures !NothingFound(BRANCHES, e)
  {
    FirstWays([1, 2]);
    DetourInfluenced(e);
    hide InfluencedAlong, PathQuery.First;
    assert e.Query(0, 0) == WAY && e.Limit() == 2;
    assert !FirstUninfluenced(WAY, BRANCHES, e.options, 0, 2);
  }

  function Never(check: nat): Signal { Quiet }

  function AfterTwo(check: nat): Signal { if check < 2 then Quiet else CancelRequested }

  /** With every budget disabled and no interruption, the query answers no flow although
      the source influences the way. */
  method PathLimitHidesDetour() returns (verdict: Verdict)
    ensures verdict == NoFlow && !NothingInfluenced(BRANCHES, Question(0, Never))
  {
    var question := Question(0, Never);
    var influences, completion;
    ghost var settled, searches;
    hide NothingFound, NothingInfluenced, Unreached, Uninfluenced, AllWitnessed, AllReported, Setting.Crowded;
    DirectUninfluenced(question);
    DetourInfluenced(question);
    verdict, influences, completion, settled, searches := DirectedTaint(BRANCHES, question, true);
  }

  /** With two paths it finds the influence. */
  method TwoPathsFindDetour() returns (verdict: Verdict)
    ensures verdict == MayFlow
  {
    var question := Question(2, Never);
    var influences, completion;
    ghost var settled, searches;
    hide NothingFound, NothingInfluenced, Unreached, Uninfluenced, AllWitnessed, AllReported, Setting.Crowded;
    DetourFound(question);
    verdict, influences, completion, settled, searches := DirectedTaint(BRANCHES, question, true);
  }

  /** With two paths it still answers no flow if it is cancelled as soon as it searches for paths: the
      fixpoint is complete, and that is all that the verdict looks at. */
  method InterruptionHidesDetour() returns (verdict: Verdict)
    ensures verdict == NoFlow && !NothingInfluenced(BRANCHES, Question(2, AfterTwo))
  {
    hide *;
    var question := Question(2, AfterTwo);
    var influences, completion;
    ghost var settled, searches;
    DetourInfluenced(question);
    LateQuestion(question);
    NoValueTargets(question);
    verdict, influences, completion, settled, searches := DirectedTaint(BRANCHES, question, true);
  }

  lemma LateQuestion(e: Setting)
    requires e == Question(2, AfterTwo)
    ensures e.Grounded() && |BRANCHES.sources| == |e.starts| && Still(BRANCHES)
    ensures forall t :: 0 <= t < |e.targets| ==> e.targets[t].reach
    ensures e.options.maxStates == 0 && e.options.maxTaintBytes == 0
    ensures e.CutFrom(2) && forall n :: 0 <= n < 2 ==> e.signal(n) == Quiet
  {
  }

  lemma NoValueTargets(e: Setting)
    requires forall t :: 0 <= t < |e.targets| ==> e.targets[t].reach
    ensures Unreached(BRANCHES, e)
  {
  }
}
