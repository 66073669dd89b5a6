/** The taint-mode query from its seeds to its verdict: the fixpoint, the value
    influences read off the tag table, the control influences found on paths, and
    what the verdict then says about dependency chains. */
module TaintVerdict {
  import opened Basics
  import opened TaintTags
  import opened TaintProgram
  import opened TaintTheory
  import opened TaintEngine
  import PathSearch
  import PathQuery

  datatype Target = Target(reach: bool, node: nat, values: seq<Value>)

  datatype Influence = Influence(source: nat, target: nat, depth: nat, control: bool)

  datatype Verdict = MayFlow | NoFlow | Undecided

  /** Truncated taint sources make the query limited from the start. */
  predicate Oversized(o: Options, source: Source)
  {
    source.kind != Plain && o.maxTaintBytes != 0 && source.length > o.maxTaintBytes
  }

  predicate Influenced(influences: seq<Influence>, source: nat, target: nat)
  {
    exists i :: 0 <= i < |influences| && influences[i].source == source && influences[i].target == target
  }

  // ---------- control influences ----------

  function EdgeOf(g: PathSearch.Graph, from: nat, edge: nat): Option<PathSearch.Edge>
  {
    if from < |g| && g[from].edgeOffset <= edge < g[from].edgeOffset + |g[from].edges|
    then Some(g[from].edges[edge - g[from].edgeOffset])
    else None
  }

  predicate TaggedBy(tags: Tags, value: Value, source: nat)
  {
    exists i :: 0 <= i < |At(tags, value)| && At(tags, value)[i].key.source == source
  }

  /** The condition of the walk's i-th edge. */
  function ConditionAt(g: PathSearch.Graph, path: PathSearch.Path, i: nat): Value
    requires i < |path.edges| && i < |path.nodes|
  {
    match EdgeOf(g, path.nodes[i], path.edges[i])
    case Some(e) => e.condition
    case None => INVALID_VALUE
  }

  predicate ControlledAt(g: PathSearch.Graph, tags: Tags, path: PathSearch.Path, source: nat, i: nat)
    requires i < |path.edges|
  {
    && i < |path.nodes|
    && ConditionAt(g, path, i) != INVALID_VALUE
    && TaggedBy(tags, ConditionAt(g, path, i), source)
  }

  predicate Controlled(g: PathSearch.Graph, tags: Tags, path: PathSearch.Path, source: nat)
  {
    exists i :: 0 <= i < |path.edges| && ControlledAt(g, tags, path, source, i)
  }

  method Controls(g: PathSearch.Graph, tags: Tags, path: PathSearch.Path, source: nat) returns (controls: bool)
    requires |path.nodes| == |path.edges| + 1
    ensures controls <==> Controlled(g, tags, path, source)
  {
    controls := false;
    for i := 0 to |path.edges|
      invariant controls ==> Controlled(g, tags, path, source)
      invariant !controls ==> forall j :: 0 <= j < i ==> !ControlledAt(g, tags, path, source, j)
    {
      var condition := ConditionAt(g, path, i);
      if condition != INVALID_VALUE && TaggedBy(tags, condition, source) {
        assert ControlledAt(g, tags, path, source, i);
        controls := true;
      }
    }
  }

  /** None of the first n matched walks to the target passes a condition that the source taints. */
  ghost predicate Uncontrolled(q: PathQuery.Query, tags: Tags, source: nat, n: nat)
  {
    forall es :: PathQuery.First(q, n, es) ==>
      !Controlled(q.graph, tags, PathQuery.PathOf(q, es), source)
  }

  /** The control influence of one source on one reach target. */
  method ControlInfluence(q: PathQuery.Query, tags: Tags, paths: seq<PathSearch.Path>, source: nat)
    returns (controls: bool, at: nat)
    requires forall i :: 0 <= i < |paths| ==> |paths[i].nodes| == |paths[i].edges| + 1
    ensures controls ==> at < |paths| && Controlled(q.graph, tags, paths[at], source)
    ensures !controls ==> forall i :: 0 <= i < |paths| ==> !Controlled(q.graph, tags, paths[i], source)
  {
    controls, at := false, 0;
    for i := 0 to |paths|
      invariant controls ==> at < i && Controlled(q.graph, tags, paths[at], source)
      invariant !controls ==> forall j :: 0 <= j < i ==> !Controlled(q.graph, tags, paths[j], source)
    {
      var here := Controls(q.graph, tags, paths[i], source);
      if here && !controls {
        controls, at := true, i;
      }
    }
  }

  lemma GenuineShape(q: PathQuery.Query, paths: seq<PathSearch.Path>)
    requires q.start < |q.graph| && PathQuery.Listing(q, paths)
    ensures forall i :: 0 <= i < |paths| ==> |paths[i].nodes| == |paths[i].edges| + 1
  {
    forall i | 0 <= i < |paths| ensures |paths[i].nodes| == |paths[i].edges| + 1 {
      PathSearch.WalkConsistent(q.graph, q.functionDepth, q.start, q.goal, paths[i].edges);
    }
  }

  /** If the listed paths are the first n and none is controlled, none of these walks is. */
  lemma ListedUncontrolled(q: PathQuery.Query, tags: Tags, paths: seq<PathSearch.Path>, source: nat, n: nat)
    requires PathQuery.Listing(q, paths) && PathQuery.FirstListed(q, paths, n)
    requires forall i :: 0 <= i < |paths| ==> !Controlled(q.graph, tags, paths[i], source)
    ensures Uncontrolled(q, tags, source, n)
  {
    hide PathQuery.First;
    forall es | PathQuery.First(q, n, es)
      ensures !Controlled(q.graph, tags, PathQuery.PathOf(q, es), source)
    {
      assert PathQuery.Listed(paths, es);
      var i :| 0 <= i < |paths| && paths[i].edges == es;
      assert PathQuery.Genuine(q, paths[i]);
    }
  }

  lemma ListedControlled(q: PathQuery.Query, tags: Tags, paths: seq<PathSearch.Path>, i: nat, source: nat, n: nat)
    requires PathQuery.Listing(q, paths) && i < |paths| && Controlled(q.graph, tags, paths[i], source)
    requires forall es :: PathQuery.Listed(paths, es) ==> PathQuery.First(q, n, es)
    ensures !Uncontrolled(q, tags, source, n)
  {
    assert PathQuery.Genuine(q, paths[i]) && PathQuery.Listed(paths, paths[i].edges);
  }

  lemma MoreUncontrolled(q: PathQuery.Query, tags: Tags, source: nat, n: nat, m: nat)
    requires Uncontrolled(q, tags, source, m) && n <= m
    ensures Uncontrolled(q, tags, source, n)
  {
    forall es | PathQuery.First(q, n, es)
      ensures !Controlled(q.graph, tags, PathQuery.PathOf(q, es), source)
    {
      PathQuery.FirstOfMore(q, n, m, es);
    }
  }

  // ---------- value influences ----------

  function TagInfluences(ts: seq<Tag>, target: nat): seq<Influence>
  {
    seq(|ts|, i requires 0 <= i < |ts| => Influence(ts[i].key.source, target, ts[i].depth, false))
  }

  /** The influence is that of a tag stored at one of its target's values. */
  ghost predicate ReadOff(tags: Tags, targets: seq<Target>, influence: Influence)
  {
    && influence.target < |targets| && !targets[influence.target].reach && !influence.control
    && exists v, tag :: v in targets[influence.target].values && tag in At(tags, v) &&
         tag.key.source == influence.source && tag.depth == influence.depth
  }

  ghost predicate AllRead(tags: Tags, influences: seq<Influence>, target: nat, v: Value)
  {
    forall tag :: tag in At(tags, v) ==> Influence(tag.key.source, target, tag.depth, false) in influences
  }

  method ReadValues(tags: Tags, targets: seq<Target>) returns (influences: seq<Influence>)
    ensures forall x :: x in influences ==> ReadOff(tags, targets, x)
    ensures forall t, v :: 0 <= t < |targets| && !targets[t].reach && v in targets[t].values ==>
      AllRead(tags, influences, t, v)
  {
    influences := [];
    for t := 0 to |targets|
      invariant forall x :: x in influences ==> ReadOff(tags, targets, x)
      invariant forall u, v :: 0 <= u < t && !targets[u].reach && v in targets[u].values ==>
        AllRead(tags, influences, u, v)
    {
      if !targets[t].reach {
        influences := ReadTarget(tags, targets, t, influences);
      }
    }
  }

  method ReadTarget(tags: Tags, targets: seq<Target>, t: nat, before: seq<Influence>)
    returns (influences: seq<Influence>)
    requires t < |targets| && !targets[t].reach
    ensures before <= influences
    ensures forall x :: x in influences ==> x in before || ReadOff(tags, targets, x)
    ensures forall v :: v in targets[t].values ==> AllRead(tags, influences, t, v)
  {
    influences := before;
    var values := targets[t].values;
    for i := 0 to |values|
      invariant before <= influences
      invariant forall x :: x in influences ==> x in before || ReadOff(tags, targets, x)
      invariant forall j :: 0 <= j < i ==> AllRead(tags, influences, t, values[j])
    {
      var found := At(tags, values[i]);
      var more := TagInfluences(found, t);
      forall tag | tag in found ensures Influence(tag.key.source, t, tag.depth, false) in more {
        var k :| 0 <= k < |found| && found[k] == tag;
        assert more[k] == Influence(tag.key.source, t, tag.depth, false);
      }
      influences := influences + more;
    }
  }

  // ---------- the pairs of sources and targets ----------

  /** What stays the same throughout one query. */
  datatype Setting = Setting(graph: PathSearch.Graph, options: Options, maxPaths: nat,
                             starts: seq<nat>, targets: seq<Target>, signal: nat -> Signal)
  {
    function Limit(): nat
    {
      PathQuery.PathLimit(PathQuery.Limits(options.maxStates, maxPaths))
    }

    function Query(s: nat, t: nat): PathQuery.Query
      requires s < |starts| && t < |targets|
    {
      PathQuery.Query(graph, options.functionDepth, starts[s], targets[t].node)
    }

    predicate Grounded()
    {
      forall s :: 0 <= s < |starts| ==> starts[s] < |graph|
    }

    ghost predicate Uninterrupted()
    {
      forall n :: signal(n) == Quiet
    }

    /** From the k-th check on, every check interrupts. */
    ghost predicate CutFrom(k: nat)
    {
      forall n :: n >= k ==> signal(n) != Quiet
    }

    /** More matched walks lead to the target than the path limit lets a search list. */
    ghost predicate Crowded(s: nat, t: nat)
      requires s < |starts| && t < |targets|
    {
      PathQuery.Crowded(Query(s, t), Limit())
    }

    /** A reach target the source does not control on the walks that the path limit lets a search list. */
    ghost predicate PairClear(tags: Tags, s: nat, t: nat)
      requires s < |starts| && t < |targets|
    {
      targets[t].reach ==> Uncontrolled(Query(s, t), tags, s, Limit())
    }

    /** The influence is a control influence that one of these walks shows. */
    ghost predicate ShownByWalk(tags: Tags, x: Influence)
    {
      && x.control && x.source < |starts| && x.target < |targets| && targets[x.target].reach
      && !Uncontrolled(Query(x.source, x.target), tags, x.source, Limit())
    }
  }

  datatype PairSearch = PairSearch(influences: seq<Influence>, candidates: nat, completion: Completion, checks: nat)

  /** Influences only grow, new ones are shown by walks and need an uninterrupted check,
      and a completion other than complete stays; without a state budget it does not
      change at all. */
  ghost predicate Continues(e: Setting, tags: Tags, before: PairSearch, after: PairSearch)
  {
    && before.influences <= after.influences
    && (forall x :: x in after.influences ==> x in before.influences || e.ShownByWalk(tags, x))
    && (after.influences == [] ==> after.candidates == 0)
    && before.checks <= after.checks
    && (e.CutFrom(before.checks) ==> after.influences == before.influences)
    && (before.completion != Complete ==> after.completion != Complete)
    && (e.options.maxStates == 0 ==> after.completion == before.completion)
  }

  /** A search that found nothing, was not interrupted and stayed complete. */
  ghost predicate Clean(e: Setting, after: PairSearch)
  {
    after.influences == [] && after.completion == Complete && e.Uninterrupted()
  }

  lemma ContinuesStart(e: Setting, tags: Tags, a: PairSearch)
    requires a.influences == [] ==> a.candidates == 0
    ensures Continues(e, tags, a, a)
  {
  }

  /** A search without influences has collected nothing, so its guards never stopped it. */
  lemma ContinuesCandidates(e: Setting, tags: Tags, a: PairSearch, b: PairSearch)
    requires Continues(e, tags, a, b)
    ensures b.influences == [] ==> b.candidates == 0
    ensures Clean(e, b) ==> b.candidates < e.Limit()
  {
  }

  lemma ContinuesComposes(e: Setting, tags: Tags, a: PairSearch, b: PairSearch, c: PairSearch)
    requires Continues(e, tags, a, b) && Continues(e, tags, b, c)
    ensures Continues(e, tags, a, c) && (Clean(e, c) ==> Clean(e, b))
  {
  }

  /** A path search between a source and a target, and how many walks it listed. */
  datatype Search = Search(source: nat, target: nat, count: nat)

  ghost predicate Made(e: Setting, search: Search)
  {
    search.source < |e.starts| && search.target < |e.targets| && search.count <= e.Limit()
  }

  /** The listed walks to a reach target are not controlled by the source. */
  ghost predicate FoundNothing(e: Setting, tags: Tags, search: Search)
    requires Made(e, search)
  {
    e.targets[search.target].reach ==>
      Uncontrolled(e.Query(search.source, search.target), tags, search.source, search.count)
  }

  /** The searches add an influence exactly if one of them found a controlled walk. */
  ghost predicate Tell(e: Setting, tags: Tags, before: PairSearch, after: PairSearch, searches: seq<Search>)
  {
    && before.influences <= after.influences
    && (forall search <- searches :: Made(e, search))
    && (after.influences == before.influences <==> forall search <- searches :: FoundNothing(e, tags, search))
  }

  lemma TellNothing(e: Setting, tags: Tags, a: PairSearch)
    ensures Tell(e, tags, a, a, [])
  {
  }

  lemma TellOne(e: Setting, tags: Tags, a: PairSearch, b: PairSearch, search: Search)
    requires a.influences <= b.influences && Made(e, search)
    requires b.influences == a.influences <==> FoundNothing(e, tags, search)
    ensures Tell(e, tags, a, b, [search])
  {
    hide Made, FoundNothing;
    assert search in [search];
  }

  lemma TellMore(e: Setting, tags: Tags, a: PairSearch, b: PairSearch, c: PairSearch,
                 first: seq<Search>, second: seq<Search>)
    requires Tell(e, tags, a, b, first) && Tell(e, tags, b, c, second)
    ensures Tell(e, tags, a, c, first + second)
  {
    hide FoundNothing, Made;
    assert forall search <- first :: search in first + second;
    assert forall search <- second :: search in first + second;
    assert c.influences == a.influences ==> b.influences == a.influences && c.influences == b.influences;
  }

  /** What the listed paths say about one source and one reach target. */
  method PairInfluence(e: Setting, tags: Tags, s: nat, t: nat, paths: seq<PathSearch.Path>, ghost n: nat)
    returns (controls: bool, at: nat)
    requires s < |e.starts| && t < |e.targets| && e.Grounded() && e.targets[t].reach
    requires PathQuery.Listing(e.Query(s, t), paths) && n <= e.Limit()
    requires forall es :: PathQuery.Listed(paths, es) ==> PathQuery.First(e.Query(s, t), n, es)
    ensures controls ==> at < |paths| && e.ShownByWalk(tags, Influence(s, t, paths[at].depth, true))
    ensures !controls && PathQuery.FirstListed(e.Query(s, t), paths, e.Limit()) ==>
      Uncontrolled(e.Query(s, t), tags, s, e.Limit())
    ensures controls <==> !Uncontrolled(e.Query(s, t), tags, s, |paths|)
  {
    var q := e.Query(s, t);
    GenuineShape(q, paths);
    PathQuery.FullListing(q, paths, |paths|);
    ghost var listed := |paths|;
    assert forall es :: PathQuery.Listed(paths, es) ==> PathQuery.First(q, listed, es);
    hide Controlled, Uncontrolled, PathQuery.First, PathQuery.Listing, PathQuery.Listed, PathQuery.FirstListed;
    controls, at := ControlInfluence(q, tags, paths, s);
    if controls {
      ListedControlled(q, tags, paths, at, s, n);
      ListedControlled(q, tags, paths, at, s, listed);
      if Uncontrolled(q, tags, s, e.Limit()) {
        MoreUncontrolled(q, tags, s, n, e.Limit());
      }
    } else {
      ListedUncontrolled(q, tags, paths, s, listed);
      if PathQuery.FirstListed(q, paths, e.Limit()) {
        ListedUncontrolled(q, tags, paths, s, e.Limit());
      }
    }
  }

  method SearchPair(e: Setting, tags: Tags, s: nat, t: nat, before: PairSearch)
    returns (after: PairSearch, ghost search: Search)
    requires s < |e.starts| && t < |e.targets| && e.Grounded()
    requires before.candidates < e.Limit()
    requires before.influences == [] ==> before.candidates == 0
    ensures Continues(e, tags, before, after)
    ensures Clean(e, after) ==> e.PairClear(tags, s, t)
    ensures Tell(e, tags, before, after, [search]) && search.source == s && search.target == t
  {
    hide *;
    var left := e.Limit() - before.candidates;
    LimitLeft(e, before.candidates);
    var limits := PathQuery.Limits(e.options.maxStates, left);
    var paths, checks, completion, drained :=
      PathQuery.FindPaths(e.Query(s, t), limits, e.signal, before.checks, before.completion);
    var more: seq<Influence> := [];
    var added := 0;
    if e.targets[t].reach {
      var controls, at := PairInfluence(e, tags, s, t, paths, left);
      if controls {
        more := [Influence(s, t, paths[at].depth, true)];
        added := |paths| - at;
      }
    }
    if Influenced(before.influences, s, t) {
      assert before.influences != [] by {
        InfluencedBySome(before.influences, s, t);
      }
      added := |paths|;
    }
    after := PairSearch(before.influences + more, before.candidates + added, completion, checks);
    search := Search(s, t, |paths|);
    PairMade(e, tags, search, before, after, more);
    PairContinues(e, tags, before, after, more);
    PairCleared(e, tags, s, t, before, after, paths);
  }

  lemma LimitLeft(e: Setting, used: nat)
    requires used < e.Limit()
    ensures PathQuery.PathLimit(PathQuery.Limits(e.options.maxStates, e.Limit() - used)) == e.Limit() - used
  {
  }

  lemma InfluencedBySome(influences: seq<Influence>, s: nat, t: nat)
    requires Influenced(influences, s, t)
    ensures influences != []
  {
  }

  lemma PairMade(e: Setting, tags: Tags, search: Search, before: PairSearch, after: PairSearch, more: seq<Influence>)
    requires after.influences == before.influences + more
    requires search.source < |e.starts| && search.target < |e.targets| && search.count <= e.Limit()
    requires
      var q := e.Query(search.source, search.target);
      more != [] <==> (e.targets[search.target].reach && !Uncontrolled(q, tags, search.source, search.count))
    ensures Tell(e, tags, before, after, [search])
  {
    hide Uncontrolled;
    TellOne(e, tags, before, after, search);
  }

  lemma PairContinues(e: Setting, tags: Tags, before: PairSearch, after: PairSearch, more: seq<Influence>)
    requires after.influences == before.influences + more
    requires forall x <- more :: e.ShownByWalk(tags, x)
    requires after.influences == [] ==> after.candidates == 0
    requires before.checks <= after.checks
    requires e.signal(before.checks) != Quiet ==> more == []
    requires after.completion == before.completion ||
      (before.completion == Complete && after.completion == Limited && e.options.maxStates != 0)
    ensures Continues(e, tags, before, after)
  {
    hide Setting.ShownByWalk;
  }

  lemma PairCleared(e: Setting, tags: Tags, s: nat, t: nat, before: PairSearch, after: PairSearch,
                    paths: seq<PathSearch.Path>)
    requires s < |e.starts| && t < |e.targets| && before.checks <= after.checks
    requires
      && (forall n :: before.checks <= n < after.checks ==> e.signal(n) == Quiet)
      && (e.options.maxStates == 0 || after.completion == Complete)
      && after.influences == []
      ==> PathQuery.FirstListed(e.Query(s, t), paths, e.Limit())
    requires after.influences == [] && e.targets[t].reach && PathQuery.FirstListed(e.Query(s, t), paths, e.Limit()) ==>
      Uncontrolled(e.Query(s, t), tags, s, e.Limit())
    ensures Clean(e, after) ==> e.PairClear(tags, s, t)
  {
    hide PathQuery.FirstListed, Uncontrolled;
  }

  /** All targets of one source, until enough candidate paths are collected. */
  method SearchSource(e: Setting, tags: Tags, s: nat, before: PairSearch)
    returns (after: PairSearch, ghost searches: seq<Search>)
    requires s < |e.starts| && e.Grounded()
    requires before.influences == [] ==> before.candidates == 0
    ensures Continues(e, tags, before, after)
    ensures Clean(e, after) ==> forall t :: 0 <= t < |e.targets| ==> e.PairClear(tags, s, t)
    ensures Tell(e, tags, before, after, searches)
  {
    hide *;
    after, searches := before, [];
    TellNothing(e, tags, before);
    ContinuesStart(e, tags, before);
    var t := 0;
    while t < |e.targets| && after.candidates < e.Limit()
      invariant 0 <= t <= |e.targets|
      invariant Continues(e, tags, before, after)
      invariant Clean(e, after) ==> forall u :: 0 <= u < t ==> e.PairClear(tags, s, u)
      invariant Tell(e, tags, before, after, searches)
    {
      ghost var middle := after;
      ghost var search;
      ContinuesCandidates(e, tags, before, middle);
      after, search := SearchPair(e, tags, s, t, after);
      TellMore(e, tags, before, middle, after, searches, [search]);
      searches := searches + [search];
      ContinuesComposes(e, tags, before, middle, after);
      t := t + 1;
    }
    ContinuesCandidates(e, tags, before, after);
  }

  method SearchPairs(e: Setting, tags: Tags, before: PairSearch)
    returns (after: PairSearch, ghost searches: seq<Search>)
    requires e.Grounded() && before.candidates == 0
    ensures Continues(e, tags, before, after)
    ensures Clean(e, after) ==>
      forall s, t :: 0 <= s < |e.starts| && 0 <= t < |e.targets| ==> e.PairClear(tags, s, t)
    ensures Tell(e, tags, before, after, searches)
  {
    hide *;
    after, searches := before, [];
    TellNothing(e, tags, before);
    ContinuesStart(e, tags, before);
    var s := 0;
    while s < |e.starts| && after.candidates < e.Limit()
      invariant 0 <= s <= |e.starts|
      invariant Continues(e, tags, before, after)
      invariant Clean(e, after) ==>
        forall r, t :: 0 <= r < s && 0 <= t < |e.targets| ==> e.PairClear(tags, r, t)
      invariant Tell(e, tags, before, after, searches)
    {
      ghost var middle := after;
      ghost var more;
      ContinuesCandidates(e, tags, before, middle);
      after, more := SearchSource(e, tags, s, after);
      TellMore(e, tags, before, middle, after, searches, more);
      searches := searches + more;
      ContinuesComposes(e, tags, before, middle, after);
      s := s + 1;
    }
    ContinuesCandidates(e, tags, before, after);
  }

  // ---------- the query ----------

  function InitialCompletion(p: Program, o: Options): Completion
  {
    if exists i :: 0 <= i < |p.sources| && Oversized(o, p.sources[i]) then Limited else Complete
  }

  function Conclude(influences: seq<Influence>, completion: Completion): Verdict
  {
    if influences != [] then MayFlow
    else if completion == Complete then NoFlow
    else Undecided
  }

  /** A dependency chain leads from the source to one of the values. */
  ghost predicate Flows(p: Program, o: Options, source: nat, values: seq<Value>)
  {
    exists c: Config :: c.value in values && c.key.source == source && Reachable(p, o.functionDepth, c)
  }

  /** The i-th edge of a walk has a condition that the source flows into. */
  ghost predicate FlowsIntoCondition(q: PathQuery.Query, p: Program, o: Options, source: nat, path: PathSearch.Path, i: nat)
    requires i < |path.edges| && i < |path.nodes|
  {
    var condition := ConditionAt(q.graph, path, i);
    condition != INVALID_VALUE && Flows(p, o, source, [condition])
  }

  /** A condition along the path is one that the source flows into. */
  ghost predicate InfluencedAlong(q: PathQuery.Query, p: Program, o: Options, source: nat, path: PathSearch.Path)
  {
    exists i :: 0 <= i < |path.edges| && i < |path.nodes| && FlowsIntoCondition(q, p, o, source, path, i)
  }

  /** No matched walk to the target passes a condition that the source flows into. */
  ghost predicate Uninfluenced(q: PathQuery.Query, p: Program, o: Options, source: nat)
  {
    forall es :: PathQuery.Reaches(q, es) ==>
      !InfluencedAlong(q, p, o, source, PathQuery.PathOf(q, es))
  }

  /** None of the first n does. */
  ghost predicate FirstUninfluenced(q: PathQuery.Query, p: Program, o: Options, source: nat, n: nat)
  {
    forall es :: PathQuery.First(q, n, es) ==>
      !InfluencedAlong(q, p, o, source, PathQuery.PathOf(q, es))
  }

  /** No dependency chain leads into a value target. */
  ghost predicate Unreached(p: Program, e: Setting)
  {
    forall s, t :: 0 <= t < |e.targets| && !e.targets[t].reach ==> !Flows(p, e.options, s, e.targets[t].values)
  }

  /** And no source flows into a condition of those walks to a reach target that the
      path limit lets a search list. */
  ghost predicate NothingFound(p: Program, e: Setting)
  {
    Unreached(p, e) && forall s, t :: 0 <= s < |e.starts| && 0 <= t < |e.targets| && e.targets[t].reach ==>
      FirstUninfluenced(e.Query(s, t), p, e.options, s, e.Limit())
  }

  /** A stored tag is the end of a chain from its source. */
  lemma TagFlows(p: Program, o: Options, tags: Tags, states: nat, w: View, v: Value, tag: Tag)
    requires Represents(tags, states, w) && Sound(p, o.functionDepth, w)
    requires tag in At(tags, v)
    ensures Reachable(p, o.functionDepth, Config(v, tag.key, tag.depth))
    ensures Slot(v, tag.key) in w && w[Slot(v, tag.key)] == tag
  {
    var ts := At(tags, v);
    var k :| 0 <= k < |ts| && ts[k] == tag;
    ViewedTag(tags, states, w, v, k);
    assert Stored(w, Config(v, tag.key, tag.depth));
  }

  /** At a complete fixpoint every chain ends at a tag with no more crossings. */
  lemma FlowTagged(p: Program, o: Options, tags: Tags, states: nat, w: View, c: Config) returns (tag: Tag)
    requires Represents(tags, states, w) && Exact(p, o.functionDepth, w)
    requires Reachable(p, o.functionDepth, c)
    ensures tag in At(tags, c.value) && tag.key == c.key && tag.depth <= c.depth
  {
    assert Covers(w, c);
    var s := Slot(c.value, c.key);
    assert Has(tags, s);
    tag := Get(tags, s);
  }

  lemma TaggedFlows(p: Program, o: Options, tags: Tags, states: nat, w: View, v: Value, source: nat)
    requires Represents(tags, states, w) && Sound(p, o.functionDepth, w) && TaggedBy(tags, v, source)
    ensures Flows(p, o, source, [v])
  {
    hide Represents, Sound, Reachable;
    var i :| 0 <= i < |At(tags, v)| && At(tags, v)[i].key.source == source;
    var tag := At(tags, v)[i];
    TagFlows(p, o, tags, states, w, v, tag);
    assert Config(v, tag.key, tag.depth).value in [v];
  }

  lemma FlowIsTagged(p: Program, o: Options, tags: Tags, states: nat, w: View, v: Value, source: nat)
    requires Represents(tags, states, w) && Exact(p, o.functionDepth, w) && Flows(p, o, source, [v])
    ensures TaggedBy(tags, v, source)
  {
    hide Represents, Exact, Reachable;
    var c: Config :| c.value in [v] && c.key.source == source && Reachable(p, o.functionDepth, c);
    var tag := FlowTagged(p, o, tags, states, w, c);
    var ts := At(tags, v);
    var i :| 0 <= i < |ts| && ts[i] == tag;
  }

  /** What controls a path by its tags flows into a condition, and at a complete
      fixpoint the other way round. */
  lemma ControlledIsInfluenced(q: PathQuery.Query, p: Program, o: Options, tags: Tags, states: nat, w: View,
                               path: PathSearch.Path, source: nat)
    requires Represents(tags, states, w) && Sound(p, o.functionDepth, w)
    ensures Controlled(q.graph, tags, path, source) ==> InfluencedAlong(q, p, o, source, path)
    ensures Exact(p, o.functionDepth, w) && InfluencedAlong(q, p, o, source, path) ==>
      Controlled(q.graph, tags, path, source)
  {
    hide Represents, Sound, Exact, Flows;
    if Controlled(q.graph, tags, path, source) {
      var i :| 0 <= i < |path.edges| && ControlledAt(q.graph, tags, path, source, i);
      TaggedFlows(p, o, tags, states, w, ConditionAt(q.graph, path, i), source);
      assert FlowsIntoCondition(q, p, o, source, path, i);
    }
    if Exact(p, o.functionDepth, w) && InfluencedAlong(q, p, o, source, path) {
      var i :| 0 <= i < |path.edges| && i < |path.nodes| && FlowsIntoCondition(q, p, o, source, path, i);
      FlowIsTagged(p, o, tags, states, w, ConditionAt(q.graph, path, i), source);
      assert ControlledAt(q.graph, tags, path, source, i);
    }
  }

  /** The value influence is that of a dependency chain with just that many call crossings. */
  ghost predicate Witnessed(p: Program, o: Options, targets: seq<Target>, x: Influence)
  {
    && x.target < |targets| && !targets[x.target].reach && !x.control && x.depth <= o.functionDepth
    && exists c: Config :: c.value in targets[x.target].values && c.key.source == x.source &&
         c.depth == x.depth && Reachable(p, o.functionDepth, c)
  }

  /** Every value influence is real, however the run ended. */
  ghost predicate AllWitnessed(p: Program, e: Setting, influences: seq<Influence>)
  {
    forall x :: x in influences && !x.control ==> Witnessed(p, e.options, e.targets, x)
  }

  ghost predicate Reported(influences: seq<Influence>, t: nat, c: Config)
  {
    exists x :: x in influences && x.target == t && x.source == c.key.source && x.depth <= c.depth
  }

  /** Every chain into a value target is reported, with no more crossings than it makes. */
  ghost predicate AllReported(p: Program, e: Setting, influences: seq<Influence>)
  {
    forall t, c: Config | 0 <= t < |e.targets| && !e.targets[t].reach && c.value in e.targets[t].values ::
      Reachable(p, e.options.functionDepth, c) ==> Reported(influences, t, c)
  }

  lemma ReadIsWitnessed(p: Program, e: Setting, tags: Tags, states: nat, w: View, deepest: nat, influences: seq<Influence>)
    requires Represents(tags, states, w) && Sound(p, e.options.functionDepth, w)
    requires forall s :: s in w ==> w[s].depth <= deepest
    requires deepest <= e.options.functionDepth
    requires forall x :: x in influences ==> x.control || ReadOff(tags, e.targets, x)
    ensures AllWitnessed(p, e, influences)
  {
    hide Represents, Sound, Reachable;
    forall x | x in influences && !x.control ensures Witnessed(p, e.options, e.targets, x) {
      var v, tag :| v in e.targets[x.target].values && tag in At(tags, v) &&
        tag.key.source == x.source && tag.depth == x.depth;
      TagFlows(p, e.options, tags, states, w, v, tag);
      var c := Config(v, tag.key, tag.depth);
      assert c.value in e.targets[x.target].values;
    }
  }

  lemma ReadReportsAll(p: Program, e: Setting, tags: Tags, states: nat, w: View, influences: seq<Influence>)
    requires Represents(tags, states, w) && Exact(p, e.options.functionDepth, w)
    requires forall t, v :: 0 <= t < |e.targets| && !e.targets[t].reach && v in e.targets[t].values ==>
      AllRead(tags, influences, t, v)
    ensures AllReported(p, e, influences)
  {
    hide Represents, Exact, Reachable;
    forall t, c: Config | 0 <= t < |e.targets| && !e.targets[t].reach && c.value in e.targets[t].values &&
        Reachable(p, e.options.functionDepth, c)
      ensures Reported(influences, t, c)
    {
      var tag := FlowTagged(p, e.options, tags, states, w, c);
      assert AllRead(tags, influences, t, c.value);
    }
  }

  lemma ReportedKept(p: Program, e: Setting, before: seq<Influence>, after: seq<Influence>)
    requires AllReported(p, e, before) && before <= after
    ensures AllReported(p, e, after)
  {
    forall t, c: Config | Reported(before, t, c) ensures Reported(after, t, c) {
      var x :| x in before && x.target == t && x.source == c.key.source && x.depth <= c.depth;
      assert x in after;
    }
  }

  lemma NothingReported(p: Program, e: Setting)
    requires AllReported(p, e, [])
    ensures Unreached(p, e)
  {
    forall s, t | 0 <= t < |e.targets| && !e.targets[t].reach
      ensures !Flows(p, e.options, s, e.targets[t].values)
    {
      assert forall c: Config :: !Reported([], t, c);
    }
  }

  lemma NothingControls(p: Program, e: Setting, tags: Tags, states: nat, w: View)
    requires Represents(tags, states, w) && Sound(p, e.options.functionDepth, w)
    requires Exact(p, e.options.functionDepth, w)
    requires forall s, t :: 0 <= s < |e.starts| && 0 <= t < |e.targets| ==> e.PairClear(tags, s, t)
    ensures forall s, t :: 0 <= s < |e.starts| && 0 <= t < |e.targets| && e.targets[t].reach ==>
      FirstUninfluenced(e.Query(s, t), p, e.options, s, e.Limit())
  {
    hide Represents, Sound, Exact, Controlled, InfluencedAlong, PathQuery.AllReach;
    forall s, t, es | 0 <= s < |e.starts| && 0 <= t < |e.targets| && e.targets[t].reach &&
        PathQuery.First(e.Query(s, t), e.Limit(), es)
      ensures !InfluencedAlong(e.Query(s, t), p, e.options, s, PathQuery.PathOf(e.Query(s, t), es))
    {
      assert e.PairClear(tags, s, t);
      var path := PathQuery.PathOf(e.Query(s, t), es);
      ControlledIsInfluenced(e.Query(s, t), p, e.options, tags, states, w, path, s);
    }
  }

  /** A control influence is that of a source that flows into a condition of a listed walk. */
  lemma ShownIsInfluenced(p: Program, e: Setting, tags: Tags, states: nat, w: View, x: Influence)
    requires Represents(tags, states, w) && Sound(p, e.options.functionDepth, w)
    requires e.ShownByWalk(tags, x)
    ensures !NothingFound(p, e)
  {
    hide Represents, Sound, Controlled, InfluencedAlong, PathQuery.AllReach;
    var q := e.Query(x.source, x.target);
    var es :| PathQuery.First(q, e.Limit(), es) &&
      Controlled(q.graph, tags, PathQuery.PathOf(q, es), x.source);
    ControlledIsInfluenced(q, p, e.options, tags, states, w, PathQuery.PathOf(q, es), x.source);
  }

  lemma WitnessedIsReached(p: Program, e: Setting, x: Influence)
    requires Witnessed(p, e.options, e.targets, x)
    ensures !Unreached(p, e)
  {
    assert Flows(p, e.options, x.source, e.targets[x.target].values);
  }

  /** If no more walks lead to a target than a search lists, the first walks are all walks. */
  lemma FirstUnlessCrowded(p: Program, e: Setting)
    requires NothingFound(p, e)
    ensures forall s, t :: 0 <= s < |e.starts| && 0 <= t < |e.targets| && e.targets[t].reach ==>
      Uninfluenced(e.Query(s, t), p, e.options, s) || e.Crowded(s, t)
  {
    hide InfluencedAlong, PathQuery.First;
    forall s, t | 0 <= s < |e.starts| && 0 <= t < |e.targets| && e.targets[t].reach
      ensures Uninfluenced(e.Query(s, t), p, e.options, s) || e.Crowded(s, t)
    {
      PathQuery.FirstAreAll(e.Query(s, t), e.Limit());
    }
  }

  /** No source flows into a condition of the walks that a search listed. */
  ghost predicate ListedUninfluenced(p: Program, e: Setting, search: Search)
    requires Made(e, search)
  {
    e.targets[search.target].reach ==>
      FirstUninfluenced(e.Query(search.source, search.target), p, e.options, search.source, search.count)
  }

  ghost predicate AllListedUninfluenced(p: Program, e: Setting, searches: seq<Search>)
    requires forall search <- searches :: Made(e, search)
  {
    forall search <- searches :: ListedUninfluenced(p, e, search)
  }

  lemma FoundIsInfluenced(p: Program, e: Setting, tags: Tags, states: nat, w: View, search: Search)
    requires Represents(tags, states, w) && Sound(p, e.options.functionDepth, w) && Made(e, search)
    ensures ListedUninfluenced(p, e, search) ==> FoundNothing(e, tags, search)
    ensures Exact(p, e.options.functionDepth, w) && FoundNothing(e, tags, search) ==> ListedUninfluenced(p, e, search)
  {
    hide Represents, Sound, Exact, Controlled, InfluencedAlong, PathQuery.AllReach;
    if e.targets[search.target].reach {
      var q := e.Query(search.source, search.target);
      forall es | PathQuery.First(q, search.count, es)
        ensures Controlled(q.graph, tags, PathQuery.PathOf(q, es), search.source) ==>
          InfluencedAlong(q, p, e.options, search.source, PathQuery.PathOf(q, es))
        ensures
          Exact(p, e.options.functionDepth, w) &&
          InfluencedAlong(q, p, e.options, search.source, PathQuery.PathOf(q, es)) ==>
          Controlled(q.graph, tags, PathQuery.PathOf(q, es), search.source)
      {
        ControlledIsInfluenced(q, p, e.options, tags, states, w, PathQuery.PathOf(q, es), search.source);
      }
    }
  }

  /** Whatever interrupted them: the searches that were made add an influence exactly if
      a source flows into a condition of a walk they listed. */
  lemma ToldIsInfluenced(p: Program, e: Setting, tags: Tags, states: nat, w: View,
                         before: PairSearch, after: PairSearch, searches: seq<Search>)
    requires Represents(tags, states, w) && Sound(p, e.options.functionDepth, w)
    requires Tell(e, tags, before, after, searches)
    ensures AllListedUninfluenced(p, e, searches) ==> after.influences == before.influences
    ensures Exact(p, e.options.functionDepth, w) && after.influences == before.influences ==>
      AllListedUninfluenced(p, e, searches)
  {
    hide Represents, Sound, Exact, FoundNothing, ListedUninfluenced, Made;
    forall search <- searches
      ensures ListedUninfluenced(p, e, search) ==> FoundNothing(e, tags, search)
      ensures Exact(p, e.options.functionDepth, w) && FoundNothing(e, tags, search) ==> ListedUninfluenced(p, e, search)
    {
      FoundIsInfluenced(p, e, tags, states, w, search);
    }
  }

  // directed_flow in taint mode
  method DirectedTaint(p: Program, e: Setting, sessionComplete: bool)
    returns (verdict: Verdict, influences: seq<Influence>, completion: Completion,
             ghost settled: nat, ghost searches: seq<Search>)
    requires e.Grounded() && |e.starts| == |p.sources|
    ensures verdict == Conclude(influences, completion)
    ensures AllWitnessed(p, e, influences)
    ensures completion == Complete ==> AllReported(p, e, influences)
    // when no flow is answered: exactly if the query is complete, no chain leads into a value
    // target, and no source flows into a condition of the walks that the searches listed
    ensures forall search <- searches :: Made(e, search)
    ensures verdict == NoFlow <==>
      completion == Complete && Unreached(p, e) && AllListedUninfluenced(p, e, searches)
    // without interruption these are the first walks, up to the path limit
    ensures completion == Complete && NothingFound(p, e) ==> verdict == NoFlow
    ensures verdict == NoFlow && e.Uninterrupted() ==> NothingFound(p, e)
    // if the path searches are interrupted at once, reach targets do not matter
    ensures e.CutFrom(settled) && completion == Complete && Unreached(p, e) ==> verdict == NoFlow
    // what it means: no influenced walk to a reach target, unless there are more than are listed
    ensures verdict == NoFlow && e.Uninterrupted() ==> forall s, t ::
      0 <= s < |e.starts| && 0 <= t < |e.targets| && e.targets[t].reach ==>
        Uninfluenced(e.Query(s, t), p, e.options, s) || e.Crowded(s, t)
    // without budgets and without an interruption of the fixpoint the query is decided
    ensures (forall n :: 0 <= n < settled ==> e.signal(n) == Quiet) ==>
      e.options.maxStates == 0 && e.options.maxTaintBytes == 0 && sessionComplete ==> completion == Complete
    ensures Still(p) ==> settled <= 2 && (completion == Complete ==> settled == 2)
  {
    hide Represents, Sound, Exact, Reachable, AllWitnessed, AllReported, Unreached, NothingFound, Setting.PairClear,
      AllListedUninfluenced, FoundNothing, Made;
    var run := new Analysis(p, e.options, e.signal, InitialCompletion(p, e.options));
    run.Run();
    settled := run.checks;
    var tags := run.tags;
    var values := ReadValues(tags, e.targets);
    var search;
    search, searches := SearchPairs(e, tags, PairSearch(values, 0, run.completion, run.checks));
    influences, completion := search.influences, search.completion;
    ReadIsWitnessed(p, e, tags, run.states, run.view, run.deepestCall, influences);
    ValuesReach(p, e, tags, run.states, run.view, run.deepestCall, values);
    FoundIsThere(p, e, tags, run.states, run.view, values, influences);
    ToldIsInfluenced(p, e, tags, run.states, run.view, PairSearch(values, 0, run.completion, run.checks), search, searches);
    if completion == Complete {
      ReadReportsAll(p, e, tags, run.states, run.view, values);
      ReportedKept(p, e, values, influences);
      if influences == [] {
        NothingReported(p, e);
        if Clean(e, search) {
          NothingControls(p, e, tags, run.states, run.view);
          NothingIsFound(p, e);
          FirstUnlessCrowded(p, e);
        }
      }
      if !sessionComplete {
        completion := Unknown;
      }
    }
    verdict := Conclude(influences, completion);
  }

  lemma NothingIsFound(p: Program, e: Setting)
    requires Unreached(p, e)
    requires forall s, t :: 0 <= s < |e.starts| && 0 <= t < |e.targets| && e.targets[t].reach ==>
      FirstUninfluenced(e.Query(s, t), p, e.options, s, e.Limit())
    ensures NothingFound(p, e)
  {
  }

  lemma ValuesReach(p: Program, e: Setting, tags: Tags, states: nat, w: View, deepest: nat, values: seq<Influence>)
    requires Represents(tags, states, w) && Sound(p, e.options.functionDepth, w)
    requires (forall s :: s in w ==> w[s].depth <= deepest) && deepest <= e.options.functionDepth
    requires forall x :: x in values ==> ReadOff(tags, e.targets, x)
    ensures Unreached(p, e) ==> values == []
  {
    hide Represents, Sound, Reachable, Unreached;
    if values != [] {
      ReadIsWitnessed(p, e, tags, states, w, deepest, values);
      assert values[0] in values;
      WitnessedIsReached(p, e, values[0]);
    }
  }

  lemma FoundIsThere(p: Program, e: Setting, tags: Tags, states: nat, w: View,
                     values: seq<Influence>, influences: seq<Influence>)
    requires Represents(tags, states, w) && Sound(p, e.options.functionDepth, w)
    requires Unreached(p, e) ==> values == []
    requires forall x :: x in influences ==> x in values || e.ShownByWalk(tags, x)
    ensures NothingFound(p, e) ==> influences == []
  {
    hide Represents, Sound, Reachable, Unreached;
    if influences != [] && values == [] {
      assert influences[0] in influences;
      ShownIsInfluenced(p, e, tags, states, w, influences[0]);
    }
  }
}
