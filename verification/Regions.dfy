/** Control regions of a function: the order of its blocks, the regions found in it,
    and what walks through the function do in a sequence of blocks. */
module Regions {
  import opened Basics

  type Node = nat

  datatype EdgeKind = Call | Conditional | Plain

  datatype Edge = Edge(src: Node, dst: Node, kind: EdgeKind)

  /** The edges and the start address of every node of the program's graph. */
  datatype Graph = Graph(edges: seq<seq<Edge>>, starts: seq<nat>)
  {
    function Start(n: Node): nat { if n < |starts| then starts[n] else 0 }
    function Edges(n: Node): seq<Edge> { if n < |edges| then edges[n] else [] }

    predicate Valid()
    {
      forall n, i | 0 <= n < |edges| && 0 <= i < |edges[n]| :: edges[n][i].src == n
    }
  }

  // ---------- the order of the blocks ----------

  predicate Before(g: Graph, a: Node, b: Node)
  {
    g.Start(a) < g.Start(b) || (g.Start(a) == g.Start(b) && a < b)
  }

  ghost predicate Ordered(g: Graph, s: seq<Node>)
  {
    forall i, j | 0 <= i < j < |s| :: Before(g, s[i], s[j])
  }

  function Elements(s: seq<Node>): set<Node>
  {
    set n | n in s
  }

  predicate SameNodes(s: seq<Node>, nodes: set<Node>)
  {
    (forall n <- s :: n in nodes) && (forall n <- nodes :: n in s)
  }

  method Inserted(g: Graph, s: seq<Node>, n: Node) returns (r: seq<Node>)
    requires Ordered(g, s) && n !in s
    ensures Ordered(g, r) && forall x :: x in r <==> x in s || x == n
  {
    var k := 0;
    while k < |s| && Before(g, s[k], n)
      invariant k <= |s| && forall i | 0 <= i < k :: Before(g, s[i], n)
    {
      k := k + 1;
    }
    r := s[..k] + [n] + s[k..];
    assert forall x :: x in s <==> x in s[..k] || x in s[k..] by { assert s == s[..k] + s[k..]; }
    assert k < |s| ==> s[k] in s && Before(g, n, s[k]);
  }

  /** The nodes by start address. */
  method Sorted(g: Graph, nodes: set<Node>) returns (s: seq<Node>)
    ensures Ordered(g, s) && SameNodes(s, nodes)
  {
    s := [];
    var rest := nodes;
    while rest != {}
      invariant rest <= nodes && Ordered(g, s) && SameNodes(s, nodes - rest)
      decreases |rest|
    {
      var n :| n in rest;
      s := Inserted(g, s, n);
      rest := rest - {n};
    }
  }

  /** The reverse postorder as far as it is in the function, then the nodes it misses, by
      start address. The order repeats a node only if the reverse postorder does. */
  method BlockOrder(g: Graph, rpo: seq<Node>, nodes: set<Node>) returns (order: seq<Node>, fallback: bool)
    ensures SameNodes(order, nodes)
    ensures Distinct(rpo) ==> Distinct(order)
    ensures fallback <==> !(nodes <= set n | n in rpo)
  {
    order, fallback := [], false;
    for i := 0 to |rpo|
      invariant forall n :: n in order <==> n in rpo[..i] && n in nodes
      invariant Distinct(rpo) ==> Distinct(order)
    {
      assert Distinct(rpo) ==> rpo[i] !in rpo[..i];
      if rpo[i] in nodes {
        order := order + [rpo[i]];
      }
    }
    assert rpo[..|rpo|] == rpo;
    ghost var first := order;
    var remaining := Sorted(g, nodes);
    for i := 0 to |remaining|
      invariant forall n :: n in order <==> n in first || n in remaining[..i]
      invariant Distinct(rpo) ==> Distinct(order)
      invariant fallback <==> exists n :: n in remaining[..i] && n !in rpo
    {
      if remaining[i] !in order {
        order := order + [remaining[i]];
        fallback := true;
      }
    }
    assert remaining[..|remaining|] == remaining;
  }

  // ---------- edges within the function ----------

  function Leaving(edges: seq<Edge>, n: Node): seq<Edge>
  {
    if edges == [] then []
    else Leaving(edges[..|edges| - 1], n) + (if edges[|edges| - 1].src == n then [edges[|edges| - 1]] else [])
  }

  function Arriving(edges: seq<Edge>, n: Node): nat
  {
    if edges == [] then 0
    else Arriving(edges[..|edges| - 1], n) + (if edges[|edges| - 1].dst == n then 1 else 0)
  }

  /** The edges other than calls, by source and counted by destination. */
  datatype Tables = Tables(edges: seq<Edge>, outgoing: map<Node, seq<Edge>>, incoming: map<Node, nat>)
  {
    function Outgoing(n: Node): seq<Edge> { if n in outgoing then outgoing[n] else [] }
    function Incoming(n: Node): nat { if n in incoming then incoming[n] else 0 }

    ghost predicate Valid(nodes: set<Node>)
    {
      && (forall n :: Outgoing(n) == Leaving(edges, n))
      && (forall n <- nodes :: Incoming(n) == Arriving(edges, n))
    }
  }

  function Recorded(t: Tables, e: Edge, nodes: set<Node>): Tables
  {
    Tables(t.edges + [e], t.outgoing[e.src := t.Outgoing(e.src) + [e]],
           if e.dst in nodes then t.incoming[e.dst := t.Incoming(e.dst) + 1] else t.incoming)
  }

  lemma RecordedValid(t: Tables, e: Edge, nodes: set<Node>)
    requires t.Valid(nodes)
    ensures Recorded(t, e, nodes).Valid(nodes)
  {
    var r := Recorded(t, e, nodes);
    assert r.edges[..|r.edges| - 1] == t.edges;
  }

  ghost predicate FunctionEdge(g: Graph, nodes: set<Node>, e: Edge)
  {
    e.src in nodes && e in g.Edges(e.src) && !e.kind.Call?
  }

  method EdgeTables(g: Graph, remaining: seq<Node>, nodes: set<Node>) returns (t: Tables)
    requires g.Valid() && SameNodes(remaining, nodes)
    ensures t.Valid(nodes)
    ensures forall e :: e in t.edges <==> FunctionEdge(g, nodes, e)
  {
    t := Tables([], map[], map[]);
    for i := 0 to |remaining|
      invariant t.Valid(nodes)
      invariant forall e :: e in t.edges <==> e.src in remaining[..i] && e in g.Edges(e.src) && !e.kind.Call?
    {
      var own := g.Edges(remaining[i]);
      ghost var before := t.edges;
      for k := 0 to |own|
        invariant t.Valid(nodes)
        invariant forall e :: e in t.edges <==> e in before || (e in own[..k] && !e.kind.Call?)
      {
        if !own[k].kind.Call? {
          RecordedValid(t, own[k], nodes);
          t := Recorded(t, own[k], nodes);
        }
      }
      assert own[..|own|] == own;
    }
    assert remaining[..|remaining|] == remaining;
  }

  // ---------- regions ----------

  datatype RegionKind = LoopRegion | SwitchRegion | BranchRegion | SequenceRegion | IrreducibleRegion

  datatype Region = Region(kind: RegionKind, header: Node, nodes: seq<Node>)

  datatype Loop = Loop(header: Node, members: set<Node>)

  /** What the analyses of the graph say about the function. */
  datatype Facts = Facts(loops: seq<Loop>, backEdges: set<(Node, Node)>, switches: set<Node>, irreducible: bool)
  {
    predicate Header(n: Node)
    {
      exists i :: 0 <= i < |loops| && loops[i].header == n
    }
  }

  /** The block goes on to the next one only, is the only one that does, and belongs to
      no region yet. */
  predicate Link(t: Tables, back: set<(Node, Node)>, covered: set<Node>, a: Node, b: Node)
  {
    |t.Outgoing(a)| == 1 && t.Outgoing(a)[0].dst == b && t.Incoming(b) == 1 && (a, b) !in back && a !in covered
  }

  /** A stretch of the order in which every block is linked to the next, and which
      cannot be made longer. */
  ghost predicate Run(t: Tables, back: set<(Node, Node)>, covered: set<Node>, order: seq<Node>, a: nat, b: nat)
  {
    && a < b < |order|
    && (forall k | a <= k < b :: Link(t, back, covered, order[k], order[k + 1]))
    && (b + 1 < |order| ==> !Link(t, back, covered, order[b], order[b + 1]))
    && (a > 0 ==> !Link(t, back, covered, order[a - 1], order[a]))
  }

  function Conditionals(edges: seq<Edge>): seq<Edge>
  {
    if edges == [] then []
    else (if edges[0].kind.Conditional? then [edges[0]] else []) + Conditionals(edges[1..])
  }

  /** A block with several ways out that is no switch has two different conditional ones
      and heads no loop. */
  predicate Branches(facts: Facts, out: seq<Edge>, n: Node)
  {
    && |Conditionals(out)| == 2 && Conditionals(out)[0].dst != Conditionals(out)[1].dst
    && !facts.Header(n)
  }

  predicate Switches(facts: Facts, out: seq<Edge>, n: Node)
  {
    |out| >= 3 || n in facts.switches
  }

  ghost predicate InSome(regions: seq<Region>, n: Node)
  {
    exists i :: 0 <= i < |regions| && n in regions[i].nodes
  }

  ghost predicate Together(regions: seq<Region>, a: Node, b: Node)
  {
    exists i :: 0 <= i < |regions| && regions[i].kind.SequenceRegion? && a in regions[i].nodes && b in regions[i].nodes
  }

  lemma MoreRegions(regions: seq<Region>, r: Region)
    ensures forall n | InSome(regions, n) :: InSome(regions + [r], n)
    ensures forall n <- r.nodes :: InSome(regions + [r], n)
    ensures forall a, b | Together(regions, a, b) :: Together(regions + [r], a, b)
    ensures r.kind.SequenceRegion? ==> forall a, b | a in r.nodes && b in r.nodes :: Together(regions + [r], a, b)
  {
    var all := regions + [r];
    assert all[|regions|] == r;
    forall n | InSome(regions, n) ensures InSome(all, n) {
      var i :| 0 <= i < |regions| && n in regions[i].nodes;
      assert all[i] == regions[i];
    }
    forall a, b | Together(regions, a, b) ensures Together(all, a, b) {
      var i :| 0 <= i < |regions| && regions[i].kind.SequenceRegion? && a in regions[i].nodes && b in regions[i].nodes;
      assert all[i] == regions[i];
    }
  }

  /** One region for each branch node, in order. */
  function BranchRegionsOf(t: Tables, facts: Facts, order: seq<Node>): seq<Region>
  {
    if order == [] then []
    else
      var before, n := BranchRegionsOf(t, facts, order[..|order| - 1]), order[|order| - 1];
      if n !in t.outgoing then before
      else if Switches(facts, t.outgoing[n], n) then before + [Region(SwitchRegion, n, [n])]
      else if Branches(facts, t.outgoing[n], n) then before + [Region(BranchRegion, n, [n])]
      else before
  }

  /** The regions found so far. With a cap, regions beyond it are only counted. */
  class ControlView {
    const cap: nat
    var regions: seq<Region>
    var omitted: nat
    var truncated: bool
    var fallback: bool
    ghost var found: seq<Region>

    constructor (cap: nat)
      ensures this.cap == cap && Valid() && found == []
    {
      this.cap := cap;
      regions, omitted, truncated, fallback, found := [], 0, false, false, [];
    }

    /** The regions are the first ones found, up to the cap. */
    ghost predicate Valid()
      reads this`regions, this`omitted, this`truncated, this`fallback, this`found
    {
      && regions == found[..if cap == 0 || |found| <= cap then |found| else cap]
      && omitted == |found| - |regions|
      && (truncated <==> omitted > 0)
      && (truncated ==> fallback)
    }

    // add_region
    method AddRegion(r: Region)
      requires Valid()
      modifies this`regions, this`omitted, this`truncated, this`fallback, this`found
      ensures Valid() && found == old(found) + [r]
      ensures old(fallback) ==> fallback
    {
      found := found + [r];
      if cap != 0 && |regions| >= cap {
        omitted := omitted + 1;
        truncated := true;
        fallback := true;
      } else {
        regions := regions + [r];
      }
    }

    method LoopRegions(facts: Facts) returns (covered: set<Node>)
      requires Valid() && found == []
      modifies this`regions, this`omitted, this`truncated, this`fallback, this`found
      ensures Valid() && |found| == |facts.loops|
      ensures forall i | 0 <= i < |found| ::
        && found[i].kind == LoopRegion && found[i].header == facts.loops[i].header
        && SameNodes(found[i].nodes, facts.loops[i].members)
      ensures forall n <- covered :: InSome(found, n)
      ensures forall n :: n in covered <==> LoopMember(facts, n)
      ensures old(fallback) ==> fallback
    {
      covered := {};
      for i := 0 to |facts.loops|
        invariant Valid() && |found| == i && (old(fallback) ==> fallback)
        invariant forall k | 0 <= k < i ::
          && found[k].kind == LoopRegion && found[k].header == facts.loops[k].header
          && SameNodes(found[k].nodes, facts.loops[k].members)
        invariant forall n <- covered :: InSome(found, n)
        invariant forall n :: n in covered <==> exists k :: 0 <= k < i && n in facts.loops[k].members
      {
        var members := Sorted(Graph([], []), facts.loops[i].members);
        var r := Region(LoopRegion, facts.loops[i].header, members);
        MoreRegions(found, r);
        AddRegion(r);
        covered := covered + facts.loops[i].members;
      }
    }

    method BranchRegions(t: Tables, facts: Facts, order: seq<Node>, covered0: set<Node>) returns (covered: set<Node>)
      requires Valid() && forall n <- covered0 :: InSome(found, n)
      modifies this`regions, this`omitted, this`truncated, this`fallback, this`found
      ensures Valid() && old(found) <= found
      ensures found == old(found) + BranchRegionsOf(t, facts, order)
      ensures forall i | |old(found)| <= i < |found| :: found[i].kind in {SwitchRegion, BranchRegion}
      ensures forall n <- covered :: InSome(found, n)
      ensures forall n :: n in covered <==>
        n in covered0 || (n in order && BranchNode(t, facts, n))
      ensures old(fallback) ==> fallback
    {
      hide InSome, Switches, Branches;
      covered := covered0;
      for i := 0 to |order|
        invariant Valid() && old(found) <= found && (old(fallback) ==> fallback)
        invariant found == old(found) + BranchRegionsOf(t, facts, order[..i])
        invariant forall k | |old(found)| <= k < |found| :: found[k].kind in {SwitchRegion, BranchRegion}
        invariant forall n <- covered :: InSome(found, n)
        invariant forall n :: n in covered <==>
          n in covered0 ||
          (n in order[..i] && BranchNode(t, facts, n))
      {
        var n := order[i];
        assert order[..i + 1] == order[..i] + [n];
        if n in t.outgoing && (Switches(facts, t.outgoing[n], n) || Branches(facts, t.outgoing[n], n)) {
          var r := Region(if Switches(facts, t.outgoing[n], n) then SwitchRegion else BranchRegion, n, [n]);
          MoreRegions(found, r);
          AddRegion(r);
          covered := covered + {n};
        }
      }
      assert order[..|order|] == order;
    }

    /** The sequences are exactly the runs of linked blocks. */
    method SequenceRegions(t: Tables, facts: Facts, order: seq<Node>, covered0: set<Node>) returns (covered: set<Node>)
      requires Valid() && Distinct(order)
      requires forall i | 0 <= i < |found| :: !found[i].kind.SequenceRegion?
      requires forall n <- covered0 :: InSome(found, n)
      modifies this`regions, this`omitted, this`truncated, this`fallback, this`found
      ensures Valid() && old(found) <= found
      ensures forall i | |old(found)| <= i < |found| :: IsRun(t, facts, order, covered0, found[i])
      ensures forall i, j | |old(found)| <= i < j < |found| :: Apart(found[i].nodes, found[j].nodes)
      ensures forall k | 0 <= k < |order| - 1 && Link(t, facts.backEdges, covered0, order[k], order[k + 1]) ::
        Together(found, order[k], order[k + 1])
      ensures forall n <- covered :: InSome(found, n)
      ensures covered0 <= covered
      ensures forall i | |old(found)| <= i < |found| :: Covers(covered, found[i].nodes)
      ensures old(fallback) ==> fallback
    {
      hide InSome, Together, Link, Apart;
      covered := covered0;
      var index := 0;
      ghost var base := |found|;
      assert Sequenced(t, facts, order, covered0, found, base, covered, index);
      while index < |order|
        invariant index <= |order| && Valid() && old(found) <= found && (old(fallback) ==> fallback)
        invariant Sequenced(t, facts, order, covered0, found, base, covered, index)
      {
        assert covered0 <= covered && forall n <- covered :: n in covered0 || n in order[..index];
        hide Sequenced;
        var cursor := RunFrom(t, facts.backEdges, order, covered0, covered, index);
        if cursor > index {
          var r := Region(SequenceRegion, order[index], order[index..cursor + 1]);
          RunAdded(t, facts, order, covered0, found, base, covered, index, cursor);
          AddRegion(r);
          covered := covered + Elements(r.nodes);
        } else {
          NothingAdded(t, facts, order, covered0, found, base, covered, index);
        }
        index := cursor + 1;
      }
    }

    /** Blocks that are in no region make a sequence of their own each. */
    method SingleRegions(t: Tables, order: seq<Node>, covered: set<Node>)
      requires Valid() && Distinct(order) && Sequential(t, found) && SequencesCovered(covered, found)
      requires forall n <- covered :: InSome(found, n)
      modifies this`regions, this`omitted, this`truncated, this`fallback, this`found
      ensures Valid() && old(found) <= found && Sequential(t, found)
      ensures forall n <- order :: InSome(found, n)
      ensures old(fallback) ==> fallback
    {
      hide InSome, Sequential, SequencesCovered;
      ghost var done := covered;
      for i := 0 to |order|
        invariant Valid() && old(found) <= found && (old(fallback) ==> fallback)
        invariant forall n <- done :: InSome(found, n)
        invariant forall n :: n in done <==> n in covered || n in order[..i]
        invariant Sequential(t, found) && SequencesCovered(done, found)
      {
        var n := order[i];
        assert order[..i + 1] == order[..i] + [n];
        assert n !in order[..i];
        if n !in covered {
          var r := Region(SequenceRegion, n, [n]);
          MoreRegions(found, r);
          SingleAdded(t, found, done, n);
          AddRegion(r);
          done := done + {n};
        }
      }
      assert order[..|order|] == order;
    }
  }

  /** The runs before an index of the order have become regions. */
  ghost predicate Sequenced(t: Tables, facts: Facts, order: seq<Node>, covered0: set<Node>, found: seq<Region>, base: nat,
                            covered: set<Node>, index: nat)
  {
    && base <= |found| && index <= |order|
    && RunsFound(t, facts, order, covered0, found, base, covered, index)
    && AllApart(found, base)
    && LinksFound(t, facts, order, covered0, found, index)
    && (0 < index < |order| ==> !Link(t, facts.backEdges, covered0, order[index - 1], order[index]))
    && covered0 <= covered
    && (forall n <- covered :: InSome(found, n) && (n in covered0 || n in order[..index]))
  }

  ghost predicate RunsFound(t: Tables, facts: Facts, order: seq<Node>, covered0: set<Node>, found: seq<Region>, base: nat,
                            covered: set<Node>, index: nat)
    requires base <= |found| && index <= |order|
  {
    forall i | base <= i < |found| ::
      IsRun(t, facts, order, covered0, found[i]) && Within(found[i].nodes, order[..index]) && Covers(covered, found[i].nodes)
  }

  ghost predicate AllApart(found: seq<Region>, base: nat)
    requires base <= |found|
  {
    forall i, j | base <= i < j < |found| :: Apart(found[i].nodes, found[j].nodes)
  }

  ghost predicate LinksFound(t: Tables, facts: Facts, order: seq<Node>, covered0: set<Node>, found: seq<Region>, index: nat)
    requires index <= |order|
  {
    forall k | 0 <= k < index && k + 1 < |order| && Link(t, facts.backEdges, covered0, order[k], order[k + 1]) ::
      Together(found, order[k], order[k + 1])
  }

  predicate Within(a: seq<Node>, b: seq<Node>)
  {
    forall n <- a :: n in b
  }

  predicate Covers(covered: set<Node>, a: seq<Node>)
  {
    forall n <- a :: n in covered
  }

  lemma NothingAdded(t: Tables, facts: Facts, order: seq<Node>, covered0: set<Node>, found: seq<Region>, base: nat,
                     covered: set<Node>, index: nat)
    requires Sequenced(t, facts, order, covered0, found, base, covered, index) && index < |order|
    requires index + 1 < |order| ==> !Link(t, facts.backEdges, covered0, order[index], order[index + 1])
    ensures Sequenced(t, facts, order, covered0, found, base, covered, index + 1)
  {
    hide InSome, Together, Link, Apart, AllApart, IsRun, Covers;
    assert order[..index + 1] == order[..index] + [order[index]];
  }

  lemma RunAdded(t: Tables, facts: Facts, order: seq<Node>, covered0: set<Node>, found: seq<Region>, base: nat,
                 covered: set<Node>, index: nat, cursor: nat)
    requires Sequenced(t, facts, order, covered0, found, base, covered, index) && Distinct(order)
    requires index < cursor < |order|
    requires forall k | index <= k < cursor :: Link(t, facts.backEdges, covered0, order[k], order[k + 1])
    requires cursor + 1 < |order| ==> !Link(t, facts.backEdges, covered0, order[cursor], order[cursor + 1])
    ensures
      var nodes := order[index..cursor + 1];
      var r := Region(SequenceRegion, order[index], nodes);
      Sequenced(t, facts, order, covered0, found + [r], base, covered + Elements(nodes), cursor + 1)
  {
    hide InSome, Link, RunsFound, AllApart, LinksFound, Distinct;
    var nodes := order[index..cursor + 1];
    var r := Region(SequenceRegion, order[index], nodes);
    MoreRegions(found, r);
    RunsGrow(t, facts, order, covered0, found, base, covered, index, cursor, r);
    ApartGrows(t, facts, order, covered0, found, base, covered, index, cursor, r);
    LinksGrow(t, facts, order, covered0, found, index, cursor, r);
    assert order[..cursor + 1] == order[..index] + nodes;
  }

  lemma RunsGrow(t: Tables, facts: Facts, order: seq<Node>, covered0: set<Node>, found: seq<Region>, base: nat,
                 covered: set<Node>, index: nat, cursor: nat, r: Region)
    requires base <= |found| && index < cursor < |order| && r == Region(SequenceRegion, order[index], order[index..cursor + 1])
    requires RunsFound(t, facts, order, covered0, found, base, covered, index)
    requires forall k | index <= k < cursor :: Link(t, facts.backEdges, covered0, order[k], order[k + 1])
    requires cursor + 1 < |order| ==> !Link(t, facts.backEdges, covered0, order[cursor], order[cursor + 1])
    requires index > 0 ==> !Link(t, facts.backEdges, covered0, order[index - 1], order[index])
    ensures RunsFound(t, facts, order, covered0, found + [r], base, covered + Elements(r.nodes), cursor + 1)
  {
    hide IsRun, Link;
    RunIsRegion(t, facts, order, covered0, index, cursor);
    assert order[..cursor + 1] == order[..index] + r.nodes;
  }

  lemma ApartGrows(t: Tables, facts: Facts, order: seq<Node>, covered0: set<Node>, found: seq<Region>, base: nat,
                   covered: set<Node>, index: nat, cursor: nat, r: Region)
    requires base <= |found| && index < cursor < |order| && r.nodes == order[index..cursor + 1] && Distinct(order)
    requires RunsFound(t, facts, order, covered0, found, base, covered, index) && AllApart(found, base)
    ensures AllApart(found + [r], base)
  {
    hide IsRun, Within, Covers, Apart, Distinct;
    forall i | base <= i < |found| ensures Apart(found[i].nodes, r.nodes) {
      RunApart(order, index, cursor, found[i].nodes);
    }
  }

  lemma LinksGrow(t: Tables, facts: Facts, order: seq<Node>, covered0: set<Node>, found: seq<Region>,
                  index: nat, cursor: nat, r: Region)
    requires index < cursor < |order| && r.kind.SequenceRegion? && r.nodes == order[index..cursor + 1]
    requires LinksFound(t, facts, order, covered0, found, index)
    requires cursor + 1 < |order| ==> !Link(t, facts.backEdges, covered0, order[cursor], order[cursor + 1])
    ensures LinksFound(t, facts, order, covered0, found + [r], cursor + 1)
  {
    hide Link, Together;
    MoreRegions(found, r);
    RunTogether(order, found, r, index, cursor);
  }

  lemma RunIsRegion(t: Tables, facts: Facts, order: seq<Node>, covered: set<Node>, a: nat, b: nat)
    requires a < b < |order|
    requires forall k | a <= k < b :: Link(t, facts.backEdges, covered, order[k], order[k + 1])
    requires b + 1 < |order| ==> !Link(t, facts.backEdges, covered, order[b], order[b + 1])
    requires a > 0 ==> !Link(t, facts.backEdges, covered, order[a - 1], order[a])
    ensures IsRun(t, facts, order, covered, Region(SequenceRegion, order[a], order[a..b + 1]))
  {
    hide Link;
    assert Run(t, facts.backEdges, covered, order, a, b);
  }

  lemma RunTogether(order: seq<Node>, found: seq<Region>, r: Region, a: nat, b: nat)
    requires a < b < |order| && r.kind.SequenceRegion? && r.nodes == order[a..b + 1]
    ensures forall k | a <= k < b :: Together(found + [r], order[k], order[k + 1])
  {
    hide Together;
    MoreRegions(found, r);
    assert forall k | a <= k <= b :: order[k] == r.nodes[k - a] && order[k] in r.nodes;
  }

  lemma RunApart(order: seq<Node>, a: nat, b: nat, earlier: seq<Node>)
    requires Distinct(order) && a < b < |order| && Within(earlier, order[..a])
    ensures Apart(earlier, order[a..b + 1]) && Within(earlier, order[..b + 1])
  {
    EarlierApart(order, a, b + 1);
    assert order[..b + 1] == order[..a] + order[a..b + 1];
  }

  ghost predicate Apart(a: seq<Node>, b: seq<Node>)
  {
    forall n <- a :: n !in b
  }

  ghost predicate IsRun(t: Tables, facts: Facts, order: seq<Node>, covered: set<Node>, r: Region)
  {
    r.kind.SequenceRegion? &&
    exists a: nat, b: nat :: Run(t, facts.backEdges, covered, order, a, b) && r.nodes == order[a..b + 1]
  }

  lemma EarlierApart(order: seq<Node>, a: nat, b: nat)
    requires Distinct(order) && a <= b <= |order|
    ensures forall n <- order[..a] :: n !in order[a..b]
  {
  }

  method RunFrom(t: Tables, back: set<(Node, Node)>, order: seq<Node>, ghost covered0: set<Node>, covered: set<Node>,
                 index: nat)
    returns (cursor: nat)
    requires index < |order| && Distinct(order)
    requires covered0 <= covered && forall n <- covered :: n in covered0 || n in order[..index]
    ensures index <= cursor < |order|
    ensures forall k | index <= k < cursor :: Link(t, back, covered0, order[k], order[k + 1])
    ensures cursor + 1 < |order| ==> !Link(t, back, covered0, order[cursor], order[cursor + 1])
  {
    cursor := index;
    while cursor + 1 < |order| && Link(t, back, covered, order[cursor], order[cursor + 1])
      invariant index <= cursor < |order|
      invariant forall k | index <= k < cursor :: Link(t, back, covered0, order[k], order[k + 1])
    {
      cursor := cursor + 1;
    }
    assert order[cursor] !in order[..index];
  }

  // ---------- walks through sequences ----------

  /** An edge leaves a block of the sequence if and only if it enters the next one, and
      there is such an edge. */
  ghost predicate Linear(edges: seq<Edge>, nodes: seq<Node>)
  {
    forall i | 0 <= i < |nodes| - 1 :: OnlyWay(edges, nodes[i], nodes[i + 1])
  }

  ghost predicate HasEdge(edges: seq<Edge>, a: Node, b: Node)
  {
    exists e :: e in edges && e.src == a && e.dst == b
  }

  ghost predicate OnlyWay(edges: seq<Edge>, a: Node, b: Node)
  {
    && HasEdge(edges, a, b)
    && (forall e <- edges :: e.src == a <==> e.dst == b)
  }

  lemma {:induction false} InLeaving(edges: seq<Edge>, n: Node, e: Edge)
    ensures e in Leaving(edges, n) <==> e in edges && e.src == n
  {
    if edges != [] {
      InLeaving(edges[..|edges| - 1], n, e);
      assert edges == edges[..|edges| - 1] + [edges[|edges| - 1]];
    }
  }

  lemma {:induction false} SomeArrives(edges: seq<Edge>, e: Edge)
    requires e in edges
    ensures Arriving(edges, e.dst) >= 1
  {
    var front, last := edges[..|edges| - 1], edges[|edges| - 1];
    assert edges == front + [last];
    if e in front {
      SomeArrives(front, e);
    }
  }

  lemma {:induction false} OneArrives(edges: seq<Edge>, n: Node, e: Edge, f: Edge)
    requires Arriving(edges, n) == 1 && e in edges && f in edges && e.dst == n == f.dst
    ensures e == f
  {
    var front, last := edges[..|edges| - 1], edges[|edges| - 1];
    assert edges == front + [last];
    if last.dst == n {
      if e in front {
        SomeArrives(front, e);
      }
      if f in front {
        SomeArrives(front, f);
      }
    } else {
      OneArrives(front, n, e, f);
    }
  }

  lemma LinkIsOnlyWay(t: Tables, nodes: set<Node>, back: set<(Node, Node)>, covered: set<Node>, a: Node, b: Node)
    requires t.Valid(nodes) && b in nodes && Link(t, back, covered, a, b)
    ensures OnlyWay(t.edges, a, b)
  {
    var e := t.Outgoing(a)[0];
    assert Leaving(t.edges, a) == [e];
    InLeaving(t.edges, a, e);
    forall f <- t.edges ensures f.src == a <==> f.dst == b {
      InLeaving(t.edges, a, f);
      if f.dst == b {
        OneArrives(t.edges, b, e, f);
      }
    }
  }

  lemma RunIsLinear(t: Tables, nodes: set<Node>, facts: Facts, order: seq<Node>, covered: set<Node>, r: Region)
    requires t.Valid(nodes) && SameNodes(order, nodes) && IsRun(t, facts, order, covered, r)
    ensures Linear(t.edges, r.nodes) && |r.nodes| > 1
  {
    var a: nat, b: nat :| Run(t, facts.backEdges, covered, order, a, b) && r.nodes == order[a..b + 1];
    hide Link;
    forall i | 0 <= i < |r.nodes| - 1 ensures OnlyWay(t.edges, r.nodes[i], r.nodes[i + 1]) {
      assert r.nodes[i] == order[a + i] && r.nodes[i + 1] == order[a + i + 1];
      LinkIsOnlyWay(t, nodes, facts.backEdges, covered, order[a + i], order[a + i + 1]);
    }
  }

  ghost predicate Walk(edges: seq<Edge>, walk: seq<Node>)
  {
    forall k | 0 <= k < |walk| - 1 :: HasEdge(edges, walk[k], walk[k + 1])
  }

  /** A walk that does not start inside a sequence enters it at its head, and passes
      through all of it up to where the walk is. */
  lemma {:induction false} EnteredAtHead(edges: seq<Edge>, nodes: seq<Node>, walk: seq<Node>, k: nat, i: nat)
    requires Linear(edges, nodes) && Walk(edges, walk)
    requires k < |walk| && i < |nodes| && walk[k] == nodes[i]
    requires walk[0] !in nodes[1..]
    ensures i <= k && walk[k - i..k + 1] == nodes[..i + 1]
  {
    if i == 0 {
      assert walk[k..k + 1] == [walk[k]] && nodes[..1] == [nodes[0]];
    } else {
      assert nodes[1..][i - 1] == nodes[i];
      assert OnlyWay(edges, nodes[i - 1], nodes[i]);
      assert HasEdge(edges, walk[k - 1], walk[k]);
      EnteredAtHead(edges, nodes, walk, k - 1, i - 1);
      assert walk[k - i..k + 1] == walk[k - i..k] + [walk[k]];
      assert nodes[..i + 1] == nodes[..i] + [nodes[i]];
    }
  }

  /** A walk that is at a block of a sequence goes on to the sequence's end, unless it
      stops before. */
  lemma {:induction false} LeftAtEnd(edges: seq<Edge>, nodes: seq<Node>, walk: seq<Node>, k: nat, i: nat, j: nat)
    requires Linear(edges, nodes) && Walk(edges, walk)
    requires k < |walk| && i <= j < |nodes| && walk[k] == nodes[i] && k + (j - i) < |walk|
    ensures walk[k + (j - i)] == nodes[j]
  {
    if i < j {
      LeftAtEnd(edges, nodes, walk, k, i, j - 1);
      assert OnlyWay(edges, nodes[j - 1], nodes[j]);
      assert HasEdge(edges, walk[k + (j - 1 - i)], walk[k + (j - i)]);
    }
  }

  // ---------- the view ----------

  /** Sequences are linear, and no block is in two of them. */
  ghost predicate Sequential(t: Tables, found: seq<Region>)
  {
    && (forall i | 0 <= i < |found| && found[i].kind.SequenceRegion? :: Linear(t.edges, found[i].nodes))
    && (forall i, j | 0 <= i < j < |found| && found[i].kind.SequenceRegion? && found[j].kind.SequenceRegion? ::
      Apart(found[i].nodes, found[j].nodes))
  }

  /** All blocks of sequences are covered. */
  predicate SequencesCovered(covered: set<Node>, found: seq<Region>)
  {
    forall i | 0 <= i < |found| && found[i].kind.SequenceRegion? :: Covers(covered, found[i].nodes)
  }

  lemma SingleAdded(t: Tables, found: seq<Region>, covered: set<Node>, n: Node)
    requires Sequential(t, found) && SequencesCovered(covered, found) && n !in covered
    ensures Sequential(t, found + [Region(SequenceRegion, n, [n])])
    ensures SequencesCovered(covered + {n}, found + [Region(SequenceRegion, n, [n])])
  {
    assert Linear(t.edges, [n]);
    hide Linear;
    var all := found + [Region(SequenceRegion, n, [n])];
    forall i | 0 <= i < |found| && found[i].kind.SequenceRegion? ensures Apart(found[i].nodes, [n]) {
      assert Covers(covered, found[i].nodes);
    }
    assert forall i | 0 <= i < |all| :: i < |found| ==> all[i] == found[i];
  }

  lemma OtherAdded(t: Tables, found: seq<Region>, r: Region, covered: set<Node>)
    requires Sequential(t, found) && SequencesCovered(covered, found) && !r.kind.SequenceRegion?
    ensures Sequential(t, found + [r]) && SequencesCovered(covered, found + [r])
  {
    hide Linear, Apart, Covers;
  }

  lemma FoundStays(before: seq<Region>, after: seq<Region>)
    requires before <= after
    ensures forall n | InSome(before, n) :: InSome(after, n)
    ensures forall a, b | Together(before, a, b) :: Together(after, a, b)
  {
    forall n | InSome(before, n) ensures InSome(after, n) {
      var i :| 0 <= i < |before| && n in before[i].nodes;
      assert after[i] == before[i];
    }
    forall a, b | Together(before, a, b) ensures Together(after, a, b) {
      var i :| 0 <= i < |before| && before[i].kind.SequenceRegion? && a in before[i].nodes && b in before[i].nodes;
      assert after[i] == before[i];
    }
  }

  ghost predicate LoopMember(facts: Facts, n: Node)
  {
    exists i :: 0 <= i < |facts.loops| && n in facts.loops[i].members
  }

  predicate BranchNode(t: Tables, facts: Facts, n: Node)
  {
    n in t.outgoing && (Switches(facts, t.outgoing[n], n) || Branches(facts, t.outgoing[n], n))
  }

  lemma RunsAreSequential(t: Tables, nodes: set<Node>, facts: Facts, order: seq<Node>, covered: set<Node>,
                          found: seq<Region>, base: nat, known: set<Node>)
    requires t.Valid(nodes) && SameNodes(order, nodes) && base <= |found|
    requires forall i | 0 <= i < base :: !found[i].kind.SequenceRegion?
    requires forall i | base <= i < |found| :: IsRun(t, facts, order, covered, found[i])
    requires forall i, j | base <= i < j < |found| :: Apart(found[i].nodes, found[j].nodes)
    requires forall i | base <= i < |found| :: Covers(known, found[i].nodes)
    ensures Sequential(t, found) && SequencesCovered(known, found)
  {
    hide IsRun, Apart, Linear, Covers;
    forall i | base <= i < |found| ensures Linear(t.edges, found[i].nodes) {
      RunIsLinear(t, nodes, facts, order, covered, found[i]);
    }
  }

  /** The region view of a function whose analysis lists no block twice. All that is said
      of the regions found holds of the view itself when there is no cap; with a cap the
      view shows the first of them. */
  method Build(g: Graph, rpo: seq<Node>, nodes: set<Node>, entry: Option<Node>, facts: Facts, cap: nat)
    returns (view: ControlView, order: seq<Node>, t: Tables, ghost covered: set<Node>)
    requires g.Valid() && Distinct(rpo) && nodes != {}
    ensures fresh(view) && view.cap == cap && view.Valid()
    ensures SameNodes(order, nodes) && Distinct(order)
    ensures forall e :: e in t.edges <==> FunctionEdge(g, nodes, e)
    ensures forall n <- order :: InSome(view.found, n)
    ensures Sequential(t, view.found)
    ensures forall n :: n in covered <==> LoopMember(facts, n) || (n in order && BranchNode(t, facts, n))
    ensures forall k | 0 <= k < |order| - 1 && Link(t, facts.backEdges, covered, order[k], order[k + 1]) ::
      Together(view.found, order[k], order[k + 1])
    ensures facts.irreducible ==> view.fallback
  {
    hide InSome, Together, Link, Sequential, SequencesCovered, IsRun, Apart, Covers, Linear, BranchNode, LoopMember, Distinct;
    view := new ControlView(cap);
    var fallback;
    order, fallback := BlockOrder(g, rpo, nodes);
    var remaining := Sorted(g, nodes);
    t := EdgeTables(g, remaining, nodes);
    var inLoops := view.LoopRegions(facts);
    var inBranches := view.BranchRegions(t, facts, order, inLoops);
    covered := inBranches;
    ghost var base := |view.found|;
    var inRuns := view.SequenceRegions(t, facts, order, inBranches);
    RunsAreSequential(t, nodes, facts, order, inBranches, view.found, base, inRuns);
    ghost var runs := view.found;
    if facts.irreducible {
      var r := Region(IrreducibleRegion, if entry.Some? then entry.value else order[0], order);
      MoreRegions(view.found, r);
      OtherAdded(t, view.found, r, inRuns);
      view.AddRegion(r);
      view.fallback := true;
    }
    FoundStays(runs, view.found);
    view.SingleRegions(t, order, inRuns);
    FoundStays(runs, view.found);
    view.fallback := view.fallback || fallback;
  }
}
