/** The statements of the compact view: collected block by block with one page of the
    calls, put into block order, and cut off. */
module Paging {
  import opened Basics

  type Node = nat

  datatype Kind = CallKind | BranchKind | ReturnKind | TrapKind | FaultKind | OtherKind(kind: nat)

  datatype Statement = Statement(kind: Kind, node: Node, content: nat)

  datatype Evidence = Evidence(node: Node, content: nat)

  /** What an operation or a terminator of a block gives rise to: a statement, and
      evidence of the same content. */
  datatype Step = Step(kind: Kind, content: nat)

  datatype Options = Options(callOffset: nat, maxCalls: nat, maxStatements: nat, maxEvidence: nat)

  // ---------- lists by position ----------

  ghost predicate Increasing(s: seq<nat>)
  {
    forall i, j | 0 <= i < j < |s| :: s[i] < s[j]
  }

  lemma HasElement(s: seq<nat>)
    requires s != []
    ensures exists x :: x in s
  {
    assert s[0] in s;
  }

  /** An increasing sequence is determined by its elements. */
  lemma {:induction false} IncreasingUnique(s: seq<nat>, t: seq<nat>)
    requires Increasing(s) && Increasing(t) && forall x :: x in s <==> x in t
    ensures s == t
  {
    if s == [] {
      if t != [] {
        HasElement(t);
      }
    } else {
      assert s[0] in t && |t| > 0;
      var x, y := s[|s| - 1], t[|t| - 1];
      assert x in t && y in s;
      assert x == y;
      var s', t' := s[..|s| - 1], t[..|t| - 1];
      forall z ensures z in s' <==> z in t' {
        assert z in s <==> z in s' || z == x;
        assert z in t <==> z in t' || z == y;
      }
      IncreasingUnique(s', t');
      assert s == s' + [x] && t == t' + [y];
    }
  }

  /** The indices, in their order, of what is chosen. */
  function Chosen(s: seq<nat>, choose: nat -> bool): seq<nat>
  {
    if s == [] then []
    else if choose(s[|s| - 1]) then Chosen(s[..|s| - 1], choose) + [s[|s| - 1]]
    else Chosen(s[..|s| - 1], choose)
  }

  function Upto(n: nat): seq<nat>
  {
    seq(n, i => i)
  }

  lemma UptoElements(n: nat)
    ensures forall x: nat :: x in Upto(n) <==> x < n
  {
    forall x: nat | x < n ensures x in Upto(n) {
      assert Upto(n)[x] == x;
    }
  }

  lemma {:induction false} ChosenElements(s: seq<nat>, choose: nat -> bool)
    ensures forall x :: x in Chosen(s, choose) <==> x in s && choose(x)
  {
    if s != [] {
      ChosenElements(s[..|s| - 1], choose);
      assert s == s[..|s| - 1] + [s[|s| - 1]];
    }
  }

  /** If chosen elements only ascend in a sequence, they make an increasing sequence. */
  lemma {:induction false} ChosenIncreasing(s: seq<nat>, choose: nat -> bool)
    requires forall i, j | 0 <= i < j < |s| && choose(s[i]) && choose(s[j]) :: s[i] < s[j]
    ensures Increasing(Chosen(s, choose))
  {
    if s != [] {
      var front := s[..|s| - 1];
      ChosenIncreasing(front, choose);
      ChosenElements(front, choose);
      var c := Chosen(front, choose);
      forall i | 0 <= i < |c| && choose(s[|s| - 1]) ensures c[i] < s[|s| - 1] {
        assert c[i] in c;
        var k :| 0 <= k < |front| && front[k] == c[i];
        assert s[k] == c[i];
      }
    }
  }

  // ---------- stable sorting ----------

  /** An ordering of the positions by key that keeps positions with equal keys in order. */
  ghost predicate StablySorted(perm: seq<nat>, keys: seq<nat>)
  {
    && (forall i | 0 <= i < |perm| :: perm[i] < |keys|)
    && (forall i, j | 0 <= i < j < |perm| ::
      keys[perm[i]] < keys[perm[j]] || (keys[perm[i]] == keys[perm[j]] && perm[i] < perm[j]))
  }

  ghost predicate Permutes(perm: seq<nat>, n: nat)
  {
    forall i: nat :: i in perm <==> i < n
  }

  method Insert(perm: seq<nat>, keys: seq<nat>, n: nat) returns (r: seq<nat>)
    requires n < |keys| && StablySorted(perm, keys) && Permutes(perm, n)
    ensures StablySorted(r, keys) && Permutes(r, n + 1) && |r| == |perm| + 1
  {
    var k := |perm|;
    while k > 0 && keys[perm[k - 1]] > keys[n]
      invariant 0 <= k <= |perm|
      invariant forall i | k <= i < |perm| :: keys[perm[i]] > keys[n]
    {
      k := k - 1;
    }
    r := perm[..k] + [n] + perm[k..];
    assert forall i | 0 <= i < |perm| :: perm[i] < n by {
      assert forall i | 0 <= i < |perm| :: perm[i] in perm;
    }
    assert n !in perm;
    hide Permutes;
    InsertedSorted(perm, keys, n, k);
    InsertedElements(perm, n, k);
  }

  lemma InsertedElements(perm: seq<nat>, n: nat, k: nat)
    requires Permutes(perm, n) && k <= |perm|
    ensures Permutes(perm[..k] + [n] + perm[k..], n + 1)
  {
    assert perm == perm[..k] + perm[k..];
    assert forall i: nat :: i in perm[..k] + [n] + perm[k..] <==> i in perm || i == n;
  }

  lemma InsertedSorted(perm: seq<nat>, keys: seq<nat>, n: nat, k: nat)
    requires n < |keys| && StablySorted(perm, keys) && k <= |perm| && n !in perm
    requires forall i | 0 <= i < k :: perm[i] < n && keys[perm[i]] <= keys[n]
    requires forall i | k <= i < |perm| :: keys[perm[i]] > keys[n]
    ensures StablySorted(perm[..k] + [n] + perm[k..], keys)
  {
    var r := perm[..k] + [n] + perm[k..];
    forall i, j | 0 <= i < j < |r|
      ensures keys[r[i]] < keys[r[j]] || (keys[r[i]] == keys[r[j]] && r[i] < r[j])
    {
      assert r[i] == if i < k then perm[i] else if i == k then n else perm[i - 1];
      assert r[j] == if j < k then perm[j] else if j == k then n else perm[j - 1];
    }
  }

  method StableSort(keys: seq<nat>) returns (perm: seq<nat>)
    ensures StablySorted(perm, keys) && Permutes(perm, |keys|) && |perm| == |keys|
  {
    perm := [];
    for n := 0 to |keys|
      invariant StablySorted(perm, keys) && Permutes(perm, n) && |perm| == n
    {
      perm := Insert(perm, keys, n);
    }
  }

  /** What ascends already stays in its order. */
  lemma AscendingStays(perm: seq<nat>, keys: seq<nat>, choose: nat -> bool)
    requires StablySorted(perm, keys) && Permutes(perm, |keys|)
    requires forall i, j | 0 <= i < j < |keys| && choose(i) && choose(j) :: keys[i] <= keys[j]
    ensures Chosen(perm, choose) == Chosen(Upto(|keys|), choose)
  {
    var all := Upto(|keys|);
    ChosenAscend(perm, keys, choose);
    UptoElements(|keys|);
    assert forall x: nat :: x in perm <==> x in all;
    ChosenIncreasing(perm, choose);
    ChosenIncreasing(all, choose);
    ChosenElements(perm, choose);
    ChosenElements(all, choose);
    hide Chosen, Upto, Permutes, StablySorted;
    IncreasingUnique(Chosen(perm, choose), Chosen(all, choose));
  }

  lemma ChosenAscend(perm: seq<nat>, keys: seq<nat>, choose: nat -> bool)
    requires StablySorted(perm, keys)
    requires forall i, j | 0 <= i < j < |keys| && choose(i) && choose(j) :: keys[i] <= keys[j]
    ensures forall i, j | 0 <= i < j < |perm| && choose(perm[i]) && choose(perm[j]) :: perm[i] < perm[j]
  {
  }

  // ---------- collecting the statements ----------

  function Statements(n: Node, steps: seq<Step>): seq<Statement>
  {
    if steps == [] then []
    else
      var last := steps[|steps| - 1];
      Statements(n, steps[..|steps| - 1]) + [Statement(last.kind, n, last.content)]
  }

  /** All statements, block after block. */
  function Flat(order: seq<Node>, blocks: seq<seq<Step>>): seq<Statement>
    requires |order| == |blocks|
  {
    if order == [] then []
    else
      var last := |order| - 1;
      Flat(order[..last], blocks[..last]) + Statements(order[last], blocks[last])
  }

  function CallsOf(s: seq<Statement>): seq<Statement>
  {
    if s == [] then []
    else if s[|s| - 1].kind.CallKind? then CallsOf(s[..|s| - 1]) + [s[|s| - 1]]
    else CallsOf(s[..|s| - 1])
  }

  predicate OnPage(options: Options, call: nat)
  {
    options.callOffset <= call && (options.maxCalls == 0 || call - options.callOffset < options.maxCalls)
  }

  /** The statements without the calls that are not on the page. */
  function Kept(s: seq<Statement>, options: Options): seq<Statement>
  {
    if s == [] then []
    else
      var front, last := s[..|s| - 1], s[|s| - 1];
      if last.kind.CallKind? && !OnPage(options, |CallsOf(front)|) then Kept(front, options)
      else Kept(front, options) + [last]
  }

  function MatchingEvidence(s: seq<Statement>): seq<Evidence>
  {
    seq(|s|, i requires 0 <= i < |s| => Evidence(s[i].node, s[i].content))
  }

  /** What a page shows of all calls. */
  function Page(calls: seq<Statement>, options: Options): seq<Statement>
  {
    if options.callOffset >= |calls| then []
    else if options.maxCalls == 0 || options.callOffset + options.maxCalls >= |calls| then calls[options.callOffset..]
    else calls[options.callOffset..options.callOffset + options.maxCalls]
  }

  lemma CallsStep(s: seq<Statement>, x: Statement)
    ensures CallsOf(s + [x]) == if x.kind.CallKind? then CallsOf(s) + [x] else CallsOf(s)
  {
    assert (s + [x])[..|s|] == s;
  }

  lemma KeptStep(s: seq<Statement>, x: Statement, options: Options)
    ensures Kept(s + [x], options)
            == if x.kind.CallKind? && !OnPage(options, |CallsOf(s)|) then Kept(s, options) else Kept(s, options) + [x]
  {
    assert (s + [x])[..|s|] == s;
  }

  lemma PageStep(calls: seq<Statement>, x: Statement, options: Options)
    ensures Page(calls + [x], options)
            == if OnPage(options, |calls|) then Page(calls, options) + [x] else Page(calls, options)
  {
  }

  /** Of the calls, exactly those on the page are kept. */
  lemma {:induction false} KeptCalls(s: seq<Statement>, options: Options)
    ensures CallsOf(Kept(s, options)) == Page(CallsOf(s), options)
  {
    if s != [] {
      var front, last := s[..|s| - 1], s[|s| - 1];
      assert s == front + [last];
      KeptCalls(front, options);
      CallsStep(front, last);
      if last.kind.CallKind? {
        PageStep(CallsOf(front), last, options);
      }
      CallsStep(Kept(front, options), last);
    }
  }

  /** The statements of one block. */
  method CollectBlock(n: Node, steps: seq<Step>, options: Options, ghost before: seq<Statement>,
                      material0: seq<Statement>, evidence0: seq<Evidence>, seen0: nat)
    returns (material: seq<Statement>, evidence: seq<Evidence>, seen: nat, omitted: nat)
    requires material0 == Kept(before, options) && evidence0 == MatchingEvidence(material0) && seen0 == |CallsOf(before)|
    ensures material == Kept(before + Statements(n, steps), options) && evidence == MatchingEvidence(material)
    ensures seen == |CallsOf(before + Statements(n, steps))|
    ensures seen - seen0 == |CallsOf(material)| - |CallsOf(material0)| + omitted
  {
    hide Kept, CallsOf, OnPage;
    material, evidence, seen, omitted := material0, evidence0, seen0, 0;
    assert before + [] == before;
    for k := 0 to |steps|
      invariant material == Kept(before + Statements(n, steps[..k]), options) && evidence == MatchingEvidence(material)
      invariant seen == |CallsOf(before + Statements(n, steps[..k]))|
      invariant seen - seen0 == |CallsOf(material)| - |CallsOf(material0)| + omitted
    {
      var statement := Statement(steps[k].kind, n, steps[k].content);
      StatementsStep(n, steps, k, before);
      CallsStep(before + Statements(n, steps[..k]), statement);
      KeptStep(before + Statements(n, steps[..k]), statement, options);
      CallsStep(material, statement);
      if statement.kind.CallKind? {
        var call := seen;
        seen := seen + 1;
        if !OnPage(options, call) {
          omitted := omitted + 1;
          continue;
        }
      }
      material := material + [statement];
      evidence := evidence + [Evidence(n, steps[k].content)];
    }
    assert steps[..|steps|] == steps;
  }

  lemma StatementsStep(n: Node, steps: seq<Step>, k: nat, before: seq<Statement>)
    requires k < |steps|
    ensures before + Statements(n, steps[..k + 1])
            == before + Statements(n, steps[..k]) + [Statement(steps[k].kind, n, steps[k].content)]
  {
    assert steps[..k + 1][..k] == steps[..k];
  }

  /** The statements in block order with one page of the calls. */
  method Collect(order: seq<Node>, blocks: seq<seq<Step>>, options: Options)
    returns (material: seq<Statement>, evidence: seq<Evidence>, total: nat, omitted: nat)
    requires |order| == |blocks|
    ensures material == Kept(Flat(order, blocks), options) && evidence == MatchingEvidence(material)
    ensures total == |CallsOf(Flat(order, blocks))| == |CallsOf(material)| + omitted
  {
    material, evidence, total, omitted := [], [], 0, 0;
    assert Kept([], options) == [] && CallsOf([]) == [];
    hide Kept, CallsOf;
    for i := 0 to |order|
      invariant material == Kept(Flat(order[..i], blocks[..i]), options) && evidence == MatchingEvidence(material)
      invariant total == |CallsOf(Flat(order[..i], blocks[..i]))| == |CallsOf(material)| + omitted
    {
      var skipped;
      material, evidence, total, skipped :=
        CollectBlock(order[i], blocks[i], options, Flat(order[..i], blocks[..i]), material, evidence, total);
      omitted := omitted + skipped;
      assert order[..i + 1][..i] == order[..i] && blocks[..i + 1][..i] == blocks[..i];
    }
    assert order[..|order|] == order && blocks[..|blocks|] == blocks;
  }

  // ---------- ordering the statements ----------

  function NodeIndex(order: seq<Node>, n: Node): (i: nat)
    ensures i <= |order| && (i < |order| ==> order[i] == n)
    ensures n in order <==> i < |order|
    ensures forall k | 0 <= k < i :: order[k] != n
  {
    if order == [] then 0 else if order[0] == n then 0 else 1 + NodeIndex(order[1..], n)
  }

  predicate Terminal(kind: Kind)
  {
    kind in {ReturnKind, TrapKind, FaultKind}
  }

  /** Statements are compared by block, then by whether they end their block. */
  function Key(order: seq<Node>, s: Statement): nat
  {
    2 * NodeIndex(order, s.node) + (if Terminal(s.kind) then 1 else 0)
  }

  function Keys(order: seq<Node>, s: seq<Statement>): seq<nat>
  {
    seq(|s|, i requires 0 <= i < |s| => Key(order, s[i]))
  }

  function Pick<T>(s: seq<T>, perm: seq<nat>): seq<T>
    requires forall i | 0 <= i < |perm| :: perm[i] < |s|
  {
    seq(|perm|, i requires 0 <= i < |perm| => s[perm[i]])
  }

  ghost predicate Ascending(order: seq<Node>, s: seq<Statement>)
  {
    forall i, j | 0 <= i < j < |s| :: NodeIndex(order, s[i].node) <= NodeIndex(order, s[j].node)
  }

  lemma {:induction false} StatementsNode(n: Node, steps: seq<Step>)
    ensures forall s <- Statements(n, steps) :: s.node == n
  {
    if steps != [] {
      StatementsNode(n, steps[..|steps| - 1]);
    }
  }

  lemma {:induction false} FlatAscending(order: seq<Node>, blocks: seq<seq<Step>>, k: nat)
    requires |order| == |blocks| && k <= |order|
    requires forall i, j | 0 <= i < j < |order| :: order[i] != order[j]
    ensures Ascending(order, Flat(order[..k], blocks[..k]))
    ensures forall s <- Flat(order[..k], blocks[..k]) :: NodeIndex(order, s.node) < k
  {
    if k > 0 {
      hide Ascending;
      FlatAscending(order, blocks, k - 1);
      StatementsNode(order[k - 1], blocks[k - 1]);
      assert order[..k][..k - 1] == order[..k - 1] && blocks[..k][..k - 1] == blocks[..k - 1];
      var a, b := Flat(order[..k - 1], blocks[..k - 1]), Statements(order[k - 1], blocks[k - 1]);
      assert Flat(order[..k], blocks[..k]) == a + b;
      assert NodeIndex(order, order[k - 1]) == k - 1;
      JoinAscending(order, a, b, k - 1);
    }
  }

  lemma AllAscending(order: seq<Node>, blocks: seq<seq<Step>>)
    requires |order| == |blocks| && forall i, j | 0 <= i < j < |order| :: order[i] != order[j]
    ensures Ascending(order, Flat(order, blocks))
  {
    FlatAscending(order, blocks, |order|);
    assert order[..|order|] == order && blocks[..|blocks|] == blocks;
  }

  lemma JoinAscending(order: seq<Node>, a: seq<Statement>, b: seq<Statement>, k: nat)
    requires Ascending(order, a)
    requires forall s <- a :: NodeIndex(order, s.node) < k
    requires forall s <- b :: NodeIndex(order, s.node) == k
    ensures Ascending(order, a + b)
    ensures forall s <- a + b :: NodeIndex(order, s.node) <= k
  {
    var all := a + b;
    forall i | 0 <= i < |all|
      ensures NodeIndex(order, all[i].node) <= k && (i >= |a| ==> NodeIndex(order, all[i].node) == k)
    {
      assert all[i] == if i < |a| then a[i] else b[i - |a|];
      assert all[i] in a || all[i] in b;
    }
    forall i, j | 0 <= i < j < |all| ensures NodeIndex(order, all[i].node) <= NodeIndex(order, all[j].node) {
      if j < |a| {
        assert all[i] == a[i] && all[j] == a[j];
      }
    }
  }

  lemma {:induction false} KeptAscending(order: seq<Node>, s: seq<Statement>, options: Options)
    requires Ascending(order, s)
    ensures Ascending(order, Kept(s, options))
    ensures forall x <- Kept(s, options) :: x in s
  {
    if s != [] {
      var front, last := s[..|s| - 1], s[|s| - 1];
      assert s == front + [last];
      KeptAscending(order, front, options);
      hide Ascending;
      AppendAscending(order, Kept(front, options), front, last);
    }
  }

  lemma AppendAscending(order: seq<Node>, kept: seq<Statement>, front: seq<Statement>, last: Statement)
    requires Ascending(order, kept) && Ascending(order, front + [last])
    requires forall x <- kept :: x in front
    ensures Ascending(order, kept + [last])
  {
    var all := front + [last];
    forall i | 0 <= i < |kept| ensures NodeIndex(order, kept[i].node) <= NodeIndex(order, last.node) {
      assert kept[i] in front;
      var k :| 0 <= k < |front| && front[k] == kept[i];
      assert all[k] == front[k] && all[|front|] == last;
    }
  }

  function IsCall(s: seq<Statement>): nat -> bool
  {
    (i: nat) => i < |s| && s[i].kind.CallKind?
  }

  lemma {:induction false} PickCalls(s: seq<Statement>, perm: seq<nat>)
    requires forall i | 0 <= i < |perm| :: perm[i] < |s|
    ensures forall i | 0 <= i < |Chosen(perm, IsCall(s))| :: Chosen(perm, IsCall(s))[i] < |s|
    ensures CallsOf(Pick(s, perm)) == Pick(s, Chosen(perm, IsCall(s)))
  {
    if perm != [] {
      var front := perm[..|perm| - 1];
      PickCalls(s, front);
      assert Pick(s, perm)[..|perm| - 1] == Pick(s, front);
    }
  }

  lemma CallsAscend(order: seq<Node>, kept: seq<Statement>, extra: seq<Statement>, perm: seq<nat>)
    requires Ascending(order, kept) && forall s <- extra :: !s.kind.CallKind?
    requires StablySorted(perm, Keys(order, kept + extra)) && Permutes(perm, |kept + extra|)
    ensures Chosen(perm, IsCall(kept + extra)) == Chosen(Upto(|kept + extra|), IsCall(kept + extra))
  {
    var all := kept + extra;
    var keys := Keys(order, all);
    assert forall k | |kept| <= k < |all| :: all[k] == extra[k - |kept|] && all[k] in extra;
    forall i, j | 0 <= i < j < |keys| && IsCall(all)(i) && IsCall(all)(j) ensures keys[i] <= keys[j] {
      assert all[i] == kept[i] && all[j] == kept[j];
    }
    AscendingStays(perm, keys, IsCall(all));
  }

  /** Reordering leaves the calls as they are, because they are in block order already. */
  lemma CallsStay(order: seq<Node>, kept: seq<Statement>, extra: seq<Statement>, perm: seq<nat>)
    requires Ascending(order, kept) && forall s <- extra :: !s.kind.CallKind?
    requires StablySorted(perm, Keys(order, kept + extra)) && Permutes(perm, |kept + extra|)
    ensures CallsOf(Pick(kept + extra, perm)) == CallsOf(kept)
  {
    var all := kept + extra;
    CallsAscend(order, kept, extra, perm);
    PickCalls(all, perm);
    PickCalls(all, Upto(|all|));
    assert Pick(all, Upto(|all|)) == all;
    NoCallsAdded(kept, extra);
  }

  lemma {:induction false} NoCallsAdded(kept: seq<Statement>, extra: seq<Statement>)
    requires forall s <- extra :: !s.kind.CallKind?
    ensures CallsOf(kept + extra) == CallsOf(kept)
    decreases |extra|
  {
    if extra == [] {
      assert kept + extra == kept;
    } else {
      var front := extra[..|extra| - 1];
      assert extra[|extra| - 1] in extra;
      assert kept + extra == (kept + front) + [extra[|extra| - 1]];
      NoCallsAdded(kept, front);
      CallsStep(kept + front, extra[|extra| - 1]);
    }
  }

  // ---------- where calls stand ----------

  /** How many statements other than calls have a key below the bound. */
  function Others(order: seq<Node>, s: seq<Statement>, bound: nat): nat
  {
    if s == [] then 0
    else
      var last := s[|s| - 1];
      Others(order, s[..|s| - 1], bound) + (if !last.kind.CallKind? && Key(order, last) < bound then 1 else 0)
  }

  /** How many statements other than calls come before the p-th statement once they are
      stably sorted. */
  function Before(order: seq<Node>, s: seq<Statement>, p: nat): nat
    requires p < |s|
  {
    Others(order, s[..p], Key(order, s[p]) + 1) + Others(order, s[p + 1..], Key(order, s[p]))
  }

  /** The position of a call, by its number. */
  function Position(s: seq<Statement>, call: nat): (p: nat)
    requires call < |CallsOf(s)|
    ensures p < |s| && s[p].kind.CallKind? && |CallsOf(s[..p])| == call
  {
    var front, last := s[..|s| - 1], s[|s| - 1];
    if last.kind.CallKind? && call == |CallsOf(front)| then |s| - 1
    else
      var p := Position(front, call);
      assert front[..p] == s[..p];
      p
  }

  lemma {:induction false} OthersAppend(order: seq<Node>, a: seq<Statement>, b: seq<Statement>, bound: nat)
    ensures Others(order, a + b, bound) == Others(order, a, bound) + Others(order, b, bound)
    decreases |b|
  {
    if b == [] {
      assert a + b == a;
    } else {
      assert (a + b)[..|a + b| - 1] == a + b[..|b| - 1];
      OthersAppend(order, a, b[..|b| - 1], bound);
    }
  }

  lemma {:induction false} OthersMonotone(order: seq<Node>, s: seq<Statement>, bound: nat, more: nat)
    requires bound <= more
    ensures Others(order, s, bound) <= Others(order, s, more)
  {
    if s != [] {
      OthersMonotone(order, s[..|s| - 1], bound, more);
    }
  }

  lemma AroundTwo(s: seq<Statement>, p: nat, q: nat)
    requires p < q < |s|
    ensures s[..q] == s[..p] + [s[p]] + s[p + 1..q] && s[p + 1..] == s[p + 1..q] + [s[q]] + s[q + 1..]
  {
    assert s[..q] == s[..p + 1] + s[p + 1..q] && s[..p + 1] == s[..p] + [s[p]];
    assert s[p + 1..] == s[p + 1..q] + s[q..] && s[q..] == [s[q]] + s[q + 1..];
  }

  /** Later calls have no fewer statements before them. */
  lemma BeforeMonotone(order: seq<Node>, s: seq<Statement>, p: nat, q: nat)
    requires p < q < |s| && s[p].kind.CallKind? && s[q].kind.CallKind? && Key(order, s[p]) <= Key(order, s[q])
    ensures Before(order, s, p) <= Before(order, s, q)
  {
    hide Others, Key;
    var k, l := Key(order, s[p]), Key(order, s[q]);
    var left, middle, right := s[..p], s[p + 1..q], s[q + 1..];
    AroundTwo(s, p, q);
    OthersBetween(order, left, s[p], middle, l + 1);
    OthersBetween(order, middle, s[q], right, k);
    OthersMonotone(order, left, k + 1, l + 1);
    OthersMonotone(order, middle, k, l + 1);
    OthersMonotone(order, right, k, l);
  }

  /** Calls do not count. */
  lemma OthersBetween(order: seq<Node>, a: seq<Statement>, call: Statement, b: seq<Statement>, bound: nat)
    requires call.kind.CallKind?
    ensures Others(order, a + [call] + b, bound) == Others(order, a, bound) + Others(order, b, bound)
  {
    OthersAppend(order, a + [call], b, bound);
    assert (a + [call])[..|a|] == a;
  }

  /** The positions that come before q in a stable sort. */
  predicate Earlier(keys: seq<nat>, i: nat, q: nat)
    requires i < |keys| && q < |keys|
  {
    keys[i] < keys[q] || (keys[i] == keys[q] && i < q)
  }

  function EarlierOther(order: seq<Node>, s: seq<Statement>, q: nat): nat -> bool
    requires q < |s|
  {
    (i: nat) => i < |s| && !s[i].kind.CallKind? && Earlier(Keys(order, s), i, q)
  }

  lemma UptoStep(n: nat)
    ensures Upto(n + 1) == Upto(n) + [n] && Upto(n + 1)[..n] == Upto(n)
  {
  }

  lemma EarlierAt(order: seq<Node>, s: seq<Statement>, q: nat, i: nat)
    requires q < |s| && i < |s|
    ensures EarlierOther(order, s, q)(i) <==>
      !s[i].kind.CallKind? && i != q && Key(order, s[i]) < Key(order, s[q]) + if i < q then 1 else 0
  {
  }

  lemma {:induction false} OthersLeft(order: seq<Node>, s: seq<Statement>, q: nat, n: nat)
    requires n <= q < |s|
    ensures |Chosen(Upto(n), EarlierOther(order, s, q))| == Others(order, s[0..n], Key(order, s[q]) + 1)
  {
    if n > 0 {
      OthersLeft(order, s, q, n - 1);
      ChosenUpto(EarlierOther(order, s, q), n - 1);
      EarlierAt(order, s, q, n - 1);
      hide Others, Key, Chosen, Upto, EarlierOther;
      OthersTail(order, s, 0, n, Key(order, s[q]) + 1);
    }
  }

  lemma {:induction false} OthersChosen(order: seq<Node>, s: seq<Statement>, q: nat, n: nat)
    requires q < n <= |s|
    ensures |Chosen(Upto(n), EarlierOther(order, s, q))| ==
      Others(order, s[..q], Key(order, s[q]) + 1) + Others(order, s[q + 1..n], Key(order, s[q]))
  {
    hide *;
    ChosenUpto(EarlierOther(order, s, q), n - 1);
    EarlierAt(order, s, q, n - 1);
    if n > q + 1 {
      OthersChosen(order, s, q, n - 1);
      OthersTail(order, s, q + 1, n, Key(order, s[q]));
    } else {
      OthersLeft(order, s, q, q);
      assert s[0..q] == s[..q];
      OthersNone(order, s[q + 1..n], Key(order, s[q]));
    }
  }

  lemma OthersNone(order: seq<Node>, s: seq<Statement>, bound: nat)
    requires s == []
    ensures Others(order, s, bound) == 0
  {
  }

  lemma OthersTail(order: seq<Node>, s: seq<Statement>, a: nat, n: nat, bound: nat)
    requires a < n <= |s|
    ensures Others(order, s[a..n], bound) ==
      Others(order, s[a..n - 1], bound) + if !s[n - 1].kind.CallKind? && Key(order, s[n - 1]) < bound then 1 else 0
  {
    assert s[a..n][..n - 1 - a] == s[a..n - 1];
  }

  lemma ChosenUpto(choose: nat -> bool, n: nat)
    ensures Chosen(Upto(n + 1), choose) == if choose(n) then Chosen(Upto(n), choose) + [n] else Chosen(Upto(n), choose)
  {
    UptoStep(n);
  }

  lemma {:induction false} CallsChosen(s: seq<Statement>, n: nat)
    requires n <= |s|
    ensures |Chosen(Upto(n), IsCall(s))| == |CallsOf(s[..n])|
  {
    if n > 0 {
      CallsChosen(s, n - 1);
      UptoStep(n - 1);
      assert s[..n][..n - 1] == s[..n - 1];
    }
  }

  lemma {:induction false} ChosenPrefix(s: seq<nat>, choose: nat -> bool, k: nat)
    requires k <= |s|
    ensures Chosen(s[..k], choose) <= Chosen(s, choose)
    decreases |s|
  {
    if k < |s| {
      assert s[..|s| - 1][..k] == s[..k];
      ChosenPrefix(s[..|s| - 1], choose, k);
    } else {
      assert s[..k] == s;
    }
  }

  lemma ChosenStep(s: seq<nat>, choose: nat -> bool, k: nat)
    requires k < |s|
    ensures Chosen(s[..k + 1], choose) == if choose(s[k]) then Chosen(s[..k], choose) + [s[k]] else Chosen(s[..k], choose)
  {
    assert s[..k + 1][..k] == s[..k];
  }

  /** Where a chosen element stands. */
  lemma {:induction false} ChosenAt(s: seq<nat>, choose: nat -> bool, j: nat) returns (r: nat)
    requires j < |Chosen(s, choose)|
    ensures r < |s| && s[r] == Chosen(s, choose)[j] && choose(s[r]) && |Chosen(s[..r], choose)| == j
  {
    var front := s[..|s| - 1];
    if j < |Chosen(front, choose)| {
      r := ChosenAt(front, choose, j);
      assert front[..r] == s[..r];
    } else {
      r := |s| - 1;
    }
  }

  lemma {:induction false} ChosenDistinct(s: seq<nat>, choose: nat -> bool)
    requires Distinct(s)
    ensures Distinct(Chosen(s, choose))
  {
    if s != [] {
      var front := s[..|s| - 1];
      ChosenDistinct(front, choose);
      ChosenElements(front, choose);
      assert forall i | 0 <= i < |Chosen(front, choose)| :: Chosen(front, choose)[i] in Chosen(front, choose);
    }
  }

  lemma {:induction false} ChosenParts(s: seq<nat>, all: seq<Statement>, q: nat, order: seq<Node>)
    requires q < |all|
    requires forall i <- s :: i < |all| && (!all[i].kind.CallKind? ==> Earlier(Keys(order, all), i, q))
    ensures |Chosen(s, IsCall(all))| + |Chosen(s, EarlierOther(order, all, q))| == |s|
  {
    if s != [] {
      assert s[|s| - 1] in s;
      ChosenParts(s[..|s| - 1], all, q, order);
    }
  }

  /** The statements other than calls in front of a position of the arrangement. */
  lemma OthersInFront(order: seq<Node>, all: seq<Statement>, perm: seq<nat>, r: nat)
    requires StablySorted(perm, Keys(order, all)) && Permutes(perm, |all|) && |perm| == |all| && r < |perm|
    ensures |Chosen(perm[..r], EarlierOther(order, all, perm[r]))| == Before(order, all, perm[r])
    ensures forall i <- perm[..r] :: i < |all| && Earlier(Keys(order, all), i, perm[r])
  {
    var q, keys := perm[r], Keys(order, all);
    var choose := EarlierOther(order, all, q);
    var front, upto := perm[..r], Upto(|all|);
    FrontIsEarlier(perm, keys, r);
    ChosenElements(front, choose);
    ChosenElements(upto, choose);
    ChosenDistinct(front, choose);
    ChosenDistinct(upto, choose);
    UptoElements(|all|);
    hide Chosen, Before, Others, Keys;
    DistinctAmong(Chosen(front, choose), Chosen(upto, choose));
    DistinctAmong(Chosen(upto, choose), Chosen(front, choose));
    BeforeChosen(order, all, q);
  }

  lemma BeforeChosen(order: seq<Node>, s: seq<Statement>, q: nat)
    requires q < |s|
    ensures |Chosen(Upto(|s|), EarlierOther(order, s, q))| == Before(order, s, q)
  {
    OthersChosen(order, s, q, |s|);
    assert s[q + 1..|s|] == s[q + 1..];
  }

  lemma FrontIsEarlier(perm: seq<nat>, keys: seq<nat>, r: nat)
    requires StablySorted(perm, keys) && Permutes(perm, |keys|) && r < |perm|
    ensures Distinct(perm[..r]) && forall i: nat :: i in perm[..r] <==> i < |keys| && Earlier(keys, i, perm[r])
  {
    forall i: nat ensures i in perm[..r] <==> i < |keys| && Earlier(keys, i, perm[r]) {
      if i < |keys| {
        assert i in perm;
        var k :| 0 <= k < |perm| && perm[k] == i;
        assert k < r ==> perm[..r][k] == i;
      }
    }
  }

  /** A call stands behind the calls before it and the other statements before it. */
  lemma StandsAt(order: seq<Node>, all: seq<Statement>, perm: seq<nat>, q: nat) returns (r: nat)
    requires StablySorted(perm, Keys(order, all)) && Permutes(perm, |all|) && |perm| == |all|
    requires Chosen(perm, IsCall(all)) == Chosen(Upto(|all|), IsCall(all))
    requires q < |all| && all[q].kind.CallKind?
    ensures r == |CallsOf(all[..q])| + Before(order, all, q) && r < |perm| && perm[r] == q
    ensures |Chosen(perm[..r], IsCall(all))| == |CallsOf(all[..q])|
  {
    var j, choose, upto := |CallsOf(all[..q])|, IsCall(all), Upto(|all|);
    CallsChosen(all, q);
    assert upto[..q] == Upto(q) && upto[q] == q;
    ChosenStep(upto, choose, q);
    ChosenPrefix(upto, choose, q + 1);
    assert Chosen(upto, choose)[j] == q;
    r := ChosenAt(perm, choose, j);
    OthersInFront(order, all, perm, r);
    ChosenParts(perm[..r], all, q, order);
  }

  lemma {:induction false} CallsOfPrefix(s: seq<Statement>, k: nat)
    requires k <= |s|
    ensures CallsOf(s[..k]) <= CallsOf(s)
    decreases |s|
  {
    if k < |s| {
      assert s[..|s| - 1][..k] == s[..k];
      CallsOfPrefix(s[..|s| - 1], k);
    } else {
      assert s[..k] == s;
    }
  }

  // ---------- the view ----------

  datatype View = View(statements: seq<Statement>, evidence: seq<Evidence>, totalCalls: nat,
                       omittedCalls: nat, omittedBranches: nat, omittedStatements: nat, omittedEvidence: nat, truncated: bool)

  function Count(s: seq<Statement>, kind: Kind): nat
  {
    if s == [] then 0 else Count(s[..|s| - 1], kind) + (if s[|s| - 1].kind == kind then 1 else 0)
  }

  lemma {:induction false} CountCalls(s: seq<Statement>)
    ensures Count(s, CallKind) == |CallsOf(s)|
  {
    if s != [] {
      CountCalls(s[..|s| - 1]);
    }
  }

  function Limit(n: nat, most: nat): nat
  {
    if most == 0 || n <= most then n else most
  }

  /** The statements of the function with those discovered besides, stably sorted by
      block with the end of each block last; evidence stays with its statement. */
  ghost predicate Arranged(order: seq<Node>, collected: seq<Statement>, perm: seq<nat>, ordered: seq<Statement>)
  {
    && StablySorted(perm, Keys(order, collected)) && Permutes(perm, |collected|) && |perm| == |collected|
    && ordered == Pick(collected, perm)
  }

  /** In an arrangement blocks follow the block order, and returns, traps and faults come
      last in their block. */
  lemma ArrangedInOrder(order: seq<Node>, collected: seq<Statement>, perm: seq<nat>, ordered: seq<Statement>, i: nat, j: nat)
    requires Arranged(order, collected, perm, ordered) && i < j < |ordered|
    ensures NodeIndex(order, ordered[i].node) <= NodeIndex(order, ordered[j].node)
    ensures ordered[i].node == ordered[j].node && Terminal(ordered[i].kind) ==> Terminal(ordered[j].kind)
  {
    var keys := Keys(order, collected);
    assert keys[perm[i]] <= keys[perm[j]];
    assert keys[perm[i]] == Key(order, ordered[i]) && keys[perm[j]] == Key(order, ordered[j]);
  }

  lemma {:induction false} CountSplit(s: seq<Statement>, k: nat, kind: Kind)
    requires k <= |s|
    ensures Count(s, kind) == Count(s[..k], kind) + Count(s[k..], kind)
    decreases |s|
  {
    if k == |s| {
      assert s[..k] == s;
    } else {
      var front := s[..|s| - 1];
      assert front[..k] == s[..k] && front[k..] == s[k..][..|s[k..]| - 1];
      CountSplit(front, k, kind);
    }
  }

  /** Counts the statements that are cut off. */
  method CutOff(ordered: seq<Statement>, keep: nat) returns (branches: nat, calls: nat)
    requires keep <= |ordered|
    ensures branches == Count(ordered, BranchKind) - Count(ordered[..keep], BranchKind)
    ensures calls == |CallsOf(ordered)| - |CallsOf(ordered[..keep])|
  {
    branches, calls := 0, 0;
    var rest := ordered[keep..];
    for k := 0 to |rest|
      invariant branches == Count(rest[..k], BranchKind) && calls == Count(rest[..k], CallKind)
    {
      assert rest[..k + 1][..k] == rest[..k];
      if rest[k].kind == BranchKind {
        branches := branches + 1;
      }
      if rest[k].kind == CallKind {
        calls := calls + 1;
      }
    }
    assert rest[..|rest|] == rest;
    CountSplit(ordered, keep, BranchKind);
    CountSplit(ordered, keep, CallKind);
    CountCalls(ordered);
    CountCalls(ordered[..keep]);
  }

  lemma SortedInRange(order: seq<Node>, s: seq<Statement>, perm: seq<nat>)
    requires StablySorted(perm, Keys(order, s))
    ensures |Keys(order, s)| == |s| && forall i | 0 <= i < |perm| :: perm[i] < |s|
  {
  }

  // ---------- which calls a page shows ----------

  /** How many statements other than calls stand before a call, by its number, once all
      statements are sorted. */
  function InFront(order: seq<Node>, flat: seq<Statement>, extra: seq<Statement>, call: nat): nat
    requires call < |CallsOf(flat)|
  {
    Before(order, flat + extra, Position(flat, call))
  }

  /** Where a kept statement is, and what is left behind it. */
  lemma {:induction false} KeptSplit(order: seq<Node>, s: seq<Statement>, options: Options, p: nat, bound: nat)
    requires p < |s| && (s[p].kind.CallKind? ==> OnPage(options, |CallsOf(s[..p])|))
    ensures
      var q := |Kept(s[..p], options)|;
      && q < |Kept(s, options)| && Kept(s, options)[..q] == Kept(s[..p], options) && Kept(s, options)[q] == s[p]
      && Others(order, Kept(s, options)[q + 1..], bound) == Others(order, s[p + 1..], bound)
    decreases |s|
  {
    hide *;
    var front, last := s[..|s| - 1], s[|s| - 1];
    assert front + [last] == s;
    KeptStep(front, last, options);
    if p == |s| - 1 {
      NothingBehind(Kept(front, options), last);
      NothingBehind(front, last);
    } else {
      assert front[..p] == s[..p];
      KeptSplit(order, front, options, p, bound);
      var q := |Kept(s[..p], options)|;
      OthersLast(order, front, last, p, bound);
      OthersLast(order, Kept(front, options), last, q, bound);
      FrontStays(Kept(front, options), last, q);
    }
  }

  lemma NothingBehind<T>(s: seq<T>, x: T)
    ensures (s + [x])[..|s|] == s && (s + [x])[|s| + 1..] == []
  {
  }

  lemma FrontStays<T>(s: seq<T>, x: T, q: nat)
    requires q < |s|
    ensures (s + [x])[..q] == s[..q] && (s + [x])[q] == s[q]
  {
  }

  lemma OthersLast(order: seq<Node>, front: seq<Statement>, last: Statement, p: nat, bound: nat)
    requires p < |front|
    ensures Others(order, (front + [last])[p + 1..], bound) ==
      Others(order, front[p + 1..], bound) + Others(order, [last], bound)
    ensures last.kind.CallKind? ==> Others(order, [last], bound) == 0
  {
    assert (front + [last])[p + 1..] == front[p + 1..] + [last];
    OthersAppend(order, front[p + 1..], [last], bound);
    assert [last][..0] == [];
  }

  lemma {:induction false} OthersKept(order: seq<Node>, s: seq<Statement>, options: Options, bound: nat)
    ensures Others(order, Kept(s, options), bound) == Others(order, s, bound)
  {
    if s != [] {
      var front, last := s[..|s| - 1], s[|s| - 1];
      OthersKept(order, front, options, bound);
      assert (Kept(front, options) + [last])[..|Kept(front, options)|] == Kept(front, options);
    }
  }

  /** Leaving calls out changes nothing about the statements before another one. */
  lemma KeptBefore(order: seq<Node>, flat: seq<Statement>, extra: seq<Statement>, options: Options, p: nat)
    requires p < |flat| && flat[p].kind.CallKind? && OnPage(options, |CallsOf(flat[..p])|)
    ensures
      var kept, q := Kept(flat, options), |Kept(flat[..p], options)|;
      && q < |kept| && kept[q] == flat[p] && kept[..q] == Kept(flat[..p], options)
      && Before(order, kept + extra, q) == Before(order, flat + extra, p)
  {
    var kept, q, key := Kept(flat, options), |Kept(flat[..p], options)|, Key(order, flat[p]);
    KeptSplit(order, flat, options, p, key);
    OthersKept(order, flat[..p], options, key + 1);
    hide Others, Key, Kept, CallsOf, OnPage;
    BeforeWith(order, kept, extra, q);
    BeforeWith(order, flat, extra, p);
  }

  lemma BeforeWith(order: seq<Node>, s: seq<Statement>, extra: seq<Statement>, p: nat)
    requires p < |s|
    ensures Before(order, s + extra, p) ==
      Others(order, s[..p], Key(order, s[p]) + 1) + Others(order, s[p + 1..], Key(order, s[p]))
      + Others(order, extra, Key(order, s[p]))
  {
    hide Others, Key;
    assert (s + extra)[..p] == s[..p] && (s + extra)[p + 1..] == s[p + 1..] + extra;
    OthersAppend(order, s[p + 1..], extra, Key(order, s[p]));
  }

  lemma PageCount(calls: seq<Statement>, options: Options, j: nat)
    requires |calls| == options.callOffset + j && (options.maxCalls == 0 || j < options.maxCalls)
    ensures OnPage(options, |calls|) && |Page(calls, options)| == j
  {
  }

  /** The j-th call of a page stands behind j calls and the statements in front of it. */
  lemma CallOfPage(order: seq<Node>, flat: seq<Statement>, extra: seq<Statement>, options: Options,
                   perm: seq<nat>, ordered: seq<Statement>, j: nat) returns (r: nat)
    requires Ascending(order, flat) && forall s <- extra :: !s.kind.CallKind?
    requires Arranged(order, Kept(flat, options) + extra, perm, ordered)
    requires j < |Page(CallsOf(flat), options)|
    ensures options.callOffset + j < |CallsOf(flat)|
    ensures r == j + InFront(order, flat, extra, options.callOffset + j) && r < |ordered| && ordered[r].kind.CallKind?
    ensures |CallsOf(ordered[..r])| == j
  {
    hide *;
    KeptAscending(order, flat, options);
    var q := KeptCall(order, flat, extra, options, j);
    r := PlaceOf(order, Kept(flat, options), extra, perm, ordered, q);
  }

  /** Where the j-th call of a page is before sorting. */
  lemma KeptCall(order: seq<Node>, flat: seq<Statement>, extra: seq<Statement>, options: Options, j: nat)
    returns (q: nat)
    requires j < |Page(CallsOf(flat), options)|
    ensures options.callOffset + j < |CallsOf(flat)|
    ensures
      var kept := Kept(flat, options);
      && q < |kept| && kept[q].kind.CallKind? && |CallsOf(kept[..q])| == j
      && Before(order, kept + extra, q) == InFront(order, flat, extra, options.callOffset + j)
  {
    var p := Position(flat, options.callOffset + j);
    hide Kept, CallsOf, Before, Position;
    PageCount(CallsOf(flat[..p]), options, j);
    KeptBefore(order, flat, extra, options, p);
    q := |Kept(flat[..p], options)|;
    KeptCalls(flat[..p], options);
  }

  /** Where a call is after sorting. */
  lemma PlaceOf(order: seq<Node>, kept: seq<Statement>, extra: seq<Statement>, perm: seq<nat>,
                ordered: seq<Statement>, q: nat) returns (r: nat)
    requires Ascending(order, kept) && forall s <- extra :: !s.kind.CallKind?
    requires Arranged(order, kept + extra, perm, ordered)
    requires q < |kept| && kept[q].kind.CallKind?
    ensures r == |CallsOf(kept[..q])| + Before(order, kept + extra, q) && r < |ordered| && ordered[r].kind.CallKind?
    ensures |CallsOf(ordered[..r])| == |CallsOf(kept[..q])|
  {
    var all := kept + extra;
    assert all[..q] == kept[..q] && all[q] == kept[q];
    hide CallsOf, Before, Ascending, Chosen, StablySorted, Permutes, Keys;
    CallsAscend(order, kept, extra, perm);
    r := StandsAt(order, all, perm, q);
    PickCalls(all, perm[..r]);
    assert ordered[..r] == Pick(all, perm[..r]);
  }

  /** A beginning shows a call if and only if the call stands in it. */
  lemma ShownInFront(s: seq<Statement>, r: nat, keep: nat)
    requires r < |s| && keep <= |s| && s[r].kind.CallKind?
    ensures |CallsOf(s[..r])| < |CallsOf(s[..keep])| <==> r < keep
  {
    hide CallsOf;
    if r < keep {
      CallsStep(s[..r], s[r]);
      assert s[..r] + [s[r]] == s[..r + 1] == s[..keep][..r + 1];
      CallsOfPrefix(s[..keep], r + 1);
    } else {
      assert s[..keep] == s[..r][..keep];
      CallsOfPrefix(s[..r], keep);
    }
  }

  /** The j-th call of a page is shown. */
  predicate Shows(order: seq<Node>, flat: seq<Statement>, extra: seq<Statement>, options: Options, j: nat)
  {
    && options.callOffset + j < |CallsOf(flat)|
    && (options.maxStatements == 0 ||
        j + InFront(order, flat, extra, options.callOffset + j) < options.maxStatements)
  }

  /** Of the calls of the page, exactly these are shown. */
  ghost predicate PageShown(order: seq<Node>, flat: seq<Statement>, extra: seq<Statement>, options: Options,
                            shown: seq<Statement>)
  {
    forall j | 0 <= j < |Page(CallsOf(flat), options)| ::
      j < |shown| <==> Shows(order, flat, extra, options, j)
  }

  lemma ShownOfPage(order: seq<Node>, flat: seq<Statement>, extra: seq<Statement>, options: Options,
                    perm: seq<nat>, ordered: seq<Statement>)
    requires Ascending(order, flat) && forall s <- extra :: !s.kind.CallKind?
    requires Arranged(order, Kept(flat, options) + extra, perm, ordered)
    ensures PageShown(order, flat, extra, options, CallsOf(ordered[..Limit(|ordered|, options.maxStatements)]))
  {
    hide Kept, CallsOf, Ascending, Arranged, Page, InFront;
    var shown := CallsOf(ordered[..Limit(|ordered|, options.maxStatements)]);
    forall j | 0 <= j < |Page(CallsOf(flat), options)|
      ensures j < |shown| <==> Shows(order, flat, extra, options, j)
    {
      var r := CallOfPage(order, flat, extra, options, perm, ordered, j);
      ShownInFront(ordered, r, Limit(|ordered|, options.maxStatements));
    }
  }

  /** The statements in their order, with their evidence. */
  method Arrange(order: seq<Node>, blocks: seq<seq<Step>>, extra: seq<Statement>, options: Options)
    returns (ordered: seq<Statement>, records: seq<Evidence>, total: nat, omitted: nat, ghost perm: seq<nat>)
    requires |order| == |blocks| && forall i, j | 0 <= i < j < |order| :: order[i] != order[j]
    requires forall s <- extra :: !s.kind.CallKind?
    ensures Arranged(order, Kept(Flat(order, blocks), options) + extra, perm, ordered)
    ensures records == MatchingEvidence(ordered)
    ensures CallsOf(ordered) == Page(CallsOf(Flat(order, blocks)), options)
    ensures total == |CallsOf(Flat(order, blocks))| == |CallsOf(ordered)| + omitted
    ensures PageShown(order, Flat(order, blocks), extra, options,
                      CallsOf(ordered[..Limit(|ordered|, options.maxStatements)]))
  {
    hide Kept, CallsOf, Ascending, StablySorted, Permutes, Page, Keys, PageShown;
    var material, evidence;
    material, evidence, total, omitted := Collect(order, blocks, options);
    AllAscending(order, blocks);
    KeptAscending(order, Flat(order, blocks), options);
    KeptCalls(Flat(order, blocks), options);
    var collected, evidences := material + extra, evidence + MatchingEvidence(extra);
    assert evidences == MatchingEvidence(collected);
    var p := StableSort(Keys(order, collected));
    SortedInRange(order, collected, p);
    perm, ordered, records := p, Pick(collected, p), Pick(evidences, p);
    CallsStay(order, material, extra, p);
    ShownOfPage(order, Flat(order, blocks), extra, options, p, ordered);
  }

  /** The compact view: the beginning of the arrangement. Calls are shown from the offset
      on without gaps, and shown and omitted calls make up the total. */
  method Build(order: seq<Node>, blocks: seq<seq<Step>>, extra: seq<Statement>, options: Options)
    returns (view: View, ghost perm: seq<nat>, ghost ordered: seq<Statement>)
    requires |order| == |blocks| && forall i, j | 0 <= i < j < |order| :: order[i] != order[j]
    requires forall s <- extra :: !s.kind.CallKind?
    ensures Arranged(order, Kept(Flat(order, blocks), options) + extra, perm, ordered)
    ensures view.statements == ordered[..Limit(|ordered|, options.maxStatements)]
    ensures view.evidence == MatchingEvidence(ordered)[..Limit(|view.statements|, options.maxEvidence)]
    ensures view.omittedStatements == |ordered| - |view.statements|
    ensures view.omittedEvidence == |view.statements| - |view.evidence|
    ensures view.truncated <==> view.omittedStatements > 0 || view.omittedEvidence > 0
    ensures view.omittedBranches == Count(ordered, BranchKind) - Count(view.statements, BranchKind)
    ensures view.totalCalls == |CallsOf(Flat(order, blocks))| == |CallsOf(view.statements)| + view.omittedCalls
    ensures CallsOf(view.statements) <= Page(CallsOf(Flat(order, blocks)), options)
    ensures options.maxStatements == 0 ==> CallsOf(view.statements) == Page(CallsOf(Flat(order, blocks)), options)
    ensures PageShown(order, Flat(order, blocks), extra, options, CallsOf(view.statements))
  {
    hide Kept, CallsOf, Page, Arranged, PageShown, Flat, Count;
    var all, records, total, omitted, p := Arrange(order, blocks, extra, options);
    perm, ordered := p, all;
    var keep := Limit(|all|, options.maxStatements);
    var branches, calls := CutOff(all, keep);
    CallsOfPrefix(all, keep);
    var few := Limit(keep, options.maxEvidence);
    assert all[..|all|] == all;
    view := View(all[..keep], records[..few], total, omitted + calls, branches, |all| - keep, keep - few,
                 keep < |all| || few < keep);
  }

  // ---------- following the pages ----------

  /** The offset that is printed for the next page. */
  function NextOffset(view: View, offset: nat): nat
  {
    offset + (if view.totalCalls > view.omittedCalls then view.totalCalls - view.omittedCalls else 0)
  }

  lemma PageFrom(calls: seq<Statement>, options: Options, shown: seq<Statement>)
    requires shown <= Page(calls, options)
    ensures shown != [] ==> options.callOffset + |shown| <= |calls|
    ensures options.callOffset <= |calls| ==> calls[..options.callOffset] + shown <= calls
  {
    if shown != [] {
      var rest := calls[options.callOffset..];
      assert Page(calls, options) <= rest;
      assert shown == rest[..|shown|];
      assert calls[..options.callOffset] + shown == calls[..options.callOffset + |shown|];
    } else {
      assert options.callOffset <= |calls| ==> calls[..options.callOffset] + shown == calls[..options.callOffset];
    }
  }

  /** Fewer statements than the limit, other than calls, stand in front of the call. */
  predicate Fits(order: seq<Node>, flat: seq<Statement>, extra: seq<Statement>, options: Options, call: nat)
    requires call < |CallsOf(flat)|
  {
    options.maxStatements == 0 || InFront(order, flat, extra, call) < options.maxStatements
  }

  lemma PositionsAscend(flat: seq<Statement>, c: nat, d: nat)
    requires c < d < |CallsOf(flat)|
    ensures Position(flat, c) < Position(flat, d)
  {
    var p, q := Position(flat, c), Position(flat, d);
    if q <= p {
      assert flat[..p][..q] == flat[..q];
      CallsOfPrefix(flat[..p], q);
    }
  }

  lemma FitsBefore(order: seq<Node>, flat: seq<Statement>, extra: seq<Statement>, options: Options, c: nat, d: nat)
    requires Ascending(order, flat) && c <= d < |CallsOf(flat)| && Fits(order, flat, extra, options, d)
    ensures Fits(order, flat, extra, options, c)
  {
    if c < d {
      PositionsAscend(flat, c, d);
      var all, p, q := flat + extra, Position(flat, c), Position(flat, d);
      assert all[p] == flat[p] && all[q] == flat[q];
      hide CallsOf, Position, Before;
      BeforeMonotone(order, all, p, q);
    }
  }

  lemma NoneShown(order: seq<Node>, flat: seq<Statement>, extra: seq<Statement>, options: Options, offset: nat)
    requires Ascending(order, flat) && PageShown(order, flat, extra, options.(callOffset := offset), [])
    ensures forall c | offset <= c < |CallsOf(flat)| :: !Fits(order, flat, extra, options, c)
  {
    hide CallsOf, InFront, Ascending;
    if offset < |CallsOf(flat)| {
      assert |Page(CallsOf(flat), options.(callOffset := offset))| > 0;
      assert !Shows(order, flat, extra, options.(callOffset := offset), 0);
      forall c | offset <= c < |CallsOf(flat)| ensures !Fits(order, flat, extra, options, c) {
        if Fits(order, flat, extra, options, c) {
          FitsBefore(order, flat, extra, options, offset, c);
        }
      }
    }
  }

  lemma ShownFit(order: seq<Node>, flat: seq<Statement>, extra: seq<Statement>, options: Options, offset: nat,
                 shown: seq<Statement>)
    requires PageShown(order, flat, extra, options.(callOffset := offset), shown)
    requires shown <= Page(CallsOf(flat), options.(callOffset := offset))
    requires offset + |shown| <= |CallsOf(flat)|
    ensures forall c | offset <= c < offset + |shown| :: Fits(order, flat, extra, options, c)
  {
    hide CallsOf, InFront, Page;
    var page := options.(callOffset := offset);
    forall c | offset <= c < offset + |shown| ensures Fits(order, flat, extra, options, c) {
      assert Shows(order, flat, extra, page, c - offset);
      assert page.callOffset + (c - offset) == c;
    }
  }

  /** The call is on the first page and shown there. */
  predicate ShownFirst(order: seq<Node>, flat: seq<Statement>, extra: seq<Statement>, first: Options, call: nat)
  {
    (first.maxCalls == 0 || call < first.maxCalls) && Shows(order, flat, extra, first.(callOffset := 0), call)
  }

  lemma FirstPage(order: seq<Node>, flat: seq<Statement>, extra: seq<Statement>, first: Options, shown: seq<Statement>)
    requires PageShown(order, flat, extra, first.(callOffset := 0), shown)
    requires shown <= Page(CallsOf(flat), first.(callOffset := 0))
    ensures forall c | 0 <= c < |CallsOf(flat)| :: c < |shown| <==> ShownFirst(order, flat, extra, first, c)
  {
    hide CallsOf, InFront, Shows;
  }

  /** Is the call visited: on the first page or, because it fits, on one of the next? */
  predicate Visits(order: seq<Node>, flat: seq<Statement>, extra: seq<Statement>, first: Options, next: Options, call: nat)
    requires call < |CallsOf(flat)|
  {
    ShownFirst(order, flat, extra, first, call) || Fits(order, flat, extra, next, call)
  }

  /** What a page without a limit of its own is built with. */
  const DEFAULTS := Options(0, 32, 128, 64)

  /** Following the printed offsets from one page on, up to the first page without calls. */
  method FollowFrom(order: seq<Node>, blocks: seq<seq<Step>>, extra: seq<Statement>, options: Options, start: nat)
    returns (visited: seq<Statement>)
    requires |order| == |blocks| && forall i, j | 0 <= i < j < |order| :: order[i] != order[j]
    requires forall s <- extra :: !s.kind.CallKind?
    requires start <= |CallsOf(Flat(order, blocks))|
    ensures visited <= CallsOf(Flat(order, blocks))[start..]
    ensures forall c | start <= c < |CallsOf(Flat(order, blocks))| ::
      c < start + |visited| <==> Fits(order, Flat(order, blocks), extra, options, c)
  {
    hide *;
    AllAscending(order, blocks);
    ghost var flat := Flat(order, blocks);
    ghost var calls := CallsOf(flat);
    visited := [];
    var offset := start;
    while true
      invariant start <= offset == start + |visited| <= |calls| && visited == calls[start..offset]
      invariant forall c | start <= c < offset :: Fits(order, flat, extra, options, c)
      decreases |calls| - offset
    {
      var view, perm, ordered := Build(order, blocks, extra, options.(callOffset := offset));
      var shown := CallsOf(view.statements);
      ShownCalls(calls, options.(callOffset := offset), shown);
      if shown == [] {
        NoneShown(order, flat, extra, options, offset);
        break;
      }
      ShownFit(order, flat, extra, options, offset, shown);
      NextIsBehind(view, offset);
      visited := visited + shown;
      offset := NextOffset(view, offset);
    }
    assert calls[start..offset] <= calls[start..];
  }

  lemma NextIsBehind(view: View, offset: nat)
    requires view.totalCalls == |CallsOf(view.statements)| + view.omittedCalls
    ensures NextOffset(view, offset) == offset + |CallsOf(view.statements)|
  {
  }

  lemma ShownCalls(calls: seq<Statement>, options: Options, shown: seq<Statement>)
    requires shown <= Page(calls, options) && options.callOffset <= |calls|
    ensures options.callOffset + |shown| <= |calls|
    ensures shown == calls[options.callOffset..options.callOffset + |shown|]
  {
    PageFrom(calls, options, shown);
    if shown != [] {
      assert shown == calls[options.callOffset..][..|shown|];
    }
  }

  /** Following the printed offsets from the first page on, with the next pages built as
      the printed command has them, up to the first of these without calls: the calls are
      visited one after the other, each once, up to the first one that is not on the first
      page and that the other statements in front of it keep beyond the limit of the next.
      So all calls are visited if and only if there is no such call. */
  method FollowPages(order: seq<Node>, blocks: seq<seq<Step>>, extra: seq<Statement>, first: Options, next: Options)
    returns (visited: seq<Statement>)
    requires |order| == |blocks| && forall i, j | 0 <= i < j < |order| :: order[i] != order[j]
    requires forall s <- extra :: !s.kind.CallKind?
    ensures visited <= CallsOf(Flat(order, blocks))
    ensures forall c | 0 <= c < |CallsOf(Flat(order, blocks))| ::
      c < |visited| <==> Visits(order, Flat(order, blocks), extra, first, next, c)
    ensures visited == CallsOf(Flat(order, blocks)) <==>
      forall c | 0 <= c < |CallsOf(Flat(order, blocks))| :: Visits(order, Flat(order, blocks), extra, first, next, c)
  {
    hide *;
    ghost var flat := Flat(order, blocks);
    var view, perm, ordered := Build(order, blocks, extra, first.(callOffset := 0));
    var shown := CallsOf(view.statements);
    FirstPage(order, flat, extra, first, shown);
    ShownCalls(CallsOf(flat), first.(callOffset := 0), shown);
    NextIsBehind(view, 0);
    var more := FollowFrom(order, blocks, extra, next, NextOffset(view, 0));
    VisitedExactly(order, flat, extra, first, next, shown, more);
    visited := shown + more;
  }

  /** The calls of the first page and those of the next ones. */
  lemma VisitedExactly(order: seq<Node>, flat: seq<Statement>, extra: seq<Statement>, first: Options, next: Options,
                       shown: seq<Statement>, more: seq<Statement>)
    requires |shown| <= |CallsOf(flat)| && shown == CallsOf(flat)[0..|shown|] && more <= CallsOf(flat)[|shown|..]
    requires forall c | 0 <= c < |CallsOf(flat)| :: c < |shown| <==> ShownFirst(order, flat, extra, first, c)
    requires forall c | |shown| <= c < |CallsOf(flat)| ::
      c < |shown| + |more| <==> Fits(order, flat, extra, next, c)
    ensures shown + more <= CallsOf(flat)
    ensures forall c | 0 <= c < |CallsOf(flat)| ::
      c < |shown + more| <==> Visits(order, flat, extra, first, next, c)
    ensures shown + more == CallsOf(flat) <==>
      forall c | 0 <= c < |CallsOf(flat)| :: Visits(order, flat, extra, first, next, c)
  {
    hide CallsOf, ShownFirst, Fits;
    var calls, n := CallsOf(flat), |shown + more|;
    assert calls == calls[0..|shown|] + calls[|shown|..];
    if n < |calls| {
      assert !Visits(order, flat, extra, first, next, n);
    }
  }

  /** With the same limits on all pages the first one is like the others. */
  lemma SameLimits(order: seq<Node>, blocks: seq<seq<Step>>, extra: seq<Statement>, options: Options, call: nat)
    requires |order| == |blocks| && forall i, j | 0 <= i < j < |order| :: order[i] != order[j]
    requires call < |CallsOf(Flat(order, blocks))|
    ensures Visits(order, Flat(order, blocks), extra, options, options, call) <==>
      Fits(order, Flat(order, blocks), extra, options, call)
  {
    hide CallsOf, Flat, InFront;
  }

  // ---------- a call that is never shown ----------

  /** A block of n statements and then a call. */
  function LateBlock(n: nat): seq<Step>
  {
    seq(n, _ => Step(OtherKind(0), 1)) + [Step(CallKind, 2)]
  }

  function Filling(n: nat): seq<Statement>
  {
    seq(n, _ => Statement(OtherKind(0), 0, 1))
  }

  lemma {:induction false} FillingOthers(n: nat)
    ensures Statements(0, seq(n, _ => Step(OtherKind(0), 1))) == Filling(n)
    ensures CallsOf(Filling(n)) == [] && Others([0], Filling(n), 1) == n
  {
    if n > 0 {
      FillingOthers(n - 1);
      var steps := seq(n, _ => Step(OtherKind(0), 1));
      assert steps[..n - 1] == seq(n - 1, _ => Step(OtherKind(0), 1));
      assert Filling(n) == Filling(n - 1) + [Statement(OtherKind(0), 0, 1)] && Filling(n)[..n - 1] == Filling(n - 1);
      assert NodeIndex([0], 0) == 0;
    }
  }

  lemma LateFlat(n: nat)
    ensures Flat([0], [LateBlock(n)]) == Filling(n) + [Statement(CallKind, 0, 2)]
  {
    var steps := LateBlock(n);
    FillingOthers(n);
    assert steps[..|steps| - 1] == seq(n, _ => Step(OtherKind(0), 1));
    hide LateBlock, Filling, CallsOf, Others;
    assert Flat([0], [steps]) == Flat([0][..0], [steps][..0]) + Statements(0, steps);
  }

  lemma LateCall(n: nat)
    ensures
      var flat := Flat([0], [LateBlock(n)]);
      |CallsOf(flat)| == 1 && InFront([0], flat, [], 0) == n
  {
    var call := Statement(CallKind, 0, 2);
    var flat := Filling(n) + [call];
    LateFlat(n);
    FillingOthers(n);
    assert flat[..n] == Filling(n) && flat[n + 1..] == [] && flat + [] == flat;
    hide Flat, LateBlock, Filling;
    assert CallsOf(flat) == [] + [call];
    assert Position(flat, 0) == n;
    assert NodeIndex([0], 0) == 0;
  }

  /** Behind 128 or more other statements a call is never shown: without limits of its
      own, every page ends before it, and the same offset is printed again. */
  method CallIsNeverShown(n: nat) returns (visited: seq<Statement>)
    requires n >= DEFAULTS.maxStatements
    ensures visited == [] && |CallsOf(Flat([0], [LateBlock(n)]))| == 1
  {
    NeverVisited(n);
    hide *;
    visited := FollowPages([0], [LateBlock(n)], [], DEFAULTS, DEFAULTS);
  }

  lemma NeverVisited(n: nat)
    requires n >= DEFAULTS.maxStatements
    ensures |CallsOf(Flat([0], [LateBlock(n)]))| == 1
    ensures !Visits([0], Flat([0], [LateBlock(n)]), [], DEFAULTS, DEFAULTS, 0)
  {
    LateCall(n);
    hide LateBlock, InFront, CallsOf, Flat;
  }
}
