/** The evidence for a final answer: complete tool results, each once, the more telling
    ones first, as many as a byte budget holds. */
module Evidence {
  import opened Basics
  import opened Paging

  datatype ToolEvent = ToolEvent(name: string, baseline: bool, result: Option<string>)

  const LISTINGS: set<string> := {"inspect", "functions", "list_functions"}
  const TELLING: set<string> := {"evidence", "slice", "calls", "xrefs", "flow", "path"}
  const FUNCTIONS: set<string> := {"fn", "function_context"}

  /** The events, what marks a result as a repetition, the digest that tells results
      apart, the size of an event's record, and the budget. */
  datatype Task = Task(events: seq<ToolEvent>, duplicate: string -> bool, digest: string -> string,
                       size: nat -> nat, maximum: nat)
  {
    predicate Complete(i: nat)
    {
      i < |events| && events[i].result.Some? && !duplicate(events[i].result.value)
    }

    predicate SameResult(i: nat, j: nat)
    {
      Complete(i) && Complete(j) && digest(events[i].result.value) == digest(events[j].result.value)
    }

    predicate HasBaseline()
    {
      exists i :: 0 <= i < |events| && events[i].baseline
    }

    /** A complete result that no earlier event has, and no listing beside a baseline. */
    predicate Candidate(i: nat)
    {
      && Complete(i) && (forall j | 0 <= j < i :: !SameResult(j, i))
      && !(HasBaseline() && events[i].name in LISTINGS)
    }

    function Priority(i: nat): nat
      requires i < |events|
    {
      if events[i].baseline then 0
      else if events[i].name in TELLING then 1
      else if events[i].name in FUNCTIONS then 2
      else 3
    }

    function Sum(s: seq<nat>): nat
    {
      if s == [] then 0 else Sum(s[..|s| - 1]) + size(s[|s| - 1])
    }

    /** The size of a list of records: brackets, records and commas. */
    function Bytes(s: seq<nat>): nat
    {
      2 + Sum(s) + (if s == [] then 0 else |s| - 1)
    }

    /** What is picked of an order of events: each one that still fits. */
    function Picked(order: seq<nat>): seq<nat>
    {
      if order == [] then []
      else
        var before, next := Picked(order[..|order| - 1]), order[|order| - 1];
        if Bytes(before + [next]) <= maximum then before + [next] else before
    }
  }

  // ---------- sums do not depend on the order ----------

  lemma {:induction false} SumWithout(task: Task, s: seq<nat>, k: nat)
    requires k < |s|
    ensures task.Sum(s) == task.Sum(s[..k] + s[k + 1..]) + task.size(s[k])
    decreases |s|
  {
    if k == |s| - 1 {
      assert s[..k] + s[k + 1..] == s[..k];
    } else {
      var front := s[..|s| - 1];
      SumWithout(task, front, k);
      var rest := s[..k] + s[k + 1..];
      assert rest[..|rest| - 1] == front[..k] + front[k + 1..];
      assert rest[|rest| - 1] == s[|s| - 1];
    }
  }

  lemma {:induction false} SumSame(task: Task, s: seq<nat>, t: seq<nat>)
    requires Distinct(s) && Distinct(t) && forall x :: x in s <==> x in t
    ensures task.Sum(s) == task.Sum(t) && |s| == |t|
    decreases |s|
  {
    if s == [] {
      if t != [] {
        HasElement(t);
      }
    } else {
      var x := s[|s| - 1];
      assert x in s && x in t;
      var k :| 0 <= k < |t| && t[k] == x;
      var s', t' := s[..|s| - 1], t[..k] + t[k + 1..];
      assert s == s' + [x] && t == t[..k] + [x] + t[k + 1..];
      ElementsWithout(s, |s| - 1);
      ElementsWithout(t, k);
      assert s' == s[..|s| - 1] + s[|s|..];
      SumSame(task, s', t');
      SumWithout(task, t, k);
    }
  }

  lemma ElementsWithout(s: seq<nat>, k: nat)
    requires Distinct(s) && k < |s|
    ensures
      var rest := s[..k] + s[k + 1..];
      Distinct(rest) && forall x :: x in rest <==> x in s && x != s[k]
  {
    var rest := s[..k] + s[k + 1..];
    forall x ensures x in rest <==> x in s && x != s[k] {
      if x in s && x != s[k] {
        var i :| 0 <= i < |s| && s[i] == x;
        assert i < k ==> rest[i] == x;
        assert i > k ==> rest[i - 1] == x;
      }
    }
  }

  // ---------- picking ----------

  lemma {:induction false} PickedFrom(task: Task, order: seq<nat>)
    requires Distinct(order)
    ensures Distinct(task.Picked(order)) && forall x <- task.Picked(order) :: x in order
    ensures task.Picked(order) != [] ==> task.Bytes(task.Picked(order)) <= task.maximum
  {
    if order != [] {
      var front, last := order[..|order| - 1], order[|order| - 1];
      assert order == front + [last];
      PickedFrom(task, front);
      assert last !in front;
    }
  }

  /** An event of the order is picked if and only if it fits behind those picked before it. */
  lemma {:induction false} PickedIfFits(task: Task, order: seq<nat>, k: nat)
    requires Distinct(order) && k < |order|
    ensures order[k] in task.Picked(order) <==>
      task.Bytes(task.Picked(order[..k]) + [order[k]]) <= task.maximum
    decreases |order|
  {
    var front, last := order[..|order| - 1], order[|order| - 1];
    LastIsNew(order);
    hide Distinct;
    PickedFrom(task, front);
    if k < |order| - 1 {
      assert front[..k] == order[..k];
      PickedIfFits(task, front, k);
    }
  }

  lemma LastIsNew(s: seq<nat>)
    requires Distinct(s) && s != []
    ensures
      var front, last := s[..|s| - 1], s[|s| - 1];
      s == front + [last] && Distinct(front) && last !in front && forall k | 0 <= k < |front| :: s[k] != last
  {
  }

  // ---------- the selection ----------

  method Candidates(task: Task) returns (candidates: seq<nat>, omitted: nat)
    ensures Increasing(candidates) && forall i: nat :: i in candidates <==> task.Candidate(i)
    ensures |candidates| + omitted == |task.events|
  {
    candidates, omitted := [], 0;
    var seen: set<string> := {};
    var baseline := false;
    for i := 0 to |task.events|
      invariant baseline <==> exists j :: 0 <= j < i && task.events[j].baseline
    {
      baseline := baseline || task.events[i].baseline;
    }
    assert baseline == task.HasBaseline();
    for i := 0 to |task.events|
      invariant Increasing(candidates) && forall k: nat :: k in candidates <==> k < i && task.Candidate(k)
      invariant |candidates| + omitted == i
      invariant forall d :: d in seen <==>
        exists j: nat :: j < i && task.Complete(j) && task.digest(task.events[j].result.value) == d
    {
      var event := task.events[i];
      if event.result.None? || task.duplicate(event.result.value) {
        omitted := omitted + 1;
        continue;
      }
      var digest := task.digest(event.result.value);
      if digest in seen {
        assert exists j: nat :: j < i && task.SameResult(j, i) by {
          var j: nat :| j < i && task.Complete(j) && task.digest(task.events[j].result.value) == digest;
          assert task.SameResult(j, i);
        }
        omitted := omitted + 1;
        continue;
      }
      seen := seen + {digest};
      if baseline && event.name in LISTINGS {
        omitted := omitted + 1;
        continue;
      }
      assert forall k | 0 <= k < |candidates| :: candidates[k] in candidates;
      candidates := candidates + [i];
    }
  }

  ghost predicate ByPriority(task: Task, order: seq<nat>)
  {
    && (forall i: nat :: i in order <==> task.Candidate(i))
    && (forall i, j | 0 <= i < j < |order| ::
      && order[i] < |task.events| && order[j] < |task.events|
      && (task.Priority(order[i]) < task.Priority(order[j]) ||
          (task.Priority(order[i]) == task.Priority(order[j]) && order[i] < order[j])))
  }

  method SortedByPriority(task: Task, candidates: seq<nat>) returns (order: seq<nat>)
    requires Increasing(candidates) && forall i: nat :: i in candidates <==> task.Candidate(i)
    ensures ByPriority(task, order) && |order| == |candidates|
  {
    assert forall k | 0 <= k < |candidates| :: candidates[k] in candidates;
    var keys := seq(|candidates|, k requires 0 <= k < |candidates| && candidates[k] < |task.events| =>
      task.Priority(candidates[k]));
    var perm := StableSort(keys);
    order := Pick(candidates, perm);
    forall i: nat ensures i in order <==> i in candidates {
      if i in candidates {
        var k :| 0 <= k < |candidates| && candidates[k] == i;
        assert k in perm;
        var l :| 0 <= l < |perm| && perm[l] == k;
        assert order[l] == i;
      }
    }
  }

  // compact_tool_evidence
  /** The selection is in call order and within the budget; every event is selected or
      counted as omitted; and going through the candidates by priority, each one is
      selected if and only if it fits with those selected before it. */
  method CompactToolEvidence(task: Task) returns (selected: seq<nat>, omitted: nat, ghost order: seq<nat>)
    ensures Increasing(selected) && |selected| + omitted == |task.events|
    ensures selected != [] ==> task.Bytes(selected) <= task.maximum
    ensures ByPriority(task, order)
    ensures forall i <- selected :: task.Candidate(i)
    ensures forall k | 0 <= k < |order| ::
      order[k] in selected <==> task.Bytes(task.Picked(order[..k]) + [order[k]]) <= task.maximum
  {
    var candidates, left := Candidates(task);
    var sorted := SortedByPriority(task, candidates);
    order := sorted;
    assert Distinct(sorted);
    hide ByPriority, Increasing, task.Candidate;
    var picked: seq<nat> := [];
    omitted := left;
    for k := 0 to |sorted|
      invariant picked == task.Picked(sorted[..k]) && |picked| + omitted == left + k
    {
      assert sorted[..k + 1][..k] == sorted[..k];
      if task.Bytes(picked + [sorted[k]]) <= task.maximum {
        picked := picked + [sorted[k]];
      } else {
        omitted := omitted + 1;
      }
    }
    assert sorted[..|sorted|] == sorted;
    PickedFrom(task, sorted);
    forall k | 0 <= k < |sorted|
      ensures sorted[k] in picked <==> task.Bytes(task.Picked(sorted[..k]) + [sorted[k]]) <= task.maximum
    {
      PickedIfFits(task, sorted, k);
    }
    selected := InOrder(picked);
    SumSame(task, picked, selected);
  }

  method InOrder(s: seq<nat>) returns (r: seq<nat>)
    requires Distinct(s)
    ensures Increasing(r) && Distinct(r) && forall x :: x in r <==> x in s
  {
    var perm := StableSort(s);
    r := Pick(s, perm);
    forall x ensures x in r <==> x in s {
      if x in s {
        var k :| 0 <= k < |s| && s[k] == x;
        assert k in perm;
        var l :| 0 <= l < |perm| && perm[l] == k;
        assert r[l] == x;
      }
    }
  }
}
