/** Block parameters that are copies: a parameter to which only one value is ever passed
    stands for that value. */
module Copies {
  import opened Basics
  import opened Offsets

  type Copy = map<Value, Value>

  // ---------- recording ----------

  ghost predicate Fed(p: Program, edges: seq<Edge>, a: Value, b: Value)
  {
    exists e :: e in edges && ByEdge(p, e, a, b)
  }

  /** What is recorded of a set of (argument, parameter) pairs: the parameters with
      different arguments, and the argument of every other parameter. */
  ghost predicate Recorded(copies: Copy, conflicting: set<Value>, pairs: set<(Value, Value)>)
  {
    && (forall b: Value :: b in conflicting <==> Conflict(pairs, b))
    && (forall b: Value :: b in copies <==> b !in conflicting && exists a: Value :: (a, b) in pairs)
    && (forall b <- copies :: (copies[b], b) in pairs)
  }

  ghost predicate Conflict(pairs: set<(Value, Value)>, b: Value)
  {
    exists a: Value, c: Value :: (a, b) in pairs && (c, b) in pairs && a != c
  }

  /** One argument of one edge. */
  method RecordOne(copies0: Copy, conflicting0: set<Value>, ghost pairs: set<(Value, Value)>, a: Value, b: Value)
    returns (copies: Copy, conflicting: set<Value>)
    requires Recorded(copies0, conflicting0, pairs)
    ensures Recorded(copies, conflicting, pairs + {(a, b)})
  {
    copies, conflicting := copies0, conflicting0;
    ghost var more := pairs + {(a, b)};
    assert forall c: Value | c != b :: Conflict(more, c) <==> Conflict(pairs, c);
    if b in conflicting {
      assert Conflict(more, b);
    } else if b !in copies {
      copies := copies[b := a];
      assert !Conflict(more, b);
    } else if copies[b] != a {
      assert (copies[b], b) in more && (a, b) in more;
      copies := copies - {b};
      conflicting := conflicting + {b};
    } else {
      assert more == pairs;
    }
  }

  // record_block_arguments
  method RecordEdge(p: Program, e: Edge, copies0: Copy, conflicting0: set<Value>, ghost pairs0: set<(Value, Value)>)
    returns (copies: Copy, conflicting: set<Value>, ghost pairs: set<(Value, Value)>)
    requires Recorded(copies0, conflicting0, pairs0)
    ensures Recorded(copies, conflicting, pairs)
    ensures forall a: Value, b: Value :: (a, b) in pairs <==> (a, b) in pairs0 || ByEdge(p, e, a, b)
  {
    hide Recorded;
    copies, conflicting, pairs := copies0, conflicting0, pairs0;
    if e.target.None? || e.target.value !in p.targets || e.target.value >= |p.blocks| {
      return;
    }
    var parameters := p.blocks[e.target.value].parameters;
    var count := if |parameters| <= |e.arguments| then |parameters| else |e.arguments|;
    for k := 0 to count
      invariant Recorded(copies, conflicting, pairs)
      invariant forall a: Value, b: Value ::
        (a, b) in pairs <==> (a, b) in pairs0 || exists i :: 0 <= i < k && e.arguments[i] == a && parameters[i] == b
    {
      copies, conflicting := RecordOne(copies, conflicting, pairs, e.arguments[k], parameters[k]);
      pairs := pairs + {(e.arguments[k], parameters[k])};
    }
  }

  /** A parameter is recorded as a copy of a value exactly if that value, and no other,
      is passed to it. */
  method RecordCopies(p: Program, edges: seq<Edge>) returns (copies: Copy, conflicting: set<Value>)
    ensures forall a: Value, b: Value ::
      (b in copies && copies[b] == a) <==> (Fed(p, edges, a, b) && forall c: Value | Fed(p, edges, c, b) :: c == a)
  {
    copies, conflicting := map[], {};
    ghost var pairs: set<(Value, Value)> := {};
    assert Recorded(copies, conflicting, pairs);
    hide Recorded, ByEdge;
    for k := 0 to |edges|
      invariant Recorded(copies, conflicting, pairs)
      invariant forall a: Value, b: Value :: (a, b) in pairs <==> exists i :: 0 <= i < k && ByEdge(p, edges[i], a, b)
    {
      copies, conflicting, pairs := RecordEdge(p, edges[k], copies, conflicting, pairs);
    }
    assert forall a: Value, b: Value :: (a, b) in pairs <==> Fed(p, edges, a, b);
    UniqueFeeds(p, edges, copies, conflicting, pairs);
  }

  lemma UniqueFeeds(p: Program, edges: seq<Edge>, copies: Copy, conflicting: set<Value>, pairs: set<(Value, Value)>)
    requires Recorded(copies, conflicting, pairs)
    requires forall a: Value, b: Value :: (a, b) in pairs <==> Fed(p, edges, a, b)
    ensures forall a: Value, b: Value ::
      (b in copies && copies[b] == a) <==> (Fed(p, edges, a, b) && forall c: Value | Fed(p, edges, c, b) :: c == a)
  {
    hide Fed;
  }

  // ---------- following copies ----------

  /** The value after a number of steps from copy to source. */
  function After(copies: Copy, v: Value, k: nat): Value
  {
    if k == 0 then v
    else
      var u := After(copies, v, k - 1);
      if u in copies then copies[u] else u
  }

  /** The value is no copy, or of itself only. */
  predicate Original(copies: Copy, v: Value)
  {
    v !in copies || copies[v] == v
  }

  /** No value is met twice in the first steps. */
  ghost predicate Fresh(copies: Copy, v: Value, k: nat)
  {
    forall i, j | 0 <= i < j < k :: After(copies, v, i) != After(copies, v, j)
  }

  predicate Met(copies: Copy, v: Value, k: nat, r: Value)
  {
    exists j: nat :: j < k && After(copies, v, j) == r
  }

  /** The result of following copies: the first value on the way that is an original or
      was met before. */
  ghost predicate Resolution(copies: Copy, v: Value, r: Value)
  {
    exists k: nat :: After(copies, v, k) == r && Fresh(copies, v, k) && (Original(copies, r) || Met(copies, v, k, r))
  }

  lemma MetStep(copies: Copy, v: Value, k: nat)
    ensures forall u: Value :: Met(copies, v, k + 1, u) <==> Met(copies, v, k, u) || u == After(copies, v, k)
    ensures Fresh(copies, v, k) && !Met(copies, v, k, After(copies, v, k)) ==> Fresh(copies, v, k + 1)
  {
    forall u: Value ensures Met(copies, v, k + 1, u) <==> Met(copies, v, k, u) || u == After(copies, v, k) {
      if Met(copies, v, k, u) {
        var j: nat :| j < k && After(copies, v, j) == u;
        assert j < k + 1;
      }
    }
  }

  // resolve_copy
  method Resolve(copies: Copy, v: Value) returns (r: Value)
    ensures Resolution(copies, v, r)
  {
    r := v;
    var seen: set<Value> := {};
    ghost var k: nat := 0;
    ghost var all := copies.Keys + copies.Values + {v};
    while r !in seen
      invariant After(copies, v, k) == r && r in all && seen <= all
      invariant Fresh(copies, v, k) && forall u: Value :: u in seen <==> Met(copies, v, k, u)
      decreases |all - seen|
    {
      assert all - (seen + {r}) == all - seen - {r};
      MetStep(copies, v, k);
      seen := seen + {r};
      if r !in copies || copies[r] == r {
        return;
      }
      assert After(copies, v, k + 1) == copies[r];
      r := copies[r];
      k := k + 1;
    }
  }

  // ---------- what copies are worth ----------

  /** Parameters have the value that is passed to them. */
  ghost predicate Respects<T(!new)>(copies: Copy, s: Value -> T)
  {
    forall b <- copies :: s(b) == s(copies[b])
  }

  lemma {:induction false} AfterEqual<T(!new)>(copies: Copy, s: Value -> T, v: Value, k: nat)
    requires Respects(copies, s)
    ensures s(After(copies, v, k)) == s(v)
  {
    if k > 0 {
      AfterEqual(copies, s, v, k - 1);
    }
  }

  /** Values that resolve alike are equal whenever parameters equal what is passed. */
  lemma ResolveAlike<T(!new)>(copies: Copy, s: Value -> T, v: Value, w: Value, r: Value)
    requires Respects(copies, s) && Resolution(copies, v, r) && Resolution(copies, w, r)
    ensures s(v) == s(w)
  {
    var k: nat :| After(copies, v, k) == r;
    var l: nat :| After(copies, w, l) == r;
    AfterEqual(copies, s, v, k);
    AfterEqual(copies, s, w, l);
  }

  lemma {:induction false} OriginalStays(copies: Copy, v: Value, k: nat, n: nat)
    requires k <= n && Original(copies, After(copies, v, k))
    ensures After(copies, v, n) == After(copies, v, k)
    decreases n
  {
    if k < n {
      OriginalStays(copies, v, k, n - 1);
    }
  }

  lemma {:induction false} AfterShifts(copies: Copy, v: Value, k: nat)
    requires v in copies
    ensures After(copies, v, k + 1) == After(copies, copies[v], k)
  {
    if k > 0 {
      AfterShifts(copies, v, k - 1);
    }
  }

  lemma {:induction false} AfterAdds(copies: Copy, v: Value, k: nat, m: nat)
    ensures After(copies, v, k + m) == After(copies, After(copies, v, k), m)
  {
    if m > 0 {
      AfterAdds(copies, v, k, m - 1);
    }
  }

  /** Copies resolve to one value only. */
  lemma ResolutionUnique(copies: Copy, v: Value, r: Value, r': Value)
    requires Resolution(copies, v, r) && Resolution(copies, v, r')
    ensures r == r'
  {
    hide After;
    var k: nat :| After(copies, v, k) == r && Fresh(copies, v, k) && (Original(copies, r) || Met(copies, v, k, r));
    var l: nat :| After(copies, v, l) == r' && Fresh(copies, v, l) && (Original(copies, r') || Met(copies, v, l, r'));
    if k < l {
      ResolvedEarlier(copies, v, k, l);
    } else if l < k {
      ResolvedEarlier(copies, v, l, k);
    }
  }

  /** What ended the walk once ends every longer one without repetition at the same value. */
  lemma ResolvedEarlier(copies: Copy, v: Value, k: nat, l: nat)
    requires k < l && Fresh(copies, v, l)
    requires Original(copies, After(copies, v, k)) || Met(copies, v, k, After(copies, v, k))
    ensures After(copies, v, l) == After(copies, v, k)
  {
    if Original(copies, After(copies, v, k)) {
      OriginalStays(copies, v, k, l);
    }
  }

  /** Following copies from this value leads back to it. */
  ghost predicate Returns(copies: Copy, v: Value, k: nat)
  {
    k > 0 && After(copies, v, k) == v
  }

  /** The value is on a cycle of two or more copies. */
  ghost predicate OnCycle(copies: Copy, v: Value)
  {
    v in copies && copies[v] != v && exists k :: Returns(copies, v, k)
  }

  lemma {:induction false} ReturnsAgain(copies: Copy, v: Value, k: nat, n: nat)
    requires Returns(copies, v, k)
    ensures After(copies, v, n * k) == v
  {
    if n > 0 {
      ReturnsAgain(copies, v, k, n - 1);
      AfterAdds(copies, v, (n - 1) * k, k);
      assert n * k == (n - 1) * k + k;
    }
  }

  /** On a cycle of copies every value resolves to itself, although all are equal. */
  lemma CycleSplits(copies: Copy, v: Value, k: nat, r: Value)
    requires Returns(copies, v, k) && Resolution(copies, v, r)
    ensures r == v
  {
    assert After(copies, v, 0) == v;
    hide After, Returns;
    var n: nat :| After(copies, v, n) == r && Fresh(copies, v, n) && (Original(copies, r) || Met(copies, v, n, r));
    if Original(copies, r) {
      ReturnsAgain(copies, v, k, n);
      StaysFurther(copies, v, k, n);
    } else {
      var j: nat :| j < n && After(copies, v, j) == r;
      if j > 0 {
        StepBack(copies, v, k, j, n);
      }
    }
  }

  lemma StaysFurther(copies: Copy, v: Value, k: nat, n: nat)
    requires Returns(copies, v, k) && Original(copies, After(copies, v, n)) && After(copies, v, n * k) == v
    ensures After(copies, v, n) == v
  {
    assert n <= n * k;
    OriginalStays(copies, v, n, n * k);
  }

  /** Going round, two equal positions have equal positions before them. */
  lemma StepBack(copies: Copy, v: Value, k: nat, i: nat, j: nat)
    requires Returns(copies, v, k) && 0 < i && 0 < j && After(copies, v, i) == After(copies, v, j)
    ensures After(copies, v, i - 1) == After(copies, v, j - 1)
  {
    hide After;
    RoundOnce(copies, v, k, i);
    RoundOnce(copies, v, k, j);
  }

  lemma RoundOnce(copies: Copy, v: Value, k: nat, i: nat)
    requires Returns(copies, v, k) && 0 < i
    ensures After(copies, v, i - 1) == After(copies, After(copies, v, i), k - 1)
  {
    AfterAdds(copies, v, i, k - 1);
    AfterAdds(copies, v, k, i - 1);
    assert i + (k - 1) == k + (i - 1);
  }

  /** A copy and its source resolve alike if and only if the copy is not on such a cycle. */
  lemma ResolvesWithSource(copies: Copy, v: Value, r: Value, r': Value)
    requires v in copies && Resolution(copies, v, r) && Resolution(copies, copies[v], r')
    ensures r == r' <==> !OnCycle(copies, v)
  {
    if k: nat :| Returns(copies, v, k) {
      CycleSplits(copies, v, k, r);
      SourceReturns(copies, v, k);
      CycleSplits(copies, copies[v], k, r');
    } else {
      SourceResolves(copies, v, r);
      ResolutionUnique(copies, copies[v], r, r');
    }
  }

  lemma SourceReturns(copies: Copy, v: Value, k: nat)
    requires v in copies && Returns(copies, v, k)
    ensures Returns(copies, copies[v], k)
  {
    AfterShifts(copies, v, k);
  }

  lemma SourceResolves(copies: Copy, v: Value, r: Value)
    requires v in copies && Resolution(copies, v, r) && !exists k :: Returns(copies, v, k)
    ensures Resolution(copies, copies[v], r)
  {
    var k: nat :| After(copies, v, k) == r && Fresh(copies, v, k) && (Original(copies, r) || Met(copies, v, k, r));
    assert !Returns(copies, v, 1) && !Returns(copies, v, k);
    assert After(copies, v, 1) == copies[v];
    hide After;
    forall i: nat ensures After(copies, copies[v], i) == After(copies, v, i + 1) {
      AfterShifts(copies, v, i);
    }
    assert After(copies, copies[v], k - 1) == r && Fresh(copies, copies[v], k - 1);
    if !Original(copies, r) {
      var j: nat :| j < k && After(copies, v, j) == r;
      assert After(copies, copies[v], j - 1) == r;
    }
  }
}
