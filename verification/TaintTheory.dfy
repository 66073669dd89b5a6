/** Facts about views of the tag table: what is stored and justified by chains,
    when a view is closed under steps, and how far a view can still move. */
module TaintTheory {
  import opened Basics
  import opened TaintTags
  import opened TaintProgram

  ghost predicate Stored(w: View, a: Config)
  {
    Slot(a.value, a.key) in w && w[Slot(a.value, a.key)].depth == a.depth
  }

  ghost predicate Covers(w: View, c: Config)
  {
    Slot(c.value, c.key) in w && w[Slot(c.value, c.key)].depth <= c.depth
  }

  /** Every stored tag is the end of some dependency chain with just as many crossings. */
  ghost predicate Sound(p: Program, functionDepth: nat, w: View)
  {
    forall a :: Stored(w, a) ==> Reachable(p, functionDepth, a)
  }

  ghost predicate SeedsCovered(p: Program, w: View)
  {
    forall c :: Seed(p, c) ==> Covers(w, c)
  }

  ghost predicate ClosedUnderOp(p: Program, functionDepth: nat, op: Op, w: View)
  {
    forall a, b :: Stored(w, a) && OpStep(p, functionDepth, op, a, b) ==> Covers(w, b)
  }

  ghost predicate ClosedUnderBranch(t: Terminator, w: View)
  {
    forall a, b :: Stored(w, a) && BranchStep(t, a, b) ==> Covers(w, b)
  }

  ghost predicate Closed(p: Program, functionDepth: nat, w: View)
  {
    && (forall op :: op in p.ops ==> ClosedUnderOp(p, functionDepth, op, w))
    && (forall t :: t in p.terminators ==> ClosedUnderBranch(t, w))
  }

  /** The slots are exactly the reachable ones, each with the least number of crossings. */
  ghost predicate Exact(p: Program, functionDepth: nat, w: View)
  {
    && (forall a :: Stored(w, a) ==> Reachable(p, functionDepth, a) && a.depth <= functionDepth)
    && (forall c :: Reachable(p, functionDepth, c) ==> Covers(w, c))
  }

  lemma {:induction false} ChainCovered(p: Program, functionDepth: nat, w: View, cs: seq<Config>)
    requires SeedsCovered(p, w) && Closed(p, functionDepth, w)
    requires Chain(p, functionDepth, cs)
    ensures Covers(w, cs[|cs| - 1])
  {
    if |cs| > 1 {
      var n := |cs| - 1;
      ChainCovered(p, functionDepth, w, cs[..n]);
      var a := cs[n - 1];
      assert Step(p, functionDepth, a, cs[n]);
      var depth := w[Slot(a.value, a.key)].depth;
      var c := StepWithLess(p, functionDepth, a, cs[n], depth);
      var a' := a.(depth := depth);
      assert Stored(w, a');
      if op :| op in p.ops && OpStep(p, functionDepth, op, a', c) {
        assert ClosedUnderOp(p, functionDepth, op, w);
      } else {
        var t :| t in p.terminators && BranchStep(t, a', c);
        assert ClosedUnderBranch(t, w);
      }
      assert Covers(w, c);
    }
  }

  /** A sound and closed view that covers the seeds is exact. */
  lemma Fixpoint(p: Program, functionDepth: nat, w: View)
    requires Sound(p, functionDepth, w)
    requires SeedsCovered(p, w) && Closed(p, functionDepth, w)
    ensures Exact(p, functionDepth, w)
  {
    forall c | Reachable(p, functionDepth, c)
      ensures Covers(w, c) && c.depth <= functionDepth
    {
      var cs :| Chain(p, functionDepth, cs) && cs[|cs| - 1] == c;
      ChainCovered(p, functionDepth, w, cs);
      ChainDepth(p, functionDepth, cs);
    }
  }

  // ---------- how views move ----------

  function Rank(tag: Tag): nat
  {
    tag.begin + (TWO64 - 1 - tag.end) + tag.depth
  }

  ghost function SumOfRanks(w: View): nat
    decreases |w|
  {
    if w == map[] then 0
    else
      var s :| s in w;
      assert |w - {s}| < |w| by { assert (w - {s}).Keys == w.Keys - {s}; }
      Rank(w[s]) + SumOfRanks(w - {s})
  }

  lemma {:induction false} SumWithout(w: View, s: Slot)
    requires s in w
    ensures SumOfRanks(w) == Rank(w[s]) + SumOfRanks(w - {s})
    decreases |w|
  {
    var r :| r in w && SumOfRanks(w) == Rank(w[r]) + SumOfRanks(w - {r});
    if r != s {
      var both := w - {r} - {s};
      assert both == w - {s} - {r};
      assert (w - {r}).Keys == w.Keys - {r};
      SumWithout(w - {r}, s);
      assert (w - {s}).Keys == w.Keys - {s};
      SumWithout(w - {s}, r);
    }
  }

  lemma SumUpdate(w: View, s: Slot, tag: Tag)
    requires s in w
    ensures SumOfRanks(w[s := tag]) + Rank(w[s]) == SumOfRanks(w) + Rank(tag)
  {
    SumWithout(w, s);
    SumWithout(w[s := tag], s);
    assert w[s := tag] - {s} == w - {s};
  }

  ghost predicate SameDepths(w: View, w': View)
  {
    w.Keys == w'.Keys && forall s :: s in w ==> w'[s].depth == w[s].depth
  }

  /** A reported change shrinks the measure (free slots, sum of ranks); an
      unreported one leaves measure and depths alone. */
  ghost predicate Progress(w: View, w': View, changed: bool)
  {
    && Grows(w, w')
    && (changed ==> |w| < |w'| || (|w| == |w'| && SumOfRanks(w') < SumOfRanks(w)))
    && (!changed ==> SameDepths(w, w') && |w| == |w'| && SumOfRanks(w) == SumOfRanks(w'))
  }

  lemma ProgressStart(a: View)
    ensures Progress(a, a, false)
  {
  }

  lemma ProgressComposes(a: View, b: View, c: View, first: bool, second: bool)
    requires Progress(a, b, first) && Progress(b, c, second)
    ensures Progress(a, c, first || second)
  {
  }

  lemma SameDepthsCovers(w: View, w': View, c: Config)
    requires SameDepths(w, w')
    ensures Covers(w, c) <==> Covers(w', c)
    ensures Stored(w, c) <==> Stored(w', c)
  {
  }

  lemma ClosedUnderOpKept(p: Program, functionDepth: nat, op: Op, w: View, w': View)
    requires ClosedUnderOp(p, functionDepth, op, w) && SameDepths(w, w')
    ensures ClosedUnderOp(p, functionDepth, op, w')
  {
    forall a, b | Stored(w', a) && OpStep(p, functionDepth, op, a, b) ensures Covers(w', b) {
      SameDepthsCovers(w, w', a);
      SameDepthsCovers(w, w', b);
    }
  }

  lemma ClosedUnderBranchKept(t: Terminator, w: View, w': View)
    requires ClosedUnderBranch(t, w) && SameDepths(w, w')
    ensures ClosedUnderBranch(t, w')
  {
    forall a, b | Stored(w', a) && BranchStep(t, a, b) ensures Covers(w', b) {
      SameDepthsCovers(w, w', a);
      SameDepthsCovers(w, w', b);
    }
  }

  /** Views only gain slots and lose depth. */
  ghost predicate Grows(w: View, w': View)
  {
    && (forall s :: s in w ==> s in w' && w'[s].depth <= w[s].depth)
    && |w| <= |w'|
  }

  lemma GrowsComposes(a: View, b: View, c: View)
    requires Grows(a, b) && Grows(b, c)
    ensures Grows(a, c)
  {
  }

  lemma SeedsKept(p: Program, w: View, w': View)
    requires Grows(w, w')
    ensures SeedsCovered(p, w) ==> SeedsCovered(p, w')
  {
    forall c | Seed(p, c) && Covers(w, c) ensures Covers(w', c) {
    }
  }

  // ---------- offering one tag ----------

  lemma MergeProgress(w: View, s: Slot, tag: Tag)
    requires s in w
    ensures Progress(w, w[s := Merge(w[s], tag)], Moved(w[s], Merge(w[s], tag)))
  {
    var merged := Merge(w[s], tag);
    SumUpdate(w, s, merged);
    assert w[s := merged].Keys == w.Keys;
  }

  lemma NewSlotProgress(w: View, s: Slot, tag: Tag)
    requires s !in w
    ensures Progress(w, w[s := tag], true)
  {
    assert w[s := tag].Keys == w.Keys + {s};
  }

  lemma PutProgress(w: View, v: Value, tag: Tag, maxStates: nat)
    ensures Progress(w, Put(w, v, tag, maxStates), PutReports(w, v, tag, maxStates))
  {
    var s := Slot(v, tag.key);
    if s in w {
      MergeProgress(w, s, tag);
    } else {
      NewSlotProgress(w, s, tag);
    }
  }

  lemma PutSound(p: Program, functionDepth: nat, w: View, v: Value, tag: Tag, maxStates: nat)
    requires Sound(p, functionDepth, w)
    requires v != INVALID_VALUE ==> Reachable(p, functionDepth, Config(v, tag.key, tag.depth))
    ensures Sound(p, functionDepth, Put(w, v, tag, maxStates))
  {
    var w' := Put(w, v, tag, maxStates);
    forall a | Stored(w', a) ensures Reachable(p, functionDepth, a) {
      if !Stored(w, a) {
        assert a == Config(v, tag.key, tag.depth);
      }
    }
  }

  lemma PutBounded(w: View, v: Value, tag: Tag, maxStates: nat, depth: nat)
    requires tag.depth <= depth && forall s :: s in w ==> w[s].depth <= depth
    ensures var w' := Put(w, v, tag, maxStates); forall s :: s in w' ==> w'[s].depth <= depth
  {
  }

  /** Unless the table is full, an offered tag ends up covered. */
  lemma PutCovers(w: View, v: Value, tag: Tag, maxStates: nat)
    requires v != INVALID_VALUE
    ensures var w' := Put(w, v, tag, maxStates);
      Covers(w', Config(v, tag.key, tag.depth)) || Full(|w'|, maxStates)
  {
  }

  // ---------- finitely many slots ----------

  ghost function ProgramValues(p: Program): set<Value>
  {
    (set op, v | op in p.ops && v in op.outputs :: v) +
    (set op, v | op in p.ops && op.callee.Some? && v in op.callee.value.parameters :: v) +
    (set t, v | t in p.terminators && v in t.onTrue.parameters :: v) +
    (set t, v | t in p.terminators && v in t.onFalse.parameters :: v) +
    (set src, v | src in p.sources && v in src.values :: v)
  }

  ghost function Keys(p: Program): set<Key>
  {
    set source, b, q, s, e, o | 0 <= source < |p.sources| && b in {true, false} && q in {true, false} &&
      s in {true, false} && e in {true, false} && o in p.offsets.Values + {0} :: Key(source, b, q, s, e, o)
  }

  ghost function Universe(p: Program): set<Slot>
  {
    set v, k | v in ProgramValues(p) && k in Keys(p) :: Slot(v, k)
  }

  lemma OffsetOfKnown(p: Program, op: Op)
    ensures OffsetOf(p, op).Some? ==> OffsetOf(p, op).value in p.offsets.Values
  {
  }

  lemma ScalarsAmong(p: Program, vs: seq<Value>)
    ensures forall v :: v in Scalars(p, vs) ==> v in vs && v in p.scalar
  {
  }

  lemma StepInUniverse(p: Program, functionDepth: nat, a: Config, b: Config)
    requires Step(p, functionDepth, a, b) && a.key in Keys(p)
    ensures b.value in ProgramValues(p) && b.key in Keys(p)
  {
    if op :| op in p.ops && OpStep(p, functionDepth, op, a, b) {
      if DataStep(p, op, a, b) {
        var i :| 0 <= i < |op.inputs| && Feeds(p, op, i, a, b.key);
        OffsetOfKnown(p, op);
        var k := StoredKey(p, op, i, a.key);
        assert k in Keys(p);
      } else {
        ScalarsAmong(p, op.outputs);
        if Paired(Scalars(p, op.inputs), op.callee.value.parameters, a.value, b.value) {
          assert b.value in op.callee.value.parameters;
        } else {
          assert b.value in Scalars(p, op.outputs);
        }
      }
    } else {
      var t :| t in p.terminators && BranchStep(t, a, b);
      if JumpStep(t.onTrue, a, b) {
        assert b.value in t.onTrue.parameters;
      } else {
        assert b.value in t.onFalse.parameters;
      }
    }
  }

  lemma {:induction false} ChainInUniverse(p: Program, functionDepth: nat, cs: seq<Config>)
    requires Chain(p, functionDepth, cs)
    ensures cs[|cs| - 1].value in ProgramValues(p) && cs[|cs| - 1].key in Keys(p)
  {
    var n := |cs| - 1;
    if n == 0 {
      var source := p.sources[cs[0].key.source];
      assert source in p.sources;
    } else {
      ChainInUniverse(p, functionDepth, cs[..n]);
      assert Step(p, functionDepth, cs[n - 1], cs[n]);
      StepInUniverse(p, functionDepth, cs[n - 1], cs[n]);
    }
  }

  /** A sound view uses slots of a fixed finite universe only. */
  lemma SoundIsBounded(p: Program, functionDepth: nat, w: View)
    requires Sound(p, functionDepth, w)
    ensures w.Keys <= Universe(p) && |w| <= |Universe(p)|
  {
    forall s | s in w ensures s in Universe(p) {
      var a := Config(s.value, s.key, w[s].depth);
      assert Stored(w, a);
      var cs :| Chain(p, functionDepth, cs) && cs[|cs| - 1] == a;
      ChainInUniverse(p, functionDepth, cs);
    }
    SubsetSize(w.Keys, Universe(p));
  }
}
