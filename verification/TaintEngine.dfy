/** The taint fixpoint: one object holds the tag table and the result record, and
    its methods merge tags, push them through operations and branches, and iterate
    until nothing moves or something stops the run. */
module TaintEngine {
  import opened Basics
  import opened TaintTags
  import opened TaintProgram
  import opened TaintTheory
  import opened TaintTransfer

  class Analysis {
    const program: Program
    const options: Options
    const signal: nat -> Signal

    var tags: Tags
    var states: nat
    var deepestCall: nat
    var completion: Completion
    var checks: nat

    ghost var view: View

    constructor (program: Program, options: Options, signal: nat -> Signal, completion: Completion)
      ensures this.program == program && this.options == options && this.signal == signal
      ensures Valid() && view == map[] && deepestCall == 0
      ensures this.completion == completion && checks == 0
    {
      this.program, this.options, this.signal := program, options, signal;
      tags, states, deepestCall, checks := map[], 0, 0, 0;
      this.completion := completion;
      view := map[];
    }

    /** The table is the view; every stored tag is justified; no tag has crossed
        more calls than were counted, and no more were counted than are allowed. */
    ghost predicate Valid()
      reads this`tags, this`states, this`view, this`deepestCall
    {
      && Represents(tags, states, view)
      && Sound(program, options.functionDepth, view)
      && (forall s :: s in view ==> view[s].depth <= deepestCall)
      && deepestCall <= options.functionDepth
    }

    ghost predicate IsFull()
      reads this`view
    {
      Full(|view|, options.maxStates)
    }

    ghost predicate CoversOrFull(c: Config)
      reads this`view
    {
      Covers(view, c) || IsFull()
    }

    static method Locate(values: seq<Tag>, key: Key) returns (i: nat)
      ensures i == Find(values, key)
    {
      i := 0;
      while i < |values| && values[i].key != key
        invariant 0 <= i <= |values|
        invariant forall j :: 0 <= j < i ==> values[j].key != key
      {
        i := i + 1;
      }
    }

    // add_tag
    method AddTag(value: Value, incoming: Tag) returns (changed: bool)
      requires Represents(tags, states, view)
      modifies this`tags, this`states, this`view
      ensures Represents(tags, states, view)
      ensures view == Put(old(view), value, incoming, options.maxStates)
      ensures changed == PutReports(old(view), value, incoming, options.maxStates)
    {
      if value == INVALID_VALUE { return false; }
      AddRepresents(tags, states, view, value, incoming, options.maxStates);
      var values := At(tags, value);
      var i := Locate(values, incoming.key);
      if i < |values| {
        var merged := Merge(values[i], incoming);
        changed := Moved(values[i], merged);
        values := values[i := merged];
      } else if Full(states, options.maxStates) {
        changed := false;
      } else {
        changed := true;
        values := values + [incoming];
        states := states + 1;
      }
      tags := tags[value := values];
      view := Put(view, value, incoming, options.maxStates);
    }

    /** Adding a tag that a dependency chain justifies. */
    method Offer(value: Value, incoming: Tag) returns (changed: bool)
      requires Valid()
      requires value != INVALID_VALUE ==>
        Reachable(program, options.functionDepth, Config(value, incoming.key, incoming.depth))
      requires incoming.depth <= deepestCall
      modifies this`tags, this`states, this`view
      ensures Valid()
      ensures view == Put(old(view), value, incoming, options.maxStates)
      ensures Progress(old(view), view, changed)
      ensures value != INVALID_VALUE ==> CoversOrFull(Config(value, incoming.key, incoming.depth))
    {
      hide Represents, Sound, Put, PutReports, Progress;
      PutProgress(view, value, incoming, options.maxStates);
      PutBounded(view, value, incoming, options.maxStates, deepestCall);
      PutSound(program, options.functionDepth, view, value, incoming, options.maxStates);
      if value != INVALID_VALUE {
        PutCovers(view, value, incoming, options.maxStates);
      }
      changed := AddTag(value, incoming);
    }

    /** One step of copying the tags of one value to another. */
    method MoveTag(from: Value, to: Value, crossing: bool, tag: Tag) returns (changed: bool)
      requires Valid() && tag.depth <= deepestCall
      requires to != INVALID_VALUE && Movable(options, tag, crossing) ==>
        Reachable(program, options.functionDepth, Target(tag, to, crossing))
      modifies this`tags, this`states, this`view, this`deepestCall
      ensures Valid() && deepestCall >= old(deepestCall)
      ensures Progress(old(view), view, changed)
      ensures Movable(options, tag, crossing) && to != INVALID_VALUE ==>
        CoversOrFull(Target(tag, to, crossing))
    {
      if crossing && tag.depth >= options.functionDepth { return false; }
      var moved := tag;
      if crossing {
        moved := tag.(depth := tag.depth + 1);
        deepestCall := Max(deepestCall, moved.depth);
      }
      changed := Offer(to, moved);
    }

    /** Copying the tags of one value to another, counting a call crossing or not. */
    method MoveTags(from: Value, to: Value, crossing: bool) returns (changed: bool)
      requires Valid()
      requires Justified(program, options, from, to, crossing)
      modifies this`tags, this`states, this`view, this`deepestCall
      ensures Valid() && deepestCall >= old(deepestCall)
      ensures Progress(old(view), view, changed)
      ensures !changed ==> AllArrived(options, view, from, to, crossing)
    {
      hide Represents, Sound;
      changed := false;
      var found := At(tags, from);
      assert found[..|found|] == found;
      ghost var start, table, count := view, tags, states;
      var i := 0;
      while i < |found|
        invariant 0 <= i <= |found|
        invariant Valid() && deepestCall >= old(deepestCall)
        invariant Progress(start, view, changed)
        invariant !changed ==> Arrived(options, view, found[..i], to, crossing)
      {
        ViewedTag(table, count, start, from, i);
        Justify(program, options, start, from, to, crossing, found[i]);
        ghost var before := view;
        var added := MoveTag(from, to, crossing, found[i]);
        ProgressComposes(start, before, view, changed, added);
        if !changed && !added {
          ArrivedGrows(options, before, view, found, i, to, crossing);
        }
        changed := added || changed;
        i := i + 1;
      }
      if !changed {
        ArrivedIsAll(options, table, count, start, view, from, to, crossing);
      }
    }

    /** Copying the tags of paired values, up to the shorter list. */
    method MovePairs(from: seq<Value>, to: seq<Value>, crossing: bool) returns (changed: bool)
      requires Valid()
      requires PairsJustified(program, options, from, to, crossing)
      modifies this`tags, this`states, this`view, this`deepestCall
      ensures Valid() && deepestCall >= old(deepestCall)
      ensures Progress(old(view), view, changed)
      ensures !changed ==> PairsArrived(options, view, from, to, crossing, Min(|from|, |to|))
      ensures changed ==> from != []
    {
      changed := false;
      ghost var start := view;
      var count := Min(|from|, |to|);
      for i := 0 to count
        invariant Valid() && deepestCall >= old(deepestCall)
        invariant Progress(start, view, changed)
        invariant !changed ==> PairsArrived(options, view, from, to, crossing, i)
        invariant changed ==> i > 0
      {
        ghost var before := view;
        var moved := MoveTags(from[i], to[i], crossing);
        ProgressComposes(start, before, view, changed, moved);
        if !changed && !moved {
          PairsArrivedGrow(options, before, view, from, to, crossing, i);
        }
        changed := moved || changed;
      }
    }

    // the call branch of propagate_operation
    method PropagateCall(op: Op) returns (changed: bool)
      requires Valid()
      requires op in program.ops && op.opcode == Call && op.callee.Some?
      modifies this`tags, this`states, this`view, this`deepestCall
      ensures Valid() && deepestCall >= old(deepestCall)
      ensures Progress(old(view), view, changed)
      ensures !changed && !IsFull() ==> ClosedUnderCrossings(program, options, op, view)
    {
      var callee := op.callee.value;
      CrossingsJustified(program, options, op);
      ghost var start := view;
      var passed := MovePairs(Scalars(program, op.inputs), callee.parameters, true);
      ghost var middle := view;
      var returned := MovePairs(callee.results, Scalars(program, op.outputs), true);
      ProgressComposes(start, middle, view, passed, returned);
      changed := passed || returned;
      if !changed && !Full(|view|, options.maxStates) {
        PairsArrivedKept(options, middle, view, Scalars(program, op.inputs), callee.parameters, true,
                         Min(|Scalars(program, op.inputs)|, |callee.parameters|));
        CrossingsClosed(program, options, op, view);
      }
    }

    /** The tags of the inputs, in input order. */
    method Gather(op: Op) returns (merged: seq<Tag>)
      ensures merged == Gathered(program, op, tags, |op.inputs|)
    {
      merged := [];
      for index := 0 to |op.inputs|
        invariant merged == Gathered(program, op, tags, index)
      {
        if !AddressOperand(op, index) {
          merged := merged + StoredTags(program, op, index, At(tags, op.inputs[index]));
        }
      }
    }

    /** What is left of the gathered tags behind the operation. */
    method Transform(op: Op, merged: seq<Tag>) returns (leaving: seq<Tag>)
      ensures leaving == Leaving(program, options, op, tags, merged)
    {
      leaving := [];
      for i := 0 to |merged|
        invariant leaving == Leaving(program, options, op, tags, merged[..i])
      {
        assert merged[..i + 1][..i] == merged[..i];
        var out := Out(program, options, op, tags, merged[i]);
        if out.Some? {
          leaving := leaving + [out.value];
        }
      }
      assert merged[..|merged|] == merged;
    }

    method OfferAll(to: Value, ts: seq<Tag>) returns (changed: bool)
      requires Valid() && Bounded(ts, deepestCall)
      requires ReachableAll(program, options, ts, to)
      modifies this`tags, this`states, this`view
      ensures Valid()
      ensures Progress(old(view), view, changed)
      ensures !changed ==> Arrived(options, view, ts, to, false)
    {
      hide Represents, Sound;
      assert ts[..|ts|] == ts;
      changed := false;
      ghost var start := view;
      for i := 0 to |ts|
        invariant Valid()
        invariant Progress(start, view, changed)
        invariant !changed ==> Arrived(options, view, ts[..i], to, false)
      {
        ghost var before := view;
        var added := Offer(to, ts[i]);
        ProgressComposes(start, before, view, changed, added);
        if !changed && !added {
          ArrivedGrows(options, before, view, ts, i, to, false);
        }
        changed := added || changed;
      }
    }

    /** Handing the leaving tags to every output that can carry them. */
    method OfferToOutputs(op: Op, ts: seq<Tag>) returns (changed: bool)
      requires Valid() && Bounded(ts, deepestCall)
      requires forall i :: 0 <= i < |op.outputs| && op.outputs[i] in program.propagatable ==>
        ReachableAll(program, options, ts, op.outputs[i])
      modifies this`tags, this`states, this`view
      ensures Valid()
      ensures Progress(old(view), view, changed)
      ensures !changed ==> OutputsArrived(program, options, op, view, ts, |op.outputs|)
    {
      changed := false;
      ghost var start := view;
      for i := 0 to |op.outputs|
        invariant Valid()
        invariant Progress(start, view, changed)
        invariant !changed ==> OutputsArrived(program, options, op, view, ts, i)
      {
        if op.outputs[i] in program.propagatable {
          ghost var before := view;
          var added := OfferAll(op.outputs[i], ts);
          ProgressComposes(start, before, view, changed, added);
          if !changed && !added {
            OutputsArrivedGrow(program, options, op, before, view, ts, i);
          }
          changed := added || changed;
        }
      }
    }

    /** The input-to-output summary of an operation. */
    method PropagateData(op: Op) returns (changed: bool)
      requires Valid()
      requires op in program.ops && Summarised(op)
      modifies this`tags, this`states, this`view
      ensures Valid()
      ensures Progress(old(view), view, changed)
      ensures !changed && !IsFull() ==> ClosedUnderData(program, options, op, view)
    {
      ghost var start, table, count := view, tags, states;
      var merged := Gather(op);
      var leaving := Transform(op, merged);
      LeavingJustified(program, options, op, table, count, start, leaving, deepestCall);
      changed := OfferToOutputs(op, leaving);
      if !changed && !Full(|view|, options.maxStates) {
        DataClosed(program, options, op, table, count, start, view, leaving);
      }
    }

    method PropagateOperation(op: Op) returns (changed: bool)
      requires Valid() && op in program.ops
      modifies this`tags, this`states, this`view, this`deepestCall
      ensures Valid() && deepestCall >= old(deepestCall)
      ensures Progress(old(view), view, changed)
      ensures !changed && !IsFull() ==> ClosedUnderOp(program, options.functionDepth, op, view)
    {
      changed := false;
      ghost var start := view;
      if op.opcode == Call && op.callee.Some? {
        changed := PropagateCall(op);
        if op.callee.value.results != [] {
          OpClosed(program, options, op, view, view);
          return;
        }
      }
      ghost var middle := view;
      var flowed := PropagateData(op);
      ProgressComposes(start, middle, view, changed, flowed);
      changed := flowed || changed;
      OpClosed(program, options, op, middle, view);
    }

    method PropagateBranches() returns (changed: bool)
      requires Valid()
      modifies this`tags, this`states, this`view, this`deepestCall
      ensures Valid() && deepestCall >= old(deepestCall)
      ensures Progress(old(view), view, changed)
      ensures !changed && !IsFull() ==>
        forall t :: t in program.terminators ==> ClosedUnderBranch(t, view)
      ensures changed ==> !Still(program)
    {
      hide Represents, Sound;
      changed := false;
      ghost var start := view;
      for i := 0 to |program.terminators|
        invariant Valid() && deepestCall >= old(deepestCall)
        invariant Progress(start, view, changed)
        invariant !changed && !IsFull() ==>
          forall j :: 0 <= j < i ==> ClosedUnderBranch(program.terminators[j], view)
        invariant changed ==> !Still(program)
      {
        ghost var before := view;
        var moved := PropagateTerminator(program.terminators[i]);
        ProgressComposes(start, before, view, changed, moved);
        if !changed && !moved && !Full(|view|, options.maxStates) {
          forall j | 0 <= j < i ensures ClosedUnderBranch(program.terminators[j], view) {
            ClosedUnderBranchKept(program.terminators[j], before, view);
          }
        }
        changed := moved || changed;
      }
    }

    method PropagateTerminator(t: Terminator) returns (changed: bool)
      requires Valid() && t in program.terminators
      modifies this`tags, this`states, this`view, this`deepestCall
      ensures Valid() && deepestCall >= old(deepestCall)
      ensures Progress(old(view), view, changed)
      ensures !changed && !IsFull() ==> ClosedUnderBranch(t, view)
      ensures changed ==> t.onTrue.arguments != [] || t.onFalse.arguments != []
    {
      JumpJustified(program, options, t, t.onTrue);
      JumpJustified(program, options, t, t.onFalse);
      ghost var start := view;
      var taken := MovePairs(t.onTrue.arguments, t.onTrue.parameters, false);
      ghost var middle := view;
      var skipped := MovePairs(t.onFalse.arguments, t.onFalse.parameters, false);
      ProgressComposes(start, middle, view, taken, skipped);
      changed := taken || skipped;
      if !changed && !Full(|view|, options.maxStates) {
        PairsArrivedKept(options, middle, view, t.onTrue.arguments, t.onTrue.parameters, false,
                         Min(|t.onTrue.arguments|, |t.onTrue.parameters|));
        BranchClosed(options, t, view);
      }
    }

    // ---------- seeding ----------

    method OfferSeed(value: Value, tag: Tag)
      requires Valid() && tag.depth == 0
      requires value != INVALID_VALUE ==> Seed(program, Config(value, tag.key, 0))
      modifies this`tags, this`states, this`view
      ensures Valid() && Grows(old(view), view)
      ensures Seeded(options, view, value, tag.key)
      ensures view == Put(old(view), value, tag, options.maxStates)
    {
      if value != INVALID_VALUE {
        SeedReachable(program, options.functionDepth, Config(value, tag.key, 0));
      }
      var _ := Offer(value, tag);
    }

    method SeedValues(source: nat)
      requires Valid() && source < |program.sources| && program.sources[source].kind != Memory
      modifies this`tags, this`states, this`view
      ensures Valid() && Grows(old(view), view)
      ensures SeedsOf(program, options, view, source)
    {
      hide Represents, Sound, Put, Grows, Seeded, SeedsOf;
      ghost var start := view;
      GrowsComposes(view, view, view);
      var from := program.sources[source];
      var buffer := from.kind == Buffer;
      var tag := Tag(SeedKey(source, from.kind), buffer, 0, 0, 0);
      for i := 0 to |from.values|
        invariant Valid() && Grows(start, view)
        invariant forall j :: 0 <= j < i ==> Seeded(options, view, from.values[j], tag.key)
      {
        ghost var before := view;
        OfferSeed(from.values[i], tag);
        GrowsComposes(start, before, view);
        SeededKept(options, before, view);
      }
      SeedsOfValues(program, options, view, source);
    }

    /** The bytes of a memory source that one of its loads reads. */
    function SeedTag(source: nat, address: u64, output: Value): Tag
      requires source < |program.sources| && InRange(program.sources[source], address)
    {
      var from := program.sources[source];
      var begin: u64 := address - from.address;
      Tag(SeedKey(source, Memory), true, begin,
          Min(from.length - 1, Wrap(begin + ByteWidth(program, output) - 1)), 0)
    }

    /** The table after the first n results of a load are seeded with the bytes they read. */
    ghost function PutSeeds(w: View, source: nat, op: Op, n: nat): View
      requires source < |program.sources| && ReadsSource(program, program.sources[source], op) && n <= |op.outputs|
    {
      if n == 0 then w else SeedPut(PutSeeds(w, source, op, n - 1), source, op, n - 1)
    }

    ghost function SeedPut(w: View, source: nat, op: Op, i: nat): View
      requires source < |program.sources| && ReadsSource(program, program.sources[source], op) && i < |op.outputs|
    {
      var output := op.outputs[i];
      if output !in program.scalar then w
      else Put(w, output, SeedTag(source, LoadAddress(program, op.inputs).value, output), options.maxStates)
    }

    method SeedOutput(source: nat, op: Op, address: u64, i: nat)
      requires Valid() && source < |program.sources| && program.sources[source].kind == Memory
      requires op in program.ops && ReadsSource(program, program.sources[source], op)
      requires address == LoadAddress(program, op.inputs).value && i < |op.outputs|
      modifies this`tags, this`states, this`view
      ensures Valid() && Grows(old(view), view)
      ensures view == SeedPut(old(view), source, op, i)
      ensures op.outputs[i] in program.scalar ==>
        Seeded(options, view, op.outputs[i], SeedKey(source, Memory))
    {
      hide Represents, Sound, Put, Grows, Seeded;
      GrowsComposes(view, view, view);
      if op.outputs[i] in program.scalar {
        OfferSeed(op.outputs[i], SeedTag(source, address, op.outputs[i]));
      }
    }

    // seed_absolute_memory, for one source and one operation
    method SeedLoad(source: nat, op: Op)
      requires Valid() && source < |program.sources| && program.sources[source].kind == Memory
      requires op in program.ops
      modifies this`tags, this`states, this`view
      ensures Valid() && Grows(old(view), view)
      ensures LoadSeeded(program, options, view, source, op)
      ensures view == if ReadsSource(program, program.sources[source], op)
        then PutSeeds(old(view), source, op, |op.outputs|)
        else old(view)
    {
      hide Represents, Sound, Put, Grows, Seeded, SeedPut, InRange, LoadAddress, SeedKey;
      ghost var start := view;
      GrowsComposes(view, view, view);
      if !ReadsSource(program, program.sources[source], op) { return; }
      var address := LoadAddress(program, op.inputs).value;
      for i := 0 to |op.outputs|
        invariant Valid() && Grows(start, view)
        invariant view == PutSeeds(start, source, op, i)
        invariant forall j :: 0 <= j < i && op.outputs[j] in program.scalar ==>
          Seeded(options, view, op.outputs[j], SeedKey(source, Memory))
      {
        ghost var before := view;
        SeedOutput(source, op, address, i);
        GrowsComposes(start, before, view);
        SeededKept(options, before, view);
      }
    }

    method SeedMemory(source: nat)
      requires Valid() && source < |program.sources| && program.sources[source].kind == Memory
      modifies this`tags, this`states, this`view
      ensures Valid() && Grows(old(view), view)
      ensures SeedsOf(program, options, view, source)
    {
      hide Represents, Sound, Put, Grows, Seeded, SeedsOf, Seed, ReadsSource;
      ghost var start := view;
      GrowsComposes(view, view, view);
      for i := 0 to |program.ops|
        invariant Valid() && Grows(start, view)
        invariant forall j :: 0 <= j < i ==> LoadSeeded(program, options, view, source, program.ops[j])
      {
        ghost var before := view;
        SeedLoad(source, program.ops[i]);
        GrowsComposes(start, before, view);
        SeededKept(options, before, view);
      }
      SeedsOfLoads(program, options, view, source);
    }

    method SeedAll()
      requires Valid()
      modifies this`tags, this`states, this`view
      ensures Valid() && Grows(old(view), view)
      ensures !IsFull() ==> SeedsCovered(program, view)
    {
      hide Represents, Sound, Put;
      for i := 0 to |program.sources|
        invariant Valid() && Grows(old(view), view)
        invariant forall s :: 0 <= s < i && program.sources[s].kind != Memory ==> SeedsOf(program, options, view, s)
      {
        if program.sources[i].kind != Memory {
          ghost var before := view;
          SeedValues(i);
          SeedsOfKept(program, options, before, view);
        }
      }
      for i := 0 to |program.sources|
        invariant Valid() && Grows(old(view), view)
        invariant forall s :: 0 <= s < |program.sources| && (s < i || program.sources[s].kind != Memory) ==>
          SeedsOf(program, options, view, s)
      {
        if program.sources[i].kind == Memory {
          ghost var before := view;
          SeedMemory(i);
          SeedsOfKept(program, options, before, view);
        }
      }
      forall c | Seed(program, c) && !Full(|view|, options.maxStates) ensures Covers(view, c) {
        assert SeedsOf(program, options, view, c.key.source);
      }
    }

    // ---------- the fixpoint ----------

    // stopped
    method Stopped() returns (stop: bool)
      requires Represents(tags, states, view)
      modifies this`completion, this`checks
      ensures checks == old(checks) + 1
      ensures stop <==> signal(old(checks)) != Quiet || IsFull()
      ensures completion == match signal(old(checks))
        case CancelRequested => Canceled
        case TimeExpired => Timeout
        case Quiet => if IsFull() then Limited else old(completion)
      ensures Honest(old(completion)) && (stop ==> completion != Complete)
    {
      var now := signal(checks);
      checks := checks + 1;
      stop := true;
      if now == CancelRequested {
        completion := Canceled;
      } else if now == TimeExpired {
        completion := Timeout;
      } else if Full(states, options.maxStates) {
        completion := Limited;
      } else {
        stop := false;
      }
    }

    ghost predicate Honest(before: Completion)
      reads this`completion, this`checks, this`view
    {
      HonestAt(options, signal, before, completion, checks, view)
    }

    /** One pass over all operations, cut short as soon as a check says stop. */
    method PassOverOperations() returns (changed: bool)
      requires Valid()
      modifies this`tags, this`states, this`view, this`deepestCall, this`completion, this`checks
      ensures Valid() && Progress(old(view), view, changed) && checks >= old(checks)
      ensures old(completion) != Complete ==> completion != Complete
      ensures Honest(old(completion))
      ensures completion == Complete && !changed ==>
        forall op :: op in program.ops ==> ClosedUnderOp(program, options.functionDepth, op, view)
      ensures Still(program) ==> !changed && checks == old(checks)
    {
      hide Represents, Sound, HonestAt, ClosedUnderOp, Grows, SumOfRanks;
      ProgressStart(view);
      HonestStart(options, signal, completion, checks, view);
      changed := false;
      ghost var start := view;
      for i := 0 to |program.ops|
        invariant Valid() && Progress(start, view, changed) && checks >= old(checks)
        invariant old(completion) != Complete ==> completion != Complete
        invariant Honest(old(completion))
        invariant completion == Complete && !changed ==>
          forall j :: 0 <= j < i ==> ClosedUnderOp(program, options.functionDepth, program.ops[j], view)
        invariant i == 0 ==> !changed && checks == old(checks)
      {
        ghost var before := view;
        var moved := PropagateOperation(program.ops[i]);
        ProgressComposes(start, before, view, changed, moved);
        if !changed && !moved {
          forall j | 0 <= j < i && ClosedUnderOp(program, options.functionDepth, program.ops[j], before)
            ensures ClosedUnderOp(program, options.functionDepth, program.ops[j], view)
          {
            ClosedUnderOpKept(program, options.functionDepth, program.ops[j], before, view);
          }
        }
        changed := moved || changed;
        ghost var completed, seen := completion, checks;
        var stop := Stopped();
        HonestComposes(options, signal, old(completion), completed, completion, seen, checks, before, view);
        if stop { break; }
      }
    }

    /** One round: all operations, then all branches unless something said stop. */
    method Round() returns (changed: bool)
      requires Valid()
      modifies this`tags, this`states, this`view, this`deepestCall, this`completion, this`checks
      ensures Valid() && Progress(old(view), view, changed) && checks >= old(checks)
      ensures old(completion) != Complete ==> completion != Complete
      ensures Honest(old(completion))
      ensures completion == Complete && !changed ==> Closed(program, options.functionDepth, view)
      ensures Still(program) ==> !changed && checks == old(checks) + 1
    {
      hide Represents, Sound, HonestAt;
      ghost var before := view;
      changed := PassOverOperations();
      ghost var middle, completed, seen := view, completion, checks;
      var stop := Stopped();
      if !stop {
        var moved := PropagateBranches();
        ProgressComposes(before, middle, view, changed, moved);
        if !changed && !moved {
          forall op | op in program.ops && ClosedUnderOp(program, options.functionDepth, op, middle)
            ensures ClosedUnderOp(program, options.functionDepth, op, view)
          {
            ClosedUnderOpKept(program, options.functionDepth, op, middle, view);
          }
        }
        changed := moved || changed;
      }
      HonestComposes(options, signal, old(completion), completed, completion, seen, checks, middle, view);
    }

    /** The chaotic iteration. It ends with all budgets disabled, because every
        reported change uses up a free slot of a finite universe or lowers a sum. */
    method Run()
      requires Valid() && view == map[]
      modifies this
      ensures Valid()
      ensures old(completion) != Complete ==> completion != Complete
      ensures Honest(old(completion))
      ensures completion == Complete ==> Exact(program, options.functionDepth, view)
      ensures checks >= old(checks)
      ensures Still(program) ==>
        checks <= old(checks) + 2 && (completion == Complete ==> checks == old(checks) + 2)
    {
      hide Represents, Sound, SeedsCovered, Closed, Exact, HonestAt, Universe, SumOfRanks, Grows;
      SeedAll();
      var changed := true;
      var halted := Stopped();
      SoundIsBounded(program, options.functionDepth, view);
      while changed && !halted
        invariant Valid() && |view| <= |Universe(program)|
        invariant old(completion) != Complete ==> completion != Complete
        invariant Honest(old(completion))
        invariant completion == Complete ==> SeedsCovered(program, view)
        invariant completion == Complete && !changed ==> Closed(program, options.functionDepth, view)
        invariant halted ==> completion != Complete
        invariant checks > old(checks)
        invariant Still(program) ==> checks <= old(checks) + 2
        invariant Still(program) && !halted ==> checks == old(checks) + if changed then 1 else 2
        decreases |Universe(program)| - |view|, SumOfRanks(view), changed
      {
        ghost var before, completed, seen := view, completion, checks;
        changed := Round();
        assert |before| <= |view|;
        HonestComposes(options, signal, old(completion), completed, completion, seen, checks, before, view);
        ghost var completed', seen' := completion, checks;
        SeedsKept(program, before, view);
        SoundIsBounded(program, options.functionDepth, view);
        if changed {
          halted := Stopped();
          HonestComposes(options, signal, old(completion), completed', completion, seen', checks, view, view);
        }
      }
      if completion == Complete {
        Fixpoint(program, options.functionDepth, view);
      }
    }
  }

  /** Where a tag goes when it is copied to another value: crossings count one more call. */
  ghost function Target(tag: Tag, to: Value, crossing: bool): Config
  {
    Config(to, tag.key, tag.depth + if crossing then 1 else 0)
  }

  ghost predicate Movable(o: Options, tag: Tag, crossing: bool)
  {
    crossing ==> tag.depth < o.functionDepth
  }

  /** Copying tags from one value to the other follows dependency steps. */
  ghost predicate Justified(p: Program, o: Options, from: Value, to: Value, crossing: bool)
  {
    to != INVALID_VALUE ==> forall tag :: Movable(o, tag, crossing) ==>
      Step(p, o.functionDepth, Config(from, tag.key, tag.depth), Target(tag, to, crossing))
  }

  ghost predicate Arrived(o: Options, w: View, ts: seq<Tag>, to: Value, crossing: bool)
  {
    to != INVALID_VALUE ==> forall tag :: tag in ts && Movable(o, tag, crossing) ==>
      Covers(w, Target(tag, to, crossing)) || Full(|w|, o.maxStates)
  }

  ghost predicate AllArrived(o: Options, w: View, from: Value, to: Value, crossing: bool)
  {
    to != INVALID_VALUE ==> forall s :: s in w && s.value == from && Movable(o, w[s], crossing) ==>
      Covers(w, Config(to, s.key, Target(w[s], to, crossing).depth)) || Full(|w|, o.maxStates)
  }

  lemma Justify(p: Program, o: Options, w: View, from: Value, to: Value, crossing: bool, tag: Tag)
    requires Sound(p, o.functionDepth, w) && Justified(p, o, from, to, crossing)
    requires Slot(from, tag.key) in w && w[Slot(from, tag.key)] == tag
    ensures to != INVALID_VALUE && Movable(o, tag, crossing) ==>
      Reachable(p, o.functionDepth, Target(tag, to, crossing))
  {
    var a := Config(from, tag.key, tag.depth);
    assert Stored(w, a);
    if to != INVALID_VALUE && Movable(o, tag, crossing) {
      StepReachable(p, o.functionDepth, a, Target(tag, to, crossing));
    }
  }

  lemma ArrivedGrows(o: Options, w: View, w': View, ts: seq<Tag>, i: nat, to: Value, crossing: bool)
    requires i < |ts| && Progress(w, w', false) && Arrived(o, w, ts[..i], to, crossing)
    requires to != INVALID_VALUE && Movable(o, ts[i], crossing) ==>
      Covers(w', Target(ts[i], to, crossing)) || Full(|w'|, o.maxStates)
    ensures Arrived(o, w', ts[..i + 1], to, crossing)
  {
    forall tag | to != INVALID_VALUE && tag in ts[..i + 1] && Movable(o, tag, crossing)
      ensures Covers(w', Target(tag, to, crossing)) || Full(|w'|, o.maxStates)
    {
      if tag != ts[i] {
        assert tag in ts[..i];
        SameDepthsCovers(w, w', Target(tag, to, crossing));
      }
    }
  }

  lemma ArrivedIsAll(o: Options, tags: Tags, states: nat, start: View, w: View,
                     from: Value, to: Value, crossing: bool)
    requires Represents(tags, states, start) && Progress(start, w, false)
    requires Arrived(o, w, At(tags, from), to, crossing)
    ensures AllArrived(o, w, from, to, crossing)
  {
    if to != INVALID_VALUE {
      forall s | s in w && s.value == from && Movable(o, w[s], crossing)
        ensures Covers(w, Config(to, s.key, Target(w[s], to, crossing).depth)) || Full(|w|, o.maxStates)
      {
        assert s in start && Has(tags, s);
        var tag := Get(tags, s);
        assert tag in At(tags, from);
        assert Movable(o, tag, crossing);
      }
    }
  }

  // ---------- paired values ----------

  ghost predicate PairsJustified(p: Program, o: Options, from: seq<Value>, to: seq<Value>, crossing: bool)
  {
    forall i :: 0 <= i < |from| && i < |to| ==> Justified(p, o, from[i], to[i], crossing)
  }

  ghost predicate PairsArrived(o: Options, w: View, from: seq<Value>, to: seq<Value>, crossing: bool, n: nat)
    requires n <= |from| && n <= |to|
  {
    forall i :: 0 <= i < n ==> AllArrived(o, w, from[i], to[i], crossing)
  }

  lemma AllArrivedKept(o: Options, w: View, w': View, from: Value, to: Value, crossing: bool)
    requires Progress(w, w', false) && AllArrived(o, w, from, to, crossing)
    ensures AllArrived(o, w', from, to, crossing)
  {
  }

  lemma PairsArrivedKept(o: Options, w: View, w': View, from: seq<Value>, to: seq<Value>, crossing: bool, n: nat)
    requires n <= |from| && n <= |to|
    requires Progress(w, w', false) && PairsArrived(o, w, from, to, crossing, n)
    ensures PairsArrived(o, w', from, to, crossing, n)
  {
    forall i | 0 <= i < n ensures AllArrived(o, w', from[i], to[i], crossing) {
      AllArrivedKept(o, w, w', from[i], to[i], crossing);
    }
  }

  lemma PairsArrivedGrow(o: Options, w: View, w': View, from: seq<Value>, to: seq<Value>, crossing: bool, n: nat)
    requires n < |from| && n < |to|
    requires Progress(w, w', false) && PairsArrived(o, w, from, to, crossing, n)
    requires AllArrived(o, w', from[n], to[n], crossing)
    ensures PairsArrived(o, w', from, to, crossing, n + 1)
  {
    PairsArrivedKept(o, w, w', from, to, crossing, n);
  }

  /** Following paired values, a stored tag finds its copy covered. */
  lemma PairCovered(o: Options, w: View, from: seq<Value>, to: seq<Value>, crossing: bool, a: Config, b: Config)
    requires PairsArrived(o, w, from, to, crossing, Min(|from|, |to|)) && !Full(|w|, o.maxStates)
    requires Stored(w, a) && Paired(from, to, a.value, b.value) && b.value != INVALID_VALUE
    requires b.key == a.key && b.depth == a.depth + if crossing then 1 else 0
    requires crossing ==> a.depth < o.functionDepth
    ensures Covers(w, b)
  {
    var i :| 0 <= i < |from| && i < |to| && from[i] == a.value && to[i] == b.value;
    assert AllArrived(o, w, from[i], to[i], crossing);
    var s := Slot(a.value, a.key);
    assert Movable(o, w[s], crossing);
  }

  // ---------- call crossings ----------

  ghost predicate ClosedUnderCrossings(p: Program, o: Options, op: Op, w: View)
  {
    forall a, b :: Stored(w, a) && CrossingStep(p, o.functionDepth, op, a, b) && b.value != INVALID_VALUE ==>
      Covers(w, b)
  }

  lemma CrossingsJustified(p: Program, o: Options, op: Op)
    requires op in p.ops && op.opcode == Call && op.callee.Some?
    ensures PairsJustified(p, o, Scalars(p, op.inputs), op.callee.value.parameters, true)
    ensures PairsJustified(p, o, op.callee.value.results, Scalars(p, op.outputs), true)
  {
    var fd := o.functionDepth;
    var callee := op.callee.value;
    var ins, outs := Scalars(p, op.inputs), Scalars(p, op.outputs);
    forall i, tag: Tag | 0 <= i < |ins| && i < |callee.parameters| && callee.parameters[i] != INVALID_VALUE &&
        Movable(o, tag, true)
      ensures Step(p, fd, Config(ins[i], tag.key, tag.depth), Target(tag, callee.parameters[i], true))
    {
      var a, b := Config(ins[i], tag.key, tag.depth), Target(tag, callee.parameters[i], true);
      assert Paired(ins, callee.parameters, a.value, b.value);
      assert OpStep(p, fd, op, a, b);
    }
    forall i, tag: Tag | 0 <= i < |callee.results| && i < |outs| && outs[i] != INVALID_VALUE &&
        Movable(o, tag, true)
      ensures Step(p, fd, Config(callee.results[i], tag.key, tag.depth), Target(tag, outs[i], true))
    {
      var a, b := Config(callee.results[i], tag.key, tag.depth), Target(tag, outs[i], true);
      assert Paired(callee.results, outs, a.value, b.value);
      assert OpStep(p, fd, op, a, b);
    }
  }

  lemma CrossingsClosed(p: Program, o: Options, op: Op, w: View)
    requires op.opcode == Call && op.callee.Some? && !Full(|w|, o.maxStates)
    requires
      var ins := Scalars(p, op.inputs);
      PairsArrived(o, w, ins, op.callee.value.parameters, true, Min(|ins|, |op.callee.value.parameters|))
    requires
      var outs := Scalars(p, op.outputs);
      PairsArrived(o, w, op.callee.value.results, outs, true, Min(|op.callee.value.results|, |outs|))
    ensures ClosedUnderCrossings(p, o, op, w)
  {
    var callee := op.callee.value;
    var ins, outs := Scalars(p, op.inputs), Scalars(p, op.outputs);
    forall a, b | Stored(w, a) && CrossingStep(p, o.functionDepth, op, a, b) && b.value != INVALID_VALUE
      ensures Covers(w, b)
    {
      if Paired(ins, callee.parameters, a.value, b.value) {
        PairCovered(o, w, ins, callee.parameters, true, a, b);
      } else {
        PairCovered(o, w, callee.results, outs, true, a, b);
      }
    }
  }

  // ---------- the input-to-output summary ----------

  ghost predicate Bounded(ts: seq<Tag>, depth: nat)
  {
    forall tag :: tag in ts ==> tag.depth <= depth
  }

  ghost predicate ReachableAll(p: Program, o: Options, ts: seq<Tag>, to: Value)
  {
    to != INVALID_VALUE ==>
      forall tag :: tag in ts ==> Reachable(p, o.functionDepth, Config(to, tag.key, tag.depth))
  }

  ghost predicate OutputsArrived(p: Program, o: Options, op: Op, w: View, ts: seq<Tag>, n: nat)
    requires n <= |op.outputs|
  {
    forall i :: 0 <= i < n && op.outputs[i] in p.propagatable ==> Arrived(o, w, ts, op.outputs[i], false)
  }

  ghost predicate ClosedUnderData(p: Program, o: Options, op: Op, w: View)
  {
    forall a, b :: Stored(w, a) && DataStep(p, op, a, b) && b.value != INVALID_VALUE ==> Covers(w, b)
  }

  lemma OutputsArrivedGrow(p: Program, o: Options, op: Op, w: View, w': View, ts: seq<Tag>, n: nat)
    requires n < |op.outputs| && Progress(w, w', false)
    requires OutputsArrived(p, o, op, w, ts, n)
    requires Arrived(o, w', ts, op.outputs[n], false)
    ensures OutputsArrived(p, o, op, w', ts, n + 1)
  {
    forall i | 0 <= i < n && op.outputs[i] in p.propagatable
      ensures Arrived(o, w', ts, op.outputs[i], false)
    {
      assert Arrived(o, w, ts, op.outputs[i], false);
    }
  }

  /** The stored origin of a tag that leaves an operation. */
  lemma LeavingOrigin(p: Program, o: Options, op: Op, tags: Tags, states: nat, w: View, leaving: seq<Tag>, tag: Tag)
    returns (i: nat, a: Config)
    requires Represents(tags, states, w)
    requires leaving == Leaving(p, o, op, tags, Gathered(p, op, tags, |op.inputs|))
    requires tag in leaving
    ensures i < |op.inputs| && Stored(w, a) && a.depth == tag.depth && Feeds(p, op, i, a, tag.key)
  {
    var gathered := Gathered(p, op, tags, |op.inputs|);
    var passing := LeavingFrom(p, o, op, tags, gathered, tag);
    var origin;
    i, origin := GatheredFrom(p, op, tags, |op.inputs|, passing);
    var ts := At(tags, op.inputs[i]);
    var k :| 0 <= k < |ts| && ts[k] == origin;
    ViewedTag(tags, states, w, op.inputs[i], k);
    a := Config(op.inputs[i], origin.key, origin.depth);
  }

  lemma LeavingJustified(p: Program, o: Options, op: Op, tags: Tags, states: nat, w: View,
                         leaving: seq<Tag>, depth: nat)
    requires op in p.ops && Summarised(op)
    requires Represents(tags, states, w) && Sound(p, o.functionDepth, w)
    requires forall s :: s in w ==> w[s].depth <= depth
    requires leaving == Leaving(p, o, op, tags, Gathered(p, op, tags, |op.inputs|))
    ensures Bounded(leaving, depth)
    ensures forall i :: 0 <= i < |op.outputs| && op.outputs[i] in p.propagatable ==>
      ReachableAll(p, o, leaving, op.outputs[i])
  {
    forall tag | tag in leaving
      ensures tag.depth <= depth
    {
      var i, a := LeavingOrigin(p, o, op, tags, states, w, leaving, tag);
    }
    forall to, tag | to in op.outputs && to in p.propagatable && to != INVALID_VALUE && tag in leaving
      ensures Reachable(p, o.functionDepth, Config(to, tag.key, tag.depth))
    {
      var i, a := LeavingOrigin(p, o, op, tags, states, w, leaving, tag);
      var b := Config(to, tag.key, tag.depth);
      assert DataStep(p, op, a, b);
      assert OpStep(p, o.functionDepth, op, a, b);
      StepReachable(p, o.functionDepth, a, b);
    }
  }

  lemma DataClosed(p: Program, o: Options, op: Op, tags: Tags, states: nat, start: View, w: View, leaving: seq<Tag>)
    requires Represents(tags, states, start) && Progress(start, w, false)
    requires leaving == Leaving(p, o, op, tags, Gathered(p, op, tags, |op.inputs|))
    requires OutputsArrived(p, o, op, w, leaving, |op.outputs|) && !Full(|w|, o.maxStates)
    ensures ClosedUnderData(p, o, op, w)
  {
    forall a, b | Stored(w, a) && DataStep(p, op, a, b) && b.value != INVALID_VALUE
      ensures Covers(w, b)
    {
      var i :| 0 <= i < |op.inputs| && Feeds(p, op, i, a, b.key);
      var tag := LeavingTag(p, o, op, tags, states, start, leaving, i, a, b.key);
      var k :| 0 <= k < |op.outputs| && op.outputs[k] == b.value;
      assert Arrived(o, w, leaving, op.outputs[k], false);
      assert Target(tag, b.value, false) == b;
    }
  }

  /** A stored tag that feeds an operation leaves it. */
  lemma LeavingTag(p: Program, o: Options, op: Op, tags: Tags, states: nat, w: View, leaving: seq<Tag>,
                   i: nat, a: Config, key: Key) returns (tag: Tag)
    requires Represents(tags, states, w)
    requires leaving == Leaving(p, o, op, tags, Gathered(p, op, tags, |op.inputs|))
    requires i < |op.inputs| && Feeds(p, op, i, a, key)
    requires Slot(a.value, a.key) in w && w[Slot(a.value, a.key)].depth == a.depth
    ensures tag in leaving && tag.key == key && tag.depth == a.depth
  {
    var s := Slot(a.value, a.key);
    assert Has(tags, s);
    var origin := Get(tags, s);
    var gathered := Gathered(p, op, tags, |op.inputs|);
    GatheredHas(p, op, tags, |op.inputs|, i, origin);
    var passing := StoredTag(p, op, i, origin);
    LeavingHas(p, o, op, tags, gathered, passing);
    tag := Out(p, o, op, tags, passing).value;
  }

  lemma OpClosed(p: Program, o: Options, op: Op, middle: View, w: View)
    ensures
      && (op.opcode == Call && op.callee.Some? ==> ClosedUnderCrossings(p, o, op, middle))
      && (Summarised(op) ==> ClosedUnderData(p, o, op, w))
      && SameDepths(middle, w)
      ==> ClosedUnderOp(p, o.functionDepth, op, w)
  {
    if op.opcode == Call && op.callee.Some? && ClosedUnderCrossings(p, o, op, middle) && SameDepths(middle, w) {
      forall a, b | Stored(w, a) && CrossingStep(p, o.functionDepth, op, a, b) && b.value != INVALID_VALUE
        ensures Covers(w, b)
      {
        SameDepthsCovers(middle, w, a);
        SameDepthsCovers(middle, w, b);
      }
    }
  }

  // ---------- interruptions ----------

  ghost predicate Interrupted(signal: nat -> Signal, checks: nat)
  {
    exists n :: 0 <= n < checks && signal(n) != Quiet
  }

  /** Every interruption leaves its mark: a run is as complete as it was before,
      unless a signal arrived or the table filled up, and then it is not complete. */
  ghost predicate HonestAt(o: Options, signal: nat -> Signal, before: Completion, after: Completion,
                           checks: nat, w: View)
  {
    after == before || (after != Complete && (Interrupted(signal, checks) || Full(|w|, o.maxStates)))
  }

  lemma HonestStart(o: Options, signal: nat -> Signal, now: Completion, checks: nat, w: View)
    ensures HonestAt(o, signal, now, now, checks, w)
  {
  }

  lemma HonestComposes(o: Options, signal: nat -> Signal, first: Completion, second: Completion, third: Completion,
                       checks: nat, checks': nat, w: View, w': View)
    requires HonestAt(o, signal, first, second, checks, w)
    requires HonestAt(o, signal, second, third, checks', w')
    requires checks <= checks' && |w| <= |w'| && (second != Complete ==> third != Complete)
    ensures HonestAt(o, signal, first, third, checks', w')
  {
  }

  // ---------- branches ----------

  lemma JumpJustified(p: Program, o: Options, t: Terminator, jump: Jump)
    requires t in p.terminators && (jump == t.onTrue || jump == t.onFalse)
    ensures PairsJustified(p, o, jump.arguments, jump.parameters, false)
  {
    var from, to := jump.arguments, jump.parameters;
    forall i, tag: Tag | 0 <= i < |from| && i < |to| && to[i] != INVALID_VALUE && Movable(o, tag, false)
      ensures Step(p, o.functionDepth, Config(from[i], tag.key, tag.depth), Target(tag, to[i], false))
    {
      var a, b := Config(from[i], tag.key, tag.depth), Target(tag, to[i], false);
      assert Paired(from, to, a.value, b.value);
      assert BranchStep(t, a, b);
    }
  }

  lemma BranchClosed(o: Options, t: Terminator, w: View)
    requires !Full(|w|, o.maxStates)
    requires PairsArrived(o, w, t.onTrue.arguments, t.onTrue.parameters, false,
                          Min(|t.onTrue.arguments|, |t.onTrue.parameters|))
    requires PairsArrived(o, w, t.onFalse.arguments, t.onFalse.parameters, false,
                          Min(|t.onFalse.arguments|, |t.onFalse.parameters|))
    ensures ClosedUnderBranch(t, w)
  {
    forall a, b | Stored(w, a) && BranchStep(t, a, b) ensures Covers(w, b) {
      if JumpStep(t.onTrue, a, b) {
        PairCovered(o, w, t.onTrue.arguments, t.onTrue.parameters, false, a, b);
      } else {
        PairCovered(o, w, t.onFalse.arguments, t.onFalse.parameters, false, a, b);
      }
    }
  }

  // ---------- seeds ----------

  ghost predicate Seeded(o: Options, w: View, value: Value, key: Key)
  {
    value != INVALID_VALUE ==> Covers(w, Config(value, key, 0)) || Full(|w|, o.maxStates)
  }

  /** The range of a seed is exactly the bytes of the source that the load reads, if and
      only if its end does not wrap around. */
  lemma SeededBytes(a: Analysis, source: nat, address: u64, output: Value)
    requires source < |a.program.sources| && InRange(a.program.sources[source], address)
    ensures
      var from, width := a.program.sources[source], ByteWidth(a.program, output);
      var tag := a.SeedTag(source, address, output);
      (forall k: nat :: InTag(tag, k) <==> k < from.length && ReadsByte(address, width, from.address + k))
      <==> address - from.address + width - 1 < TWO64
  {
    var from, width := a.program.sources[source], ByteWidth(a.program, output);
    var tag := a.SeedTag(source, address, output);
    assert tag.begin < from.length && ReadsByte(address, width, from.address + tag.begin);
    if address - from.address + width - 1 >= TWO64 {
      WrapOnce(tag.begin + width - 1);
      assert !InTag(tag, tag.begin);
    }
  }

  predicate InTag(tag: Tag, k: nat)
  {
    tag.begin <= k <= tag.end
  }

  predicate ReadsByte(address: nat, width: nat, at: nat)
  {
    address <= at < address + width
  }

  lemma WrapOnce(x: nat)
    requires TWO64 <= x < 2 * TWO64
    ensures Wrap(x) == x - TWO64
  {
  }

  ghost predicate LoadSeeded(p: Program, o: Options, w: View, source: nat, op: Op)
    requires source < |p.sources|
  {
    ReadsSource(p, p.sources[source], op) ==>
      forall v :: v in op.outputs && v in p.scalar ==> Seeded(o, w, v, SeedKey(source, Memory))
  }

  lemma SeededKept(o: Options, w: View, w': View)
    requires Grows(w, w')
    ensures forall v, key :: Seeded(o, w, v, key) ==> Seeded(o, w', v, key)
  {
  }

  lemma SeedsOfValues(p: Program, o: Options, w: View, source: nat)
    requires source < |p.sources| && p.sources[source].kind != Memory
    requires
      var from := p.sources[source];
      forall j :: 0 <= j < |from.values| ==> Seeded(o, w, from.values[j], SeedKey(source, from.kind))
    ensures SeedsOf(p, o, w, source)
  {
  }

  lemma SeedsOfLoads(p: Program, o: Options, w: View, source: nat)
    requires source < |p.sources| && p.sources[source].kind == Memory
    requires forall j :: 0 <= j < |p.ops| ==> LoadSeeded(p, o, w, source, p.ops[j])
    ensures SeedsOf(p, o, w, source)
  {
    forall c | Seed(p, c) && c.key.source == source
      ensures Covers(w, c) || Full(|w|, o.maxStates)
    {
      var op :| op in p.ops && ReadsSource(p, p.sources[source], op) && c.value in op.outputs && c.value in p.scalar;
      assert LoadSeeded(p, o, w, source, op);
      assert Seeded(o, w, c.value, c.key);
    }
  }

  ghost predicate SeedsOf(p: Program, o: Options, w: View, source: nat)
  {
    forall c :: Seed(p, c) && c.key.source == source ==> Covers(w, c) || Full(|w|, o.maxStates)
  }

  lemma SeedsOfKept(p: Program, o: Options, w: View, w': View)
    requires Grows(w, w')
    ensures forall source :: SeedsOf(p, o, w, source) ==> SeedsOf(p, o, w', source)
  {
  }
}
