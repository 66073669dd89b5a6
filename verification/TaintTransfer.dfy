/** What an operation does to each tag that passes through it: the byte-range
    arithmetic, and which tags of the inputs leave at the outputs. */
module TaintTransfer {
  import opened Basics
  import opened TaintTags
  import opened TaintProgram

  function Wrap(x: int): u64
  {
    x % TWO64
  }

  function LoadWidth(p: Program, op: Op): u64
  {
    if op.outputs == [] then 1 else ByteWidth(p, op.outputs[0])
  }

  function BufferLength(p: Program, o: Options, source: nat): u64
  {
    var requested := if source < |p.sources| then p.sources[source].length else 0;
    if o.maxTaintBytes == 0 then requested else Min(requested, o.maxTaintBytes)
  }

  /** Loading through a buffer pointer turns it into the bytes it points at. */
  function Loaded(p: Program, o: Options, op: Op, tag: Tag): Tag
  {
    var width := LoadWidth(p, op);
    var length := BufferLength(p, o, tag.key.source);
    var last := Wrap(tag.begin + width - 1);
    var read := tag.(key := tag.key.(pointer := false));
    if tag.exact then
      read.(end := Min(if length == 0 then last else length - 1, last))
    else
      read.(begin := 0, end := if length == 0 then width - 1 else length - 1)
  }

  predicate Additive(op: Op)
  {
    op.opcode == Add || op.opcode == AddrAdd || op.opcode == Sub || op.opcode == AddrSub
  }

  function ConstantOf(p: Program, v: Value): Option<u64>
  {
    if v in p.constants then Some(p.constants[v]) else None
  }

  /** Moving a buffer pointer by a constant moves its offset; otherwise it becomes inexact. */
  function Shifted(p: Program, op: Op, tags: Tags, tag: Tag): Tag
    requires |op.inputs| == 2
  {
    var onLeft := op.inputs[0] in tags;
    var subtract := onLeft && (op.opcode == Sub || op.opcode == AddrSub);
    var delta :=
      if onLeft then ConstantOf(p, op.inputs[1])
      else if op.opcode == Add || op.opcode == AddrAdd then ConstantOf(p, op.inputs[0])
      else None;
    match delta
    case None => tag.(exact := false)
    case Some(amount) =>
      if subtract && amount > tag.begin then tag.(exact := false, end := tag.begin)
      else
        var begin := if subtract then tag.begin - amount else Wrap(tag.begin + amount);
        tag.(begin := begin, end := begin)
  }

  /** The tag that leaves the operation, or None if a load rejects it. */
  function Out(p: Program, o: Options, op: Op, tags: Tags, tag: Tag): (r: Option<Tag>)
    ensures r.Some? <==> OutKey(p, op, tag.key).Some?
    ensures r.Some? ==> r.value.key == OutKey(p, op, tag.key).value && r.value.depth == tag.depth
  {
    if op.opcode == Load then
      if tag.key.storage then
        if OutKey(p, op, tag.key).None? then None else Some(tag.(key := tag.key.(storage := false)))
      else if tag.key.pointer && tag.key.bytes then Some(Loaded(p, o, op, tag))
      else Some(tag)
    else if Additive(op) && |op.inputs| == 2 && tag.key.pointer && tag.key.bytes then
      Some(Shifted(p, op, tags, tag))
    else Some(tag)
  }

  // ---------- the tags gathered from the inputs ----------

  function StoredTag(p: Program, op: Op, index: nat, tag: Tag): Tag
  {
    tag.(key := StoredKey(p, op, index, tag.key))
  }

  function StoredTags(p: Program, op: Op, index: nat, ts: seq<Tag>): (r: seq<Tag>)
    ensures |r| == |ts| && forall i :: 0 <= i < |ts| ==> r[i] == StoredTag(p, op, index, ts[i])
  {
    seq(|ts|, i requires 0 <= i < |ts| => StoredTag(p, op, index, ts[i]))
  }

  predicate AddressOperand(op: Op, index: nat)
  {
    op.opcode == Store && index == 1
  }

  /** The tags of the first n inputs; the address operand of a store is left out. */
  function Gathered(p: Program, op: Op, tags: Tags, n: nat): seq<Tag>
    requires n <= |op.inputs|
  {
    if n == 0 then []
    else
      Gathered(p, op, tags, n - 1) +
      if AddressOperand(op, n - 1) then [] else StoredTags(p, op, n - 1, At(tags, op.inputs[n - 1]))
  }

  function Leaving(p: Program, o: Options, op: Op, tags: Tags, ts: seq<Tag>): seq<Tag>
  {
    if ts == [] then []
    else
      var rest := Leaving(p, o, op, tags, ts[..|ts| - 1]);
      match Out(p, o, op, tags, ts[|ts| - 1])
      case Some(tag) => rest + [tag]
      case None => rest
  }

  lemma {:induction false} GatheredHas(p: Program, op: Op, tags: Tags, n: nat, i: nat, tag: Tag)
    requires i < n <= |op.inputs| && !AddressOperand(op, i)
    requires tag in At(tags, op.inputs[i])
    ensures StoredTag(p, op, i, tag) in Gathered(p, op, tags, n)
  {
    if i == n - 1 {
      var ts := At(tags, op.inputs[i]);
      var k :| 0 <= k < |ts| && ts[k] == tag;
      assert StoredTags(p, op, i, ts)[k] == StoredTag(p, op, i, tag);
    } else {
      GatheredHas(p, op, tags, n - 1, i, tag);
    }
  }

  lemma {:induction false} GatheredFrom(p: Program, op: Op, tags: Tags, n: nat, tag: Tag)
    returns (i: nat, origin: Tag)
    requires n <= |op.inputs| && tag in Gathered(p, op, tags, n)
    ensures i < n && !AddressOperand(op, i)
    ensures origin in At(tags, op.inputs[i]) && tag == StoredTag(p, op, i, origin)
  {
    if tag in Gathered(p, op, tags, n - 1) {
      i, origin := GatheredFrom(p, op, tags, n - 1, tag);
    } else {
      i := n - 1;
      var ts := At(tags, op.inputs[i]);
      var k :| 0 <= k < |ts| && StoredTags(p, op, i, ts)[k] == tag;
      origin := ts[k];
    }
  }

  lemma {:induction false} LeavingHas(p: Program, o: Options, op: Op, tags: Tags, ts: seq<Tag>, tag: Tag)
    requires tag in ts && Out(p, o, op, tags, tag).Some?
    ensures Out(p, o, op, tags, tag).value in Leaving(p, o, op, tags, ts)
  {
    var n := |ts| - 1;
    if ts[n] != tag {
      assert tag in ts[..n];
      LeavingHas(p, o, op, tags, ts[..n], tag);
    }
  }

  lemma {:induction false} LeavingFrom(p: Program, o: Options, op: Op, tags: Tags, ts: seq<Tag>, tag: Tag)
    returns (origin: Tag)
    requires tag in Leaving(p, o, op, tags, ts)
    ensures origin in ts && Out(p, o, op, tags, origin) == Some(tag)
  {
    var n := |ts| - 1;
    if tag in Leaving(p, o, op, tags, ts[..n]) {
      origin := LeavingFrom(p, o, op, tags, ts[..n], tag);
    } else {
      origin := ts[n];
    }
  }
}
