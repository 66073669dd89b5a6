/** Tags, the table of tags per SSA value, and the abstract view of that table:
    one tag for each (value, key) slot. */
module TaintTags {
  import opened Basics

  type Value = nat

  const INVALID_VALUE: Value := 0xFFFF_FFFF

  /** Unsigned 64-bit machine integers. */
  type u64 = x: nat | x < TWO64

  /** The fields two tags must share to be merged. */
  datatype Key = Key(source: nat, bytes: bool, pointer: bool,
                     storage: bool, storageExact: bool, storageOffset: int)

  datatype Tag = Tag(key: Key, exact: bool, begin: u64, end: u64, depth: nat)

  type Tags = map<Value, seq<Tag>>

  datatype Slot = Slot(value: Value, key: Key)

  type View = map<Slot, Tag>

  function At(tags: Tags, value: Value): seq<Tag>
  {
    if value in tags then tags[value] else []
  }

  /** Position of the first tag with the given key, or the length if there is none. */
  function Find(ts: seq<Tag>, key: Key): (i: nat)
    ensures i <= |ts|
    ensures i < |ts| ==> ts[i].key == key
    ensures forall j :: 0 <= j < i ==> ts[j].key != key
  {
    if ts == [] then 0
    else if ts[0].key == key then 0
    else
      var rest := ts[1..];
      var i := Find(rest, key);
      assert forall j :: 1 <= j < i + 1 ==> ts[j] == rest[j - 1];
      i + 1
  }

  function Merge(existing: Tag, incoming: Tag): Tag
  {
    var begin := Min(existing.begin, incoming.begin);
    var end := Max(existing.end, incoming.end);
    Tag(existing.key, existing.exact && incoming.exact && begin == end,
        begin, end, Min(existing.depth, incoming.depth))
  }

  /** What the caller of a merge is told: did a range end or the depth move? */
  predicate Moved(before: Tag, after: Tag)
  {
    before.begin != after.begin || before.end != after.end || before.depth != after.depth
  }

  predicate Full(states: nat, maxStates: nat)
  {
    maxStates != 0 && states >= maxStates
  }

  /** Offering a tag to a view: a known slot absorbs it, a new slot takes it
      unless the table is full, and the invalid value takes nothing. */
  ghost function Put(w: View, value: Value, incoming: Tag, maxStates: nat): View
  {
    var s := Slot(value, incoming.key);
    if value == INVALID_VALUE then w
    else if s in w then w[s := Merge(w[s], incoming)]
    else if Full(|w|, maxStates) then w
    else w[s := incoming]
  }

  /** Whether the caller that offers the tag is told that something changed. */
  ghost predicate PutReports(w: View, value: Value, incoming: Tag, maxStates: nat)
  {
    var s := Slot(value, incoming.key);
    value != INVALID_VALUE &&
    if s in w then Moved(w[s], Merge(w[s], incoming)) else !Full(|w|, maxStates)
  }

  ghost predicate UniqueKeys(ts: seq<Tag>)
  {
    forall i, j :: 0 <= i < j < |ts| ==> ts[i].key != ts[j].key
  }

  predicate Has(tags: Tags, s: Slot)
  {
    Find(At(tags, s.value), s.key) < |At(tags, s.value)|
  }

  function Get(tags: Tags, s: Slot): Tag
    requires Has(tags, s)
  {
    At(tags, s.value)[Find(At(tags, s.value), s.key)]
  }

  /** The table holds exactly the tags of the view, at most one for each key. */
  ghost predicate Represents(tags: Tags, states: nat, w: View)
  {
    && INVALID_VALUE !in tags
    && (forall v :: v in tags ==> UniqueKeys(tags[v]))
    && (forall s :: s in w <==> Has(tags, s))
    && (forall s :: s in w ==> w[s] == Get(tags, s))
    && states == |w|
  }

  lemma FindAt(ts: seq<Tag>, i: nat)
    requires UniqueKeys(ts) && i < |ts|
    ensures Find(ts, ts[i].key) == i
  {
  }

  /** Every stored tag is the view's tag of its slot. */
  lemma ViewedTag(tags: Tags, states: nat, w: View, v: Value, i: nat)
    requires Represents(tags, states, w)
    requires v in tags && i < |tags[v]|
    ensures Slot(v, tags[v][i].key) in w && w[Slot(v, tags[v][i].key)] == tags[v][i]
  {
    FindAt(tags[v], i);
    assert Has(tags, Slot(v, tags[v][i].key));
  }

  ghost predicate SameLookup(ts: seq<Tag>, us: seq<Tag>, key: Key)
  {
    var i, j := Find(ts, key), Find(us, key);
    (i < |ts| <==> j < |us|) && (i < |ts| && j < |us| ==> ts[i] == us[j])
  }

  lemma LookupsAfterUpdate(ts: seq<Tag>, i: nat, tag: Tag)
    requires UniqueKeys(ts) && i < |ts| && tag.key == ts[i].key
    ensures UniqueKeys(ts[i := tag]) && Find(ts[i := tag], tag.key) == i
    ensures var us := ts[i := tag]; forall key :: key != tag.key ==> SameLookup(us, ts, key)
  {
    var us := ts[i := tag];
    assert forall j :: 0 <= j < |ts| ==> us[j].key == ts[j].key;
    FindAt(us, i);
    forall key | key != tag.key ensures SameLookup(us, ts, key) {
      assert Find(us, key) == Find(ts, key);
    }
  }

  lemma LookupsAfterAppend(ts: seq<Tag>, tag: Tag)
    requires UniqueKeys(ts) && Find(ts, tag.key) == |ts|
    ensures UniqueKeys(ts + [tag]) && Find(ts + [tag], tag.key) == |ts|
    ensures var us := ts + [tag]; forall key :: key != tag.key ==> SameLookup(us, ts, key)
  {
    var us := ts + [tag];
    assert forall j :: 0 <= j < |ts| ==> us[j] == ts[j];
    FindAt(us, |ts|);
    forall key | key != tag.key ensures SameLookup(us, ts, key) {
      assert Find(ts, key) < |ts| ==> Find(us, key) == Find(ts, key);
    }
  }

  /** The slot holds the same tag, or no tag, in both tables. */
  ghost predicate SameSlot(before: Tags, after: Tags, q: Slot)
  {
    Has(after, q) == Has(before, q) && (Has(before, q) ==> Get(after, q) == Get(before, q))
  }

  lemma OtherSlots(tags: Tags, ts: seq<Tag>, s: Slot, q: Slot)
    requires q.value == s.value ==> SameLookup(ts, At(tags, s.value), q.key)
    ensures SameSlot(tags, tags[s.value := ts], q)
  {
  }

  /** Replacing one value's tags moves the view exactly as it moves the lookups by key. */
  lemma RepresentsUpdate(tags: Tags, states: nat, w: View, ts: seq<Tag>, s: Slot, tag: Tag)
    requires Represents(tags, states, w)
    requires s.value != INVALID_VALUE && UniqueKeys(ts)
    requires Find(ts, s.key) < |ts| && ts[Find(ts, s.key)] == tag
    requires forall key :: key != s.key ==> SameLookup(ts, At(tags, s.value), key)
    ensures Represents(tags[s.value := ts], |w[s := tag]|, w[s := tag])
  {
    var tags' := tags[s.value := ts];
    assert Has(tags', s) && Get(tags', s) == tag;
    forall q | q != s ensures SameSlot(tags, tags', q) {
      if q.value == s.value {
        assert q.key != s.key;
      }
      OtherSlots(tags, ts, s, q);
    }
    RepresentsSame(tags, states, w, tags', s, tag);
  }

  lemma RepresentsSame(tags: Tags, states: nat, w: View, tags': Tags, s: Slot, tag: Tag)
    requires Represents(tags, states, w)
    requires INVALID_VALUE !in tags'
    requires forall v :: v in tags' ==> UniqueKeys(tags'[v])
    requires Has(tags', s) && Get(tags', s) == tag
    requires forall q :: q != s ==> SameSlot(tags, tags', q)
    ensures Represents(tags', |w[s := tag]|, w[s := tag])
  {
    var w' := w[s := tag];
    forall q
      ensures q in w' <==> Has(tags', q)
      ensures q in w' ==> w'[q] == Get(tags', q)
    {
      if q != s {
        assert SameSlot(tags, tags', q);
        assert q in w <==> Has(tags, q);
      }
    }
  }

  lemma MergeRepresents(tags: Tags, states: nat, w: View, v: Value, incoming: Tag)
    requires Represents(tags, states, w) && v != INVALID_VALUE
    requires Has(tags, Slot(v, incoming.key))
    ensures
      var ts := At(tags, v);
      var i := Find(ts, incoming.key);
      var s := Slot(v, incoming.key);
      && s in w && w[s] == ts[i]
      && Represents(tags[v := ts[i := Merge(ts[i], incoming)]], states, w[s := Merge(ts[i], incoming)])
  {
    var s := Slot(v, incoming.key);
    assert s in w;
    var ts := At(tags, v);
    var i := Find(ts, incoming.key);
    var merged := Merge(ts[i], incoming);
    LookupsAfterUpdate(ts, i, merged);
    RepresentsUpdate(tags, states, w, ts[i := merged], s, merged);
    assert |w[s := merged]| == states by {
      assert w[s := merged].Keys == w.Keys;
    }
  }

  lemma AppendRepresents(tags: Tags, states: nat, w: View, v: Value, incoming: Tag)
    requires Represents(tags, states, w) && v != INVALID_VALUE
    requires !Has(tags, Slot(v, incoming.key))
    ensures Slot(v, incoming.key) !in w
    ensures Represents(tags[v := At(tags, v) + [incoming]], states + 1, w[Slot(v, incoming.key) := incoming])
  {
    var s := Slot(v, incoming.key);
    assert s !in w;
    var ts := At(tags, v);
    assert UniqueKeys(ts);
    LookupsAfterAppend(ts, incoming);
    RepresentsUpdate(tags, states, w, ts + [incoming], s, incoming);
    assert |w[s := incoming]| == states + 1 by {
      assert w[s := incoming].Keys == w.Keys + {s};
    }
  }

  lemma TouchedSlots(tags: Tags, v: Value)
    ensures var tags' := tags[v := At(tags, v)]; forall q :: SameSlot(tags, tags', q)
  {
    var tags' := tags[v := At(tags, v)];
    forall q ensures SameSlot(tags, tags', q) {
      assert At(tags', q.value) == At(tags, q.value);
    }
  }

  lemma SameSlotsRepresent(tags: Tags, states: nat, w: View, tags': Tags)
    requires Represents(tags, states, w)
    requires INVALID_VALUE !in tags'
    requires forall v :: v in tags' ==> UniqueKeys(tags'[v])
    requires forall q :: SameSlot(tags, tags', q)
    ensures Represents(tags', states, w)
  {
    forall q ensures q in w <==> Has(tags', q)
             ensures q in w ==> w[q] == Get(tags', q)
    {
      assert SameSlot(tags, tags', q);
      assert q in w <==> Has(tags, q);
    }
  }

  /** Asking for a value that has no tags creates an empty entry, which holds nothing. */
  lemma TouchRepresents(tags: Tags, states: nat, w: View, v: Value)
    requires Represents(tags, states, w) && v != INVALID_VALUE
    ensures Represents(tags[v := At(tags, v)], states, w)
  {
    var tags' := tags[v := At(tags, v)];
    TouchedSlots(tags, v);
    assert forall u :: u in tags' ==> UniqueKeys(tags'[u]) by {
      assert UniqueKeys(At(tags, v));
    }
    SameSlotsRepresent(tags, states, w, tags');
  }

  /** The tags of the value after the tag has been offered to it. */
  function Added(ts: seq<Tag>, states: nat, incoming: Tag, maxStates: nat): seq<Tag>
  {
    var i := Find(ts, incoming.key);
    if i < |ts| then ts[i := Merge(ts[i], incoming)]
    else if Full(states, maxStates) then ts
    else ts + [incoming]
  }

  /** Offering a tag to the table is offering it to the view. */
  lemma AddRepresents(tags: Tags, states: nat, w: View, v: Value, incoming: Tag, maxStates: nat)
    requires Represents(tags, states, w) && v != INVALID_VALUE
    ensures
      var ts := At(tags, v);
      var i := Find(ts, incoming.key);
      var w' := Put(w, v, incoming, maxStates);
      && Represents(tags[v := Added(ts, states, incoming, maxStates)], |w'|, w')
      && |w'| == (if i == |ts| && !Full(states, maxStates) then states + 1 else states)
      && PutReports(w, v, incoming, maxStates)
         == if i < |ts| then Moved(ts[i], Merge(ts[i], incoming)) else !Full(states, maxStates)
  {
    var s := Slot(v, incoming.key);
    assert s in w <==> Has(tags, s);
    if Has(tags, s) {
      MergeRepresents(tags, states, w, v, incoming);
    } else if Full(states, maxStates) {
      TouchRepresents(tags, states, w, v);
    } else {
      AppendRepresents(tags, states, w, v, incoming);
    }
  }
}
