/** Presentation of variables: storage that overlaps is marked, register arguments are
    kept as far as they are contiguous, and names are made unique. */
module Variables {
  import opened Basics


  // ---------- overlapping storage ----------

  datatype Slot = Slot(base: nat, offset: int, bits: nat)
  {
    predicate Valid() { INT64_MIN <= offset <= INT64_MAX && bits < 0x1_0000 }
    function Size(): nat { (bits + 7) / 8 }
    predicate Holds(x: int) { offset <= x < offset + Size() }
  }

  // intervals_overlap
  predicate IntervalsOverlap(a: Slot, b: Slot)
  {
    if a.Size() == 0 || b.Size() == 0 || a.offset > INT64_MAX - a.Size() || b.offset > INT64_MAX - b.Size() then false
    else a.offset < b.offset + b.Size() && b.offset < a.offset + a.Size()
  }

  /** Two slots are found to overlap exactly if they share a byte and neither one ends
      above the largest offset. */
  lemma OverlapExact(a: Slot, b: Slot)
    requires a.Valid() && b.Valid()
    ensures IntervalsOverlap(a, b) <==>
      && (exists x :: a.Holds(x) && b.Holds(x))
      && a.offset + a.Size() <= INT64_MAX && b.offset + b.Size() <= INT64_MAX
  {
    if IntervalsOverlap(a, b) {
      var x := if a.offset <= b.offset then b.offset else a.offset;
      assert a.Holds(x) && b.Holds(x);
    }
  }

  predicate Clash(a: Slot, b: Slot)
  {
    a.base == b.base && !(a.offset == b.offset && a.bits == b.bits) && IntervalsOverlap(a, b)
  }

  /** A slot is marked exactly if it clashes with another one. */
  method MarkOverlaps(slots: seq<Slot>, overlap: array<bool>)
    requires overlap.Length == |slots| && forall i | 0 <= i < |slots| :: !overlap[i]
    modifies overlap
    ensures forall i | 0 <= i < |slots| ::
      overlap[i] <==> exists j :: 0 <= j < |slots| && Clash(slots[i], slots[j])
  {
    hide Clash;
    ClashSymmetric(slots);
    for i := 0 to |slots|
      invariant forall k | 0 <= k < |slots| ::
        overlap[k] <==> exists j :: 0 <= j < |slots| && (k < i || j < i) && Clash(slots[k], slots[j])
    {
      ghost var before := overlap[..];
      for j := 0 to |slots|
        invariant forall k | 0 <= k < |slots| ::
          overlap[k] <==> before[k] || (k == i && exists l :: 0 <= l < j && Clash(slots[i], slots[l])) ||
                          (k < j && Clash(slots[i], slots[k]))
      {
        if Clash(slots[i], slots[j]) {
          overlap[i] := true;
          overlap[j] := true;
        }
      }
    }
  }

  lemma ClashSymmetric(slots: seq<Slot>)
    ensures forall i, j | 0 <= i < |slots| && 0 <= j < |slots| :: Clash(slots[i], slots[j]) <==> Clash(slots[j], slots[i])
  {
  }

  // ---------- contiguous arguments ----------

  /** The number of arguments before the first gap. */
  method ContiguousArguments(indices: set<nat>) returns (n: nat)
    ensures n !in indices && forall k: nat | k < n :: k in indices
  {
    n := 0;
    ghost var below: set<nat> := {};
    while n in indices
      invariant |below| == n && below <= indices && forall k: nat :: k in below <==> k < n
      decreases |indices - below|
    {
      assert indices - below == indices - (below + {n}) + {n};
      below := below + {n};
      n := n + 1;
    }
  }

  // ---------- unique names ----------

  /** A name and the value it is primarily for. */
  datatype Named = Named(text: string, primary: Option<nat>)

  function Numbered(base: string, n: nat): string
  {
    base + "_" + Digits(n)
  }

  lemma NumberedInjective(base: string, a: nat, b: nat)
    requires Numbered(base, a) == Numbered(base, b)
    ensures a == b
  {
    assert Digits(a) == Numbered(base, a)[|base| + 1..];
    assert Digits(b) == Numbered(base, b)[|base| + 1..];
    DigitsInjective(a, b);
  }

  /** The texts that are tried for a name that is taken: first with the value, then with
      numbers from three on. */
  function Candidate(base: string, primary: Option<nat>, n: nat): string
    requires n >= 2
  {
    if n > 2 then Numbered(base, n)
    else if primary.Some? then base + "_v" + Digits(primary.value)
    else Numbered(base, 2)
  }

  /** The text that is given: the name itself if it is free, otherwise the first
      candidate that is. */
  ghost predicate Given(name: Named, taken: set<string>, text: string)
  {
    if name.text !in taken then text == name.text
    else
      exists n: nat ::
        && n >= 2 && text == Candidate(name.text, name.primary, n) && text !in taken
        && forall k: nat | 2 <= k < n :: Candidate(name.text, name.primary, k) in taken
  }

  method FreeText(name: Named, taken: set<string>) returns (text: string)
    ensures text !in taken && Given(name, taken, text)
  {
    text := name.text;
    if text !in taken {
      return;
    }
    text := Candidate(name.text, name.primary, 2);
    var suffix := 2;
    ghost var tried: set<string> := {};
    while text in taken
      invariant suffix >= 2 && text == Candidate(name.text, name.primary, suffix)
      invariant forall k: nat | 2 <= k < suffix :: Candidate(name.text, name.primary, k) in taken
      invariant tried <= taken && |tried| == (if suffix == 2 then 0 else suffix - 3)
      invariant forall t <- tried :: exists k: nat :: 3 <= k < suffix && t == Numbered(name.text, k)
      decreases |taken| + 3 - suffix
    {
      if suffix > 2 {
        NotTried(name.text, tried, suffix);
        tried := tried + {text};
        TriedBound(tried, taken);
      }
      suffix := suffix + 1;
      text := name.text + "_" + Digits(suffix);
    }
  }

  lemma NotTried(base: string, tried: set<string>, n: nat)
    requires forall t <- tried :: exists k: nat :: 3 <= k < n && t == Numbered(base, k)
    ensures Numbered(base, n) !in tried
  {
    if Numbered(base, n) in tried {
      var k: nat :| 3 <= k < n && Numbered(base, n) == Numbered(base, k);
      NumberedInjective(base, n, k);
    }
  }

  lemma TriedBound(tried: set<string>, taken: set<string>)
    requires tried <= taken
    ensures |tried| <= |taken|
  {
    assert taken == tried + (taken - tried);
  }

  function Texts(s: seq<string>): set<string>
  {
    set t | t in s
  }

  /** Every variable gets the first text that no variable before it has; so no two
      variables have the same. */
  method MakeUnique(names: seq<Named>) returns (texts: seq<string>)
    ensures |texts| == |names|
    ensures forall i | 0 <= i < |names| :: Given(names[i], Texts(texts[..i]), texts[i])
    ensures forall i, j | 0 <= i < j < |texts| :: texts[i] != texts[j]
  {
    hide Given;
    texts := [];
    var taken: set<string> := {};
    for i := 0 to |names|
      invariant |texts| == i && taken == Texts(texts)
      invariant forall k | 0 <= k < i :: Given(names[k], Texts(texts[..k]), texts[k])
      invariant forall k, l | 0 <= k < l < i :: texts[k] != texts[l]
    {
      var text := FreeText(names[i], taken);
      ghost var before := texts;
      assert before[..i] == before;
      assert forall k | 0 <= k < i :: (before + [text])[..k] == before[..k];
      assert (before + [text])[..i] == before;
      texts := texts + [text];
      taken := taken + {text};
    }
  }
}
