/** The JSON tool protocol: a model is asked turn by turn for a tool call or a final
    answer. The model, the tools, the clock and the size of requests are arbitrary. */
module Protocol {
  import opened Basics

  // ---------- texts and their omission ----------

  function Utf8(c: char): (n: nat)
    ensures 1 <= n <= 4
  {
    if c < '\U{80}' then 1 else if c < '\U{800}' then 2 else if c < '\U{10000}' then 3 else 4
  }

  function Utf8Length(s: string): (n: nat)
    ensures |s| <= n <= 4 * |s|
  {
    if s == "" then 0 else Utf8(s[0]) + Utf8Length(s[1..])
  }

  const LONG := 256

  /** What stands for a long result in a prompt: its digest of 64 characters and its size. */
  function Omission(digest: string, result: string): string
  {
    "{\"omitted_from_prompt\":true,\"sha256\":\"" + digest + "\",\"utf8_bytes\":" + Digits(Utf8Length(result)) + "}"
  }

  lemma OmissionShorter(digest: string, result: string)
    requires |digest| == 64 && |result| > LONG
    ensures |Omission(digest, result)| < |result|
  {
  }

  // ---------- what is exchanged ----------

  /** What the text of a response amounts to; a tool request may be malformed. */
  datatype Reply =
    | Failed
    | Blank
    | Prose
    | Final(content: string)
    | Tool(request: Option<(string, string)>)

  /** A turn of the transcript; only tool requests have a result. */
  datatype Entry = Entry(reply: Reply, result: Option<string>)

  type Transcript = seq<Entry>

  datatype Outcome = Finished(draft: string) | TurnsExhausted | CannotFit | OutOfTime | ResponseFailed

  datatype Event =
    | Sent(exhausted: bool, bytes: nat, transcript: Transcript, prompt: Transcript)
    | Called(result: string)

  datatype World = World(
    reply: nat -> Reply,
    raw: nat -> string,
    execute: (nat, string, string) -> string,
    duplicate: string -> bool,
    digest: string -> string,
    bytes: (bool, Transcript, int) -> nat,
    expired: nat -> bool)

  ghost predicate Hashes(w: World)
  {
    forall s :: |w.digest(s)| == 64
  }

  // ---------- compaction of a prompt ----------

  predicate IsLong(e: Entry)
  {
    e.result.Some? && |e.result.value| > LONG
  }

  function Omitted(w: World, e: Entry): Entry
    requires IsLong(e)
  {
    e.(result := Some(Omission(w.digest(e.result.value), e.result.value)))
  }

  /** The prompt with its first long result omitted. */
  function Compacted(w: World, prompt: Transcript): Option<Transcript>
  {
    if prompt == [] then None
    else if IsLong(prompt[0]) then Some([Omitted(w, prompt[0])] + prompt[1..])
    else
      match Compacted(w, prompt[1..])
      case None => None
      case Some(rest) => Some([prompt[0]] + rest)
  }

  function Length(prompt: Transcript): nat
  {
    if prompt == [] then 0 else (if prompt[0].result.Some? then |prompt[0].result.value| else 0) + Length(prompt[1..])
  }

  lemma {:induction false} CompactedShorter(w: World, prompt: Transcript)
    requires Hashes(w) && Compacted(w, prompt).Some?
    ensures Length(Compacted(w, prompt).value) < Length(prompt)
  {
    if IsLong(prompt[0]) {
      OmissionShorter(w.digest(prompt[0].result.value), prompt[0].result.value);
    } else {
      CompactedShorter(w, prompt[1..]);
    }
  }

  /** The prompt after a number of omissions, if there is that much to omit. */
  function Times(w: World, transcript: Transcript, k: nat): Option<Transcript>
  {
    if k == 0 then Some(transcript)
    else
      match Times(w, transcript, k - 1)
      case None => None
      case Some(prompt) => Compacted(w, prompt)
  }

  ghost predicate TooBig(w: World, exhausted: bool, remaining: int, limit: nat, transcript: Transcript, k: nat)
  {
    Times(w, transcript, k).Some? && w.bytes(exhausted, Times(w, transcript, k).value, remaining) > limit
  }

  /** The prompt is what is left after as few omissions as make the request fit. */
  ghost predicate Fits(w: World, exhausted: bool, remaining: int, limit: nat, transcript: Transcript, prompt: Transcript)
  {
    && w.bytes(exhausted, prompt, remaining) <= limit
    && exists k: nat ::
         && Times(w, transcript, k) == Some(prompt)
         && forall j | 0 <= j < k :: TooBig(w, exhausted, remaining, limit, transcript, j)
  }

  /** Whatever is omitted, the request does not fit. */
  ghost predicate NeverFits(w: World, exhausted: bool, remaining: int, limit: nat, transcript: Transcript)
  {
    forall k: nat | Times(w, transcript, k).Some? :: TooBig(w, exhausted, remaining, limit, transcript, k)
  }

  lemma {:induction false} TimesStops(w: World, transcript: Transcript, k: nat, j: nat)
    requires Times(w, transcript, k).None? && k <= j
    ensures Times(w, transcript, j).None?
  {
    if k < j {
      TimesStops(w, transcript, k, j - 1);
    }
  }

  lemma NothingLeft(w: World, exhausted: bool, remaining: int, limit: nat, transcript: Transcript, k: nat)
    requires forall j | 0 <= j <= k :: TooBig(w, exhausted, remaining, limit, transcript, j)
    requires Times(w, transcript, k + 1).None?
    ensures NeverFits(w, exhausted, remaining, limit, transcript)
  {
    hide Times, TooBig;
    forall j: nat | Times(w, transcript, j).Some? ensures TooBig(w, exhausted, remaining, limit, transcript, j) {
      if j > k {
        TimesStops(w, transcript, k + 1, j);
      }
    }
  }

  lemma NowTooBig(w: World, exhausted: bool, remaining: int, limit: nat, transcript: Transcript, k: nat, prompt: Transcript)
    requires Times(w, transcript, k) == Some(prompt) && w.bytes(exhausted, prompt, remaining) > limit
    ensures TooBig(w, exhausted, remaining, limit, transcript, k)
  {
  }

  /** Long results are omitted from a copy, the earliest first, until the request fits. */
  method Fit(w: World, exhausted: bool, remaining: int, limit: nat, transcript: Transcript)
    returns (prompt: Option<Transcript>)
    requires Hashes(w)
    ensures prompt.Some? ==> Fits(w, exhausted, remaining, limit, transcript, prompt.value)
    ensures prompt.None? ==> NeverFits(w, exhausted, remaining, limit, transcript)
  {
    hide Hashes, Compacted, TooBig;
    var copy := transcript;
    ghost var k: nat := 0;
    while w.bytes(exhausted, copy, remaining) > limit
      invariant Times(w, transcript, k) == Some(copy)
      invariant forall j | 0 <= j < k :: TooBig(w, exhausted, remaining, limit, transcript, j)
      decreases Length(copy)
    {
      NowTooBig(w, exhausted, remaining, limit, transcript, k, copy);
      var next := Compacted(w, copy);
      assert Times(w, transcript, k + 1) == next;
      if next.None? {
        NothingLeft(w, exhausted, remaining, limit, transcript, k);
        return None;
      }
      CompactedShorter(w, copy);
      copy := next.value;
      k := k + 1;
    }
    prompt := Some(copy);
  }

  // ---------- the protocol ----------

  function CallCount(log: seq<Event>): (n: nat)
    ensures n <= |log|
  {
    if log == [] then 0 else CallCount(log[..|log| - 1]) + (if log[|log| - 1].Called? then 1 else 0)
  }

  function TurnCount(log: seq<Event>): nat
  {
    |log| - CallCount(log)
  }

  ghost predicate Duplicated(w: World, log: seq<Event>)
  {
    exists e :: e in log && e.Called? && w.duplicate(e.result)
  }

  /** All calls are used up, or a call brought nothing new. */
  ghost predicate Exhausted(w: World, maxCalls: nat, log: seq<Event>)
  {
    CallCount(log) >= maxCalls || Duplicated(w, log)
  }

  /** A request is within the limit, says truly whether tools are left, and shows the
      transcript with no more omitted than needed. */
  ghost predicate ProperRequest(w: World, maxCalls: nat, limit: nat, before: seq<Event>, e: Event)
    requires e.Sent?
  {
    var remaining := if Duplicated(w, before) then 0 else maxCalls - CallCount(before);
    && (e.exhausted <==> Exhausted(w, maxCalls, before))
    && e.bytes == w.bytes(e.exhausted, e.prompt, remaining) <= limit
    && Fits(w, e.exhausted, remaining, limit, e.transcript, e.prompt)
  }

  /** Every event follows the rules given the events before it: tools are only called
      while they are left, in answer to a request, and nothing follows the request made
      when they were exhausted. */
  ghost predicate Orderly(w: World, maxCalls: nat, limit: nat, log: seq<Event>)
  {
    && (forall i | 0 <= i < |log| && log[i].Sent? ::
      ProperRequest(w, maxCalls, limit, log[..i], log[i]) && (log[i].exhausted ==> i == |log| - 1))
    && (forall i | 0 <= i < |log| && log[i].Called? :: !Exhausted(w, maxCalls, log[..i]) && i > 0 && log[i - 1].Sent?)
  }

  const MALFORMED := "{\"error\":\"malformed tool request: name string and arguments object required\",\"ok\":false}"

  /** The reply to the last request in the log. */
  function Replied(w: World, log: seq<Event>): Reply
    requires TurnCount(log) > 0
  {
    w.reply(TurnCount(log) - 1)
  }

  /** What a turn leaves in the transcript: the reply, and the tool's result in full. */
  ghost predicate Recorded(w: World, log: seq<Event>, transcript: Transcript)
  {
    && (forall i | 0 <= i < |log| && log[i].Sent? ::
      TurnCount(log[..i]) <= |transcript| && log[i].transcript == transcript[..TurnCount(log[..i])])
    && (forall i | 0 <= i < |log| && log[i].Called? :: CallRecorded(w, log[..i], log[i].result, transcript))
    && (forall t | 0 <= t < |transcript| :: EntryProper(w, t, transcript[t]))
  }

  /** The call is the one requested in the last turn, and its result is in the transcript. */
  ghost predicate CallRecorded(w: World, before: seq<Event>, result: string, transcript: Transcript)
  {
    && 0 < TurnCount(before) <= |transcript|
    && Replied(w, before).Tool? && Replied(w, before).request.Some?
    && result == w.execute(CallCount(before), Replied(w, before).request.value.0, Replied(w, before).request.value.1)
    && transcript[TurnCount(before) - 1].result == Some(result)
  }

  predicate EntryProper(w: World, turn: nat, e: Entry)
  {
    && e.reply == w.reply(turn)
    && (e.reply.Blank? || e.reply.Tool?)
    && (e.reply.Blank? ==> e.result == None)
    && (e.reply == Tool(None) ==> e.result == Some(MALFORMED))
    && (e.reply.Tool? ==> e.result.Some?)
  }

  lemma CountGrows(log: seq<Event>, e: Event)
    ensures CallCount(log + [e]) == CallCount(log) + (if e.Called? then 1 else 0)
    ensures TurnCount(log + [e]) == TurnCount(log) + (if e.Called? then 0 else 1)
  {
    assert (log + [e])[..|log|] == log;
  }

  lemma DuplicatedGrows(w: World, log: seq<Event>, e: Event)
    ensures Duplicated(w, log + [e]) <==> Duplicated(w, log) || (e.Called? && w.duplicate(e.result))
  {
    assert forall x :: x in log + [e] <==> x in log || x == e;
  }

  lemma OrderlyGrows(w: World, maxCalls: nat, limit: nat, log: seq<Event>, e: Event)
    requires Orderly(w, maxCalls, limit, log)
    requires log != [] && log[|log| - 1].Sent? ==> !log[|log| - 1].exhausted
    requires e.Sent? ==> ProperRequest(w, maxCalls, limit, log, e)
    requires e.Called? ==> !Exhausted(w, maxCalls, log) && log != [] && log[|log| - 1].Sent?
    ensures Orderly(w, maxCalls, limit, log + [e])
  {
    hide ProperRequest, Exhausted;
    assert (log + [e])[..|log|] == log;
    assert forall i | 0 <= i < |log| :: (log + [e])[..i] == log[..i];
  }

  lemma RecordedSent(w: World, log: seq<Event>, transcript: Transcript, e: Event)
    requires Recorded(w, log, transcript) && e.Sent? && e.transcript == transcript && |transcript| == TurnCount(log)
    ensures Recorded(w, log + [e], transcript)
  {
    hide CallRecorded, EntryProper, TurnCount;
    assert (log + [e])[..|log|] == log;
    assert forall i | 0 <= i < |log| :: (log + [e])[..i] == log[..i];
    assert transcript[..|transcript|] == transcript;
  }

  lemma RecordedEntry(w: World, log: seq<Event>, transcript: Transcript, e: Entry)
    requires Recorded(w, log, transcript) && EntryProper(w, |transcript|, e)
    ensures Recorded(w, log, transcript + [e])
  {
    hide EntryProper, TurnCount, Replied;
    var longer := transcript + [e];
    assert forall n | 0 <= n <= |transcript| :: longer[..n] == transcript[..n];
  }

  lemma RecordedCall(w: World, log: seq<Event>, transcript: Transcript, result: string)
    requires Recorded(w, log, transcript) && CallRecorded(w, log, result, transcript)
    ensures Recorded(w, log + [Called(result)], transcript)
  {
    hide CallRecorded, EntryProper, TurnCount;
    var longer := log + [Called(result)];
    assert longer[..|log|] == log;
    assert forall i | 0 <= i < |log| :: longer[..i] == log[..i];
  }

  // ---------- one turn after the other ----------

  /** The state between turns. */
  ghost predicate Running(w: World, maxCalls: nat, limit: nat, log: seq<Event>, transcript: Transcript,
                          executed: nat, forceFinal: bool)
  {
    && Orderly(w, maxCalls, limit, log) && Recorded(w, log, transcript)
    && CallCount(log) == executed <= maxCalls && TurnCount(log) == |transcript|
    && (forceFinal <==> Duplicated(w, log))
    && (log != [] && log[|log| - 1].Sent? ==> !log[|log| - 1].exhausted)
  }

  lemma StartsRunning(w: World, maxCalls: nat, limit: nat)
    ensures Running(w, maxCalls, limit, [], [], 0, false)
  {
  }

  function Remaining(maxCalls: nat, executed: nat, forceFinal: bool): int
  {
    if forceFinal then 0 else maxCalls - executed
  }

  /** What holds once the request of a turn was sent. */
  ghost predicate Asked(w: World, maxCalls: nat, limit: nat, log: seq<Event>, transcript: Transcript,
                        executed: nat, forceFinal: bool)
  {
    && Orderly(w, maxCalls, limit, log) && Recorded(w, log, transcript)
    && CallCount(log) == executed <= maxCalls && TurnCount(log) == |transcript| + 1
    && (forceFinal <==> Duplicated(w, log))
    && log != [] && log[|log| - 1].Sent?
    && (log[|log| - 1].exhausted <==> executed >= maxCalls || forceFinal)
  }

  lemma SendingAsks(w: World, maxCalls: nat, limit: nat, log: seq<Event>, transcript: Transcript,
                    executed: nat, forceFinal: bool, e: Event)
    requires Running(w, maxCalls, limit, log, transcript, executed, forceFinal)
    requires e.Sent? && e.transcript == transcript && (e.exhausted <==> executed >= maxCalls || forceFinal)
    requires e.bytes == w.bytes(e.exhausted, e.prompt, Remaining(maxCalls, executed, forceFinal))
    requires Fits(w, e.exhausted, Remaining(maxCalls, executed, forceFinal), limit, transcript, e.prompt)
    ensures Asked(w, maxCalls, limit, log + [e], transcript, executed, forceFinal)
  {
    assert e.bytes <= limit;
    hide Orderly, Recorded, Duplicated, CallCount, TurnCount, Fits;
    OrderlyGrows(w, maxCalls, limit, log, e);
    RecordedSent(w, log, transcript, e);
    CountGrows(log, e);
    DuplicatedGrows(w, log, e);
  }

  /** A turn without a call. */
  lemma EntryRuns(w: World, maxCalls: nat, limit: nat, log: seq<Event>, transcript: Transcript,
                  executed: nat, forceFinal: bool, e: Entry)
    requires Asked(w, maxCalls, limit, log, transcript, executed, forceFinal)
    requires executed < maxCalls && !forceFinal && EntryProper(w, |transcript|, e)
    ensures Running(w, maxCalls, limit, log, transcript + [e], executed, forceFinal)
  {
    hide Orderly, Recorded, Duplicated, CallCount, TurnCount, EntryProper;
    RecordedEntry(w, log, transcript, e);
  }

  /** A turn with a call. */
  lemma CallRuns(w: World, maxCalls: nat, limit: nat, log: seq<Event>, transcript: Transcript, executed: nat,
                 request: (string, string), result: string)
    requires Asked(w, maxCalls, limit, log, transcript, executed, false)
    requires executed < maxCalls && w.reply(|transcript|) == Tool(Some(request))
    requires result == w.execute(executed, request.0, request.1)
    ensures Running(w, maxCalls, limit, log + [Called(result)], transcript + [Entry(Tool(Some(request)), Some(result))],
                    executed + 1, w.duplicate(result))
  {
    hide Orderly, Recorded, Duplicated, CallCount, TurnCount;
    var e, call := Entry(Tool(Some(request)), Some(result)), Called(result);
    RecordedEntry(w, log, transcript, e);
    assert CallRecorded(w, log, result, transcript + [e]);
    OrderlyGrows(w, maxCalls, limit, log, call);
    RecordedCall(w, log, transcript + [e], result);
    CountGrows(log, call);
    DuplicatedGrows(w, log, call);
  }

  /** One run of the protocol, whatever the model answers. */
  method RunJsonProtocol(w: World, maxCalls: nat, maxInput: nat, protocolLimit: nat)
    returns (outcome: Outcome, log: seq<Event>, transcript: Transcript)
    requires Hashes(w)
    ensures Orderly(w, maxCalls, if maxInput <= protocolLimit then maxInput else protocolLimit, log)
    ensures Recorded(w, log, transcript)
    ensures CallCount(log) <= maxCalls && TurnCount(log) <= maxCalls + 3
    ensures log != [] && log[|log| - 1].Sent? && log[|log| - 1].exhausted ==> outcome.Finished? || outcome.ResponseFailed?
    ensures outcome.Finished? ==>
      && TurnCount(log) > 0 && !Replied(w, log).Failed?
      && outcome.draft == (if Replied(w, log).Final? then Replied(w, log).content else w.raw(TurnCount(log) - 1))
    ensures outcome.TurnsExhausted? ==> TurnCount(log) == maxCalls + 3
  {
    hide Orderly, Recorded, Duplicated, Fits, TurnCount, CallCount;
    var limit := if maxInput <= protocolLimit then maxInput else protocolLimit;
    var executed, turns, forceFinal := 0, 0, false;
    log, transcript := [], [];
    StartsRunning(w, maxCalls, limit);
    while true
      invariant Running(w, maxCalls, limit, log, transcript, executed, forceFinal)
      invariant turns == |transcript| <= maxCalls + 3
      decreases maxCalls + 3 - turns
    {
      turns := turns + 1;
      if turns > maxCalls + 3 {
        return TurnsExhausted, log, transcript;
      }
      var exhausted := executed >= maxCalls || forceFinal;
      var remaining := Remaining(maxCalls, executed, forceFinal);
      var prompt := Fit(w, exhausted, remaining, limit, transcript);
      if prompt.None? {
        return CannotFit, log, transcript;
      }
      if w.expired(turns) {
        return OutOfTime, log, transcript;
      }
      var e := Sent(exhausted, w.bytes(exhausted, prompt.value, remaining), transcript, prompt.value);
      SendingAsks(w, maxCalls, limit, log, transcript, executed, forceFinal, e);
      log := log + [e];
      var reply := w.reply(turns - 1);
      if reply.Failed? {
        return ResponseFailed, log, transcript;
      }
      if reply.Prose? || (exhausted && !reply.Final?) {
        return Finished(w.raw(turns - 1)), log, transcript;
      }
      if reply.Final? {
        return Finished(reply.content), log, transcript;
      }
      if reply.Blank? || reply.request.None? {
        var entry := Entry(reply, if reply.Blank? then None else Some(MALFORMED));
        EntryRuns(w, maxCalls, limit, log, transcript, executed, forceFinal, entry);
        transcript := transcript + [entry];
      } else {
        var request := reply.request.value;
        var result := w.execute(executed, request.0, request.1);
        CallRuns(w, maxCalls, limit, log, transcript, executed, request, result);
        executed := executed + 1;
        forceFinal := forceFinal || w.duplicate(result);
        log := log + [Called(result)];
        transcript := transcript + [Entry(reply, Some(result))];
      }
    }
  }

  /** In an orderly log at most one event follows a duplicate result, and it is the last
      request, made without tools. */
  lemma AfterDuplicate(w: World, maxCalls: nat, limit: nat, log: seq<Event>, i: nat, j: nat)
    requires Orderly(w, maxCalls, limit, log) && i < j < |log|
    requires log[i].Called? && w.duplicate(log[i].result)
    ensures log[j].Sent? && log[j].exhausted && j == |log| - 1
  {
    assert log[i] in log[..j];
    assert Duplicated(w, log[..j]);
  }

  /** The same holds of the last call there is. */
  lemma AfterLastCall(w: World, maxCalls: nat, limit: nat, log: seq<Event>, j: nat)
    requires Orderly(w, maxCalls, limit, log) && j < |log|
    requires CallCount(log[..j]) >= maxCalls
    ensures log[j].Sent? && log[j].exhausted && j == |log| - 1
  {
  }
}
