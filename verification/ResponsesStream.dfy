/** The whole Responses stream: what a client can see of any run, accepted or not. */
module ResponsesStream {
  import opened Text
  import opened Tokens
  import opened Restoration
  import opened ResponsesProtocol
  import opened BufferedResponse
  import opened ResponsesInvariants
  import opened ResponsesRelease
  import opened ResponsesShown
  import opened ResponsesPlay
  import opened ResponsesMachine
  import opened Sequencing
  import F = ResponsesChecked

  /** What the SSE layer hands over: a comment frame, a decoded payload, or a frame it refused. */
  datatype Frame = Heartbeat | Payload(event: Event) | Broken

  datatype Output = KeepAlive | Sent(event: Event)

  function Bodies(outputs: seq<Output>): seq<Body> {
    if outputs == [] then []
    else (if outputs[0].Sent? then [outputs[0].event.body] else []) + Bodies(outputs[1..])
  }

  function Events(outputs: seq<Output>): seq<Event> {
    if outputs == [] then []
    else (if outputs[0].Sent? then [outputs[0].event] else []) + Events(outputs[1..])
  }

  function BodiesOf(events: seq<Event>): (r: seq<Body>)
    ensures |r| == |events| && forall k | 0 <= k < |r| :: r[k] == events[k].body
  {
    seq(|events|, k requires 0 <= k < |events| => events[k].body)
  }

  /** The numbers of the provider's events, in order. */
  function Numbers(frames: seq<Frame>): seq<Option<int>> {
    if frames == [] then []
    else (if frames[0].Payload? then [frames[0].event.sequence] else []) + Numbers(frames[1..])
  }

  lemma {:induction false} NumbersSnoc(frames: seq<Frame>, i: nat)
    requires i < |frames|
    ensures Numbers(frames[..i + 1]) == Numbers(frames[..i]) + (if frames[i].Payload? then [frames[i].event.sequence] else [])
    decreases i
  {
    if i == 0 {
      assert frames[..1] == [frames[0]] && [frames[0]][1..] == [];
    } else {
      assert frames[..i + 1][1..] == frames[1..][..i] && frames[..i][1..] == frames[1..][..i - 1];
      NumbersSnoc(frames[1..], i - 1);
    }
  }

  /** Numbers 0, 1, 2, ... without gaps, or no numbers at all. */
  ghost predicate Renumbered(events: seq<Event>) {
    || (forall k | 0 <= k < |events| :: events[k].sequence == Some(k))
    || (forall k | 0 <= k < |events| :: events[k].sequence == None)
  }

  lemma {:induction false} BodiesAppend(outputs: seq<Output>, last: Output)
    ensures Bodies(outputs + [last]) == Bodies(outputs) + (if last.Sent? then [last.event.body] else [])
  {
    if outputs == [] {
      assert outputs + [last] == [last] && [last][1..] == [];
    } else {
      assert (outputs + [last])[1..] == outputs[1..] + [last] && (outputs + [last])[0] == outputs[0];
      BodiesAppend(outputs[1..], last);
    }
  }

  lemma {:induction false} EventsAppend(outputs: seq<Output>, last: Output)
    ensures Events(outputs + [last]) == Events(outputs) + (if last.Sent? then [last.event] else [])
  {
    if outputs == [] {
      assert outputs + [last] == [last] && [last][1..] == [];
    } else {
      assert (outputs + [last])[1..] == outputs[1..] + [last] && (outputs + [last])[0] == outputs[0];
      EventsAppend(outputs[1..], last);
    }
  }

  lemma OutputsSnoc(outputs: seq<Output>, e: Event)
    ensures Bodies(outputs + [Sent(e)]) == Bodies(outputs) + [e.body]
    ensures Events(outputs + [Sent(e)]) == Events(outputs) + [e]
    ensures Bodies(outputs + [KeepAlive]) == Bodies(outputs)
    ensures Events(outputs + [KeepAlive]) == Events(outputs)
  {
    hide Bodies, Events;
    BodiesAppend(outputs, Sent(e));
    EventsAppend(outputs, Sent(e));
    BodiesAppend(outputs, KeepAlive);
    EventsAppend(outputs, KeepAlive);
  }

  lemma {:induction false} SameLength(outputs: seq<Output>)
    ensures |Events(outputs)| == |Bodies(outputs)|
  {
    if outputs != [] {
      SameLength(outputs[1..]);
    }
  }

  // ---------- What a client may rely on ----------

  /** Nothing executable is among the events that left before the provider's stream ended. */
  ghost predicate ProseOnly(streamed: seq<Output>) {
    forall b | b in Bodies(streamed) :: !IsToolBody(b)
  }

  /** The four events that announce one tool call, with the arguments the registry restored. */
  ghost predicate CallReleased(bodies: seq<Body>, k: int, call: Item, shown: Item, env: Environment) {
    && call.ToolCall? && env.tools(CallOf(call)).ToolRestored?
    && var arguments := env.tools(CallOf(call)).arguments;
    && exists start: Item ::
         && start.ToolCall? && start.id == call.id && start.callId == call.callId && start.name == call.name
         && start.custom == call.custom
         && About(bodies, k) == [ItemAdded(k, start), ArgsDelta(k, start.id, start.custom, arguments),
                                 ArgsDone(k, start.id, start.custom, arguments), ItemDone(k, shown)]
  }

  /** Everything a client sees of one part: announced, nonempty deltas, its whole text, its final form. */
  ghost predicate PartSeen(events: seq<Body>, text: string) {
    var n := |events|;
    && n >= 3 && events[0].PartAdded? && events[0].part.text == ""
    && (forall i | 1 <= i < n - 2 :: events[i].TextDelta? && events[i].delta != "")
    && events[n - 2].TextDone? && events[n - 2].text == text
    && events[n - 1].PartDone? && events[n - 1].part.text == text
  }

  /** Everything a client sees of an item besides its parts: that it starts and, last, what it became. */
  ghost predicate ItemSeen(events: seq<Body>, k: int, shown: Item) {
    exists start: Item :: !start.ToolCall? && start.id == shown.id && events == [ItemAdded(k, start), ItemDone(k, shown)]
  }

  /** Whatever becomes of the run, each part and item shows a beginning of its proper shape, and an end that was sent
      carries just the text whose deltas were sent. */
  ghost predicate WellShaped(bodies: seq<Body>) {
    && (exists items: seq<ItemState> :: ShownInv(items, bodies))
    && forall b | b in bodies :: ToldBy(b, bodies)
  }

  /** The executable events of the calls and, last, the completed response: nothing else. */
  ghost predicate OnlyCalls(released: seq<Body>, provider: Response) {
    forall b | b in released[..if released == [] then 0 else |released| - 1] ::
      IsToolBody(b) && 0 <= ToolIndex(b) < |provider.output| && provider.output[ToolIndex(b)].ToolCall?
  }

  ghost predicate CallsSeen(released: seq<Body>, provider: Response, shown: Response, env: Environment)
    requires |shown.output| == |provider.output|
  {
    forall k | 0 <= k < |provider.output| && provider.output[k].ToolCall? ::
      CallReleased(released, k, provider.output[k], shown.output[k], env)
  }

  /** The deltas of every part concatenate to the restoration of the provider's text for it, and the part has its shape. */
  ghost predicate ProseSeen(streamed: seq<Body>, provider: Response, env: Environment) {
    forall k, p | 0 <= k < |provider.output| && provider.output[k].Message? && 0 <= p < |provider.output[k].content| ::
      && Deltas(streamed, k, p) == Restored(provider.output[k].content[p].text, env.auth)
      && PartSeen(AboutPart(streamed, k, p), Restored(provider.output[k].content[p].text, env.auth))
  }

  ghost predicate ItemsSeen(streamed: seq<Body>, provider: Response, shown: Response)
    requires |shown.output| == |provider.output|
  {
    forall k | 0 <= k < |provider.output| && !provider.output[k].ToolCall? :: ItemSeen(AboutItem(streamed, k), k, shown.output[k])
  }

  /** An accepted run: `provider` is the response the provider completed, `shown` the one the client received. */
  ghost predicate Accepted(streamed: seq<Output>, released: seq<Event>, provider: Response, shown: Response,
                           counts: Tally, env: Environment) {
    && F.ResponseFits(provider, true, env)
    && AllShown(provider, shown, env)
    && counts == OutputShare(provider.output, env).counts
    && (Releasable(provider, env) <==>
          && env.responseSize(provider) <= env.maxOutputBytes
          && env.responseSize(RestoredResponse(provider, env)) <= env.maxOutputBytes)
    && released != [] && released[|released| - 1].body == Completed(shown)
    && |shown.output| == |provider.output|
    && CallsSeen(BodiesOf(released), provider, shown, env)
    && OnlyCalls(BodiesOf(released), provider)
    && ProseSeen(Bodies(streamed), provider, env)
    && ItemsSeen(Bodies(streamed), provider, shown)
  }

  lemma {:induction false} AboutOnly(bodies: seq<Body>, response: Response, k: int)
    ensures About(bodies + [Completed(response)], k) == About(bodies, k)
  {
    AboutAppend(bodies, [Completed(response)], k);
    assert [Completed(response)][1..] == [];
    assert About([Completed(response)], k) == [];
  }

  lemma CallAccepted(items: seq<ItemState>, pending: seq<Body>, sent: seq<Body>, ledger: Ledger,
                     provider: Response, shown: Response, env: Environment, k: nat)
    requires CompletedInv(items, pending, sent, ledger, provider, env)
    requires forall b | b in pending :: IsToolBody(b) && 0 <= ToolIndex(b) < |items|
    requires k < |items| == |provider.output| && provider.output[k].ToolCall?
    ensures CallReleased(ReleaseAll(pending, items, {}) + [Completed(shown)], k, provider.output[k], Snapshots(items)[k], env)
  {
    hide CompletedInv, ReleaseAll, About, ItemSnapshot, IsToolBody;
    ToolsReleasedOnce(items, pending, sent, ledger, provider, env, k);
    AboutOnly(ReleaseAll(pending, items, {}), shown, k);
    CallStart(items[k], k);
  }

  lemma CallStart(s: ItemState, k: int)
    requires s.raw.ToolCall?
    ensures ToolEvents(s, k) == [ItemAdded(k, s.raw), ArgsDelta(k, s.raw.id, s.raw.custom, s.restored),
                                 ArgsDone(k, s.raw.id, s.raw.custom, s.restored), ItemDone(k, ItemSnapshot(s, true))]
  {
  }

  /** A completed item's part has gone through its whole shape. */
  lemma PartComplete(items: seq<ItemState>, pending: seq<Body>, sent: seq<Body>, ledger: Ledger, provider: Response,
                     env: Environment, k: nat, p: nat)
    requires CompletedInv(items, pending, sent, ledger, provider, env) && ShownInv(items, sent)
    requires k < |provider.output| && provider.output[k].Message? && p < |provider.output[k].content|
    ensures PartSeen(AboutPart(sent, k, p), Restored(provider.output[k].content[p].text, env.auth))
  {
    hide HeldInv, SentInv, Prose, Tools, CheckResponse, StateCalls, Restored, AboutPart, AboutItem, Confirms;
    assert ItemCompleted(provider.output[k], items[k], env);
    ItemRefines(provider.output[k], items[k], env);
    DoneParts(provider.output[k], items[k], env, p);
    assert PartShape(AboutPart(sent, k, p), k, items[k].raw.id, p, items[k].parts[p]);
    hide ItemCompleted;
    WholeShape(AboutPart(sent, k, p), k, items[k].raw.id, p, items[k].parts[p]);
  }

  lemma DoneParts(item: Item, s: ItemState, env: Environment, p: nat)
    requires ItemCompleted(item, s, env) && p < |s.parts|
    ensures s.parts[p].done && s.parts[p].buffer.closed
  {
    hide Confirms;
    assert PartInv(s.parts[p], env.auth);
  }

  lemma WholeShape(events: seq<Body>, k: int, id: string, p: int, part: PartState)
    requires PartShape(events, k, id, p, part) && part.done
    ensures PartSeen(events, part.buffer.text)
  {
  }

  lemma ItemComplete(items: seq<ItemState>, pending: seq<Body>, sent: seq<Body>, ledger: Ledger, provider: Response,
                     env: Environment, k: nat)
    requires CompletedInv(items, pending, sent, ledger, provider, env) && ShownInv(items, sent)
    requires k < |provider.output| && !provider.output[k].ToolCall?
    ensures ItemSeen(AboutItem(sent, k), k, Snapshots(items)[k])
  {
    hide HeldInv, SentInv, Prose, Tools, CheckResponse, StateCalls, AboutPart, AboutItem, Confirms, PartShape;
    assert ItemCompleted(provider.output[k], items[k], env);
    ItemRefines(provider.output[k], items[k], env);
    SnapshotId(items[k], provider.output[k], env);
    assert ItemShape(AboutItem(sent, k), k, items[k]);
  }

  lemma SnapshotId(s: ItemState, item: Item, env: Environment)
    requires ItemCompleted(item, s, env)
    ensures s.done && ItemSnapshot(s, true).id == s.raw.id
  {
    hide Confirms, PartInv;
  }

  lemma AllCalls(m: Responses, provider: Response, bodies: seq<Body>)
    requires m.CompletedBy(provider, bodies)
    ensures |m.items| == |provider.output|
    ensures CallsSeen(bodies, provider, provider.(output := Snapshots(m.items)), m.env)
    ensures OnlyCalls(bodies, provider)
  {
    hide ReleaseAll, CallReleased, IsToolBody;
    CompletedCalls(m.items, m.pending, m.sent, Ledger(m.counts, m.restoredBytes), provider, m.env);
    assert bodies[..|bodies| - 1] == ReleaseAll(m.pending, m.items, {});
    var shown := provider.(output := Snapshots(m.items));
    var ledger := Ledger(m.counts, m.restoredBytes);
    CompletedLength(m.items, m.pending, m.sent, ledger, provider, m.env);
    hide CompletedInv;
    forall k | 0 <= k < |provider.output| && provider.output[k].ToolCall?
      ensures CallReleased(bodies, k, provider.output[k], shown.output[k], m.env)
    {
      CallAccepted(m.items, m.pending, m.sent, ledger, provider, shown, m.env, k);
    }
  }

  lemma CompletedLength(items: seq<ItemState>, pending: seq<Body>, sent: seq<Body>, ledger: Ledger, provider: Response, env: Environment)
    requires CompletedInv(items, pending, sent, ledger, provider, env)
    ensures |items| == |provider.output|
  {
  }

  lemma CompletedFits(items: seq<ItemState>, pending: seq<Body>, sent: seq<Body>, ledger: Ledger, provider: Response, env: Environment)
    requires CompletedInv(items, pending, sent, ledger, provider, env)
    ensures F.ResponseFits(provider, true, env)
  {
    F.ResponseExactly(provider, true, env);
    hide CheckResponse, F.ResponseFits, ItemCompleted;
  }

  lemma AllProse(items: seq<ItemState>, pending: seq<Body>, sent: seq<Body>, ledger: Ledger, provider: Response, env: Environment)
    requires CompletedInv(items, pending, sent, ledger, provider, env) && ShownInv(items, sent)
    ensures ProseSeen(sent, provider, env)
    ensures |items| == |provider.output| && ItemsSeen(sent, provider, provider.(output := Snapshots(items)))
  {
    CompletedLength(items, pending, sent, ledger, provider, env);
    hide CompletedInv, ShownInv, PartSeen, ItemSeen, AboutPart, AboutItem, Deltas, Restored;
    forall k, p | 0 <= k < |provider.output| && provider.output[k].Message? && 0 <= p < |provider.output[k].content|
      ensures Deltas(sent, k, p) == Restored(provider.output[k].content[p].text, env.auth)
      ensures PartSeen(AboutPart(sent, k, p), Restored(provider.output[k].content[p].text, env.auth))
    {
      ProseReleased(items, pending, sent, ledger, provider, env, k, p);
      PartComplete(items, pending, sent, ledger, provider, env, k, p);
    }
    forall k | 0 <= k < |provider.output| && !provider.output[k].ToolCall?
      ensures ItemSeen(AboutItem(sent, k), k, Snapshots(items)[k])
    {
      ItemComplete(items, pending, sent, ledger, provider, env, k);
    }
  }

  /** The machine's final state means the client's guarantees. */
  lemma AcceptedRun(m: Responses, streamed: seq<Output>, released: seq<Event>, provider: Response, bodies: seq<Body>)
    requires m.CompletedBy(provider, bodies) && ShownInv(m.items, m.sent)
    requires Bodies(streamed) == m.sent && BodiesOf(released) == bodies
    ensures Accepted(streamed, released, provider, provider.(output := Snapshots(m.items)), m.counts, m.env)
  {
    hide CompletedInv, ShownInv, ReleaseAll, OutputShare, RestoredResponse, Releasable, AllShown;
    hide CallsSeen, ProseSeen, ItemsSeen, IsToolBody, OnlyCalls, F.ResponseFits;
    AllCalls(m, provider, bodies);
    AllProse(m.items, m.pending, m.sent, Ledger(m.counts, m.restoredBytes), provider, m.env);
    StreamingRefinesBuffering(m.items, m.pending, m.sent, Ledger(m.counts, m.restoredBytes), provider, m.env);
    CompletedFits(m.items, m.pending, m.sent, Ledger(m.counts, m.restoredBytes), provider, m.env);
    assert released[|released| - 1].body == bodies[|bodies| - 1];
  }

  // ---------- Which streams are accepted ----------

  function Follow(s: Stage, frame: Frame, env: Environment): Stage {
    if !s.Open? || frame.Broken? then Refused
    else if frame.Heartbeat? then s
    else Proceed(s, frame.event, env)
  }

  /** Where a stream gets to, frame by frame. */
  function Plays(s: Stage, frames: seq<Frame>, env: Environment): Stage
    decreases |frames|
  {
    if frames == [] then s else Plays(Follow(s, frames[0], env), frames[1..], env)
  }

  lemma PlaysOn(s: Stage, frames: seq<Frame>, i: nat, env: Environment)
    requires i < |frames|
    ensures Plays(s, frames[i..], env) == Plays(Follow(s, frames[i], env), frames[i + 1..], env)
  {
    hide Follow;
    assert frames[i..][1..] == frames[i + 1..];
  }

  lemma {:induction false} RefusedStays(frames: seq<Frame>, env: Environment)
    ensures Plays(Refused, frames, env) == Refused
    decreases |frames|
  {
    if frames != [] {
      RefusedStays(frames[1..], env);
    }
  }

  /** Where the machine is. */
  ghost function StageOf(m: Responses): Stage
    reads m
  {
    if m.terminal then Complete else Open(m.View())
  }

  // ---------- The loop ----------

  /** Encodes a batch of bodies in order; each takes the next number. */
  method EncodeAll(m: Responses, bodies: seq<Body>, ghost before: seq<Event>) returns (events: seq<Event>)
    requires NumberedSoFar(before, m.sequenced, m.emitSequence)
    modifies m`emitSequence
    ensures BodiesOf(events) == bodies
    ensures NumberedSoFar(before + events, m.sequenced, m.emitSequence)
  {
    events := [];
    var k := 0;
    while k < |bodies|
      invariant 0 <= k == |events| <= |bodies|
      invariant forall j | 0 <= j < k :: events[j].body == bodies[j]
      invariant NumberedSoFar(before + events, m.sequenced, m.emitSequence)
    {
      var event := m.Encode(bodies[k]);
      assert before + (events + [event]) == (before + events) + [event];
      events := events + [event];
      k := k + 1;
    }
    assert BodiesOf(events) == bodies;
  }

  predicate NumberedSoFar(events: seq<Event>, sequenced: bool, next: nat) {
    && next == (if sequenced then |events| else 0)
    && forall k | 0 <= k < |events| :: events[k].sequence == if sequenced then Some(k) else None
  }

  /** What holds between frames while the run is still open. */
  ghost predicate Running(m: Responses, streamed: seq<Output>)
    reads m
  {
    && m.Valid()
    && Bodies(streamed) == m.sent
    && NumberedSoFar(Events(streamed), m.sequenced, m.emitSequence)
  }

  /** What holds once the provider has completed its response; the last events still wait. */
  ghost predicate Finished(m: Responses, streamed: seq<Output>, last: Frame, terminal: seq<Body>)
    reads m
  {
    && m.terminal && last.Payload? && last.event.body.Completed?
    && Bodies(streamed) == m.sent
    && m.CompletedBy(last.event.body.response, terminal) && ShownInv(m.items, m.sent)
    && NumberedSoFar(Events(streamed), m.sequenced, m.emitSequence)
  }

  /** Nothing executable, and every part and item in its shape so far. */
  ghost predicate ClientSafe(streamed: seq<Output>) { ProseOnly(streamed) && WellShaped(Bodies(streamed)) }

  /** One frame: yielded on at once while the run is open; kept back when it completes the run. */
  method TakeFrame(m: Responses, frame: Frame, streamed: seq<Output>)
    returns (now: seq<Output>, terminal: seq<Body>, bad: Option<Error>)
    requires !m.terminal ==> Running(m, streamed)
    modifies m
    ensures bad.Some? ==> now == streamed && Follow(old(StageOf(m)), frame, m.env) == Refused
    ensures bad.None? ==> !old(m.terminal) && !frame.Broken? && StageOf(m) == Follow(old(StageOf(m)), frame, m.env)
    ensures bad.None? && !m.terminal ==> Running(m, now) && ClientSafe(now)
    ensures bad.None? && m.terminal ==> now == streamed && Finished(m, now, frame, terminal)
    ensures bad.None? && frame.Payload? ==> m.InStep(frame.event)
    ensures bad.None? && !frame.Payload? ==> m.sequenceMode == old(m.sequenceMode) && m.sequence == old(m.sequence)
  {
    hide RunInv, ShownInv, CompletedInv, ReleaseAll, WellShaped, ProseOnly, Control.Accepts, Control.Next;
    now, terminal := streamed, [];
    if frame.Broken? || m.terminal {
      return now, terminal, Some(InvalidStream);
    }
    if frame.Heartbeat? {
      OutputsSnoc(streamed, Event(None, Failed));
      now := streamed + [KeepAlive];
      Safe(m, now);
      return now, terminal, None;
    }
    SameLength(streamed);
    var r := m.Handle(frame.event);
    if r.Err? {
      return now, terminal, Some(r.error);
    }
    if m.terminal {
      terminal := r.value;
    } else {
      now := Yield(m, streamed, r.value);
    }
    return now, terminal, None;
  }

  lemma Safe(m: Responses, streamed: seq<Output>)
    requires m.Valid() && Bodies(streamed) == m.sent
    ensures ClientSafe(streamed)
  {
    hide RunInv, ShownInv;
    SentIsProse(m);
    SentMatches(m);
    Shaped(m.items, m.sent);
  }

  /** The provider's stream from its first frame to its last; `released` leaves only after all of it was accepted. */
  method RestoreStream(env: Environment, frames: seq<Frame>)
    returns (streamed: seq<Output>, released: seq<Event>, status: Result<Tally, Error>)
    ensures ClientSafe(streamed)
    ensures Renumbered(Events(streamed) + released)
    ensures status.Ok? <==> Plays(Open(OPENING), frames, env) == Complete
    ensures status.Err? ==> released == []
    ensures status.Ok? ==> InSequence(Numbers(frames))
    ensures status.Ok? ==>
              && frames != []
              && var last := frames[|frames| - 1];
              && last.Payload? && last.event.body.Completed?
              && exists shown :: Accepted(streamed, released, last.event.body.response, shown, status.value, env)
  {
    hide Accepted, ClientSafe, RunInv, CompletedInv, ShownInv, Seen, InSequence, Renumbered, Follow, Plays;
    var m := new Responses(env);
    streamed, released := [], [];
    NothingSeen();
    Safe(m, streamed);
    var terminal: seq<Body> := [];
    var i := 0;
    assert frames[0..] == frames;
    while i < |frames|
      invariant 0 <= i <= |frames|
      invariant fresh(m) && m.env == env
      invariant ClientSafe(streamed) && NumberedSoFar(Events(streamed), m.sequenced, m.emitSequence)
      invariant Seen(Numbers(frames[..i]), m.sequenceMode, m.sequence)
      invariant !m.terminal ==> Running(m, streamed)
      invariant m.terminal ==> i > 0 && Finished(m, streamed, frames[i - 1], terminal)
      invariant Plays(Open(OPENING), frames, env) == Plays(StageOf(m), frames[i..], env)
    {
      NumbersSnoc(frames, i);
      PlaysOn(StageOf(m), frames, i, env);
      ghost var mode, last, sequenced, next := m.sequenceMode, m.sequence, m.sequenced, m.emitSequence;
      var bad;
      streamed, terminal, bad := TakeFrame(m, frames[i], streamed);
      if bad.Some? {
        RefusedStays(frames[i + 1..], env);
        NumbersDone(Events(streamed), [], sequenced, next);
        return streamed, [], Err(bad.value);
      }
      NextNumber(frames, i, mode, last, m.sequenceMode, m.sequence);
      i := i + 1;
    }
    PlayedOut(StageOf(m), frames[i..], env);
    if !m.terminal {
      NumbersDone(Events(streamed), [], m.sequenced, m.emitSequence);
      return streamed, [], Err(TruncatedStream);
    }
    assert frames[..i] == frames;
    SeenInSequence(Numbers(frames), m.sequenceMode, m.sequence);
    released := SendLast(m, streamed, frames[i - 1], terminal);
    return streamed, released, Ok(m.counts);
  }

  lemma PlayedOut(s: Stage, rest: seq<Frame>, env: Environment)
    requires rest == []
    ensures Plays(s, rest, env) == s
  {
  }

  /** The events that waited for the end of the run. */
  method SendLast(m: Responses, streamed: seq<Output>, last: Frame, terminal: seq<Body>) returns (released: seq<Event>)
    requires Finished(m, streamed, last, terminal)
    modifies m`emitSequence
    ensures Renumbered(Events(streamed) + released)
    ensures exists shown :: Accepted(streamed, released, last.event.body.response, shown, m.counts, m.env)
  {
    hide Accepted, CompletedInv, ShownInv, ReleaseAll, Renumbered;
    released := EncodeAll(m, terminal, Events(streamed));
    NumbersDone(Events(streamed), released, m.sequenced, m.emitSequence);
    AcceptedRun(m, streamed, released, last.event.body.response, terminal);
  }

  lemma NumbersDone(streamed: seq<Event>, released: seq<Event>, sequenced: bool, next: nat)
    requires NumberedSoFar(streamed + released, sequenced, next) || (released == [] && NumberedSoFar(streamed, sequenced, next))
    ensures Renumbered(streamed + released)
  {
    assert streamed + [] == streamed;
  }

  lemma NextNumber(frames: seq<Frame>, i: nat, mode: Option<bool>, last: int, mode': Option<bool>, last': int)
    requires i < |frames| && !frames[i].Broken? && Seen(Numbers(frames[..i]), mode, last)
    requires Numbers(frames[..i + 1]) == Numbers(frames[..i]) + (if frames[i].Payload? then [frames[i].event.sequence] else [])
    requires frames[i].Payload? ==>
               var n := frames[i].event.sequence;
               && mode' == Some(n.Some?) && (mode.Some? ==> mode' == mode)
               && if n.Some? then n.value > last && last' == n.value else last' == last
    requires !frames[i].Payload? ==> mode' == mode && last' == last
    ensures Seen(Numbers(frames[..i + 1]), mode', last')
  {
    hide Seen, Numbers;
    if frames[i].Payload? {
      SeenNext(Numbers(frames[..i]), mode, last, frames[i].event.sequence, last');
    } else {
      assert Numbers(frames[..i]) + [] == Numbers(frames[..i]);
    }
  }

  lemma NothingSeen()
    ensures Seen([], None, -1)
  {
  }

  lemma Shaped(items: seq<ItemState>, bodies: seq<Body>)
    requires ShownInv(items, bodies) && SentInv(items, bodies)
    ensures WellShaped(bodies)
  {
    hide ShownInv, SentInv, ToldBy;
    forall b | b in bodies
      ensures ToldBy(b, bodies)
    {
      EndsTell(items, bodies, b);
    }
  }

  /** Yields a step's events as they come. */
  method Yield(m: Responses, streamed: seq<Output>, bodies: seq<Body>) returns (now: seq<Output>)
    requires m.Valid() && m.sent == Bodies(streamed) + bodies
    requires NumberedSoFar(Events(streamed), m.sequenced, m.emitSequence)
    modifies m`emitSequence
    ensures Running(m, now) && ClientSafe(now)
  {
    hide RunInv, ShownInv, ClientSafe, Bodies, Events;
    now := streamed;
    var k := 0;
    while k < |bodies|
      invariant 0 <= k <= |bodies|
      invariant m.Valid() && m.sent == old(m.sent)
      invariant Bodies(now) == Bodies(streamed) + bodies[..k]
      invariant NumberedSoFar(Events(now), m.sequenced, m.emitSequence)
    {
      var event := m.Encode(bodies[k]);
      OutputsSnoc(now, event);
      now := now + [Sent(event)];
      assert bodies[..k + 1] == bodies[..k] + [bodies[k]];
      k := k + 1;
    }
    assert bodies[..k] == bodies;
    Safe(m, now);
  }

  lemma SentIsProse(m: Responses)
    requires m.Valid()
    ensures forall b | b in m.sent :: !IsToolBody(b)
  {
    hide ItemsInv, HeldInv, Prose, Deltas;
  }

  lemma SentMatches(m: Responses)
    requires m.Valid()
    ensures SentInv(m.items, m.sent)
  {
    hide ItemsInv, HeldInv, Prose, SentInv, ShownInv;
  }
}
