/** What each accepted event does to a Messages run, and why everything the run keeps survives it. */
module MessagesSteps {
  import opened Text
  import opened Tokens
  import opened Restoration
  import opened TokenStream
  import opened MessagesProtocol
  import opened MessagesInvariants
  import opened MessagesRelease

  /** What the stop explanation has added to the counters. */
  function Extra(received: seq<Body>, auth: Authority): Tally {
    if StopIn(received).Some? then StopTally(StopIn(received).value, auth) else NOTHING
  }

  ghost predicate CallsKnown(blocks: seq<BlockState>, calls: set<string>) {
    forall k | 0 <= k < |blocks| && blocks[k].raw.ToolUse? :: blocks[k].raw.id in calls
  }

  /** The two ends of the message: opened at most once; its stop known once it is done, and every block done by then. */
  ghost predicate EndsInv(started: bool, messageDone: bool, messageDelta: Option<Body>, calls: set<string>,
                          blocks: seq<BlockState>, received: seq<Body>, auth: Authority) {
    && started == OpenedBy(received).Some?
    && messageDone == messageDelta.Some? == StopIn(received).Some?
    && CallsKnown(blocks, calls)
    && (messageDone ==>
          && messageDelta.value.MessageDelta?
          && messageDelta.value.stop == RestoreStop(StopIn(received).value, auth)
          && (forall k | 0 <= k < |blocks| :: blocks[k].done)
          && (calls != {} ==> StopIn(received).value.reason == "tool_use"))
  }

  /** Everything counted so far: the text released, and the stop explanation. */
  ghost predicate CountsInv(counts: Tally, blocks: seq<BlockState>, received: seq<Body>, auth: Authority) {
    counts == ProseTally(blocks).Plus(Extra(received, auth))
  }

  /** The part of the machine's state that the properties speak of. */
  datatype Run = Run(
    started: bool,
    done: bool,
    delta: Option<Body>,
    calls: set<string>,
    blocks: seq<BlockState>,
    held: seq<Body>,
    counts: Tally,
    received: seq<Body>,
    sent: seq<Body>
  ) {
    function Started(raw: Block): Run {
      var e := BlockStart(|blocks|, raw);
      Run(started, done, delta, if raw.ToolUse? then calls + {raw.id} else calls,
          blocks + [BlockState(raw, false, [], OPENED, "")], if raw.ToolUse? then held + [e] else held, counts,
          received + [e], if raw.ToolUse? then sent else sent + [e])
    }

    /** An event that belongs to no block is passed on. */
    function Passed(b: Body): Run {
      Run(started || b.MessageStart?, done, delta, calls, blocks, held, counts, received + [b], sent + [b])
    }

    /** Prose takes a delta, or stops; what it releases goes out. */
    function Texted(k: nat, value: string, final: bool, auth: Authority): Run
      requires k < |blocks|
    {
      var e := if final then BlockStop(k) else TextDelta(k, value);
      Run(started, done, delta, calls, blocks[k := Fed(blocks[k], value, final, auth)], held,
          counts.Plus(blocks[k].buffer.Share(value, final, auth)), received + [e],
          sent + TextOut(blocks[k], k, value, final, auth))
    }

    /** A call takes a fragment, or stops; the event is held. */
    function Called(k: nat, e: Body): Run
      requires k < |blocks| && (e.BlockStop? || e.JsonDelta?)
    {
      Run(started, done, delta, calls, blocks[k := Taken(blocks[k], e)], held + [e], counts, received + [e], sent)
    }

    /** The stop closes the message; its explanation is restored and counted. */
    function Closed(b: Body, auth: Authority): Run
      requires b.MessageDelta?
    {
      Run(started, true, Some(MessageDelta(RestoreStop(b.stop, auth), b.usage)), calls, blocks, held,
          counts.Plus(StopTally(b.stop, auth)), received + [b], sent)
    }
  }

  ghost predicate Keeps(r: Run, auth: Authority) {
    && RunInv(r.blocks, r.received, r.sent, r.held, auth)
    && EndsInv(r.started, r.done, r.delta, r.calls, r.blocks, r.received, auth)
    && CountsInv(r.counts, r.blocks, r.received, auth)
  }

  lemma KeepsNew(auth: Authority)
    ensures Keeps(Run(false, false, None, {}, [], [], NOTHING, [], []), auth)
  {
    hide RunInv, EndsInv, CountsInv;
    RunStarts(auth);
    EndsStart(auth);
  }

  /** An event that belongs to no block and ends nothing is passed on as it is. */
  lemma KeepsPass(r: Run, b: Body, auth: Authority)
    requires Keeps(r, auth) && (b.Ping? || (b.MessageStart? && !r.started))
    ensures Keeps(r.Passed(b), auth)
  {
    hide RunInv, RestoreStop, StopTally, ProseTally, Tally.Plus, CallsKnown, OpenedBy, StopIn, AllAbout;
    PassHead(r.received, b);
    RunPass(r.blocks, r.received, r.sent, r.held, auth, b, [b]);
    assert r.held + [] == r.held;
  }

  /** A block is announced: prose is passed on, a call is held. */
  lemma KeepsStart(r: Run, raw: Block, auth: Authority)
    requires Keeps(r, auth) && !r.done && (raw.TextBlock? ==> raw.text == "")
    ensures Keeps(r.Started(raw), auth)
  {
    hide RunInv, EndsInv, CountsInv;
    var k, b := |r.blocks|, BlockState(raw, false, [], OPENED, "");
    assert r.sent + [] == r.sent && r.held + [] == r.held;
    BlockStarts(r, raw, auth);
    var known := if raw.ToolUse? then r.calls + {raw.id} else r.calls;
    EndsOpen(r, BlockStart(k, raw), known, r.blocks + [b], auth);
    BlockCounts(r.blocks, b, r.counts, r.received, BlockStart(k, raw), auth);
  }

  lemma BlockStarts(r: Run, raw: Block, auth: Authority)
    requires RunInv(r.blocks, r.received, r.sent, r.held, auth) && (raw.TextBlock? ==> raw.text == "")
    ensures var k := |r.blocks|;
            var e := [BlockStart(k, raw)];
            RunInv(r.blocks + [BlockState(raw, false, [], OPENED, "")], r.received + e,
                   r.sent + (if raw.TextBlock? then e else []), r.held + (if raw.TextBlock? then [] else e), auth)
  {
    hide RunInv, BlockInv, About, AllAbout, Announced;
    var k, b := |r.blocks|, BlockState(raw, false, [], OPENED, "");
    var e := [BlockStart(k, raw)];
    BeyondIsEmpty(r.blocks, r.received, r.sent, r.held, auth);
    StartsBlock(raw, k, auth);
    RunTouch(r.blocks, r.received, r.sent, r.held, auth, k, b, e,
             if raw.TextBlock? then e else [], if raw.TextBlock? then [] else e);
  }

  lemma BeyondIsEmpty(blocks: seq<BlockState>, received: seq<Body>, sent: seq<Body>, held: seq<Body>, auth: Authority)
    requires RunInv(blocks, received, sent, held, auth)
    ensures About(received, |blocks|) == About(sent, |blocks|) == About(held, |blocks|) == []
  {
    hide BlocksInv, HeldOk, HeadInv, About;
  }

  lemma BlockAt(blocks: seq<BlockState>, received: seq<Body>, sent: seq<Body>, held: seq<Body>, auth: Authority, k: nat)
    requires RunInv(blocks, received, sent, held, auth) && k < |blocks|
    ensures BlockInv(blocks[k], k, About(received, k), About(sent, k), About(held, k), auth)
  {
    hide BlockInv, HeldOk, HeadInv, About, NothingBeyond;
  }

  /** What prose releases for one delta, or at its stop. */
  function TextOut(b: BlockState, k: nat, value: string, final: bool, auth: Authority): seq<Body> {
    var text := b.buffer.Feed(value, final, auth).1;
    if text == "" then if final then [BlockStop(k)] else []
    else if final then [TextDelta(k, text), BlockStop(k)] else [TextDelta(k, text)]
  }

  /** Prose takes a delta, or stops. */
  lemma KeepsText(r: Run, k: nat, value: string, final: bool, auth: Authority)
    requires Keeps(r, auth) && !r.done && k < |r.blocks| && r.blocks[k].raw.TextBlock? && !r.blocks[k].done
    requires final ==> value == ""
    ensures Keeps(r.Texted(k, value, final, auth), auth)
  {
    hide RunInv, EndsInv, CountsInv, Buffer.Feed, Buffer.Share, TextOut, Extra, Tally.Plus;
    var b := r.blocks[k];
    var e := if final then BlockStop(k) else TextDelta(k, value);
    TextRuns(r, k, value, final, auth);
    EndsOpen(r, e, r.calls, r.blocks[k := Fed(b, value, final, auth)], auth);
    CountsFeed(r.blocks, k, value, final, auth, r.counts, r.received, e);
    assert r.held + [] == r.held;
  }

  lemma TextRuns(r: Run, k: nat, value: string, final: bool, auth: Authority)
    requires RunInv(r.blocks, r.received, r.sent, r.held, auth)
    requires k < |r.blocks| && r.blocks[k].raw.TextBlock? && !r.blocks[k].done && (final ==> value == "")
    ensures var e := if final then BlockStop(k) else TextDelta(k, value);
            RunInv(r.blocks[k := Fed(r.blocks[k], value, final, auth)], r.received + [e],
                   r.sent + TextOut(r.blocks[k], k, value, final, auth), r.held, auth)
  {
    hide RunInv, BlockInv, About, Buffer.Feed, Announced, AllAbout;
    var b := r.blocks[k];
    BlockAt(r.blocks, r.received, r.sent, r.held, auth, k);
    var e := if final then BlockStop(k) else TextDelta(k, value);
    if final {
      StopsProse(b, k, About(r.received, k), About(r.sent, k), About(r.held, k), auth);
    } else {
      FeedsBlock(b, k, About(r.received, k), About(r.sent, k), About(r.held, k), auth, value);
    }
    var out := TextOut(b, k, value, final, auth);
    var (after, text) := b.buffer.Feed(value, final, auth);
    assert final ==> out == (if text == "" then [] else [TextDelta(k, text)]) + [BlockStop(k)];
    assert About(r.held, k) + [] == About(r.held, k) && r.held + [] == r.held;
    Quiet([e], k);
    Quiet(out, k);
    Quiet([], k);
    RunTouch(r.blocks, r.received, r.sent, r.held, auth, k, Fed(b, value, final, auth), [e], out, []);
  }

  function Taken(b: BlockState, e: Body): BlockState
    requires e.BlockStop? || e.JsonDelta?
  {
    if e.BlockStop? then b.(done := true) else b.(chunks := b.chunks + [e.partial])
  }

  /** A call takes a fragment of its arguments, or stops: both are held. */
  lemma KeepsCall(r: Run, k: nat, e: Body, auth: Authority)
    requires Keeps(r, auth) && !r.done && k < |r.blocks| && r.blocks[k].raw.ToolUse? && !r.blocks[k].done
    requires (e.BlockStop? || e.JsonDelta?) && e.index == k
    ensures Keeps(r.Called(k, e), auth)
  {
    hide RunInv, EndsInv, CountsInv;
    var after := Taken(r.blocks[k], e);
    CallRuns(r, k, e, auth);
    EndsOpen(r, e, r.calls, r.blocks[k := after], auth);
    SameTally(r.blocks, k, after, r.counts, r.received, e, auth);
    assert r.sent + [] == r.sent;
  }

  lemma CallRuns(r: Run, k: nat, e: Body, auth: Authority)
    requires RunInv(r.blocks, r.received, r.sent, r.held, auth)
    requires k < |r.blocks| && r.blocks[k].raw.ToolUse? && !r.blocks[k].done
    requires (e.BlockStop? || e.JsonDelta?) && e.index == k
    ensures RunInv(r.blocks[k := Taken(r.blocks[k], e)], r.received + [e], r.sent, r.held + [e], auth)
  {
    hide RunInv, BlockInv, About, Announced, AllAbout;
    var b := r.blocks[k];
    BlockAt(r.blocks, r.received, r.sent, r.held, auth, k);
    if e.BlockStop? {
      StopsCall(b, k, About(r.received, k), About(r.sent, k), About(r.held, k), auth);
    } else {
      HoldsFragment(b, k, About(r.received, k), About(r.sent, k), About(r.held, k), auth, e.partial);
    }
    assert About(r.sent, k) + [] == About(r.sent, k) && r.sent + [] == r.sent;
    Quiet([e], k);
    Quiet([], k);
    RunTouch(r.blocks, r.received, r.sent, r.held, auth, k, Taken(b, e), [e], [], [e]);
  }

  /** The stop closes the message: every block is done, and its explanation is counted next. */
  lemma KeepsEnd(r: Run, b: Body, auth: Authority)
    requires Keeps(r, auth) && !r.done && b.MessageDelta?
    requires forall k | 0 <= k < |r.blocks| :: r.blocks[k].done
    requires r.calls != {} ==> b.stop.reason == "tool_use"
    ensures Keeps(r.Closed(b, auth), auth)
  {
    hide RunInv, EndsInv, CountsInv, RestoreStop, StopTally, Tally.Plus;
    EndsOnce(r, b, auth);
    EndCounts(r, b, auth);
    EndRuns(r, b, auth);
    assert r.held + [] == r.held && r.sent + [] == r.sent;
  }

  lemma EndRuns(r: Run, b: Body, auth: Authority)
    requires RunInv(r.blocks, r.received, r.sent, r.held, auth) && b.MessageDelta?
    ensures RunInv(r.blocks, r.received + [b], r.sent, r.held, auth)
  {
    assert StopIn([]) == None && OpenedBy([]) == None && AllAbout([], -1);
    hide RunInv, StopIn, OpenedBy, AllAbout;
    PassHead([], b);
    assert r.sent + [] == r.sent && [] + [b] == [b];
    RunPass(r.blocks, r.received, r.sent, r.held, auth, b, []);
  }

  lemma EndsOnce(r: Run, b: Body, auth: Authority)
    requires EndsInv(r.started, r.done, r.delta, r.calls, r.blocks, r.received, auth) && !r.done && b.MessageDelta?
    requires forall k | 0 <= k < |r.blocks| :: r.blocks[k].done
    requires r.calls != {} ==> b.stop.reason == "tool_use"
    ensures EndsInv(r.started, true, Some(MessageDelta(RestoreStop(b.stop, auth), b.usage)), r.calls, r.blocks, r.received + [b], auth)
    ensures StopIn(r.received) == None
  {
    hide RestoreStop, OpenedBy, StopIn;
    PassHead(r.received, b);
  }

  lemma EndCounts(r: Run, b: Body, auth: Authority)
    requires CountsInv(r.counts, r.blocks, r.received, auth) && StopIn(r.received) == None && b.MessageDelta?
    ensures CountsInv(r.counts.Plus(StopTally(b.stop, auth)), r.blocks, r.received + [b], auth)
  {
    hide StopTally, ProseTally, Tally.Plus, StopIn;
    PassHead(r.received, b);
    PlusLaws(ProseTally(r.blocks), NOTHING, NOTHING);
  }

  /** While the message is open, an event about a block leaves its two ends alone. */
  lemma EndsOpen(r: Run, b: Body, calls: set<string>, blocks: seq<BlockState>, auth: Authority)
    requires EndsInv(r.started, r.done, r.delta, r.calls, r.blocks, r.received, auth) && !r.done
    requires !b.MessageStart? && !b.MessageDelta?
    requires r.calls <= calls && |r.blocks| <= |blocks|
    requires forall k | 0 <= k < |r.blocks| :: blocks[k].raw == r.blocks[k].raw
    requires forall k | |r.blocks| <= k < |blocks| && blocks[k].raw.ToolUse? :: blocks[k].raw.id in calls
    ensures EndsInv(r.started, r.done, r.delta, calls, blocks, r.received + [b], auth)
    ensures Extra(r.received + [b], auth) == Extra(r.received, auth)
  {
    hide RestoreStop, StopTally, OpenedBy, StopIn;
    PassHead(r.received, b);
  }

  /** A message that is done has said all of this. */
  lemma KeptAtEnd(r: Run, auth: Authority)
    requires Keeps(r, auth) && r.done
    ensures RunInv(r.blocks, r.received, r.sent, r.held, auth)
    ensures forall k | 0 <= k < |r.blocks| :: r.blocks[k].done
    ensures r.started ==> OpenedBy(r.received).Some?
    ensures StopIn(r.received).Some? && r.delta.Some? && r.delta.value.MessageDelta?
    ensures r.delta.value.stop == RestoreStop(StopIn(r.received).value, auth)
    ensures StopIn(r.received).value.reason == "tool_use" || NoCalls(r.blocks)
    ensures r.counts == ProseTally(r.blocks).Plus(Extra(r.received, auth))
  {
    hide RunInv, RestoreStop, Extra, ProseTally, Tally.Plus, OpenedBy, StopIn;
  }

  lemma EndsStart(auth: Authority)
    ensures EndsInv(false, false, None, {}, [], [], auth) && CountsInv(NOTHING, [], [], auth)
  {
    hide *;
    NothingYet();
    EndsFrom(auth);
    CountsFrom(auth);
  }

  lemma NothingYet()
    ensures OpenedBy([]) == None && StopIn([]) == None && ProseTally([]) == NOTHING
  {
  }

  lemma EndsFrom(auth: Authority)
    requires OpenedBy([]) == None && StopIn([]) == None
    ensures EndsInv(false, false, None, {}, [], [], auth)
  {
    hide OpenedBy, StopIn, RestoreStop;
  }

  lemma CountsFrom(auth: Authority)
    requires StopIn([]) == None && ProseTally([]) == NOTHING
    ensures CountsInv(NOTHING, [], [], auth)
  {
    hide StopIn, StopTally, ProseTally, Tally.Plus;
    PlusLaws(NOTHING, NOTHING, NOTHING);
  }

  ghost predicate NoCalls(blocks: seq<BlockState>) {
    forall k | 0 <= k < |blocks| :: !blocks[k].raw.ToolUse?
  }

  function Fed(b: BlockState, value: string, final: bool, auth: Authority): BlockState {
    b.(buffer := b.buffer.Feed(value, final, auth).0, done := final)
  }

  /** These events are about block `k` and announce nothing. */
  lemma Quiet(bodies: seq<Body>, k: nat)
    requires forall b | b in bodies :: Index(b) == k && !b.BlockStart?
    ensures AllAbout(bodies, k) && Announced(bodies) == 0
  {
    NoStarts(bodies);
  }

  lemma PassHead(received: seq<Body>, b: Body)
    ensures OpenedBy(received + [b])
            == if OpenedBy(received).Some? then OpenedBy(received) else if b.MessageStart? then Some(b.message) else None
    ensures StopIn(received + [b])
            == if StopIn(received).Some? then StopIn(received) else if b.MessageDelta? then Some(b.stop) else None
    ensures OpenedBy([b]) == if b.MessageStart? then Some(b.message) else None
    ensures StopIn([b]) == if b.MessageDelta? then Some(b.stop) else None
    ensures Index(b) == -1 ==> AllAbout([b], -1)
  {
    HeadAppend(received, [b]);
    assert [b][1..] == [];
  }

  lemma CountsFeed(blocks: seq<BlockState>, k: nat, value: string, final: bool, auth: Authority, counts: Tally,
                   received: seq<Body>, b: Body)
    requires k < |blocks| && CountsInv(counts, blocks, received, auth) && Extra(received + [b], auth) == Extra(received, auth)
    ensures CountsInv(counts.Plus(blocks[k].buffer.Share(value, final, auth)),
                      blocks[k := Fed(blocks[k], value, final, auth)], received + [b], auth)
  {
    hide Tally.Plus, ProseTally, Buffer.Share, Extra;
    var x, extra := blocks[k].buffer.Share(value, final, auth), Extra(received, auth);
    ProseTallyGrows(blocks, k, Fed(blocks[k], value, final, auth), x);
    PlusLaws(ProseTally(blocks), extra, x);
    PlusLaws(ProseTally(blocks), x, extra);
    PlusLaws(extra, x, NOTHING);
  }

  lemma SameTally(blocks: seq<BlockState>, k: nat, after: BlockState, counts: Tally, received: seq<Body>, b: Body, auth: Authority)
    requires k < |blocks| && after.buffer == blocks[k].buffer && CountsInv(counts, blocks, received, auth)
    requires !b.MessageDelta?
    ensures CountsInv(counts, blocks[k := after], received + [b], auth)
  {
    hide Tally.Plus, ProseTally, StopIn, StopTally;
    PassHead(received, b);
    PlusLaws(after.buffer.counts, NOTHING, NOTHING);
    PlusLaws(ProseTally(blocks), NOTHING, NOTHING);
    ProseTallyGrows(blocks, k, after, NOTHING);
  }

  lemma BlockCounts(blocks: seq<BlockState>, b: BlockState, counts: Tally, received: seq<Body>, e: Body, auth: Authority)
    requires CountsInv(counts, blocks, received, auth) && b.buffer == OPENED && !e.MessageDelta?
    ensures CountsInv(counts, blocks + [b], received + [e], auth)
  {
    hide Tally.Plus, ProseTally, StopIn, StopTally;
    PassHead(received, e);
    ProseTallySnoc(blocks, b);
    PlusLaws(ProseTally(blocks), NOTHING, NOTHING);
  }

  lemma CompleteRun(before: seq<BlockState>, blocks: seq<BlockState>, received: seq<Body>, sent: seq<Body>, held: seq<Body>, env: Environment)
    requires RunInv(before, received, sent, held, env.auth) && |before| == |blocks|
    requires forall k | 0 <= k < |blocks| :: before[k].done && CallAccepted(before[k], env)
    requires forall k | 0 <= k < |blocks| :: blocks[k] == WithRestored(before[k], env)
    ensures AllCompleted(blocks, received, sent, held, env)
    ensures HeldOk(blocks, held) && HeadInv(|blocks|, received, sent, held)
    ensures forall k | 0 <= k < |blocks| :: blocks[k].raw == before[k].raw
  {
    hide BlockInv, BlockCompleted, CallAccepted, HeadInv, About;
    forall k | 0 <= k < |blocks|
      ensures BlockCompleted(blocks[k], k, About(received, k), About(sent, k), About(held, k), env)
      ensures blocks[k].raw == before[k].raw
    {
      RestoredKeeps(before[k], k, About(received, k), About(sent, k), About(held, k), env);
    }
  }

  lemma {:induction false} SameCalls(before: seq<BlockState>, blocks: seq<BlockState>, env: Environment)
    requires |before| == |blocks| && forall k | 0 <= k < |blocks| :: blocks[k] == WithRestored(before[k], env)
    ensures StateCalls(before) == StateCalls(blocks)
    ensures NoCalls(before) ==> NoCalls(blocks)
  {
    hide Join, OrEmpty;
    if blocks != [] {
      assert blocks[0] == WithRestored(before[0], env);
      SameCalls(before[1..], blocks[1..], env);
    }
  }

  lemma CountsComplete(before: seq<BlockState>, blocks: seq<BlockState>, env: Environment, counts: Tally, extra: Tally)
    requires |before| == |blocks| && forall k | 0 <= k < |blocks| :: blocks[k] == WithRestored(before[k], env)
    requires counts == ProseTally(before).Plus(extra).Plus(ToolTally(before, env))
    ensures counts == ProseTally(blocks).Plus(ToolTally(blocks, env)).Plus(extra)
  {
    hide Tally.Plus, ProseTally, ToolTally;
    SameTallies(before, blocks, env);
    PlusLaws(ProseTally(before), extra, ToolTally(before, env));
    PlusLaws(ProseTally(before), ToolTally(before, env), extra);
    PlusLaws(extra, ToolTally(before, env), NOTHING);
  }

  lemma {:induction false} SameTallies(before: seq<BlockState>, blocks: seq<BlockState>, env: Environment)
    requires |before| == |blocks| && forall k | 0 <= k < |blocks| :: blocks[k] == WithRestored(before[k], env)
    ensures ProseTally(before) == ProseTally(blocks) && ToolTally(before, env) == ToolTally(blocks, env)
  {
    hide Tally.Plus, Join, OrEmpty;
    if blocks != [] {
      assert blocks[0] == WithRestored(before[0], env);
      SameTallies(before[1..], blocks[1..], env);
    }
  }
}
