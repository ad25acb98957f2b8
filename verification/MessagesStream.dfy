/** The whole Messages stream: what a client can see of any run, accepted or not. */
module MessagesStream {
  import opened Text
  import opened Tokens
  import opened Restoration
  import opened TokenStream
  import opened MessagesProtocol
  import opened MessagesInvariants
  import opened MessagesRelease
  import opened MessagesSteps
  import opened MessagesChecked
  import opened MessagesFields
  import opened MessagesPlay
  import opened MessagesMachine
  import opened Sequencing
  import opened MessagesBuffered
  import R = ResponsesProtocol
  import B = BufferedMessage

  datatype Frame = Heartbeat | Payload(event: Event) | Broken

  datatype Output = KeepAlive | Sent(body: Body)

  function Bodies(outputs: seq<Output>): seq<Body> {
    if outputs == [] then [] else (if outputs[0].Sent? then [outputs[0].body] else []) + Bodies(outputs[1..])
  }

  function Payloads(frames: seq<Frame>): seq<Body> {
    if frames == [] then []
    else (if frames[0].Payload? then [frames[0].event.body] else []) + Payloads(frames[1..])
  }

  /** The numbers of the provider's events, in order. */
  function Numbers(frames: seq<Frame>): seq<Option<int>> {
    if frames == [] then []
    else (if frames[0].Payload? then [frames[0].event.sequence] else []) + Numbers(frames[1..])
  }

  lemma {:induction false} BodiesAppend(a: seq<Output>, b: seq<Output>)
    ensures Bodies(a + b) == Bodies(a) + Bodies(b)
  {
    if a == [] {
      assert a + b == b;
    } else {
      assert (a + b)[1..] == a[1..] + b && (a + b)[0] == a[0];
      BodiesAppend(a[1..], b);
      Associate(if a[0].Sent? then [a[0].body] else [], Bodies(a[1..]), Bodies(b));
    }
  }

  lemma {:induction false} PayloadsSnoc(frames: seq<Frame>, i: nat)
    requires i < |frames|
    ensures Payloads(frames[..i + 1]) == Payloads(frames[..i]) + (if frames[i].Payload? then [frames[i].event.body] else [])
    ensures Numbers(frames[..i + 1]) == Numbers(frames[..i]) + (if frames[i].Payload? then [frames[i].event.sequence] else [])
    decreases i
  {
    if i == 0 {
      assert frames[..1] == [frames[0]] && [frames[0]][1..] == [];
    } else {
      assert frames[..i + 1][1..] == frames[1..][..i] && frames[..i][1..] == frames[1..][..i - 1];
      PayloadsSnoc(frames[1..], i - 1);
    }
  }

  // ---------- What a client may rely on ----------

  /** Before the provider's stream has ended, a block is either invisible or prose in its proper shape. */
  ghost predicate ProseOnly(bodies: seq<Body>) {
    && AllOpen(bodies)
    && forall k | k >= 0 :: About(bodies, k) == [] || IsProse(About(bodies, k), k)
  }

  ghost predicate IsProse(about: seq<Body>, k: int) {
    exists raw: Block, done: bool :: raw.TextBlock? && ProseShape(about, k, raw, done)
  }

  lemma SentIsProse(r: Run, auth: Authority)
    requires Keeps(r, auth)
    ensures ProseOnly(r.sent)
  {
    hide HeldOk, EndsInv, CountsInv, About, ProseShape, Faithful, Held, TextOf, JsonOf, Join;
    forall k | k >= 0
      ensures About(r.sent, k) == [] || IsProse(About(r.sent, k), k)
    {
      if k < |r.blocks| {
        assert BlockInv(r.blocks[k], k, About(r.received, k), About(r.sent, k), About(r.held, k), auth);
      }
    }
  }

  /** A call leaves whole and once: announced, one delta with all that the registry restored, stopped. */
  ghost predicate CallReleased(streamed: seq<Body>, released: seq<Body>, provided: seq<Body>, k: int, env: Environment) {
    && About(streamed, k) == []
    && provided != [] && provided[0].BlockStart? && provided[0].block.ToolUse?
    && var call := R.Call(provided[0].block.name, OrEmpty(JsonOf(provided)), false);
    && env.tools(call).ToolRestored?
    && About(released, k) == [provided[0], JsonDelta(k, env.tools(call).arguments), BlockStop(k)]
  }

  function CallFrom(about: seq<Body>): R.Call
    requires CallAt(about)
  {
    R.Call(about[0].block.name, OrEmpty(JsonOf(about)), false)
  }

  /** The calls of blocks `k` to `n`, in block order, as the provider wrote them. */
  function ProvidedCalls(provided: seq<Body>, k: nat, n: nat): seq<R.Call>
    decreases n - k
  {
    if k >= n then []
    else (if CallAt(About(provided, k)) then [CallFrom(About(provided, k))] else []) + ProvidedCalls(provided, k + 1, n)
  }

  lemma {:induction false} SameBatch(provided: seq<Body>, blocks: seq<BlockState>, k: nat)
    requires k <= |blocks|
    requires forall j | 0 <= j < |blocks| :: CallAt(About(provided, j)) == blocks[j].raw.ToolUse?
    requires forall j | 0 <= j < |blocks| && blocks[j].raw.ToolUse? ::
               CallFrom(About(provided, j)) == R.Call(blocks[j].raw.name, ArgumentsOf(blocks[j]), false)
    ensures ProvidedCalls(provided, k, |blocks|) == StateCalls(blocks[k..])
    decreases |blocks| - k
  {
    hide CallFrom, CallAt, About, ArgumentsOf;
    if k < |blocks| {
      SameBatch(provided, blocks, k + 1);
      assert blocks[k..][1..] == blocks[k + 1..];
    }
  }

  /** An accepted run: what the provider's events describe, and what the client's events describe. */
  ghost predicate Accepted(provided: seq<Body>, streamed: seq<Body>, released: seq<Body>, counts: Tally, env: Environment) {
    && OpenedBy(provided).Some? && OpeningFits(OpenedBy(provided).value, env)
    && StopIn(provided).Some? && MessagesFields.StopFits(StopIn(provided).value, env)
    && StartsFit(provided, env)
    && Announced(streamed + released) == Announced(provided)
    && env.batchOk(ProvidedCalls(provided, 0, Announced(provided)))
    && (forall k | 0 <= k < Announced(provided) && CallAt(About(provided, k)) ::
          && CallReleased(streamed, released, About(provided, k), k, env)
          && StopIn(provided).value.reason == "tool_use")
    && (forall k | 0 <= k < Announced(provided) && !CallAt(About(provided, k)) ::
          TextOf(About(streamed, k)) == Restored(TextOf(About(provided, k)), env.auth) && About(released, k) == [])
    && (Lawful(env) ==> Refines(provided, streamed + released, counts, env))
  }

  /** Every block is announced in good form. */
  ghost predicate StartsFit(provided: seq<Body>, env: Environment) {
    forall k | 0 <= k < Announced(provided) ::
      About(provided, k) != [] && About(provided, k)[0].BlockStart? && BlockFits(About(provided, k)[0].block, true, env)
  }

  predicate CallAt(about: seq<Body>) { about != [] && about[0].BlockStart? && about[0].block.ToolUse? }

  /** The provider's message is one the buffered path accepts, and the client's is that message restored, counted alike. */
  ghost predicate Refines(provided: seq<Body>, seen: seq<Body>, counts: Tally, env: Environment) {
    exists m, shown ::
      && Assembles(provided, m, env) && MessageFits(m, env)
      && RestoresMessage(m, shown, env)
      && Assembles(seen, shown, env)
      && counts == MessageTally(m, env)
      && (SpellingFree(env) ==> BufferedAgrees(m, shown, env))
  }

  /** Given this message, the buffered path would have released `shown` too, unless one of the two is too large for it. */
  ghost predicate BufferedAgrees(m: Message, shown: Message, env: Environment) {
    && B.Accepts(m, env) && shown == B.RestoredMessage(m, env)
    && forall size: Message -> nat ::
         B.Releasable(m, env, size) <==> size(m) <= env.maxOutputBytes && size(shown) <= env.maxOutputBytes
  }

  lemma AcceptedRun(m: Messages, released: seq<Body>)
    requires m.CompletedBy(released)
    ensures Accepted(m.received + [MessageStop], m.sent, released, m.counts, m.env)
  {
    hide *;
    var env, blocks, provided := m.env, m.blocks, m.received + [MessageStop];
    Completion(m, released);
    PassHead(m.received, MessageStop);
    forall k | k >= 0
      ensures About(provided, k) == About(m.received, k)
    {
      LastAbout(m.received, k);
    }
    HeadCount(m.received);
    ClientHead(blocks, m.received, m.sent, m.pending, StopIn(m.received).value, m.messageDelta.value.usage, env.auth);
    forall k | 0 <= k < |blocks|
      ensures About(provided, k) != [] && About(provided, k)[0] == BlockStart(k, blocks[k].raw)
      ensures CallAt(About(provided, k)) == blocks[k].raw.ToolUse?
      ensures blocks[k].raw.ToolUse? ==> CallFrom(About(provided, k)) == R.Call(blocks[k].raw.name, ArgumentsOf(blocks[k]), false)
      ensures CallAt(About(provided, k)) ==> CallReleased(m.sent, released, About(provided, k), k, env)
      ensures !CallAt(About(provided, k)) ==>
                TextOf(About(m.sent, k)) == Restored(TextOf(About(provided, k)), env.auth) && About(released, k) == []
    {
      ClientSees(blocks, m.sent, m.pending, StopIn(m.received).value, m.messageDelta.value.usage, env.auth, k);
      BlockSeen(blocks[k], k, About(m.received, k), About(m.sent, k), About(m.pending, k), env);
      SeenBlock(m.sent, released, About(provided, k), k, blocks[k], About(m.pending, k), env);
    }
    EndsFit(m, released);
    StartsSeen(provided, blocks, env);
    SameBatch(provided, blocks, 0);
    assert blocks[0..] == blocks;
    CallsNeedReason(blocks, StopIn(m.received).value.reason);
    if Lawful(env) {
      MessageRefines(blocks, m.received, m.sent, m.pending, m.messageDelta.value.usage, env);
      StillRefines(m, released);
    }
    AcceptedBy(provided, m.sent, released, m.counts, env, blocks);
  }

  /** The final state, fact by fact. */
  lemma Completion(m: Messages, released: seq<Body>)
    requires m.CompletedBy(released)
    ensures OpenedBy(m.received).Some? && StopIn(m.received).Some?
    ensures HeldOk(m.blocks, m.pending) && HeadInv(|m.blocks|, m.received, m.sent, m.pending)
    ensures AllCompleted(m.blocks, m.received, m.sent, m.pending, m.env)
    ensures forall k | 0 <= k < |m.blocks| ::
              BlockCompleted(m.blocks[k], k, About(m.received, k), About(m.sent, k), About(m.pending, k), m.env)
    ensures m.counts == ProseTally(m.blocks).Plus(ToolTally(m.blocks, m.env)).Plus(StopTally(StopIn(m.received).value, m.env.auth))
    ensures m.messageDelta.Some? && m.messageDelta.value.MessageDelta?
    ensures released == Released(m.pending, m.blocks, StopIn(m.received).value, m.messageDelta.value.usage, m.env.auth)
    ensures StopIn(m.received).value.reason == "tool_use" || NoCalls(m.blocks)
    ensures Announced(m.received) == |m.blocks|
    ensures m.env.batchOk(StateCalls(m.blocks))
  {
    hide BlockCompleted, About, Released, ProseTally, ToolTally, StopTally, Tally.Plus, NoCalls, HeldOk, AllOpen, OpenedBy, StopIn;
  }

  lemma LastAbout(received: seq<Body>, k: nat)
    ensures About(received + [MessageStop], k) == About(received, k)
  {
    AboutAppend(received, [MessageStop], k);
    assert [MessageStop][1..] == [];
    assert About([MessageStop], k) == [];
  }

  lemma HeadCount(received: seq<Body>)
    ensures Announced(received + [MessageStop]) == Announced(received)
  {
    HeadAppend(received, [MessageStop]);
    assert [MessageStop][1..] == [];
    assert Announced([MessageStop]) == 0;
  }

  /** One completed block, as provider and client see it. */
  lemma BlockSeen(b: BlockState, k: int, received: seq<Body>, sent: seq<Body>, held: seq<Body>, env: Environment)
    requires BlockCompleted(b, k, received, sent, held, env)
    ensures received != [] && received[0] == BlockStart(k, b.raw)
    ensures b.raw.ToolUse? ==>
              && CallFrom(received) == R.Call(b.raw.name, ArgumentsOf(b), false)
              && sent == []
              && env.tools(R.Call(b.raw.name, OrEmpty(JsonOf(received)), false)).ToolRestored?
              && b.restored == env.tools(R.Call(b.raw.name, OrEmpty(JsonOf(received)), false)).arguments
              && ReleaseFor(held, b.restored, false) == [BlockStart(k, b.raw), JsonDelta(k, b.restored), BlockStop(k)]
    ensures b.raw.TextBlock? ==>
              TextOf(sent) == Restored(TextOf(received), env.auth) && ReleaseFor(held, b.restored, false) == []
  {
    assert ReleaseFor([], b.restored, false) == [];
    hide Faithful, Restored, TextOf, JsonOf, Join, Held, ReleaseFor;
    if b.raw.ToolUse? {
      ReleasedOnce(b, k);
    } else {
      ClosedMeans(b.buffer, env.auth);
    }
  }

  lemma SeenBlock(streamed: seq<Body>, released: seq<Body>, provided: seq<Body>, k: int, b: BlockState, held: seq<Body>, env: Environment)
    requires provided != [] && provided[0] == BlockStart(k, b.raw)
    requires About(released, k) == ReleaseFor(held, b.restored, false)
    requires b.raw.ToolUse? ==>
               && About(streamed, k) == []
               && env.tools(R.Call(b.raw.name, OrEmpty(JsonOf(provided)), false)).ToolRestored?
               && b.restored == env.tools(R.Call(b.raw.name, OrEmpty(JsonOf(provided)), false)).arguments
               && ReleaseFor(held, b.restored, false) == [BlockStart(k, b.raw), JsonDelta(k, b.restored), BlockStop(k)]
    ensures CallAt(provided) == b.raw.ToolUse?
    ensures CallAt(provided) ==> CallReleased(streamed, released, provided, k, env)
  {
    hide About, ReleaseFor, JsonOf, OrEmpty;
  }

  lemma CallsNeedReason(blocks: seq<BlockState>, reason: string)
    requires reason == "tool_use" || NoCalls(blocks)
    ensures forall k | 0 <= k < |blocks| && blocks[k].raw.ToolUse? :: reason == "tool_use"
  {
  }

  lemma StillRefines(m: Messages, released: seq<Body>)
    requires m.CompletedBy(released) && Lawful(m.env)
    requires exists msg, shown ::
               && Assembles(m.received, msg, m.env) && RestoresMessage(msg, shown, m.env)
               && Assembles(m.sent + Released(m.pending, m.blocks, StopIn(m.received).value, m.messageDelta.value.usage, m.env.auth), shown, m.env)
               && MessageTally(msg, m.env)
                  == ProseTally(m.blocks).Plus(ToolTally(m.blocks, m.env)).Plus(StopTally(StopIn(m.received).value, m.env.auth))
    ensures Refines(m.received + [MessageStop], m.sent + released, m.counts, m.env)
  {
    hide Assembles, CheckMessage, Lawful, Checked, MessageTally, ProseTally, ToolTally, Tally.Plus, StopTally, Released, Refines, AllCompleted, OpenedBy, StopIn, HeadInv, HeldOk;
    hide SpellingFree, BufferedAgrees;
    Completion(m, released);
    var msg, shown :|
      && Assembles(m.received, msg, m.env) && RestoresMessage(msg, shown, m.env)
      && Assembles(m.sent + Released(m.pending, m.blocks, StopIn(m.received).value, m.messageDelta.value.usage, m.env.auth), shown, m.env)
      && MessageTally(msg, m.env)
         == ProseTally(m.blocks).Plus(ToolTally(m.blocks, m.env)).Plus(StopTally(StopIn(m.received).value, m.env.auth));
    StopAssembles(m.received, msg, m.env);
    Checks(m, msg, released);
    if SpellingFree(m.env) {
      Agrees(m, released, msg, shown);
    }
    RefinesBy(m.received + [MessageStop], m.sent + released, m.counts, m.env, msg, shown);
  }

  lemma Checks(m: Messages, msg: Message, released: seq<Body>)
    requires m.CompletedBy(released) && Lawful(m.env) && Assembles(m.received, msg, m.env)
    ensures CheckMessage(msg, false, m.env).None?
  {
    hide CheckMessage, Lawful, About, Checked, Released, ProseTally, ToolTally, Tally.Plus, Extra, BlockOf;
    Completion(m, released);
    forall k | 0 <= k < |m.blocks|
      ensures About(m.received, k) != [] && About(m.received, k)[0] == BlockStart(k, m.blocks[k].raw)
    {
      BlockSeen(m.blocks[k], k, About(m.received, k), About(m.sent, k), About(m.pending, k), m.env);
    }
    AssembledChecks(m.State(), m.totalItems, m.env, msg);
  }

  lemma RefinesBy(provided: seq<Body>, seen: seq<Body>, counts: Tally, env: Environment, m: Message, shown: Message)
    requires Assembles(provided, m, env) && RestoresMessage(m, shown, env) && CheckMessage(m, false, env).None?
    requires Assembles(seen, shown, env) && counts == MessageTally(m, env)
    requires SpellingFree(env) ==> BufferedAgrees(m, shown, env)
    ensures Refines(provided, seen, counts, env)
  {
    MessageExactly(m, env);
    hide Assembles, MessageTally, CheckMessage, SpellingFree, BufferedAgrees, RestoresMessage, MessageFits;
  }

  lemma Agrees(m: Messages, released: seq<Body>, msg: Message, shown: Message)
    requires m.CompletedBy(released) && Lawful(m.env) && SpellingFree(m.env)
    requires Assembles(m.received, msg, m.env) && CheckMessage(msg, false, m.env).None? && RestoresMessage(msg, shown, m.env)
    ensures BufferedAgrees(msg, shown, m.env)
  {
    hide Assembles, CheckMessage, Lawful, SpellingFree, RestoresMessage, B.AllAccepted, B.ContentBytes, B.CallsOf, B.StopBytes;
    hide AllCompleted, HeadInv, HeldOk, OpenedBy, StopIn;
    BufferedAccepts(m, released, msg);
    B.RestoredUnique(msg, shown, m.env);
  }

  lemma StopAssembles(received: seq<Body>, m: Message, env: Environment)
    requires Assembles(received, m, env)
    ensures Assembles(received + [MessageStop], m, env)
  {
    hide About, BlockOf, Announced, OpenedBy, StopIn;
    PassHead(received, MessageStop);
    HeadCount(received);
    forall k | 0 <= k < |m.content|
      ensures BlockOf(About(received + [MessageStop], k), env) == Some(m.content[k])
    {
      LastAbout(received, k);
    }
  }

  lemma AcceptedBy(provided: seq<Body>, streamed: seq<Body>, released: seq<Body>, counts: Tally, env: Environment, blocks: seq<BlockState>)
    requires OpenedBy(provided).Some? && StopIn(provided).Some?
    requires OpeningFits(OpenedBy(provided).value, env) && MessagesFields.StopFits(StopIn(provided).value, env)
    requires StartsFit(provided, env)
    requires Announced(streamed + released) == Announced(provided) == |blocks|
    requires env.batchOk(ProvidedCalls(provided, 0, |blocks|))
    requires forall k | 0 <= k < |blocks| :: CallAt(About(provided, k)) == blocks[k].raw.ToolUse?
    requires forall k | 0 <= k < |blocks| && CallAt(About(provided, k)) :: CallReleased(streamed, released, About(provided, k), k, env)
    requires forall k | 0 <= k < |blocks| && blocks[k].raw.ToolUse? :: StopIn(provided).value.reason == "tool_use"
    requires forall k | 0 <= k < |blocks| && !CallAt(About(provided, k)) ::
               TextOf(About(streamed, k)) == Restored(TextOf(About(provided, k)), env.auth) && About(released, k) == []
    requires Lawful(env) ==> Refines(provided, streamed + released, counts, env)
    ensures Accepted(provided, streamed, released, counts, env)
  {
    hide About, TextOf, Restored, CallReleased, CallAt, Announced, ProvidedCalls, OpenedBy, StopIn, Lawful, Refines;
    hide OpeningFits, MessagesFields.StopFits, StartsFit;
  }

  /** What was checked on the way, once everything has arrived. */
  lemma EndsFit(m: Messages, released: seq<Body>)
    requires m.CompletedBy(released)
    ensures OpenedBy(m.received).Some? && OpeningFits(OpenedBy(m.received).value, m.env)
    ensures StopIn(m.received).Some? && MessagesFields.StopFits(StopIn(m.received).value, m.env)
    ensures forall k | 0 <= k < |m.blocks| :: BlockFits(m.blocks[k].raw, true, m.env)
  {
    hide CheckMessage, CheckStop, CheckBlock, OpeningFits, MessagesFields.StopFits, BlockFits, OpenedBy, StopIn, AllCompleted;
    hide HeadInv, HeldOk, MessageFits;
    MessageExactly(OpenedBy(m.received).value, m.env);
    StopExactly(StopIn(m.received).value, m.env);
    forall k | 0 <= k < |m.blocks|
      ensures BlockFits(m.blocks[k].raw, true, m.env)
    {
      BlockExactly(m.blocks[k].raw, true, m.env);
    }
  }

  lemma StartsSeen(provided: seq<Body>, blocks: seq<BlockState>, env: Environment)
    requires Announced(provided) == |blocks|
    requires forall k | 0 <= k < |blocks| :: About(provided, k) != [] && About(provided, k)[0] == BlockStart(k, blocks[k].raw)
    requires forall k | 0 <= k < |blocks| :: BlockFits(blocks[k].raw, true, env)
    ensures StartsFit(provided, env)
  {
    hide BlockFits, Announced, About;
  }

  // ---------- Which streams are accepted ----------

  function Follow(s: Stage, frame: Frame, env: Environment): Stage {
    if !s.Open? || frame.Broken? then Refused
    else if frame.Heartbeat? then s
    else Proceed(s, frame.event, env)
  }

  /** Where a stream gets to, frame by frame. */
  function Plays(s: Stage, frames: seq<Frame>, env: Environment): Stage
    decreases |frames|
  {
    if frames == [] then s else Plays(Follow(s, frames[0], env), frames[1..], env)
  }

  lemma PlaysOn(s: Stage, frames: seq<Frame>, i: nat, env: Environment)
    requires i < |frames|
    ensures Plays(s, frames[i..], env) == Plays(Follow(s, frames[i], env), frames[i + 1..], env)
  {
    hide Follow;
    assert frames[i..][1..] == frames[i + 1..];
  }

  lemma {:induction false} RefusedStays(frames: seq<Frame>, env: Environment)
    ensures Plays(Refused, frames, env) == Refused
    decreases |frames|
  {
    if frames != [] {
      RefusedStays(frames[1..], env);
    }
  }

  lemma PlayedOut(s: Stage, rest: seq<Frame>, env: Environment)
    requires rest == []
    ensures Plays(s, rest, env) == s
  {
  }

  /** Where the machine is. */
  ghost function StageOf(m: Messages): Stage
    reads m
  {
    if m.terminal then Complete else Open(m.View())
  }

  // ---------- The loop ----------

  ghost predicate Running(m: Messages, frames: seq<Frame>, i: nat, streamed: seq<Output>)
    reads m
    requires i <= |frames|
  {
    m.Valid() && Bodies(streamed) == m.sent && Payloads(frames[..i]) == m.received
  }

  function Sendable(bodies: seq<Body>): (r: seq<Output>)
    ensures Bodies(r) == bodies
  {
    if bodies == [] then []
    else
      var r := [Sent(bodies[0])] + Sendable(bodies[1..]);
      assert r[1..] == Sendable(bodies[1..]);
      r
  }

  /** What holds once the provider has ended its message; the last events still wait. */
  ghost predicate Finished(m: Messages, frames: seq<Frame>, i: nat, streamed: seq<Output>, released: seq<Body>)
    reads m
    requires i <= |frames|
  {
    && m.terminal && Payloads(frames[..i]) == m.received + [MessageStop]
    && Bodies(streamed) == m.sent && m.CompletedBy(released)
  }

  /** One frame: yielded on at once while the message is open; kept back when it ends it. */
  method TakeFrame(m: Messages, frames: seq<Frame>, i: nat, streamed: seq<Output>)
    returns (now: seq<Output>, released: seq<Body>, bad: Option<Error>)
    requires i < |frames| && (!m.terminal ==> Running(m, frames, i, streamed))
    modifies m
    ensures bad.Some? ==> now == streamed && Follow(old(StageOf(m)), frames[i], m.env) == Refused
    ensures bad.None? ==> !old(m.terminal) && !frames[i].Broken? && StageOf(m) == Follow(old(StageOf(m)), frames[i], m.env)
    ensures bad.None? && !m.terminal ==> Running(m, frames, i + 1, now) && ProseOnly(Bodies(now))
    ensures bad.None? && m.terminal ==> now == streamed && Finished(m, frames, i + 1, now, released)
    ensures bad.None? && frames[i].Payload? ==> m.InStep(frames[i].event)
    ensures bad.None? && !frames[i].Payload? ==> m.sequenceMode == old(m.sequenceMode) && m.sequence == old(m.sequence)
  {
    hide ProseOnly, Sound, Checked, AllCompleted, HeldOk, HeadInv, Released, ProseTally, ToolTally, Tally.Plus, Extra, NoCalls;
    hide Control.Accepts, Control.Next;
    now, released := streamed, [];
    PayloadsSnoc(frames, i);
    if frames[i].Broken? || m.terminal {
      return now, released, Some(R.InvalidStream);
    }
    if frames[i].Heartbeat? {
      BodiesAppend(streamed, [KeepAlive]);
      assert Bodies([KeepAlive]) == Bodies([]) == [];
      assert Bodies(streamed) + [] == Bodies(streamed) && Payloads(frames[..i]) + [] == Payloads(frames[..i]);
      now := streamed + [KeepAlive];
      Safe(m);
      return now, released, None;
    }
    var r;
    if frames[i].event.body.MessageStop? {
      r := m.Complete(frames[i].event);
    } else {
      r := m.Handle(frames[i].event);
    }
    if r.Err? {
      return now, released, Some(r.error);
    }
    if m.terminal {
      released := r.value;
    } else {
      Safe(m);
      BodiesAppend(streamed, Sendable(r.value));
      now := streamed + Sendable(r.value);
    }
    return now, released, None;
  }

  lemma Safe(m: Messages)
    requires m.Valid()
    ensures ProseOnly(m.sent)
  {
    hide Keeps, Checked, ProseOnly;
    SentIsProse(m.State(), m.env.auth);
  }

  /** The provider's stream from its first frame to its last; `released` leaves only after all of it was accepted. */
  method RestoreStream(env: Environment, frames: seq<Frame>)
    returns (streamed: seq<Output>, released: seq<Body>, status: Result<Tally, Error>)
    ensures ProseOnly(Bodies(streamed))
    ensures status.Ok? <==> Plays(Open(OPENING), frames, env) == Complete
    ensures status.Err? ==> released == []
    ensures status.Ok? ==>
              && InSequence(Numbers(frames))
              && Payloads(frames) != [] && Payloads(frames)[|Payloads(frames)| - 1] == MessageStop
              && Accepted(Payloads(frames), Bodies(streamed), released, status.value, env)
  {
    hide Accepted, ProseOnly, Sound, Seen, InSequence, Checked;
    hide AllCompleted, HeldOk, HeadInv, Released, ProseTally, ToolTally, Tally.Plus, Extra, NoCalls, Follow, Plays;
    var m := new Messages(env);
    streamed, released := [], [];
    Safe(m);
    NothingSeen();
    var i := 0;
    assert frames[0..] == frames;
    while i < |frames|
      invariant 0 <= i <= |frames|
      invariant fresh(m) && m.env == env
      invariant ProseOnly(Bodies(streamed))
      invariant Seen(Numbers(frames[..i]), m.sequenceMode, m.sequence)
      invariant !m.terminal ==> Running(m, frames, i, streamed)
      invariant m.terminal ==> Finished(m, frames, i, streamed, released)
      invariant Plays(Open(OPENING), frames, env) == Plays(StageOf(m), frames[i..], env)
    {
      PayloadsSnoc(frames, i);
      PlaysOn(StageOf(m), frames, i, env);
      ghost var mode, last := m.sequenceMode, m.sequence;
      var bad;
      streamed, released, bad := TakeFrame(m, frames, i, streamed);
      if bad.Some? {
        RefusedStays(frames[i + 1..], env);
        return streamed, [], Err(bad.value);
      }
      NextNumber(frames, i, mode, last, m.sequenceMode, m.sequence);
      i := i + 1;
    }
    assert frames[..i] == frames;
    PlayedOut(StageOf(m), frames[i..], env);
    if !m.terminal {
      return streamed, [], Err(R.TruncatedStream);
    }
    SeenInSequence(Numbers(frames), m.sequenceMode, m.sequence);
    AcceptedRun(m, released);
    return streamed, released, Ok(m.counts);
  }

  lemma NothingSeen()
    ensures Seen([], None, -1)
  {
  }

  lemma NextNumber(frames: seq<Frame>, i: nat, mode: Option<bool>, last: int, mode': Option<bool>, last': int)
    requires i < |frames| && !frames[i].Broken? && Seen(Numbers(frames[..i]), mode, last)
    requires Numbers(frames[..i + 1]) == Numbers(frames[..i]) + (if frames[i].Payload? then [frames[i].event.sequence] else [])
    requires frames[i].Payload? ==>
               var n := frames[i].event.sequence;
               && mode' == Some(n.Some?) && (mode.Some? ==> mode' == mode)
               && if n.Some? then n.value > last && last' == n.value else last' == last
    requires !frames[i].Payload? ==> mode' == mode && last' == last
    ensures Seen(Numbers(frames[..i + 1]), mode', last')
  {
    hide Seen, Numbers;
    if frames[i].Payload? {
      SeenNext(Numbers(frames[..i]), mode, last, frames[i].event.sequence, last');
    } else {
      assert Numbers(frames[..i]) + [] == Numbers(frames[..i]);
    }
  }
}
