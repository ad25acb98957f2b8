/** The Messages event machine: text blocks leave as they are restored, tool calls wait for the whole run. */
module MessagesMachine {
  import opened Text
  import opened Tokens
  import opened Restoration
  import opened TokenStream
  import opened Json
  import opened MessagesProtocol
  import opened MessagesInvariants
  import opened MessagesRelease
  import opened MessagesSteps
  import opened MessagesChecked
  import opened MessagesBytes
  import opened MessagesPlay
  import B = BufferedMessage
  import R = ResponsesProtocol

  class Messages {
    const env: Environment
    var started: bool
    var terminal: bool
    var pending: seq<Body>
    var pendingBytes: nat
    var rawBytes: nat
    var restoredBytes: nat
    var sequence: int
    var sequenceMode: Option<bool>
    var totalItems: nat
    var blocks: seq<BlockState>
    var calls: set<string>
    var messageDone: bool
    var messageDelta: Option<Body>
    var counts: Tally
    ghost var received: seq<Body>
    ghost var sent: seq<Body>

    ghost function State(): Run
      reads this
    {
      Run(started, messageDone, messageDelta, calls, blocks, pending, counts, received, sent)
    }

    /** The run so far, and what decides with it about the next event. */
    ghost function View(): Control
      reads this
    {
      Control(State(), pendingBytes, rawBytes, restoredBytes, totalItems, sequence, sequenceMode)
    }

    ghost predicate Valid()
      reads this
    {
      && Sound(State(), totalItems, env)
      && restoredBytes == RunBytes(State(), env.auth) <= env.maxOutputBytes
      && !terminal
    }

    constructor (env: Environment)
      ensures Valid() && this.env == env && sent == [] && received == []
      ensures sequenceMode == None && sequence == -1 && View() == OPENING
    {
      hide Sound;
      this.env := env;
      started, terminal, messageDone, messageDelta := false, false, false, None;
      pending, blocks, sent, received := [], [], [], [];
      pendingBytes, rawBytes, restoredBytes := 0, 0, 0;
      sequence, sequenceMode := -1, None;
      totalItems, calls := 0, {};
      counts := NOTHING;
      SoundNew(env);
    }

    /** The machine is still running; `received` and `sent` have grown by exactly this step. */
    twostate predicate Continues(new e: Event, new r: Result<seq<Body>, Error>)
      reads this
    {
      r.Ok? ==> Valid() && received == old(received) + [e.body] && sent == old(sent) + r.value
    }

    /** The event's number, or its lack of one, fits those before it. */
    twostate predicate InStep(new e: Event)
      reads this
    {
      && sequenceMode == Some(e.sequence.Some?)
      && (old(sequenceMode).Some? ==> sequenceMode == old(sequenceMode))
      && if e.sequence.Some? then e.sequence.value > old(sequence) && sequence == e.sequence.value else sequence == old(sequence)
    }

    // ---------- Shared checks ----------

    method Observe(e: Event) returns (ok: bool)
      modifies this`sequenceMode, this`sequence
      ensures ok <==> old(View().Numbered(e) && !terminal)
      ensures ok ==> InStep(e) && View() == old(View()).Observed(e)
    {
      if sequenceMode.None? {
        sequenceMode := Some(e.sequence.Some?);
      } else if e.sequence.Some? != sequenceMode.value {
        return false;
      }
      if e.sequence.Some? {
        if e.sequence.value <= sequence {
          return false;
        }
        sequence := e.sequence.value;
      }
      return !terminal;
    }

    predicate Located(index: int)
      reads this
    {
      0 <= index < env.maxItems && index < |blocks| && !blocks[index].done
    }

    method CountRaw(text: string) returns (ok: bool)
      modifies this`rawBytes
      ensures rawBytes == old(rawBytes) + Utf8Length(text)
      ensures ok <==> old(View()).RawFits(text, env)
    {
      rawBytes := rawBytes + Utf8Length(text);
      ok := rawBytes <= env.maxOutputBytes;
    }

    /** Keeps an executable event private. */
    method Hold(e: Event) returns (ok: bool)
      modifies this`pendingBytes, this`pending
      ensures ok <==> old(View()).HeldFits(e, env)
      ensures ok ==> pending == old(pending) + [e.body] && pendingBytes == old(pendingBytes) + env.eventSize(e)
    {
      pendingBytes := pendingBytes + env.eventSize(e);
      ok := pendingBytes <= env.maxOutputBytes;
      if ok {
        pending := pending + [e.body];
      }
    }

    // ---------- One handler per kind of event ----------

    method HandlePing(e: Event) returns (r: Result<seq<Body>, Error>)
      requires Valid() && e.body.Ping?
      modifies this
      ensures Continues(e, r) && (r.Ok? ==> InStep(e))
      ensures r.Ok? <==> old(View()).Numbered(e)
      ensures r.Ok? ==> r.value == [e.body] && View() == old(View()).Passed(e)
    {
      hide Sound, RunBytes;
      var ok := Observe(e);
      if !ok {
        return Err(R.InvalidStream);
      }
      SoundPass(State(), e.body, totalItems, env);
      BytesPass(State(), e.body, env.auth);
      received, sent := received + [e.body], sent + [e.body];
      return Ok([e.body]);
    }

    method HandleMessageStart(e: Event) returns (r: Result<seq<Body>, Error>)
      requires Valid() && e.body.MessageStart?
      modifies this
      ensures Continues(e, r) && (r.Ok? ==> InStep(e))
      ensures r.Ok? <==> old(View()).Numbered(e) && old(View()).Opens(e, env)
      ensures r.Ok? ==> r.value == [e.body] && View() == old(View()).Passed(e)
    {
      hide Sound, RunBytes, CheckMessage;
      var ok := Observe(e);
      if !ok || started {
        return Err(R.InvalidStream);
      }
      var bad := CheckMessage(e.body.message, true, env);
      if bad.Some? {
        return Err(bad.value);
      }
      SoundPass(State(), e.body, totalItems, env);
      BytesPass(State(), e.body, env.auth);
      started := true;
      received, sent := received + [e.body], sent + [e.body];
      return Ok([e.body]);
    }

    method HandleBlockStart(e: Event) returns (r: Result<seq<Body>, Error>)
      requires Valid() && started && !messageDone && e.body.BlockStart?
      modifies this
      ensures Continues(e, r) && (r.Ok? ==> InStep(e))
      ensures r.Ok? <==> old(View()).Numbered(e) && old(View()).Announces(e, env)
      ensures r.Ok? ==>
                && View() == old(View()).Announced(e, env)
                && r.value == if e.body.block.ToolUse? then [] else [e.body]
    {
      hide Sound, RunBytes, CheckBlock;
      var ok := Observe(e);
      if !ok || !(0 <= e.body.index < env.maxItems) {
        return Err(R.InvalidStream);
      }
      var raw := e.body.block;
      var bad := CheckBlock(raw, true, env);
      if bad.Some? {
        return Err(bad.value);
      }
      if e.body.index != |blocks| || (raw.ToolUse? && raw.id in calls) {
        return Err(R.InvalidStream);
      }
      r := StartBlock(e);
    }

    method StartBlock(e: Event) returns (r: Result<seq<Body>, Error>)
      requires Valid() && !messageDone && e.body.BlockStart? && e.body.index == |blocks|
      requires CheckBlock(e.body.block, true, env).None? && (e.body.block.ToolUse? ==> e.body.block.id !in calls)
      modifies this`blocks, this`calls, this`totalItems, this`pending, this`pendingBytes, this`received, this`sent
      ensures Continues(e, r)
      ensures r.Ok? <==> old(totalItems) < env.maxItems && (e.body.block.ToolUse? ==> old(View()).HeldFits(e, env))
      ensures r.Ok? ==>
                && State() == old(State()).Started(e.body.block) && totalItems == old(totalItems) + 1
                && pendingBytes == old(pendingBytes) + (if e.body.block.ToolUse? then env.eventSize(e) else 0)
                && r.value == if e.body.block.ToolUse? then [] else [e.body]
    {
      hide Sound, RunBytes, CheckBlock;
      var raw := e.body.block;
      ghost var next := State().Started(raw);
      SoundStart(State(), raw, totalItems, env);
      BytesStart(State(), raw, env.auth);
      var ok := AddBlock(raw);
      if !ok {
        return Err(R.ItemLimit);
      }
      received := received + [e.body];
      if raw.ToolUse? {
        ok := Hold(e);
        if !ok {
          return Err(R.OutputTooLarge);
        }
        r := Ok([]);
      } else {
        sent := sent + [e.body];
        r := Ok([e.body]);
      }
      assert State() == next;
      assert sent == old(sent) + r.value;
    }

    method AddBlock(raw: Block) returns (ok: bool)
      modifies this`blocks, this`calls, this`totalItems
      ensures blocks == old(blocks) + [BlockState(raw, false, [], OPENED, "")]
      ensures calls == if raw.ToolUse? then old(calls) + {raw.id} else old(calls)
      ensures totalItems == old(totalItems) + 1
      ensures ok <==> totalItems <= env.maxItems
    {
      if raw.ToolUse? {
        calls := calls + {raw.id};
      }
      blocks := blocks + [BlockState(raw, false, [], OPENED, "")];
      totalItems := totalItems + 1;
      ok := totalItems <= env.maxItems;
    }

    /** Feeds one text block and charges what it released. */
    method FeedBlock(k: nat, value: string, final: bool) returns (ok: bool, out: string)
      requires k < |blocks| && restoredBytes <= env.maxOutputBytes
      modifies this`blocks, this`restoredBytes, this`counts
      ensures ok <==> old(View()).TextFits(k, value, final, env)
      ensures var b := old(blocks[k]);
              && out == b.buffer.Feed(value, final, env.auth).1
              && (ok ==>
                    && blocks == old(blocks)[k := Fed(b, value, final, env.auth)]
                    && counts == old(counts).Plus(b.buffer.Share(value, final, env.auth))
                    && restoredBytes == old(restoredBytes) + Utf8Length(out) <= env.maxOutputBytes)
    {
      hide Buffer.Share, Utf8Length, Tally.Plus;
      var b := blocks[k];
      var (after, text) := b.buffer.Feed(value, final, env.auth);
      out := text;
      if Utf8Length(after.raw) > env.maxOutputBytes || Utf8Length(after.text) > env.maxOutputBytes {
        return false, out;
      }
      counts := counts.Plus(b.buffer.Share(value, final, env.auth));
      blocks := blocks[k := b.(buffer := after, done := final)];
      restoredBytes := restoredBytes + Utf8Length(out);
      ok := restoredBytes <= env.maxOutputBytes;
    }

    method HandleText(e: Event) returns (r: Result<seq<Body>, Error>)
      requires Valid() && started && !messageDone && e.body.TextDelta?
      modifies this
      ensures Continues(e, r) && (r.Ok? ==> InStep(e))
      ensures r.Ok? <==> old(View()).Numbered(e) && old(View()).TakesText(e, env)
      ensures r.Ok? ==>
                && r.value == TextOut(old(blocks)[e.body.index], e.body.index, e.body.text, false, env.auth)
                && View() == old(View()).Texted(e, e.body.text, false, env)
    {
      hide Sound, RunBytes, Utf8Length, Buffer.Feed, TextOut, Run.Texted;
      var ok := Observe(e);
      if !ok || !Located(e.body.index) || !blocks[e.body.index].raw.TextBlock? {
        return Err(R.InvalidStream);
      }
      ok := CountRaw(e.body.text);
      if !ok {
        return Err(R.OutputTooLarge);
      }
      r := TakeText(e);
    }

    method TakeText(e: Event) returns (r: Result<seq<Body>, Error>)
      requires Valid() && !messageDone && e.body.TextDelta? && Located(e.body.index) && blocks[e.body.index].raw.TextBlock?
      modifies this`blocks, this`restoredBytes, this`counts, this`received, this`sent
      ensures Continues(e, r)
      ensures r.Ok? <==> old(View()).TextFits(e.body.index, e.body.text, false, env)
      ensures r.Ok? ==>
                restoredBytes
                == old(restoredBytes) + Utf8Length(old(blocks)[e.body.index].buffer.Feed(e.body.text, false, env.auth).1)
      ensures r.Ok? ==>
                && r.value == TextOut(old(blocks[e.body.index]), e.body.index, e.body.text, false, env.auth)
                && State() == old(State()).Texted(e.body.index, e.body.text, false, env.auth)
    {
      hide Sound, RunBytes, Tally.Plus, Buffer.Feed, Buffer.Share, Utf8Length;
      var k, value := e.body.index, e.body.text;
      ghost var out := TextOut(blocks[k], k, value, false, env.auth);
      ghost var next := State().Texted(k, value, false, env.auth);
      SoundText(State(), k, value, false, totalItems, env);
      BytesText(State(), k, value, false, env.auth);
      var ok, text := FeedBlock(k, value, false);
      if !ok {
        return Err(R.OutputTooLarge);
      }
      assert out == if text == "" then [] else [TextDelta(k, text)];
      received, sent := received + [e.body], sent + out;
      assert State() == next;
      return Ok(if text == "" then [] else [TextDelta(k, text)]);
    }

    method HandleJson(e: Event) returns (r: Result<seq<Body>, Error>)
      requires Valid() && started && !messageDone && e.body.JsonDelta?
      modifies this
      ensures Continues(e, r) && (r.Ok? ==> InStep(e))
      ensures r.Ok? <==> old(View()).Numbered(e) && old(View()).TakesJson(e, env)
      ensures r.Ok? ==> r.value == [] && View() == old(View()).Called(e, env)
    {
      hide Sound, RunBytes, Utf8Length;
      var ok := Observe(e);
      if !ok || !Located(e.body.index) || !blocks[e.body.index].raw.ToolUse? {
        return Err(R.InvalidStream);
      }
      ok := CountRaw(e.body.partial);
      if !ok {
        return Err(R.OutputTooLarge);
      }
      r := TakeJson(e);
    }

    method TakeJson(e: Event) returns (r: Result<seq<Body>, Error>)
      requires Valid() && !messageDone && e.body.JsonDelta? && Located(e.body.index) && blocks[e.body.index].raw.ToolUse?
      modifies this`blocks, this`pending, this`pendingBytes, this`received
      ensures Continues(e, r)
      ensures r.Ok? <==> old(View()).HeldFits(e, env)
      ensures r.Ok? ==>
                && r.value == [] && State() == old(State()).Called(e.body.index, e.body)
                && pendingBytes == old(pendingBytes) + env.eventSize(e)
    {
      hide Sound, RunBytes;
      var k, b := e.body.index, blocks[e.body.index];
      ghost var next := State().Called(k, e.body);
      SoundCall(State(), k, e.body, totalItems, env);
      BytesCall(State(), k, e.body, env.auth);
      blocks := blocks[k := b.(chunks := b.chunks + [e.body.partial])];
      var ok := Hold(e);
      if !ok {
        return Err(R.OutputTooLarge);
      }
      received := received + [e.body];
      assert State() == next;
      assert sent + [] == sent;
      return Ok([]);
    }

    method HandleBlockStop(e: Event) returns (r: Result<seq<Body>, Error>)
      requires Valid() && started && !messageDone && e.body.BlockStop?
      modifies this
      ensures Continues(e, r) && (r.Ok? ==> InStep(e))
      ensures r.Ok? <==> old(View()).Numbered(e) && old(View()).Stops(e, env)
      ensures r.Ok? ==>
                var b := old(blocks)[e.body.index];
                && r.value == (if b.raw.ToolUse? then [] else TextOut(b, e.body.index, "", true, env.auth))
                && View() == old(View()).Stopped(e, env)
    {
      hide Sound, RunBytes, Utf8Length, Buffer.Feed, TextOut, Run.Texted;
      NoBytes();
      var ok := Observe(e);
      if !ok || !Located(e.body.index) {
        return Err(R.InvalidStream);
      }
      if blocks[e.body.index].raw.ToolUse? {
        r := StopCall(e);
      } else {
        r := StopText(e);
      }
    }

    method StopCall(e: Event) returns (r: Result<seq<Body>, Error>)
      requires Valid() && !messageDone && e.body.BlockStop? && Located(e.body.index) && blocks[e.body.index].raw.ToolUse?
      modifies this`blocks, this`pending, this`pendingBytes, this`received
      ensures Continues(e, r)
      ensures r.Ok? <==> old(View()).HeldFits(e, env)
      ensures r.Ok? ==>
                && r.value == [] && State() == old(State()).Called(e.body.index, e.body)
                && pendingBytes == old(pendingBytes) + env.eventSize(e)
    {
      hide Sound, RunBytes;
      var k := e.body.index;
      ghost var next := State().Called(k, e.body);
      SoundCall(State(), k, e.body, totalItems, env);
      BytesCall(State(), k, e.body, env.auth);
      blocks := blocks[k := blocks[k].(done := true)];
      var ok := Hold(e);
      if !ok {
        return Err(R.OutputTooLarge);
      }
      received := received + [e.body];
      assert State() == next;
      assert sent + [] == sent;
      return Ok([]);
    }

    method StopText(e: Event) returns (r: Result<seq<Body>, Error>)
      requires Valid() && !messageDone && e.body.BlockStop? && Located(e.body.index) && blocks[e.body.index].raw.TextBlock?
      modifies this`blocks, this`restoredBytes, this`counts, this`received, this`sent
      ensures Continues(e, r)
      ensures r.Ok? <==> old(View()).TextFits(e.body.index, "", true, env)
      ensures r.Ok? ==>
                && restoredBytes
                   == old(restoredBytes) + Utf8Length(old(blocks)[e.body.index].buffer.Feed("", true, env.auth).1)
                && r.value == TextOut(old(blocks)[e.body.index], e.body.index, "", true, env.auth)
                && State() == old(State()).Texted(e.body.index, "", true, env.auth)
    {
      hide Sound, RunBytes, Tally.Plus, Buffer.Feed, Buffer.Share, Utf8Length;
      var k := e.body.index;
      ghost var out := TextOut(blocks[k], k, "", true, env.auth);
      ghost var next := State().Texted(k, "", true, env.auth);
      SoundText(State(), k, "", true, totalItems, env);
      BytesText(State(), k, "", true, env.auth);
      var ok, text := FeedBlock(k, "", true);
      if !ok {
        return Err(R.OutputTooLarge);
      }
      var first := if text == "" then [] else [TextDelta(k, text)];
      assert out == first + [e.body];
      received, sent := received + [e.body], sent + out;
      assert State() == next;
      return Ok(first + [e.body]);
    }

    /** Restores the stop explanation within what is left of the budget. */
    method RestoreExplanation(stop: Stop) returns (ok: bool, shown: Stop)
      requires restoredBytes <= env.maxOutputBytes
      modifies this`restoredBytes, this`counts
      ensures ok <==> old(View()).StopFits(stop, env)
      ensures ok ==>
                && shown == RestoreStop(stop, env.auth)
                && counts == old(counts).Plus(StopTally(stop, env.auth))
                && restoredBytes == old(restoredBytes) + B.StopBytes(stop, env.auth) <= env.maxOutputBytes
    {
      hide Restored, TallyOf, Lex, Tally.Plus, Utf8Length, ByAnswer, RestorationOutcome.Counts;
      PlusLaws(counts, NOTHING, NOTHING);
      if !Explained(stop) {
        return true, stop;
      }
      var details := stop.details.value;
      var restored := RestoreText(env.auth, details.explanation.value, env.maxOutputBytes - restoredBytes);
      if restored.Err? {
        assert restored.error == NegativeBudget || restored.error == OutputTooLarge;
        return false, stop;
      }
      shown := stop.(details := Some(details.(explanation := Some(restored.value.text))));
      restoredBytes := restoredBytes + Utf8Length(restored.value.text);
      counts := counts.Plus(
        Tally(restored.value.restored, restored.value.refusedUnknown, restored.value.refusedNotMinted,
              restored.value.refusedCrossTenant, restored.value.refusedKeyUnavailable,
              multiset(restored.value.refusedTokens)));
      CountsAre(restored.value);
      ok := restoredBytes <= env.maxOutputBytes;
    }

    lemma CountsAre(outcome: RestorationOutcome)
      ensures outcome.Counts()
              == Tally(outcome.restored, outcome.refusedUnknown, outcome.refusedNotMinted,
                       outcome.refusedCrossTenant, outcome.refusedKeyUnavailable, multiset(outcome.refusedTokens))
    {
    }

    method HandleMessageDelta(e: Event) returns (r: Result<seq<Body>, Error>)
      requires Valid() && started && !messageDone && e.body.MessageDelta?
      modifies this
      ensures Continues(e, r) && (r.Ok? ==> InStep(e))
      ensures r.Ok? <==> old(View()).Numbered(e) && old(View()).Closes(e, env)
      ensures r.Ok? ==> r.value == [] && View() == old(View()).Closed(e, env)
    {
      hide Sound, RunBytes, RestoreStop, StopTally, Tally.Plus, CheckStop, Utf8Length, Restored;
      OpenHasNoDelta();
      var ok := Observe(e);
      if !ok {
        return Err(R.InvalidStream);
      }
      var stop := e.body.stop;
      var bad := CheckStop(stop, env);
      if bad.Some? {
        return Err(bad.value);
      }
      if !env.controlsOk(e.body.usage) || messageDelta.Some? || exists k | 0 <= k < |blocks| :: !blocks[k].done {
        return Err(R.InvalidStream);
      }
      if calls != {} && stop.reason != "tool_use" {
        return Err(R.UpstreamFailed);
      }
      r := TakeStop(e);
    }

    /** While the message is open its stop is not known. */
    lemma OpenHasNoDelta()
      requires Valid()
      ensures messageDone == messageDelta.Some? == StopIn(received).Some?
    {
      hide RunInv, CountsInv, Checked, RestoreStop, OpenedBy, StopIn;
    }

    method TakeStop(e: Event) returns (r: Result<seq<Body>, Error>)
      requires Valid() && !messageDone && e.body.MessageDelta? && CheckStop(e.body.stop, env).None?
      requires forall k | 0 <= k < |blocks| :: blocks[k].done
      requires calls != {} ==> e.body.stop.reason == "tool_use"
      modifies this`messageDelta, this`messageDone, this`restoredBytes, this`counts, this`received
      ensures Continues(e, r)
      ensures r.Ok? <==> old(View()).StopFits(e.body.stop, env)
      ensures r.Ok? ==>
                && r.value == [] && State() == old(State()).Closed(e.body, env.auth)
                && restoredBytes == old(restoredBytes) + B.StopBytes(e.body.stop, env.auth)
    {
      hide Sound, RunBytes, RestoreStop, StopTally, Tally.Plus, CheckStop;
      ghost var next := State().Closed(e.body, env.auth);
      SoundEnd(State(), e.body, totalItems, env);
      OpenHasNoDelta();
      BytesClose(State(), e.body, env.auth);
      var ok, shown := RestoreExplanation(e.body.stop);
      if !ok {
        return Err(R.OutputTooLarge);
      }
      messageDelta := Some(MessageDelta(shown, e.body.usage));
      messageDone := true;
      received := received + [e.body];
      assert State() == next;
      assert sent + [] == sent;
      return Ok([]);
    }

    method Handle(e: Event) returns (r: Result<seq<Body>, Error>)
      requires Valid() || terminal
      modifies this
      ensures Continues(e, r) && (r.Ok? ==> InStep(e))
      ensures old(terminal) ==> r.Err?
      ensures !old(terminal) && !e.body.MessageStop? ==> (r.Ok? <==> old(View()).Accepts(e, env))
      ensures r.Ok? ==> InStep(e) && !e.body.MessageStop? && View() == old(View()).Next(e, env)
    {
      hide Sound, RunBytes, Control.Numbered, Control.Opens, Control.Announces, Control.TakesText, Control.TakesJson;
      hide Control.Stops, Control.Closes, Control.Passed, Control.Announced, Control.Texted, Control.Called, Control.Stopped, Control.Closed;
      if e.body.Failed? {
        return Err(R.UpstreamFailed);
      }
      if terminal {
        return Err(R.InvalidStream);
      }
      if e.body.Ping? {
        r := HandlePing(e);
      } else if e.body.MessageStart? {
        r := HandleMessageStart(e);
      } else if !started || messageDone {
        r := Err(R.InvalidStream);
      } else {
        match e.body
        case BlockStart(_, _) => r := HandleBlockStart(e);
        case TextDelta(_, _) => r := HandleText(e);
        case JsonDelta(_, _) => r := HandleJson(e);
        case BlockStop(_) => r := HandleBlockStop(e);
        case MessageDelta(_, _) => r := HandleMessageDelta(e);
        case MessageStop => r := Err(R.InvalidStream);
        case _ => r := Err(R.UnsupportedEvent);
      }
    }

    // ---------- The end of the run ----------

    /** Restores every call in block order; one refusal refuses the whole batch. */
    method RestoreCalls() returns (ok: Result<(), Error>)
      requires restoredBytes <= env.maxOutputBytes
      modifies this`blocks, this`counts, this`restoredBytes
      ensures ok.Ok? <==>
                && (forall k | 0 <= k < |old(blocks)| :: CallAccepted(old(blocks)[k], env))
                && old(restoredBytes) + ToolBytes(old(blocks), env) <= env.maxOutputBytes
      ensures ok.Ok? ==>
                && |blocks| == |old(blocks)|
                && (forall k | 0 <= k < |blocks| :: blocks[k] == WithRestored(old(blocks)[k], env))
                && counts == old(counts).Plus(ToolTally(old(blocks), env))
                && restoredBytes == old(restoredBytes) + ToolBytes(old(blocks), env) <= env.maxOutputBytes
    {
      hide Tally.Plus, ToolShare, ToolSize, WithRestored, Utf8Length, ArgumentsOf, CallAccepted;
      ghost var before, counted := blocks, counts;
      PlusLaws(counts, NOTHING, NOTHING);
      assert ToolTally(before[..0], env) == NOTHING && ToolBytes(before[..0], env) == 0;
      hide ToolTally, ToolBytes;
      var k := 0;
      while k < |blocks|
        invariant 0 <= k <= |blocks| == |before|
        invariant forall j | 0 <= j < k :: blocks[j] == WithRestored(before[j], env) && CallAccepted(before[j], env)
        invariant forall j | k <= j < |blocks| :: blocks[j] == before[j]
        invariant counts == counted.Plus(ToolTally(before[..k], env))
        invariant restoredBytes == old(restoredBytes) + ToolBytes(before[..k], env) <= env.maxOutputBytes
      {
        var b := blocks[k];
        ToolTallySnoc(before, k, env);
        ToolBytesSnoc(before, k, env);
        PlusLaws(counted, ToolTally(before[..k], env), ToolShare(b, env));
        ok := RestoreCall(k);
        if ok.Err? {
          return;
        }
        k := k + 1;
      }
      assert before[..k] == before;
      return Ok(());
    }

    method RestoreCall(k: nat) returns (ok: Result<(), Error>)
      requires k < |blocks| && restoredBytes <= env.maxOutputBytes
      modifies this`blocks, this`counts, this`restoredBytes
      ensures ok.Ok? <==>
                CallAccepted(old(blocks)[k], env) && old(restoredBytes) + ToolSize(old(blocks)[k], env) <= env.maxOutputBytes
      ensures ok.Ok? ==>
                var b := old(blocks)[k];
                && blocks == old(blocks)[k := WithRestored(b, env)]
                && counts == old(counts).Plus(ToolShare(b, env))
                && restoredBytes == old(restoredBytes) + ToolSize(b, env)
    {
      hide Tally.Plus, Utf8Length;
      var b := blocks[k];
      PlusLaws(counts, NOTHING, NOTHING);
      if !b.raw.ToolUse? {
        return Ok(());
      }
      if env.parse(ArgumentsOf(b)).None? {
        return Err(R.InvalidStream);
      }
      var result := StateTool(b, env);
      if result.ToolRefused? {
        return Err(R.ToolFailed);
      }
      if env.parse(result.arguments).None? {
        return Err(R.InvalidStream);
      }
      blocks := blocks[k := b.(restored := result.arguments)];
      restoredBytes := restoredBytes + Utf8Length(result.arguments);
      if restoredBytes > env.maxOutputBytes {
        return Err(R.OutputTooLarge);
      }
      counts := counts.Plus(NOTHING.(restored := result.restored));
      return Ok(());
    }

    /** Rewrites the held events: one delta with everything, however many came in. */
    method RewritePending() returns (released: seq<Body>)
      requires HeldOk(blocks, pending)
      ensures released == ReleaseAll(pending, blocks, {})
    {
      hide ReleaseOne, Index;
      released := [];
      var deltaSent: set<int> := {};
      var j := 0;
      assert pending[0..] == pending;
      while j < |pending|
        invariant 0 <= j <= |pending| && HeldOk(blocks, pending[j..])
        invariant released + ReleaseAll(pending[j..], blocks, deltaSent) == ReleaseAll(pending, blocks, {})
      {
        var b := pending[j];
        assert b in pending && pending[j..][0] == b && pending[j..][1..] == pending[j + 1..];
        var k := Index(b);
        var (out, now) := ReleaseOne(b, blocks[k].restored, k in deltaSent);
        released := released + out;
        if now {
          deltaSent := deltaSent + {k};
        }
        j := j + 1;
      }
    }

    /** The stream ends well: every call is restored, and the calls leave before the message's own end. */
    method Complete(e: Event) returns (r: Result<seq<Body>, Error>)
      requires (Valid() || terminal) && e.body.MessageStop?
      modifies this
      ensures old(terminal) ==> r.Err?
      ensures r.Ok? ==> InStep(e)
      ensures !old(terminal) ==> (r.Ok? <==> old(View()).Accepts(e, env))
      ensures r.Ok? ==> old(Valid()) && terminal && sent == old(sent) && received == old(received) && CompletedBy(r.value)
    {
      hide Sound, RunBytes, ToolBytes, CallAccepted, StateCalls, CompletedBy;
      var ok := Observe(e);
      if !ok {
        return Err(R.InvalidStream);
      }
      if !started || !messageDone {
        return Err(R.TruncatedStream);
      }
      r := ReleaseTools(e);
    }

    /** Validates the whole batch, restores every call and rewrites what was held. */
    method ReleaseTools(e: Event) returns (r: Result<seq<Body>, Error>)
      requires Valid() && started && messageDone && e.body.MessageStop?
      modifies this`blocks, this`counts, this`restoredBytes, this`terminal
      ensures r.Ok? <==>
                && env.batchOk(StateCalls(old(blocks)))
                && (forall k | 0 <= k < |old(blocks)| :: CallAccepted(old(blocks)[k], env))
                && old(restoredBytes) + ToolBytes(old(blocks), env) <= env.maxOutputBytes
      ensures r.Ok? ==> terminal && CompletedBy(r.value)
    {
      hide Sound, RestoreStop, StopTally, Tally.Plus, ToolTally, ReleaseAll, CallAccepted, WithRestored, OpenedBy, StopIn, StateCalls;
      hide ProseBytes, ExtraBytes, RunBytes, ToolBytes, Checked, StartsChecked, CallsApart, EndsChecked, RunInv, AllCompleted, HeadInv, NoCalls, Extra, HeldOk, ProseTally;
      if !env.batchOk(StateCalls(blocks)) {
        return Err(R.ToolFailed);
      }
      SoundParts(State(), totalItems, env);
      CheckedParts(State(), totalItems, env);
      KeptAtEnd(State(), env.auth);
      BytesSplit(State(), env.auth);
      ghost var before := blocks;
      var restored := RestoreCalls();
      if restored.Err? {
        return Err(restored.error);
      }
      CompleteRun(before, blocks, received, sent, pending, env);
      SameCalls(before, blocks, env);
      CheckedRestored(before, State(), totalItems, env);
      CountsComplete(before, blocks, env, counts, Extra(received, env.auth));
      BytesRestored(before, blocks, env);
      var released := RewritePending();
      terminal := true;
      return Ok(released + [messageDelta.value, e.body]);
    }

    /** The state in which an accepted run ends, and what it released. */
    ghost predicate CompletedBy(released: seq<Body>)
      reads this
    {
      && OpenedBy(received).Some? && StopIn(received).Some?
      && HeldOk(blocks, pending) && HeadInv(|blocks|, received, sent, pending)
      && AllCompleted(blocks, received, sent, pending, env)
      && counts == ProseTally(blocks).Plus(ToolTally(blocks, env)).Plus(Extra(received, env.auth))
      && restoredBytes == ProseBytes(blocks) + ExtraBytes(received, env.auth) + ToolBytes(blocks, env) <= env.maxOutputBytes
      && messageDelta.Some? && messageDelta.value.MessageDelta?
      && released == Released(pending, blocks, StopIn(received).value, messageDelta.value.usage, env.auth)
      && (StopIn(received).value.reason == "tool_use" || NoCalls(blocks))
      && env.batchOk(StateCalls(blocks))
      && Checked(State(), totalItems, env)
    }
  }
}
