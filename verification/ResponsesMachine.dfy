/** The Responses event machine: prose leaves as it is restored, executable events wait for the whole run. */
module ResponsesMachine {
  import opened Text
  import opened Tokens
  import opened Restoration
  import opened TokenStream
  import opened ResponsesProtocol
  import opened BufferedResponse
  import opened ResponsesInvariants
  import opened ResponsesRelease
  import opened ResponsesShown
  import opened ResponsesPlay

  lemma RestoredOnly(items: seq<ItemState>, env: Environment)
    ensures var items' := AllRestored(items, env);
            forall k | 0 <= k < |items| ::
              && items'[k].raw == items[k].raw && items'[k].parts == items[k].parts
              && (!items[k].raw.ToolCall? ==> items'[k] == items[k])
  {
  }

  class Responses {
    const env: Environment
    var started: bool
    var terminal: bool
    var pending: seq<Body>
    var pendingBytes: nat
    var rawBytes: nat
    var restoredBytes: nat
    var sequence: int
    var sequenceMode: Option<bool>
    var sequenced: bool
    var emitSequence: nat
    var totalItems: nat
    var responseId: Option<string>
    var items: seq<ItemState>
    var ids: set<string>
    var calls: set<string>
    var inProgress: bool
    var counts: Tally
    ghost var sent: seq<Body>

    /** What decides about the next event. */
    ghost function View(): Control
      reads this
    {
      Control(started, inProgress, responseId, items, ids, calls, pendingBytes, rawBytes, restoredBytes, totalItems,
              sequence, sequenceMode)
    }

    ghost predicate Valid()
      reads this
    {
      && RunInv(items, pending, sent, Ledger(counts, restoredBytes), env.auth)
      && ShownInv(items, sent)
      && restoredBytes <= env.maxOutputBytes
      && sequenced == (sequenceMode == Some(true))
      && (sequenceMode.None? ==> sent == [])
      && !terminal
    }

    constructor (env: Environment)
      ensures Valid() && this.env == env && sent == [] && emitSequence == 0
      ensures sequenceMode == None && sequence == -1 && View() == OPENING
    {
      this.env := env;
      started, terminal, inProgress := false, false, false;
      pending, items, sent := [], [], [];
      pendingBytes, rawBytes, restoredBytes := 0, 0, 0;
      sequence, sequenceMode, sequenced, emitSequence := -1, None, false, 0;
      totalItems, responseId := 0, None;
      ids, calls := {}, {};
      counts := NOTHING;
      RunStarts(env.auth);
      ShownStarts();
    }

    /** The machine is still running, and `sent` has grown by exactly what the step returned. */
    twostate predicate Continues(new r: Result<seq<Body>, Error>)
      reads this
    {
      r.Ok? ==>
        && Valid() && sequenceMode.Some?
        && sent == old(sent) + r.value
        && (old(sequenceMode).Some? ==> sequenceMode == old(sequenceMode))
        && emitSequence == old(emitSequence)
    }

    /** The event's number, or its lack of one, fits those before it. */
    twostate predicate InStep(new e: Event)
      reads this
    {
      && sequenceMode == Some(e.sequence.Some?)
      && (old(sequenceMode).Some? ==> sequenceMode == old(sequenceMode))
      && if e.sequence.Some? then e.sequence.value > old(sequence) && sequence == e.sequence.value else sequence == old(sequence)
    }

    // ---------- Shared checks ----------

    method Observe(e: Event) returns (ok: bool)
      modifies this`sequenceMode, this`sequence, this`sequenced
      ensures ok <==> old(View().Numbered(e) && !terminal)
      ensures ok ==> InStep(e) && View() == old(View()).Observed(e)
      ensures ok && old(sequenced == (sequenceMode == Some(true))) ==> sequenced == (sequenceMode == Some(true))
    {
      if sequenceMode.None? {
        sequenceMode := Some(e.sequence.Some?);
      } else if e.sequence.Some? != sequenceMode.value {
        return false;
      }
      if e.sequence.Some? {
        if e.sequence.value <= sequence {
          return false;
        }
        sequence := e.sequence.value;
        sequenced := true;
      }
      return !terminal;
    }

    predicate InRange(index: int) {
      0 <= index < env.maxItems
    }

    predicate Located(index: int, itemId: string)
      reads this
    {
      InRange(index) && index < |items| && !items[index].done && itemId == items[index].raw.id
    }

    method AddItem() returns (ok: bool)
      modifies this`totalItems
      ensures ok <==> totalItems <= env.maxItems
      ensures totalItems == old(totalItems) + 1
    {
      totalItems := totalItems + 1;
      ok := totalItems <= env.maxItems;
    }

    method CountRaw(text: string) returns (ok: bool)
      modifies this`rawBytes
      ensures rawBytes == old(rawBytes) + Utf8Length(text)
      ensures ok <==> old(View()).RawFits(text, env)
    {
      rawBytes := rawBytes + Utf8Length(text);
      ok := rawBytes <= env.maxOutputBytes;
    }

    /** Keeps an executable event private. */
    method Hold(e: Event) returns (ok: bool)
      modifies this`pendingBytes, this`pending
      ensures ok <==> old(View()).HeldFits(e, env)
      ensures ok ==> pending == old(pending) + [e.body] && pendingBytes == old(pendingBytes) + env.eventSize(e)
    {
      pendingBytes := pendingBytes + env.eventSize(e);
      ok := pendingBytes <= env.maxOutputBytes;
      if ok {
        pending := pending + [e.body];
      }
    }

    // ---------- One handler per kind of event ----------

    method HandleOpening(e: Event) returns (r: Result<seq<Body>, Error>)
      requires Valid() && (e.body.Created? || e.body.InProgress?)
      modifies this
      ensures Continues(r) && (r.Ok? ==> InStep(e))
      ensures r.Ok? <==> old(View()).Numbered(e) && old(View()).Opens(e, env)
      ensures r.Ok? ==> r.value == [e.body] && pending == old(pending) && View() == old(View()).Opened(e)
    {
      hide ShownInv, RunInv, CheckResponse;
      var ok := Observe(e);
      if !ok {
        return Err(InvalidStream);
      }
      var response := e.body.response;
      var bad := CheckResponse(response, false, env);
      if bad.Some? {
        return Err(bad.value);
      }
      if response.output != [] {
        return Err(InvalidStream);
      }
      if e.body.Created? {
        if started {
          return Err(InvalidStream);
        }
        started := true;
        responseId := Some(response.id);
      } else if !started || inProgress || items != [] {
        return Err(InvalidStream);
      } else {
        inProgress := true;
      }
      if Some(response.id) != responseId {
        return Err(InvalidStream);
      }
      RunPass(items, pending, sent, Ledger(counts, restoredBytes), env.auth, e.body);
      ShowPass(items, sent, e.body);
      sent := sent + [e.body];
      return Ok([e.body]);
    }

    method HandleItemAdded(e: Event) returns (r: Result<seq<Body>, Error>)
      requires Valid() && e.body.ItemAdded?
      modifies this
      ensures Continues(r) && (r.Ok? ==> InStep(e))
      ensures r.Ok? <==> old(View()).Numbered(e) && old(View()).Announces(e, env)
      ensures r.Ok? ==> Announced(e, r)
    {
      hide ShownInv, RunInv, CheckItem;
      var ok := Observe(e);
      if !ok || !InRange(e.body.index) {
        return Err(InvalidStream);
      }
      var item := e.body.item;
      var bad := CheckItem(item, false, env.maxItems);
      if bad.Some? {
        return Err(bad.value);
      }
      if e.body.index != |items| || item.id in ids {
        return Err(InvalidStream);
      }
      if (item.Message? && item.content != []) || (item.ToolCall? && (item.arguments != "" || item.callId in calls)) {
        return Err(InvalidStream);
      }
      r := Announce(e);
    }

    /** The item is there, untouched; prose was passed on, a call was held. */
    twostate predicate Announced(new e: Event, new r: Result<seq<Body>, Error>)
      requires e.body.ItemAdded?
      reads this
    {
      && View() == old(View()).Announced(e, env)
      && if e.body.item.ToolCall? then r == Ok([]) && pending == old(pending) + [e.body]
         else r == Ok([e.body]) && pending == old(pending)
    }

    method Announce(e: Event) returns (r: Result<seq<Body>, Error>)
      requires Valid() && sequenceMode.Some? && e.body.ItemAdded? && e.body.index == |items| && View() == View().Observed(e)
      modifies this`items, this`ids, this`calls, this`totalItems, this`pending, this`pendingBytes, this`sent
      ensures Continues(r)
      ensures r.Ok? <==> old(totalItems) < env.maxItems && (e.body.item.ToolCall? ==> old(View()).HeldFits(e, env))
      ensures r.Ok? ==> Announced(e, r)
    {
      hide ShownInv, RunInv;
      var item := e.body.item;
      var state := ItemState(item, false, [], "", [], false, "", None);
      RunAdd(items, pending, sent, Ledger(counts, restoredBytes), env.auth, state);
      ShowAdd(items, sent, state);
      var ok := AddState(state);
      if !ok {
        return Err(ItemLimit);
      }
      if item.ToolCall? {
        ok := Hold(e);
        if !ok {
          return Err(Error.OutputTooLarge);
        }
        r := Ok([]);
      } else {
        sent := sent + [e.body];
        r := Ok([e.body]);
      }
      assert sent == old(sent) + r.value;
    }

    method AddState(state: ItemState) returns (ok: bool)
      modifies this`items, this`ids, this`calls, this`totalItems
      ensures items == old(items) + [state]
      ensures ids == old(ids) + {state.raw.id}
      ensures calls == if state.raw.ToolCall? then old(calls) + {state.raw.callId} else old(calls)
      ensures totalItems == old(totalItems) + 1
      ensures ok <==> totalItems <= env.maxItems
    {
      ids := ids + {state.raw.id};
      if state.raw.ToolCall? {
        calls := calls + {state.raw.callId};
      }
      items := items + [state];
      ok := AddItem();
    }

    method HandlePartAdded(e: Event) returns (r: Result<seq<Body>, Error>)
      requires Valid() && e.body.PartAdded?
      modifies this
      ensures Continues(r) && (r.Ok? ==> InStep(e))
      ensures r.Ok? <==> old(View()).Numbered(e) && old(View()).OpensPart(e, env)
      ensures r.Ok? ==> r.value == [e.body] && pending == old(pending) && View() == old(View()).PartOpened(e, env)
    {
      hide ShownInv, RunInv;
      var ok := Observe(e);
      var k, index, part := e.body.index, e.body.contentIndex, e.body.part;
      if !ok || !Located(k, e.body.itemId) || !PartOk(part) || !InRange(index) {
        return Err(InvalidStream);
      }
      var s := items[k];
      if !s.raw.Message? || index != |s.parts| || part.text != "" {
        return Err(InvalidStream);
      }
      var after := s.(parts := s.parts + [PartState(part, OPENED, false)]);
      ShowOpenPart(items, sent, k, part);
      RunOpenPart(items, pending, sent, Ledger(counts, restoredBytes), env.auth, k, part, e.body);
      items := items[k := after];
      ok := AddItem();
      if !ok {
        return Err(ItemLimit);
      }
      sent := sent + [e.body];
      return Ok([e.body]);
    }

    method HandlePartDone(e: Event) returns (r: Result<seq<Body>, Error>)
      requires Valid() && e.body.PartDone?
      modifies this
      ensures Continues(r) && (r.Ok? ==> InStep(e))
      ensures r.Ok? <==> old(View()).Numbered(e) && old(View()).ClosesPart(e, env)
      ensures r.Ok? ==>
                var s, p := old(items)[e.body.index], e.body.contentIndex;
                && pending == old(pending) && View() == old(View()).PartClosed(e, env)
                && r.value == [PartDone(e.body.index, e.body.itemId, p, e.body.part.(text := s.parts[p].buffer.text))]
    {
      hide ShownInv, RunInv;
      var ok := Observe(e);
      var k, index, part := e.body.index, e.body.contentIndex, e.body.part;
      if !ok || !Located(k, e.body.itemId) || !PartOk(part) || !InRange(index) {
        return Err(InvalidStream);
      }
      var s := items[k];
      if !s.raw.Message? || index >= |s.parts| {
        return Err(InvalidStream);
      }
      var tracked := s.parts[index];
      if tracked.done || !tracked.buffer.closed || part.refusal != tracked.raw.refusal {
        return Err(InvalidStream);
      }
      if part.text != tracked.buffer.raw {
        return Err(SnapshotMismatch);
      }
      var after := s.(parts := s.parts[index := PartState(part, tracked.buffer, true)]);
      var shown := PartDone(k, e.body.itemId, index, part.(text := tracked.buffer.text));
      ShowClosePart(items, sent, k, index, part);
      RunClosePart(items, pending, sent, Ledger(counts, restoredBytes), env.auth, k, index, part, shown);
      items := items[k := after];
      sent := sent + [shown];
      return Ok([shown]);
    }

    /** Feeds one block and charges what it released. */
    method FeedPart(k: nat, p: nat, value: string, final: bool) returns (ok: bool, out: string)
      requires k < |items| && p < |items[k].parts| && restoredBytes <= env.maxOutputBytes
      modifies this`items, this`restoredBytes, this`counts
      ensures ok <==> old(View()).TextFits(k, p, value, final, env)
      ensures var buffer := old(items[k].parts[p].buffer);
              && out == buffer.Feed(value, final, env.auth).1
              && (ok ==>
                    && items == old(items)[k := Fed(old(items)[k], p, value, final, env.auth)]
                    && Ledger(counts, restoredBytes)
                       == Ledger(old(counts), old(restoredBytes)).Plus(
                            Ledger(buffer.Share(value, final, env.auth), Utf8Length(out)))
                    && restoredBytes == old(restoredBytes) + Utf8Length(out) <= env.maxOutputBytes)
    {
      hide Buffer.Share, Utf8Length, Tally.Plus;
      var s := items[k];
      var buffer := s.parts[p].buffer;
      var (after, text) := buffer.Feed(value, final, env.auth);
      out := text;
      if Utf8Length(after.raw) > env.maxOutputBytes || Utf8Length(after.text) > env.maxOutputBytes {
        return false, out;
      }
      counts := counts.Plus(buffer.Share(value, final, env.auth));
      items := items[k := s.(parts := s.parts[p := s.parts[p].(buffer := after)])];
      restoredBytes := restoredBytes + Utf8Length(out);
      ok := restoredBytes <= env.maxOutputBytes;
    }

    method HandleText(e: Event) returns (r: Result<seq<Body>, Error>)
      requires Valid() && (e.body.TextDelta? || e.body.TextDone?)
      modifies this
      ensures Continues(r) && (r.Ok? ==> InStep(e))
      ensures r.Ok? <==> old(View()).Numbered(e) && old(View()).TakesText(e, env)
      ensures r.Ok? ==> Spoken(e, r) && View() == old(View()).Spoken(e, env)
    {
      hide ShownInv, RunInv, Utf8Length, Buffer.Feed;
      var ok := Observe(e);
      var k, p := e.body.index, e.body.contentIndex;
      if !ok || !Located(k, e.body.itemId) || !InRange(p) {
        return Err(InvalidStream);
      }
      var s := items[k];
      if !s.raw.Message? || p >= |s.parts| {
        return Err(InvalidStream);
      }
      var part := s.parts[p];
      if part.raw.refusal != e.body.refusal || part.done || part.buffer.closed {
        return Err(InvalidStream);
      }
      if e.body.TextDone? && e.body.text != part.buffer.raw {
        return Err(SnapshotMismatch);
      }
      r := Speak(e);
    }

    /** Charges what came in, then passes on what it releases. */
    method Speak(e: Event) returns (r: Result<seq<Body>, Error>)
      requires Valid() && sequenceMode.Some? && (e.body.TextDelta? || e.body.TextDone?)
      requires View().Speaks(e, env) && View() == View().Observed(e)
      modifies this`items, this`rawBytes, this`restoredBytes, this`counts, this`sent
      ensures Continues(r)
      ensures r.Ok? <==>
                && (e.body.TextDelta? ==> old(View()).RawFits(e.body.delta, env))
                && old(View()).TextFits(e.body.index, e.body.contentIndex, Fragment(e), e.body.TextDone?, env)
      ensures r.Ok? ==> Spoken(e, r) && View() == old(View()).Spoken(e, env)
    {
      hide ShownInv, RunInv, Utf8Length, Buffer.Feed, TextOut, Fed;
      NoBytes();
      if e.body.TextDelta? {
        var ok := CountRaw(e.body.delta);
        if !ok {
          return Err(Error.OutputTooLarge);
        }
      }
      r := TakeText(e);
    }

    /** The part has taken the fragment, and what it released was passed on. */
    twostate predicate Spoken(new e: Event, new r: Result<seq<Body>, Error>)
      requires (e.body.TextDelta? || e.body.TextDone?) && old(View()).Speaks(e, env)
      reads this
    {
      var k, p := e.body.index, e.body.contentIndex;
      && items == old(items)[k := Fed(old(items)[k], p, Fragment(e), e.body.TextDone?, env.auth)]
      && r == Ok(TextOut(old(items)[k], k, p, Fragment(e), e.body.TextDone?, env.auth))
      && pending == old(pending)
    }

    method TakeText(e: Event) returns (r: Result<seq<Body>, Error>)
      requires Valid() && sequenceMode.Some? && (e.body.TextDelta? || e.body.TextDone?) && View().Speaks(e, env)
      modifies this`items, this`restoredBytes, this`counts, this`sent
      ensures Continues(r)
      ensures r.Ok? <==> old(View()).TextFits(e.body.index, e.body.contentIndex, Fragment(e), e.body.TextDone?, env)
      ensures r.Ok? ==>
                && Spoken(e, r)
                && restoredBytes == old(restoredBytes) + Utf8Length(
                     old(items)[e.body.index].parts[e.body.contentIndex].buffer.Feed(Fragment(e), e.body.TextDone?, env.auth).1)
    {
      hide ShownInv, RunInv, Buffer.Feed, Buffer.Share, Utf8Length, Ledger.Plus;
      var k, p, fed, final := e.body.index, e.body.contentIndex, Fragment(e), e.body.TextDone?;
      var s := items[k];
      TextStep(items, pending, sent, Ledger(counts, restoredBytes), env.auth, k, p, fed, final);
      ghost var out := TextOut(s, k, p, fed, final, env.auth);
      var ok, text := FeedPart(k, p, fed, final);
      if !ok {
        return Err(Error.OutputTooLarge);
      }
      var delta := TextDelta(k, e.body.itemId, p, e.body.refusal, text);
      var done := TextDone(k, e.body.itemId, p, e.body.refusal, items[k].parts[p].buffer.text);
      var events := if final then if text == "" then [done] else [delta, done]
                    else if text == "" then [] else [delta];
      assert events == out;
      sent := sent + events;
      return Ok(events);
    }

    method HandleArguments(e: Event) returns (r: Result<seq<Body>, Error>)
      requires Valid() && (e.body.ArgsDelta? || e.body.ArgsDone?)
      modifies this
      ensures Continues(r) && (r.Ok? ==> InStep(e))
      ensures r.Ok? <==> old(View()).Numbered(e) && old(View()).TakesArguments(e, env)
      ensures r.Ok? ==> r.value == [] && pending == old(pending) + [e.body] && View() == old(View()).Argued(e, env)
    {
      hide ShownInv, RunInv, Utf8Length;
      var ok := Observe(e);
      var k := e.body.index;
      if !ok || !Located(k, e.body.itemId) {
        return Err(InvalidStream);
      }
      var s := items[k];
      if !s.raw.ToolCall? || s.raw.custom != e.body.custom || s.argsDone {
        return Err(InvalidStream);
      }
      if e.body.ArgsDone? && e.body.value != Join(s.chunks) {
        return Err(SnapshotMismatch);
      }
      r := Argue(e);
    }

    /** Charges what came in, then keeps it private. */
    method Argue(e: Event) returns (r: Result<seq<Body>, Error>)
      requires Valid() && sequenceMode.Some? && (e.body.ArgsDelta? || e.body.ArgsDone?)
      requires View().Argues(e, env) && View() == View().Observed(e)
      modifies this`items, this`rawBytes, this`pending, this`pendingBytes
      ensures Continues(r)
      ensures r.Ok? <==>
                (e.body.ArgsDelta? ==> old(View()).RawFits(e.body.delta, env)) && old(View()).HeldFits(e, env)
      ensures r.Ok? ==> r.value == [] && pending == old(pending) + [e.body] && View() == old(View()).Argued(e, env)
    {
      hide ShownInv, RunInv, Utf8Length;
      if e.body.ArgsDelta? {
        var ok := CountRaw(e.body.delta);
        if !ok {
          return Err(Error.OutputTooLarge);
        }
      }
      r := TakeArguments(e);
    }

    method TakeArguments(e: Event) returns (r: Result<seq<Body>, Error>)
      requires Valid() && sequenceMode.Some? && (e.body.ArgsDelta? || e.body.ArgsDone?) && View().Argues(e, env)
      modifies this`items, this`pending, this`pendingBytes
      ensures Continues(r)
      ensures r.Ok? <==> old(View()).HeldFits(e, env)
      ensures r.Ok? ==>
                && r.value == [] && pending == old(pending) + [e.body]
                && pendingBytes == old(pendingBytes) + env.eventSize(e)
                && items == old(items)[e.body.index := ArguedItem(old(items)[e.body.index], e)]
    {
      hide ShownInv, RunInv;
      var k := e.body.index;
      var after := ArguedItem(items[k], e);
      ShowCall(items, sent, k, after);
      RunArguments(items, pending, sent, Ledger(counts, restoredBytes), env.auth, k, after, e.body);
      items := items[k := after];
      var ok := Hold(e);
      assert sent + [] == sent;
      return if ok then Ok([]) else Err(Error.OutputTooLarge);
    }

    method HandleItemDone(e: Event) returns (r: Result<seq<Body>, Error>)
      requires Valid() && e.body.ItemDone?
      modifies this
      ensures Continues(r) && (r.Ok? ==> InStep(e))
      ensures r.Ok? <==> old(View()).Numbered(e) && old(View()).TakesEnd(e, env)
      ensures r.Ok? ==> Ended(e, r) && View() == old(View()).Ended(e, env)
    {
      hide ShownInv, RunInv, CompareItem, Confirms, ItemSnapshot;
      var ok := Observe(e);
      var k, item := e.body.index, e.body.item;
      if !ok || !InRange(k) || k >= |items| || items[k].done {
        return Err(InvalidStream);
      }
      var s := items[k];
      if s.raw.Message? && exists p | p in s.parts :: !p.done {
        return Err(InvalidStream);
      }
      if s.raw.ToolCall? && !s.argsDone {
        return Err(InvalidStream);
      }
      CompareExactly(item, s, env.maxItems);
      var bad := CompareItem(item, s, env.maxItems);
      if bad.Some? {
        return Err(bad.value);
      }
      r := EndItem(e);
    }

    /** The item keeps the provider's last word; prose shows it restored, a call's end is held. */
    twostate predicate Ended(new e: Event, new r: Result<seq<Body>, Error>)
      requires e.body.ItemDone? && old(View()).Ends(e, env)
      reads this
    {
      var k := e.body.index;
      var after := old(items)[k].(final := Some(e.body.item), done := true);
      && items == old(items)[k := after]
      && if after.raw.ToolCall? then r == Ok([]) && pending == old(pending) + [e.body]
         else r == Ok([ItemDone(k, ItemSnapshot(after, true))]) && pending == old(pending)
    }

    method EndItem(e: Event) returns (r: Result<seq<Body>, Error>)
      requires Valid() && sequenceMode.Some? && e.body.ItemDone? && View().Ends(e, env)
      modifies this`items, this`pending, this`pendingBytes, this`sent
      ensures Continues(r)
      ensures r.Ok? <==> (old(items)[e.body.index].raw.ToolCall? ==> old(View()).HeldFits(e, env))
      ensures r.Ok? ==>
                && Ended(e, r)
                && pendingBytes == old(pendingBytes) + (if old(items)[e.body.index].raw.ToolCall? then env.eventSize(e) else 0)
    {
      hide ShownInv, RunInv, CompareItem, Confirms, ItemSnapshot;
      var k, item := e.body.index, e.body.item;
      var s := items[k];
      var after := s.(final := Some(item), done := true);
      var shown := ItemDone(k, ItemSnapshot(after, true));
      ShowCloseItem(items, sent, k, after);
      RunClose(items, pending, sent, Ledger(counts, restoredBytes), env, k, item);
      items := items[k := after];
      if s.raw.ToolCall? {
        var ok := Hold(e);
        assert sent + [] == sent;
        return if ok then Ok([]) else Err(Error.OutputTooLarge);
      }
      sent := sent + [shown];
      return Ok([shown]);
    }

    // ---------- The end of the run ----------

    /** Restores one item's call, if it is one, and charges its bytes. */
    method RestoreCall(k: nat) returns (ok: Result<(), Error>)
      requires k < |items|
      modifies this`items, this`counts, this`restoredBytes
      ensures old(restoredBytes) <= env.maxOutputBytes ==>
                (ok.Ok? <==>
                   var s := old(items)[k];
                   StateAccepted(s, env) && old(restoredBytes) + StateShare(s, env).bytes <= env.maxOutputBytes)
      ensures ok.Ok? ==>
                var s := old(items)[k];
                && items == old(items)[k := WithRestored(s, env)]
                && StateAccepted(s, env)
                && Ledger(counts, restoredBytes) == Ledger(old(counts), old(restoredBytes)).Plus(StateShare(s, env))
                && (old(restoredBytes) <= env.maxOutputBytes ==> restoredBytes <= env.maxOutputBytes)
    {
      hide Utf8Length, Tally.Plus;
      var s := items[k];
      PlusLaws(counts, NOTHING, NOTHING);
      if !s.raw.ToolCall? {
        return Ok(());
      }
      var result := env.tools(StateCall(s));
      if result.ToolRefused? {
        return Err(ToolFailed);
      }
      items := items[k := s.(restored := result.arguments)];
      restoredBytes := restoredBytes + Utf8Length(result.arguments);
      if restoredBytes > env.maxOutputBytes {
        return Err(Error.OutputTooLarge);
      }
      counts := counts.Plus(NOTHING.(restored := result.restored));
      return Ok(());
    }

    /** Restores every call in item order; one refusal refuses the whole batch. */
    method RestoreCalls() returns (ok: Result<(), Error>)
      requires restoredBytes <= env.maxOutputBytes
      modifies this`items, this`counts, this`restoredBytes
      ensures ok.Ok? <==>
                && (forall k | 0 <= k < |old(items)| :: StateAccepted(old(items)[k], env))
                && old(restoredBytes) + Tools(old(items), env).bytes <= env.maxOutputBytes
      ensures ok.Ok? ==>
                && items == AllRestored(old(items), env)
                && Ledger(counts, restoredBytes) == Ledger(old(counts), old(restoredBytes)).Plus(Tools(old(items), env))
                && restoredBytes <= env.maxOutputBytes
    {
      hide Tools, Tally.Plus, StateShare, WithRestored, StateAccepted;
      ghost var before, ledger := items, Ledger(counts, restoredBytes);
      ToolsNone(items, ledger, env);
      var k := 0;
      while k < |items|
        invariant 0 <= k <= |items| == |before|
        invariant forall j | 0 <= j < k :: items[j] == WithRestored(before[j], env)
        invariant forall j | k <= j < |items| :: items[j] == before[j]
        invariant forall j | 0 <= j < k :: StateAccepted(before[j], env)
        invariant Ledger(counts, restoredBytes) == ledger.Plus(Tools(before[..k], env))
        invariant restoredBytes == old(restoredBytes) + Tools(before[..k], env).bytes
        invariant restoredBytes <= env.maxOutputBytes
      {
        ToolsSnoc(before, k, env);
        ToolsPrefix(before, k + 1, env);
        LedgerLaws(ledger, Tools(before[..k], env), StateShare(before[k], env));
        ok := RestoreCall(k);
        if ok.Err? {
          return;
        }
        k := k + 1;
      }
      assert before[..k] == before;
      assert items == AllRestored(before, env);
      return Ok(());
    }

    /** Rewrites the held events: one delta with everything, however many came in. */
    method RewritePending() returns (released: seq<Body>)
      requires forall b | b in pending :: IsToolBody(b) && 0 <= ToolIndex(b) < |items|
      ensures released == ReleaseAll(pending, items, {})
    {
      hide ReleaseOne, IsToolBody, ReleaseAll;
      released := [];
      var deltaSent: set<int> := {};
      var j := 0;
      assert pending[0..] == pending;
      while j < |pending|
        invariant 0 <= j <= |pending|
        invariant released + ReleaseAll(pending[j..], items, deltaSent) == ReleaseAll(pending, items, {})
      {
        assert pending[j] in pending;
        ReleaseStep(pending, j, items, deltaSent);
        var k := ToolIndex(pending[j]);
        var (out, now) := ReleaseOne(pending[j], items[k], k in deltaSent);
        released := released + out;
        if now {
          deltaSent := deltaSent + {k};
        }
        j := j + 1;
      }
      ReleaseNothing(pending[j..], items, deltaSent);
    }

    /** Every item must have ended, and the completed response must repeat it. */
    method CompareAll(output: seq<Item>) returns (bad: Option<Error>)
      requires |output| == |items|
      ensures bad.None? <==>
                forall k | 0 <= k < |items| :: items[k].done && Confirms(output[k], items[k], env.maxItems)
    {
      hide CompareItem, Confirms;
      var k := 0;
      while k < |items|
        invariant 0 <= k <= |items|
        invariant forall j | 0 <= j < k :: items[j].done && Confirms(output[j], items[j], env.maxItems)
      {
        if !items[k].done {
          return Some(TruncatedStream);
        }
        CompareExactly(output[k], items[k], env.maxItems);
        bad := CompareItem(output[k], items[k], env.maxItems);
        if bad.Some? {
          return;
        }
        k := k + 1;
      }
      return None;
    }

    /** Validates the batch, restores every call, and rewrites what was held. */
    method ReleaseTools(ghost provider: Response) returns (r: Result<seq<Body>, Error>)
      requires Valid() && |items| == |provider.output|
      requires forall k | 0 <= k < |items| ::
                 items[k].done && Confirms(provider.output[k], items[k], env.maxItems)
      modifies this`items, this`counts, this`restoredBytes
      ensures r.Ok? <==>
                && env.batchOk(StateCalls(old(items)))
                && (forall k | 0 <= k < |old(items)| :: StateAccepted(old(items)[k], env))
                && old(restoredBytes) + Tools(old(items), env).bytes <= env.maxOutputBytes
      ensures r.Ok? ==>
                && items == AllRestored(old(items), env)
                && |items| == |provider.output| && restoredBytes <= env.maxOutputBytes
                && (forall k | 0 <= k < |items| :: ItemCompleted(provider.output[k], items[k], env))
                && HeldInv(items, pending) && SentInv(items, sent)
                && Ledger(counts, restoredBytes) == Prose(items).Plus(Tools(items, env))
                && env.batchOk(StateCalls(items))
                && (forall b | b in pending :: IsToolBody(b) && 0 <= ToolIndex(b) < |items|)
                && r.value == ReleaseAll(pending, items, {})
                && ShownInv(items, sent)
    {
      hide ShownInv, RunInv, CompareItem, Confirms, Ledger.Plus, Tools, StateCalls, StateAccepted, AllRestored, ReleaseAll, IsToolBody, Prose, HeldInv, SentInv;
      hide ItemCompleted;
      if !env.batchOk(StateCalls(items)) {
        return Err(ToolFailed);
      }
      ghost var before, ledger := items, Ledger(counts, restoredBytes);
      var restored := RestoreCalls();
      if restored.Err? {
        return Err(restored.error);
      }
      AcceptedCalls(before, env);
      Completes(before, pending, sent, ledger, provider, env);
      RestoredOnly(before, env);
      ShownRestored(before, items, sent);
      LedgerLaws(ledger, ZERO, ZERO);
      HeldIndices(items, pending);
      var released := RewritePending();
      return Ok(released);
    }

    lemma AcceptedCalls(items: seq<ItemState>, env: Environment)
      requires forall k | 0 <= k < |items| :: StateAccepted(items[k], env)
      ensures forall k | 0 <= k < |items| && items[k].raw.ToolCall? :: env.tools(StateCall(items[k])).ToolRestored?
    {
    }

    ghost predicate CompletedBy(provider: Response, bodies: seq<Body>)
      reads this
    {
      && terminal
      && CompletedInv(items, pending, sent, Ledger(counts, restoredBytes), provider, env)
      && (forall b | b in pending :: IsToolBody(b) && 0 <= ToolIndex(b) < |items|)
      && bodies == ReleaseAll(pending, items, {}) + [Completed(provider.(output := Snapshots(items)))]
    }

    method HandleCompleted(e: Event) returns (r: Result<seq<Body>, Error>)
      requires Valid() && e.body.Completed?
      modifies this
      ensures r.Ok? <==> old(View()).Numbered(e) && old(View()).Completable(e, env)
      ensures r.Ok? ==>
                && CompletedBy(e.body.response, r.value)
                && sent == old(sent) && emitSequence == old(emitSequence)
                && sequenced == (sequenceMode == Some(true))
                && (old(sequenceMode).Some? ==> sequenceMode == old(sequenceMode))
      ensures r.Ok? ==> InStep(e) && ShownInv(items, sent)
    {
      hide ShownInv, RunInv, CheckResponse, CompareItem, Confirms, Ledger.Plus, Tools, StateCalls, StateAccepted, Snapshots, AllRestored, CompletedInv, ReleaseAll, IsToolBody;
      hide Prose, HeldInv, SentInv, ItemCompleted;
      var ok := Observe(e);
      if !ok {
        return Err(InvalidStream);
      }
      var response := e.body.response;
      var bad := CheckResponse(response, true, env);
      if bad.Some? {
        return Err(bad.value);
      }
      if Some(response.id) != responseId || |response.output| != |items| {
        return Err(InvalidStream);
      }
      var differs := CompareAll(response.output);
      if differs.Some? {
        return Err(differs.value);
      }
      var released := ReleaseTools(response);
      if released.Err? {
        return Err(released.error);
      }
      var result := response.(output := Snapshots(items));
      if env.responseSize(result) > env.maxOutputBytes {
        return Err(Error.OutputTooLarge);
      }
      terminal := true;
      CompletedWhole(items, pending, sent, Ledger(counts, restoredBytes), response, env);
      return Ok(released.value + [Completed(result)]);
    }

    method Handle(e: Event) returns (r: Result<seq<Body>, Error>)
      requires !terminal ==> Valid()
      modifies this
      ensures r.Ok? && !terminal ==> !old(terminal) && Continues(r)
      ensures !old(terminal) ==> (r.Ok? <==> old(View()).Accepts(e, env))
      ensures r.Ok? ==> !old(terminal) && (terminal <==> e.body.Completed?)
      ensures r.Ok? && !terminal ==> View() == old(View()).Next(e, env)
      ensures r.Ok? ==> InStep(e) && ShownInv(items, sent)
      ensures r.Ok? && terminal ==>
                && !old(terminal) && e.body.Completed?
                && CompletedBy(e.body.response, r.value)
                && sent == old(sent) && emitSequence == old(emitSequence)
                && sequenced == (sequenceMode == Some(true))
                && (old(sequenceMode).Some? ==> sequenceMode == old(sequenceMode))
    {
      hide RunInv, ShownInv, CompletedInv, ReleaseAll, Control.Numbered, Control.Opens, Control.Announces, Control.OpensPart;
      hide Control.ClosesPart, Control.TakesText, Control.TakesArguments, Control.TakesEnd, Control.Completable;
      hide Control.Announced, Control.PartOpened, Control.PartClosed, Control.Spoken, Control.Argued, Control.Ended, Control.Opened;
      if terminal {
        return Err(if e.body.Failed? then UpstreamFailed else if e.body.Unknown? && started then UnsupportedEvent else InvalidStream);
      }
      match e.body {
        case Failed => return Err(UpstreamFailed);
        case Created(_) => r := HandleOpening(e); return;
        case InProgress(_) => r := HandleOpening(e); return;
        case _ =>
      }
      if !started {
        return Err(InvalidStream);
      }
      match e.body {
        case ItemAdded(_, _) => r := HandleItemAdded(e);
        case PartAdded(_, _, _, _) => r := HandlePartAdded(e);
        case PartDone(_, _, _, _) => r := HandlePartDone(e);
        case TextDelta(_, _, _, _, _) => r := HandleText(e);
        case TextDone(_, _, _, _, _) => r := HandleText(e);
        case ArgsDelta(_, _, _, _) => r := HandleArguments(e);
        case ArgsDone(_, _, _, _) => r := HandleArguments(e);
        case ItemDone(_, _) => r := HandleItemDone(e);
        case Completed(_) => r := HandleCompleted(e);
        case _ => r := Err(UnsupportedEvent);
      }
    }

    /** The event as it leaves: renumbered from zero without gaps when the provider numbers its events. */
    method Encode(body: Body) returns (event: Event)
      modifies this`emitSequence
      ensures event == Event(if sequenced then Some(old(emitSequence)) else None, body)
      ensures emitSequence == old(emitSequence) + (if sequenced then 1 else 0)
    {
      if sequenced {
        event := Event(Some(emitSequence), body);
        emitSequence := emitSequence + 1;
      } else {
        event := Event(None, body);
      }
    }
  }
}
