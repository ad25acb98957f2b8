/** Releasing the held executable events, and why a completed stream means the buffered response. */
module ResponsesRelease {
  import opened Text
  import opened TokenGrammar
  import opened Tokens
  import opened Restoration
  import opened TokenStream
  import opened ResponsesProtocol
  import opened BufferedResponse
  import opened ResponsesInvariants

  // ---------- Restoring the calls ----------

  function StateCall(s: ItemState): Call
    requires s.raw.ToolCall?
  {
    Call(s.raw.name, s.arguments, s.raw.custom)
  }

  function StateCalls(items: seq<ItemState>): seq<Call> {
    if items == [] then []
    else (if items[0].raw.ToolCall? then [StateCall(items[0])] else []) + StateCalls(items[1..])
  }

  function StateShare(s: ItemState, env: Environment): Ledger {
    if s.raw.ToolCall? then ToolShare(env.tools(StateCall(s))) else ZERO
  }

  function Tools(items: seq<ItemState>, env: Environment): Ledger {
    if items == [] then ZERO else StateShare(items[0], env).Plus(Tools(items[1..], env))
  }

  /** The item with what the registry made of its arguments. */
  function WithRestored(s: ItemState, env: Environment): ItemState {
    if s.raw.ToolCall? && env.tools(StateCall(s)).ToolRestored? then s.(restored := env.tools(StateCall(s)).arguments)
    else s
  }

  function AllRestored(items: seq<ItemState>, env: Environment): (r: seq<ItemState>)
    ensures |r| == |items|
    ensures forall k | 0 <= k < |r| :: r[k] == WithRestored(items[k], env)
  {
    seq(|items|, k requires 0 <= k < |items| => WithRestored(items[k], env))
  }

  lemma {:induction false} ToolsSnoc(items: seq<ItemState>, k: nat, env: Environment)
    requires k < |items|
    ensures Tools(items[..k + 1], env) == Tools(items[..k], env).Plus(StateShare(items[k], env))
    decreases k
  {
    hide StateShare, Ledger.Plus;
    LedgerLaws(StateShare(items[k], env), ZERO, ZERO);
    if k == 0 {
      assert items[..1] == [items[0]] && items[..0] == [];
      assert [items[0]][1..] == [];
    } else {
      var rest := items[1..];
      assert items[..k + 1][1..] == rest[..k] && items[..k][1..] == rest[..k - 1] && rest[k - 1] == items[k];
      ToolsSnoc(rest, k - 1, env);
      LedgerLaws(StateShare(items[0], env), Tools(rest[..k - 1], env), StateShare(items[k], env));
    }
  }

  /** A call the registry restores, if it is one. */
  predicate StateAccepted(s: ItemState, env: Environment) { s.raw.ToolCall? ==> env.tools(StateCall(s)).ToolRestored? }

  /** What a prefix of the calls costs is part of what all cost. */
  lemma {:induction false} ToolsPrefix(items: seq<ItemState>, k: nat, env: Environment)
    requires k <= |items|
    ensures Tools(items[..k], env).bytes <= Tools(items, env).bytes
    decreases |items| - k
  {
    hide StateShare, Tally.Plus;
    if k < |items| {
      ToolsSnoc(items, k, env);
      ToolsPrefix(items, k + 1, env);
    } else {
      assert items[..k] == items;
    }
  }

  // ---------- Rewriting the held events ----------

  /** One held event, given whether its item's single delta has already gone out. */
  function ReleaseOne(b: Body, s: ItemState, deltaSent: bool): (seq<Body>, bool) {
    match b
    case ArgsDelta(index, itemId, custom, _) =>
      if deltaSent then ([], true) else ([ArgsDelta(index, itemId, custom, s.restored)], true)
    case ArgsDone(index, itemId, custom, _) =>
      var done := ArgsDone(index, itemId, custom, s.restored);
      if deltaSent then ([done], true)
      else ([ArgsDelta(index, s.raw.id, custom, s.restored), done], true)
    case ItemDone(index, _) => ([ItemDone(index, ItemSnapshot(s, true))], deltaSent)
    case _ => ([b], deltaSent)
  }

  /** All held events in order; `deltaSent` lists the items whose one delta has gone out. */
  function ReleaseAll(pending: seq<Body>, items: seq<ItemState>, deltaSent: set<int>): seq<Body> {
    if pending == [] then []
    else
      var b := pending[0];
      if !IsToolBody(b) || !(0 <= ToolIndex(b) < |items|) then ReleaseAll(pending[1..], items, deltaSent)
      else
        var k := ToolIndex(b);
        var (out, now) := ReleaseOne(b, items[k], k in deltaSent);
        out + ReleaseAll(pending[1..], items, if now then deltaSent + {k} else deltaSent)
  }

  /** An executable event about one of the calls. */
  predicate OfCall(b: Body, items: seq<ItemState>) {
    IsToolBody(b) && 0 <= ToolIndex(b) < |items| && items[ToolIndex(b)].raw.ToolCall?
  }

  /** Nothing is released but executable events about the calls. */
  lemma {:induction false} ReleaseCalls(pending: seq<Body>, items: seq<ItemState>, deltaSent: set<int>)
    requires forall b | b in pending :: OfCall(b, items) && ItemSnapshot(items[ToolIndex(b)], true).ToolCall?
    ensures forall b | b in ReleaseAll(pending, items, deltaSent) :: OfCall(b, items)
  {
    hide ItemSnapshot;
    if pending != [] {
      var b := pending[0];
      assert b in pending;
      var k := ToolIndex(b);
      var (out, now) := ReleaseOne(b, items[k], k in deltaSent);
      assert forall o | o in out :: IsToolBody(o) && ToolIndex(o) == k;
      hide ReleaseOne;
      ReleaseCalls(pending[1..], items, if now then deltaSent + {k} else deltaSent);
    }
  }

  lemma ReleaseStep(pending: seq<Body>, j: nat, items: seq<ItemState>, deltaSent: set<int>)
    requires j < |pending| && IsToolBody(pending[j]) && 0 <= ToolIndex(pending[j]) < |items|
    ensures var k := ToolIndex(pending[j]);
            var (out, now) := ReleaseOne(pending[j], items[k], k in deltaSent);
            ReleaseAll(pending[j..], items, deltaSent)
            == out + ReleaseAll(pending[j + 1..], items, if now then deltaSent + {k} else deltaSent)
  {
    hide ReleaseOne, IsToolBody;
    assert pending[j..][1..] == pending[j + 1..];
  }

  function ReleaseFor(held: seq<Body>, s: ItemState, deltaSent: bool): seq<Body> {
    if held == [] then []
    else
      var (out, now) := ReleaseOne(held[0], s, deltaSent);
      out + ReleaseFor(held[1..], s, now)
  }

  /** Everything a client sees of one tool call: start, one delta with all its arguments, the two ends. */
  function ToolEvents(s: ItemState, k: int): seq<Body>
    requires s.raw.ToolCall?
  {
    [ItemAdded(k, s.raw), ArgsDelta(k, s.raw.id, s.raw.custom, s.restored),
     ArgsDone(k, s.raw.id, s.raw.custom, s.restored), ItemDone(k, ItemSnapshot(s, true))]
  }

  lemma AboutPair(a: Body, b: Body, k: int)
    requires IsToolBody(a) && IsToolBody(b) && ToolIndex(a) == ToolIndex(b)
    ensures About([a], k) == if ToolIndex(a) == k then [a] else []
    ensures About([a, b], k) == if ToolIndex(a) == k then [a, b] else []
  {
    hide IsToolBody;
    assert [a] == [] + [a] && [a, b] == [a] + [b];
    AboutSnoc([], a, k);
    AboutSnoc([a], b, k);
  }

  lemma ReleaseOneAbout(b: Body, s: ItemState, deltaSent: bool, k: int)
    requires IsToolBody(b) && ItemSnapshot(s, true).ToolCall?
    ensures var (out, _) := ReleaseOne(b, s, deltaSent);
            About(out, k) == if ToolIndex(b) == k then out else []
  {
    hide ItemSnapshot;
    var (out, _) := ReleaseOne(b, s, deltaSent);
    if |out| == 1 {
      assert out == [out[0]];
      AboutPair(out[0], out[0], k);
    } else if |out| == 2 {
      assert out == [out[0], out[1]];
      AboutPair(out[0], out[1], k);
    }
  }

  /** What is released about one item depends only on what was held about it, in the same order. */
  lemma {:induction false} ReleaseAbout(pending: seq<Body>, items: seq<ItemState>, deltaSent: set<int>, k: nat)
    requires forall b | b in pending :: IsToolBody(b) && 0 <= ToolIndex(b) < |items| && ItemSnapshot(items[ToolIndex(b)], true).ToolCall?
    requires k < |items|
    ensures About(ReleaseAll(pending, items, deltaSent), k) == ReleaseFor(About(pending, k), items[k], k in deltaSent)
  {
    hide ReleaseOne, IsToolBody, ItemSnapshot, ReleaseFor;
    if pending == [] {
      ReleaseForNil(items[k], k in deltaSent);
    } else {
      var b, rest := pending[0], pending[1..];
      assert b in pending;
      var j := ToolIndex(b);
      var (out, now) := ReleaseOne(b, items[j], j in deltaSent);
      var deltaSent' := if now then deltaSent + {j} else deltaSent;
      ReleaseOneAbout(b, items[j], j in deltaSent, k);
      ReleaseOneSent(b, items[j], j in deltaSent);
      ReleaseAbout(rest, items, deltaSent', k);
      AboutAppend(out, ReleaseAll(rest, items, deltaSent'), k);
      ReleaseForCons(b, About(rest, k), items[k], k in deltaSent);
      assert ReleaseAll(pending, items, deltaSent) == out + ReleaseAll(rest, items, deltaSent');
      assert About(pending, k) == (if j == k then [b] else []) + About(rest, k);
      hide About, ReleaseAll;
      if j != k {
        assert [] + About(rest, k) == About(rest, k);
        assert k in deltaSent' <==> k in deltaSent;
      }
    }
  }

  lemma ReleaseForNil(s: ItemState, deltaSent: bool)
    ensures ReleaseFor([], s, deltaSent) == []
  {
  }

  lemma ReleaseForCons(b: Body, held: seq<Body>, s: ItemState, deltaSent: bool)
    ensures var (out, now) := ReleaseOne(b, s, deltaSent);
            ReleaseFor([b] + held, s, deltaSent) == out + ReleaseFor(held, s, now)
  {
    hide ReleaseOne;
    assert ([b] + held)[1..] == held;
  }

  lemma ReleaseOneSent(b: Body, s: ItemState, deltaSent: bool)
    ensures deltaSent ==> ReleaseOne(b, s, deltaSent).1
  {
  }

  lemma {:induction false} ReleaseDeltas(deltas: seq<Body>, tail: seq<Body>, s: ItemState, k: int, deltaSent: bool)
    requires s.raw.ToolCall? && forall d | d in deltas :: ArgsDeltaOf(d, k, s.raw)
    ensures ReleaseFor(deltas + tail, s, deltaSent)
            == (if deltaSent || deltas == [] then [] else [ArgsDelta(k, s.raw.id, s.raw.custom, s.restored)])
               + ReleaseFor(tail, s, deltaSent || deltas != [])
  {
    if deltas == [] {
      assert deltas + tail == tail;
    } else {
      assert deltas[0] in deltas && (deltas + tail)[1..] == deltas[1..] + tail;
      ReleaseDeltas(deltas[1..], tail, s, k, true);
    }
  }

  /** A finished tool item is released as exactly its four events, however its arguments were chunked. */
  lemma ReleaseShape(held: seq<Body>, s: ItemState, k: int)
    requires s.raw.ToolCall? && s.done && s.argsDone && s.final.Some? && HeldShape(held, s, k)
    ensures ReleaseFor(held, s, false) == ToolEvents(s, k)
  {
    hide ItemSnapshot;
    hide ReleaseFor, HeldShape, ArgsDeltaOf;
    var deltas, tail := HeldParts(held, s, k);
    ReleaseForCons(ItemAdded(k, s.raw), deltas + tail, s, false);
    ReleaseDeltas(deltas, tail, s, k, false);
    ReleaseTail(s, k, deltas != []);
  }

  lemma HeldParts(held: seq<Body>, s: ItemState, k: int) returns (deltas: seq<Body>, tail: seq<Body>)
    requires s.raw.ToolCall? && s.done && s.argsDone && s.final.Some? && HeldShape(held, s, k)
    ensures forall d | d in deltas :: ArgsDeltaOf(d, k, s.raw)
    ensures tail == [ArgsDone(k, s.raw.id, s.raw.custom, s.arguments), ItemDone(k, s.final.value)]
    ensures held == [ItemAdded(k, s.raw)] + (deltas + tail)
  {
    hide ArgsDeltaOf;
    deltas :|
      && (forall d | d in deltas :: ArgsDeltaOf(d, k, s.raw))
      && held == [ItemAdded(k, s.raw)] + deltas + HeldTail(s, k);
    tail := HeldTail(s, k);
  }

  lemma ReleaseTail(s: ItemState, k: int, deltaSent: bool)
    requires s.raw.ToolCall? && s.final.Some?
    ensures ReleaseFor([ArgsDone(k, s.raw.id, s.raw.custom, s.arguments), ItemDone(k, s.final.value)], s, deltaSent)
            == (if deltaSent then [] else [ArgsDelta(k, s.raw.id, s.raw.custom, s.restored)])
               + [ArgsDone(k, s.raw.id, s.raw.custom, s.restored), ItemDone(k, ItemSnapshot(s, true))]
  {
    hide ItemSnapshot, ReleaseFor;
    var done, ended := ArgsDone(k, s.raw.id, s.raw.custom, s.arguments), ItemDone(k, s.final.value);
    assert [done, ended] == [done] + [ended] && [ended] == [ended] + [];
    ReleaseForCons(done, [ended], s, deltaSent);
    ReleaseForCons(ended, [], s, true);
    ReleaseForNil(s, true);
  }

  // ---------- A completed run ----------

  function Snapshots(items: seq<ItemState>): (output: seq<Item>)
    ensures |output| == |items|
    ensures forall k | 0 <= k < |output| :: output[k] == ItemSnapshot(items[k], true)
  {
    seq(|items|, k requires 0 <= k < |items| => ItemSnapshot(items[k], true))
  }

  /** Item `k` ended, its last snapshot was accepted, and the registry restored its call. */
  ghost predicate ItemCompleted(item: Item, s: ItemState, env: Environment) {
    && s.done && ItemInv(s, env.auth)
    && Confirms(item, s, env.maxItems)
    && s == WithRestored(s, env)
    && (s.raw.ToolCall? ==> env.tools(StateCall(s)).ToolRestored?)
  }

  ghost predicate CompletedInv(items: seq<ItemState>, pending: seq<Body>, sent: seq<Body>, ledger: Ledger,
                               provider: Response, env: Environment) {
    && |items| == |provider.output|
    && (forall k | 0 <= k < |items| :: ItemCompleted(provider.output[k], items[k], env))
    && HeldInv(items, pending) && SentInv(items, sent)
    && ledger == Prose(items).Plus(Tools(items, env)) && ledger.bytes <= env.maxOutputBytes
    && CheckResponse(provider, true, env).None?
    && env.batchOk(StateCalls(items))
    && env.responseSize(provider.(output := Snapshots(items))) <= env.maxOutputBytes
  }

  // ---------- Streaming refines buffering ----------

  lemma CompletedMeans(item: Item, s: ItemState, env: Environment)
    requires ItemCompleted(item, s, env)
    ensures Repeats(item, s) && Over(item.status) && s.final.Some? && SameItem(s.final.value, s.raw)
  {
    CompleteStatus(item, env.maxItems);
    hide CheckItem, Repeats, SameItem, WithRestored;
  }

  lemma SameContent(content: seq<Part>, parts: seq<PartState>, auth: Authority)
    requires |content| == |parts|
    requires forall p | 0 <= p < |parts| :: PartInv(parts[p], auth) && parts[p].done && content[p].text == parts[p].buffer.raw
    ensures forall p | 0 <= p < |parts| :: Restored(content[p].text, auth) == parts[p].buffer.text
  {
    hide Faithful, Restored;
    forall p | 0 <= p < |parts|
      ensures Restored(content[p].text, auth) == parts[p].buffer.text
    {
      ClosedMeans(parts[p].buffer, auth);
    }
  }

  /** The streamed item shows the provider's item, field by field. */
  lemma ItemRefines(item: Item, s: ItemState, env: Environment)
    requires ItemCompleted(item, s, env)
    ensures Shows(item, ItemSnapshot(s, true), env)
    ensures item.ToolCall? == s.raw.ToolCall? && item.Message? == s.raw.Message?
    ensures item.ToolCall? ==> CallOf(item) == StateCall(s)
    ensures item.Message? ==>
              |item.content| == |s.parts| &&
              forall p | 0 <= p < |s.parts| :: Restored(item.content[p].text, env.auth) == s.parts[p].buffer.text
  {
    CompletedMeans(item, s, env);
    hide CheckItem, Confirms, Restored, RestoreContent, PartInv;
    if s.raw.Message? {
      SameContent(item.content, s.parts, env.auth);
    }
  }

  lemma LedgerSwap(a: Ledger, b: Ledger, x: Ledger, y: Ledger)
    ensures a.Plus(b).Plus(x.Plus(y)) == a.Plus(x).Plus(b.Plus(y))
  {
    hide Ledger.Plus;
    LedgerLaws(a, b, x.Plus(y));
    LedgerLaws(b, x, y);
    LedgerLaws(x, b, y);
    LedgerLaws(a, x, b.Plus(y));
  }

  lemma {:induction false} ContentLedger(content: seq<Part>, parts: seq<PartState>, auth: Authority)
    requires |content| == |parts|
    requires forall p | 0 <= p < |parts| :: PartInv(parts[p], auth) && parts[p].done && content[p].text == parts[p].buffer.raw
    ensures ContentShare(content, auth) == PartsLedger(parts)
  {
    if parts != [] {
      hide Faithful, Restored, TallyOf, Lex, Utf8Length, Ledger.Plus;
      assert PartInv(parts[0], auth);
      ClosedMeans(parts[0].buffer, auth);
      ContentLedger(content[1..], parts[1..], auth);
    }
  }

  lemma ItemLedger(item: Item, s: ItemState, env: Environment)
    requires ItemCompleted(item, s, env)
    ensures ItemShare(item, env) == PartsLedger(s.parts).Plus(StateShare(s, env))
  {
    hide ItemCompleted, ItemShare, StateShare, PartsLedger, Ledger.Plus;
    CallRefines(item, s, env);
    LedgerLaws(ItemShare(item, env), ZERO, ZERO);
    if s.raw.Message? {
      MessageLedger(item, s, env);
      NoCall(s, env);
    } else {
      CallLedger(item, s, env);
    }
  }

  lemma NoCall(s: ItemState, env: Environment)
    requires !s.raw.ToolCall?
    ensures StateShare(s, env) == ZERO
  {
  }

  lemma CallLedger(item: Item, s: ItemState, env: Environment)
    requires !item.Message? && item.ToolCall? == s.raw.ToolCall? && s.parts == []
    requires item.ToolCall? ==> CallOf(item) == StateCall(s)
    ensures ItemShare(item, env) == StateShare(s, env) && PartsLedger(s.parts) == ZERO
  {
  }

  lemma MessageLedger(item: Item, s: ItemState, env: Environment)
    requires ItemCompleted(item, s, env) && s.raw.Message?
    ensures item.Message? && ItemShare(item, env) == PartsLedger(s.parts)
  {
    CompletedMeans(item, s, env);
    hide Confirms, PartInv, ContentShare, PartsLedger;
    ContentLedger(item.content, s.parts, env.auth);
  }

  /** Counters and bytes agree, although the stream counts prose as it goes and tools at the end. */
  lemma {:induction false} LedgerRefines(output: seq<Item>, items: seq<ItemState>, env: Environment)
    requires |output| == |items|
    requires forall k | 0 <= k < |items| :: ItemCompleted(output[k], items[k], env)
    ensures OutputShare(output, env) == Prose(items).Plus(Tools(items, env))
    ensures CallsOf(output) == StateCalls(items)
    ensures ToolsAccept(output, env)
  {
    hide ItemCompleted, ItemShare, PartsLedger, StateShare, Ledger.Plus;
    if items == [] {
      LedgerLaws(ZERO, ZERO, ZERO);
    } else {
      var k := 0;
      assert ItemCompleted(output[k], items[k], env);
      ItemLedger(output[0], items[0], env);
      CallRefines(output[0], items[0], env);
      LedgerRefines(output[1..], items[1..], env);
      LedgerSwap(PartsLedger(items[0].parts), StateShare(items[0], env), Prose(items[1..]), Tools(items[1..], env));
      assert forall j | 1 <= j < |output| :: output[j] == output[1..][j - 1];
    }
  }

  lemma CallRefines(item: Item, s: ItemState, env: Environment)
    requires ItemCompleted(item, s, env)
    ensures item.ToolCall? == s.raw.ToolCall? && item.Message? == s.raw.Message?
    ensures !s.raw.Message? ==> s.parts == []
    ensures item.ToolCall? ==> CallOf(item) == StateCall(s) && env.tools(CallOf(item)).ToolRestored?
  {
    ItemRefines(item, s, env);
    hide Confirms, ItemInv;
  }

  /** The response a client is shown: nothing but the output differs, and every item shows the provider's, as the
      buffered path would have shown it. */
  ghost predicate AllShown(provider: Response, shown: Response, env: Environment) {
    && shown.id == provider.id && shown.status == provider.status && shown.controls == provider.controls
    && |shown.output| == |provider.output| == |RestoredResponse(provider, env).output|
    && forall k | 0 <= k < |provider.output| ::
         && Shows(provider.output[k], shown.output[k], env)
         && Alike(shown.output[k], RestoredResponse(provider, env).output[k])
  }

  lemma CompletedChecked(item: Item, s: ItemState, env: Environment)
    requires ItemCompleted(item, s, env)
    ensures CheckItem(item, true, env.maxItems).None?
  {
    hide CheckItem, Repeats, ItemInv;
  }

  lemma ShownAlike(item: Item, a: Item, b: Item, env: Environment)
    requires Shows(item, a, env) && Shows(item, b, env)
    ensures Alike(a, b)
  {
    hide Restored;
  }

  /** Whatever run of events led here, the released response is the buffered restoration of the provider's. */
  lemma StreamingRefinesBuffering(items: seq<ItemState>, pending: seq<Body>, sent: seq<Body>, ledger: Ledger,
                                  provider: Response, env: Environment)
    requires CompletedInv(items, pending, sent, ledger, provider, env)
    ensures AllShown(provider, provider.(output := Snapshots(items)), env)
    ensures ledger == OutputShare(provider.output, env)
    ensures Releasable(provider, env) <==>
              && env.responseSize(provider) <= env.maxOutputBytes
              && env.responseSize(RestoredResponse(provider, env)) <= env.maxOutputBytes
  {
    hide ItemCompleted, CheckResponse, Prose, Tools, StateCalls, OutputShare, CallsOf, Ledger.Plus, HeldInv, SentInv;
    hide RestoreItem, ItemSnapshot, Shows, Alike, CheckItem;
    LedgerRefines(provider.output, items, env);
    var streamed, buffered := Snapshots(items), RestoreItems(provider.output, env);
    forall k | 0 <= k < |items|
      ensures Shows(provider.output[k], streamed[k], env) && Alike(streamed[k], buffered[k])
    {
      assert ItemCompleted(provider.output[k], items[k], env);
      ItemRefines(provider.output[k], items[k], env);
      CompletedChecked(provider.output[k], items[k], env);
      BufferedShows(provider.output[k], env);
      ShownAlike(provider.output[k], streamed[k], buffered[k], env);
    }
  }

  /** What a completed run releases is about its calls. */
  lemma CompletedCalls(items: seq<ItemState>, pending: seq<Body>, sent: seq<Body>, ledger: Ledger, provider: Response,
                       env: Environment)
    requires CompletedInv(items, pending, sent, ledger, provider, env)
    ensures forall b | b in ReleaseAll(pending, items, {}) :: OfCall(b, items)
    ensures |items| == |provider.output|
    ensures forall k | 0 <= k < |items| :: items[k].raw.ToolCall? == provider.output[k].ToolCall?
  {
    hide CheckResponse, Prose, Tools, StateCalls, Ledger.Plus, SentInv, ItemSnapshot, HeldShape, ItemCompleted, IsToolBody;
    hide ReleaseAll;
    forall k | 0 <= k < |items|
      ensures ItemSnapshot(items[k], true).ToolCall? == items[k].raw.ToolCall? == provider.output[k].ToolCall?
    {
      assert ItemCompleted(provider.output[k], items[k], env);
      ToolSnapshot(provider.output[k], items[k], env);
      ItemRefines(provider.output[k], items[k], env);
    }
    ReleaseCalls(pending, items, {});
  }

  /** Each tool call of a completed run is released as exactly its four events. */
  lemma ToolsReleasedOnce(items: seq<ItemState>, pending: seq<Body>, sent: seq<Body>, ledger: Ledger,
                          provider: Response, env: Environment, k: nat)
    requires CompletedInv(items, pending, sent, ledger, provider, env) && k < |items|
    ensures forall b | b in pending :: IsToolBody(b) && 0 <= ToolIndex(b) < |items|
    ensures provider.output[k].ToolCall? ==> items[k].raw.ToolCall? && env.tools(CallOf(provider.output[k])).ToolRestored?
    ensures About(ReleaseAll(pending, items, {}), k)
            == if provider.output[k].ToolCall? then ToolEvents(items[k], k) else []
    ensures provider.output[k].ToolCall? ==>
              && items[k].restored == env.tools(CallOf(provider.output[k])).arguments
              && items[k].raw.id == provider.output[k].id && items[k].raw.name == provider.output[k].name
              && items[k].raw.custom == provider.output[k].custom && items[k].raw.callId == provider.output[k].callId
  {
    hide CheckResponse, Prose, Tools, StateCalls, Ledger.Plus, SentInv, ItemSnapshot, HeldShape, ItemCompleted;
    forall b | b in pending
      ensures ItemSnapshot(items[ToolIndex(b)], true).ToolCall?
    {
      assert ItemCompleted(provider.output[ToolIndex(b)], items[ToolIndex(b)], env);
      ToolSnapshot(provider.output[ToolIndex(b)], items[ToolIndex(b)], env);
    }
    hide IsToolBody;
    ReleaseAbout(pending, items, {}, k);
    assert ItemCompleted(provider.output[k], items[k], env);
    assert HeldShape(About(pending, k), items[k], k);
    ToolSnapshot(provider.output[k], items[k], env);
    ItemReleased(About(pending, k), provider.output[k], items[k], k, env);
  }

  lemma ItemReleased(held: seq<Body>, item: Item, s: ItemState, k: int, env: Environment)
    requires ItemCompleted(item, s, env) && HeldShape(held, s, k)
    ensures item.ToolCall? ==> s.raw.ToolCall? && env.tools(CallOf(item)).ToolRestored?
    ensures ReleaseFor(held, s, false) == if item.ToolCall? then ToolEvents(s, k) else []
    ensures item.ToolCall? ==>
              && s.restored == env.tools(CallOf(item)).arguments && s.raw.id == item.id && s.raw.name == item.name
              && s.raw.custom == item.custom && s.raw.callId == item.callId
  {
    CallRefines(item, s, env);
    CompletedMeans(item, s, env);
    SameIdentity(item, s);
    hide Confirms, ItemSnapshot, Repeats, SameItem;
    if item.ToolCall? {
      hide HeldShape, ReleaseFor, PartInv;
      ReleaseShape(held, s, k);
    }
  }

  lemma SameIdentity(item: Item, s: ItemState)
    requires Repeats(item, s) && s.final.Some? && SameItem(s.final.value, s.raw)
    ensures item.id == s.raw.id
    ensures s.raw.ToolCall? && item.ToolCall? ==> item.name == s.raw.name && item.custom == s.raw.custom && item.callId == s.raw.callId
  {
  }

  lemma ToolSnapshot(item: Item, s: ItemState, env: Environment)
    requires ItemCompleted(item, s, env)
    ensures ItemSnapshot(s, true).ToolCall? == s.raw.ToolCall?
  {
    CompletedMeans(item, s, env);
    hide Confirms, PartSnapshots, Repeats;
  }

  /** The deltas sent for a part concatenate to the restoration of the provider's final text for it. */
  lemma ProseReleased(items: seq<ItemState>, pending: seq<Body>, sent: seq<Body>, ledger: Ledger,
                      provider: Response, env: Environment, k: nat, p: nat)
    requires CompletedInv(items, pending, sent, ledger, provider, env)
    requires k < |items| && provider.output[k].Message? && p < |provider.output[k].content|
    ensures Deltas(sent, k, p) == Restored(provider.output[k].content[p].text, env.auth)
    ensures forall b | b in sent :: !IsToolBody(b)
  {
    hide CheckResponse, Prose, Tools, StateCalls, Ledger.Plus, HeldInv, ItemCompleted, Restored;
    assert ItemCompleted(provider.output[k], items[k], env);
    ItemRefines(provider.output[k], items[k], env);
    assert Deltas(sent, k, p) == TextAt(items, k, p);
  }

  // ---------- Reaching completion ----------

  lemma {:induction false} ProseSame(items: seq<ItemState>, items': seq<ItemState>)
    requires |items| == |items'| && forall k | 0 <= k < |items| :: items'[k].parts == items[k].parts
    ensures Prose(items') == Prose(items)
  {
    hide PartsLedger, Ledger.Plus;
    if items != [] {
      assert forall k | 0 <= k < |items[1..]| :: items'[1..][k] == items'[k + 1] && items[1..][k] == items[k + 1];
      ProseSame(items[1..], items'[1..]);
    }
  }

  lemma HeldAllSame(items: seq<ItemState>, items': seq<ItemState>, pending: seq<Body>)
    requires HeldInv(items, pending)
    requires |items| == |items'| && forall k | 0 <= k < |items| :: HeldSame(items[k], items'[k])
    ensures HeldInv(items', pending)
  {
    hide IsToolBody;
    forall k | 0 <= k < |items|
      ensures HeldShape(About(pending, k), items'[k], k)
    {
      assert HeldShape(About(pending, k), items[k], k) && HeldSame(items[k], items'[k]);
      if items[k].raw.ToolCall? {
        assert HeldTail(items'[k], k) == HeldTail(items[k], k);
      }
    }
    forall b | b in pending
      ensures IsToolBody(b) && 0 <= ToolIndex(b) < |items'| && items'[ToolIndex(b)].raw.ToolCall?
    {
      assert HeldSame(items[ToolIndex(b)], items'[ToolIndex(b)]);
    }
  }

  lemma RestoredItem(item: Item, s: ItemState, env: Environment)
    requires s.done && ItemInv(s, env.auth) && Confirms(item, s, env.maxItems)
    requires s.raw.ToolCall? ==> env.tools(StateCall(s)).ToolRestored?
    ensures ItemCompleted(item, WithRestored(s, env), env)
    ensures HeldSame(s, WithRestored(s, env)) && WithRestored(s, env).parts == s.parts
  {
    var s' := WithRestored(s, env);
    assert Repeats(item, s') == Repeats(item, s) by { hide SameItem, PartInv; }
    hide Repeats, ItemSnapshot, CheckItem, SameItem, PartInv;
  }

  /** Filling in the restored arguments keeps everything else the run established. */
  lemma Completes(items: seq<ItemState>, pending: seq<Body>, sent: seq<Body>, ledger: Ledger, provider: Response,
                  env: Environment)
    requires RunInv(items, pending, sent, ledger, env.auth)
    requires |items| == |provider.output|
    requires forall k | 0 <= k < |items| ::
               items[k].done && Confirms(provider.output[k], items[k], env.maxItems)
    requires forall k | 0 <= k < |items| && items[k].raw.ToolCall? :: env.tools(StateCall(items[k])).ToolRestored?
    ensures var items' := AllRestored(items, env);
            && (forall k | 0 <= k < |items'| :: ItemCompleted(provider.output[k], items'[k], env))
            && HeldInv(items', pending) && SentInv(items', sent)
            && Prose(items') == ledger.Plus(ZERO)
            && Tools(items', env) == Tools(items, env) && StateCalls(items') == StateCalls(items)
  {
    hide HeldInv, SentInv, Prose, ItemCompleted, ItemInv, Confirms, WithRestored, HeldSame, Tools, StateCalls, Ledger.Plus;
    hide ItemsInv;
    var items' := AllRestored(items, env);
    forall k | 0 <= k < |items|
      ensures ItemCompleted(provider.output[k], items'[k], env)
      ensures HeldSame(items[k], items'[k]) && items'[k].parts == items[k].parts
    {
      ItemOf(items, k, env.auth);
      RestoredItem(provider.output[k], items[k], env);
    }
    ProseSame(items, items');
    LedgerLaws(ledger, ZERO, ZERO);
    HeldAllSame(items, items', pending);
    RestoredTexts(items, items');
    SentSilent(items, items', sent);
    ToolsSame(items, env);
  }

  lemma RestoredTexts(items: seq<ItemState>, items': seq<ItemState>)
    requires |items| == |items'| && forall k | 0 <= k < |items| :: items'[k].parts == items[k].parts
    ensures ResponsesInvariants.SameTexts(items, items')
  {
  }

  lemma {:induction false} ToolsSame(items: seq<ItemState>, env: Environment)
    ensures Tools(AllRestored(items, env), env) == Tools(items, env)
    ensures StateCalls(AllRestored(items, env)) == StateCalls(items)
  {
    hide Ledger.Plus;
    if items != [] {
      var all := AllRestored(items, env);
      assert all[1..] == AllRestored(items[1..], env);
      assert all[0] == WithRestored(items[0], env);
      ToolsSame(items[1..], env);
    }
  }

  lemma ToolsNone(items: seq<ItemState>, ledger: Ledger, env: Environment)
    ensures Tools(items[..0], env) == ZERO && ledger.Plus(ZERO) == ledger
  {
    LedgerLaws(ledger, ZERO, ZERO);
  }

  lemma HeldIndices(items: seq<ItemState>, pending: seq<Body>)
    requires HeldInv(items, pending)
    ensures forall b | b in pending :: IsToolBody(b) && 0 <= ToolIndex(b) < |items|
  {
    hide HeldShape, IsToolBody;
  }

  lemma CompletedWhole(items: seq<ItemState>, pending: seq<Body>, sent: seq<Body>, ledger: Ledger, provider: Response,
                       env: Environment)
    requires |items| == |provider.output|
    requires forall k | 0 <= k < |items| :: ItemCompleted(provider.output[k], items[k], env)
    requires HeldInv(items, pending) && SentInv(items, sent)
    requires ledger == Prose(items).Plus(Tools(items, env)) && ledger.bytes <= env.maxOutputBytes
    requires CheckResponse(provider, true, env).None?
    requires env.batchOk(StateCalls(items))
    requires env.responseSize(provider.(output := Snapshots(items))) <= env.maxOutputBytes
    ensures CompletedInv(items, pending, sent, ledger, provider, env)
  {
  }

  lemma ReleaseNothing(pending: seq<Body>, items: seq<ItemState>, deltaSent: set<int>)
    requires pending == []
    ensures ReleaseAll(pending, items, deltaSent) == []
  {
  }
}
