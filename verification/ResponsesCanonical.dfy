/** A response that the buffered path releases is also accepted as a stream, when it comes item by item. */
module ResponsesCanonical {
  import opened Text
  import opened Tokens
  import opened Restoration
  import opened TokenStream
  import opened ResponsesProtocol
  import opened BufferedResponse
  import opened ResponsesInvariants
  import opened ResponsesRelease
  import opened ResponsesPlay
  import opened ResponsesStream

  // ---------- The plainest stream of a response ----------

  function Plain(body: Body): Event { Event(None, body) }

  /** An item as it is announced. */
  function StartOf(item: Item): Item {
    var open := item.(status := StatusText("in_progress"));
    match item
    case Message(_, _, _, _, _) => open.(content := [])
    case ToolCall(_, _, _, _, _, _, _) => open.(arguments := "")
    case Reasoning(_, _, _) => open
  }

  function PartEvents(k: nat, id: string, p: nat, part: Part): seq<Event> {
    [Plain(PartAdded(k, id, p, part.(text := ""))), Plain(TextDelta(k, id, p, part.refusal, part.text)),
     Plain(TextDone(k, id, p, part.refusal, part.text)), Plain(PartDone(k, id, p, part))]
  }

  function PartsEvents(k: nat, id: string, content: seq<Part>, p: nat): seq<Event>
    decreases |content| - p
  {
    if p >= |content| then [] else PartEvents(k, id, p, content[p]) + PartsEvents(k, id, content, p + 1)
  }

  function InnerEvents(k: nat, item: Item): seq<Event> {
    match item
    case Message(id, _, _, content, _) => PartsEvents(k, id, content, 0)
    case ToolCall(id, _, custom, _, _, arguments, _) =>
      [Plain(ArgsDelta(k, id, custom, arguments)), Plain(ArgsDone(k, id, custom, arguments))]
    case Reasoning(_, _, _) => []
  }

  function ItemEvents(k: nat, item: Item): seq<Event> {
    [Plain(ItemAdded(k, StartOf(item)))] + (InnerEvents(k, item) + [Plain(ItemDone(k, item))])
  }

  function OutputEvents(output: seq<Item>, k: nat): seq<Event>
    decreases |output| - k
  {
    if k >= |output| then [] else ItemEvents(k, output[k]) + OutputEvents(output, k + 1)
  }

  function Frames(events: seq<Event>): (frames: seq<Frame>)
    ensures |frames| == |events|
  {
    if events == [] then [] else [Payload(events[0])] + Frames(events[1..])
  }

  function Opener(r: Response): Event { Plain(Created(r.(status := "in_progress", output := []))) }

  function Plainest(r: Response): seq<Event> { [Opener(r)] + (OutputEvents(r.output, 0) + [Plain(Completed(r))]) }

  // ---------- Playing events ----------

  function PlayAll(s: Stage, events: seq<Event>, env: Environment): Stage
    decreases |events|
  {
    if events == [] then s else PlayAll(Proceed(s, events[0], env), events[1..], env)
  }

  lemma {:induction false} PlaysFrames(s: Stage, events: seq<Event>, env: Environment)
    ensures Plays(s, Frames(events), env) == PlayAll(s, events, env)
    decreases |events|
  {
    hide Proceed;
    if events != [] {
      PlaysFrames(Proceed(s, events[0], env), events[1..], env);
      if !s.Open? {
        assert Proceed(s, events[0], env) == Refused by { NotOpen(s, events[0], env); }
      }
    }
  }

  lemma NotOpen(s: Stage, e: Event, env: Environment)
    requires !s.Open?
    ensures Proceed(s, e, env) == Refused
  {
  }

  lemma OneEvent(c: Control, e: Event, rest: seq<Event>, env: Environment)
    requires c.Accepts(e, env) && !e.body.Completed?
    ensures PlayAll(Open(c), [e] + rest, env) == PlayAll(Open(c.Next(e, env)), rest, env)
  {
    hide Control.Accepts, Control.Next;
    assert ([e] + rest)[1..] == rest;
  }

  // ---------- What the limits have to allow ----------

  function PartsRaw(content: seq<Part>, p: nat): nat
    decreases |content| - p
  {
    if p >= |content| then 0 else Utf8Length(content[p].text) + PartsRaw(content, p + 1)
  }

  function PartsProse(content: seq<Part>, p: nat, auth: Authority): nat
    decreases |content| - p
  {
    if p >= |content| then 0 else Utf8Length(Restored(content[p].text, auth)) + PartsProse(content, p + 1, auth)
  }

  function RawCost(item: Item): nat {
    match item
    case Message(_, _, _, content, _) => PartsRaw(content, 0)
    case ToolCall(_, _, _, _, _, arguments, _) => Utf8Length(arguments)
    case Reasoning(_, _, _) => 0
  }

  function HeldCost(k: nat, item: Item, env: Environment): nat {
    match item
    case ToolCall(id, _, custom, _, _, arguments, _) =>
      env.eventSize(Plain(ItemAdded(k, StartOf(item)))) + env.eventSize(Plain(ArgsDelta(k, id, custom, arguments)))
      + env.eventSize(Plain(ArgsDone(k, id, custom, arguments))) + env.eventSize(Plain(ItemDone(k, item)))
    case _ => 0
  }

  function ProseCost(item: Item, env: Environment): nat {
    if item.Message? then PartsProse(item.content, 0, env.auth) else 0
  }

  function PartCount(item: Item): nat { if item.Message? then |item.content| else 0 }

  function RawTotal(output: seq<Item>, k: nat): nat
    decreases |output| - k
  {
    if k >= |output| then 0 else RawCost(output[k]) + RawTotal(output, k + 1)
  }

  function HeldTotal(output: seq<Item>, k: nat, env: Environment): nat
    decreases |output| - k
  {
    if k >= |output| then 0 else HeldCost(k, output[k], env) + HeldTotal(output, k + 1, env)
  }

  function ProseTotal(output: seq<Item>, k: nat, env: Environment): nat
    decreases |output| - k
  {
    if k >= |output| then 0 else ProseCost(output[k], env) + ProseTotal(output, k + 1, env)
  }

  function PartTotal(output: seq<Item>, k: nat): nat
    decreases |output| - k
  {
    if k >= |output| then 0 else PartCount(output[k]) + PartTotal(output, k + 1)
  }

  /** The stream's own limits. */
  predicate Fits(r: Response, env: Environment) {
    RawTotal(r.output, 0) <= env.maxOutputBytes && HeldTotal(r.output, 0, env) <= env.maxOutputBytes
  }

  // ---------- Item by item ----------

  predicate PartTold(s: PartState, part: Part, auth: Authority) {
    && s.raw == part && s.done && s.buffer.closed
    && s.buffer.raw == part.text && s.buffer.text == Restored(part.text, auth)
  }

  predicate PartsTold(parts: seq<PartState>, content: seq<Part>, p: nat, auth: Authority) {
    && p == |parts| <= |content|
    && forall q | 0 <= q < p :: PartTold(parts[q], content[q], auth)
  }

  /** An item that has been told to its end. */
  predicate Told(s: ItemState, item: Item, auth: Authority) {
    && s.raw == StartOf(item) && s.done && s.final == Some(item)
    && (item.Message? ==> PartsTold(s.parts, item.content, |item.content|, auth))
    && (!item.Message? ==> s.parts == [])
    && (item.ToolCall? ==> s.arguments == item.arguments)
  }

  /** How much room is left: items and parts, bytes in, bytes held, bytes out. */
  predicate Room(c: Control, count: nat, raw: nat, held: nat, prose: nat, total: nat, all: nat, env: Environment) {
    && c.totalItems + count == total <= env.maxItems
    && c.rawBytes + raw <= env.maxOutputBytes
    && c.pendingBytes + held <= env.maxOutputBytes
    && c.restoredBytes + prose == all <= env.maxOutputBytes
  }

  function Total(output: seq<Item>): nat { |output| + PartTotal(output, 0) }

  /** The items pass the response's check, after some others. */
  ghost predicate Checked(output: seq<Item>, ids: set<string>, calls: set<string>, env: Environment) {
    exists total: nat :: CheckOutput(output, true, env.maxItems, total, ids, calls).None?
  }

  ghost predicate Ready(c: Control, r: Response, k: nat, env: Environment) {
    var output := r.output;
    && c.started && c.sequenceMode != Some(true) && c.responseId == Some(r.id)
    && |c.items| == k <= |output| <= env.maxItems
    && Room(c, |output| - k + PartTotal(output, k), RawTotal(output, k), HeldTotal(output, k, env), ProseTotal(output, k, env),
            Total(output), ProseTotal(output, 0, env), env)
    && Checked(output[k..], c.ids, c.calls, env)
    && forall j | 0 <= j < k :: Told(c.items[j], output[j], env.auth)
  }

  /** In the middle of a message item: so many of its parts have been told. */
  ghost predicate Within(c: Control, r: Response, k: nat, p: nat, env: Environment)
    requires k < |r.output| && r.output[k].Message? && p <= |r.output[k].content|
  {
    var output, item := r.output, r.output[k];
    && c.started && c.sequenceMode != Some(true) && c.responseId == Some(r.id)
    && |c.items| == k + 1 && |output| <= env.maxItems
    && c.items[k].raw == StartOf(item) && !c.items[k].done && c.items[k].final.None?
    && PartsTold(c.items[k].parts, item.content, p, env.auth)
    && Room(c, |output| - k - 1 + PartTotal(output, k + 1) + |item.content| - p,
            RawTotal(output, k + 1) + PartsRaw(item.content, p), HeldTotal(output, k + 1, env),
            ProseTotal(output, k + 1, env) + PartsProse(item.content, p, env.auth),
            Total(output), ProseTotal(output, 0, env), env)
    && CheckItem(item, true, env.maxItems).None?
    && Checked(output[k + 1..], c.ids, c.calls, env)
    && forall j | 0 <= j < k :: Told(c.items[j], output[j], env.auth)
  }

  /** A part that took its whole text, not yet flushed; and flushed and done. */
  function Begun(part: Part, auth: Authority): PartState {
    PartState(part.(text := ""), OPENED.Feed(part.text, false, auth).0, false)
  }

  function Flushed(part: Part, auth: Authority): PartState {
    PartState(part, Begun(part, auth).buffer.Feed("", true, auth).0, true)
  }

  /** The run after a part was announced and told, and after it ended. */
  function PartBegun(c: Control, k: nat, part: Part, env: Environment): Control
    requires k < |c.items|
  {
    var s := c.items[k];
    c.(items := c.items[k := s.(parts := s.parts + [Begun(part, env.auth)])], totalItems := c.totalItems + 1,
       rawBytes := c.rawBytes + Utf8Length(part.text),
       restoredBytes := c.restoredBytes + Utf8Length(OPENED.Feed(part.text, false, env.auth).1), sequenceMode := Some(false))
  }

  function PartEnded(c: Control, k: nat, p: nat, part: Part, env: Environment): Control
    requires k < |c.items| && p < |c.items[k].parts|
  {
    var s := c.items[k];
    c.(items := c.items[k := s.(parts := s.parts[p := Flushed(part, env.auth)])],
       restoredBytes := c.restoredBytes + Utf8Length(Begun(part, env.auth).buffer.Feed("", true, env.auth).1),
       sequenceMode := Some(false))
  }

  /** The run after all four events of a part. */
  function AfterPart(c: Control, k: nat, part: Part, env: Environment): Control
    requires k < |c.items|
  {
    var s := c.items[k];
    c.(items := c.items[k := s.(parts := s.parts + [Flushed(part, env.auth)])], totalItems := c.totalItems + 1,
       rawBytes := c.rawBytes + Utf8Length(part.text),
       restoredBytes := c.restoredBytes + Utf8Length(Restored(part.text, env.auth)), sequenceMode := Some(false))
  }

  lemma FinishedTold(part: Part, auth: Authority)
    ensures PartTold(Flushed(part, auth), part, auth)
  {
    hide Buffer.Feed, Restored;
    WholeText(part.text, auth);
  }

  lemma PartOpens(c: Control, k: nat, p: nat, id: string, part: Part, env: Environment, rest: seq<Event>)
    requires c.started && c.sequenceMode != Some(true) && |c.items| == k + 1 <= env.maxItems
    requires c.items[k].raw.Message? && c.items[k].raw.id == id && !c.items[k].done && |c.items[k].parts| == p < env.maxItems
    requires PartOk(part) && c.totalItems < env.maxItems
    requires c.rawBytes + Utf8Length(part.text) <= env.maxOutputBytes
    requires c.restoredBytes + Utf8Length(Restored(part.text, env.auth)) <= env.maxOutputBytes
    ensures PlayAll(Open(c), [Plain(PartAdded(k, id, p, part.(text := "")))]
                             + ([Plain(TextDelta(k, id, p, part.refusal, part.text))] + rest), env)
            == PlayAll(Open(PartBegun(c, k, part, env)), rest, env)
  {
    hide Buffer.Feed, Utf8Length, Restored, PlayAll;
    var added, delta := Plain(PartAdded(k, id, p, part.(text := ""))), Plain(TextDelta(k, id, p, part.refusal, part.text));
    WholeText(part.text, env.auth);
    assert c.Accepts(added, env);
    var c1 := c.Next(added, env);
    assert c1.items[k].parts[p] == PartState(part.(text := ""), OPENED, false);
    assert c1.Accepts(delta, env);
    var next := c1.Next(delta, env);
    var s, begun := c.items[k], Begun(part, env.auth);
    assert next.items[k].parts == s.parts + [begun];
    assert next.items == c.items[k := s.(parts := s.parts + [begun])];
    OneEvent(c, added, [delta] + rest, env);
    OneEvent(c1, delta, rest, env);
  }

  lemma PartEnds(c: Control, k: nat, p: nat, id: string, part: Part, env: Environment, rest: seq<Event>)
    requires c.started && c.sequenceMode != Some(true) && |c.items| == k + 1 <= env.maxItems
    requires c.items[k].raw.Message? && c.items[k].raw.id == id && !c.items[k].done && |c.items[k].parts| == p + 1 <= env.maxItems
    requires c.items[k].parts[p] == Begun(part, env.auth) && PartOk(part)
    requires Utf8Length(part.text) <= env.maxOutputBytes
    requires c.restoredBytes + Utf8Length(Begun(part, env.auth).buffer.Feed("", true, env.auth).1) <= env.maxOutputBytes
    requires Utf8Length(Flushed(part, env.auth).buffer.text) <= env.maxOutputBytes
    ensures PlayAll(Open(c), [Plain(TextDone(k, id, p, part.refusal, part.text))] + ([Plain(PartDone(k, id, p, part))] + rest), env)
            == PlayAll(Open(PartEnded(c, k, p, part, env)), rest, env)
  {
    hide Buffer.Feed, Utf8Length, Restored, PlayAll;
    var told, done := Plain(TextDone(k, id, p, part.refusal, part.text)), Plain(PartDone(k, id, p, part));
    WholeText(part.text, env.auth);
    NoBytes();
    assert c.Accepts(told, env);
    var c1 := c.Next(told, env);
    assert c1.Accepts(done, env);
    var next := c1.Next(done, env);
    var s, finished := c.items[k], Flushed(part, env.auth);
    assert next.items[k].parts == s.parts[p := finished];
    assert next.items == c.items[k := s.(parts := s.parts[p := finished])];
    OneEvent(c, told, [done] + rest, env);
    OneEvent(c1, done, rest, env);
  }

  /** The four events of a part, taken by themselves. */
  lemma PartSteps(c: Control, k: nat, p: nat, id: string, part: Part, env: Environment, rest: seq<Event>)
    requires c.started && c.sequenceMode != Some(true) && |c.items| == k + 1 <= env.maxItems
    requires c.items[k].raw.Message? && c.items[k].raw.id == id && !c.items[k].done && |c.items[k].parts| == p < env.maxItems
    requires PartOk(part) && c.totalItems < env.maxItems
    requires c.rawBytes + Utf8Length(part.text) <= env.maxOutputBytes
    requires c.restoredBytes + Utf8Length(Restored(part.text, env.auth)) <= env.maxOutputBytes
    ensures PlayAll(Open(c), PartEvents(k, id, p, part) + rest, env) == PlayAll(Open(AfterPart(c, k, part, env)), rest, env)
  {
    hide Buffer.Feed, Utf8Length, Restored, PlayAll;
    var told, done := Plain(TextDone(k, id, p, part.refusal, part.text)), Plain(PartDone(k, id, p, part));
    var added, delta := Plain(PartAdded(k, id, p, part.(text := ""))), Plain(TextDelta(k, id, p, part.refusal, part.text));
    assert PartEvents(k, id, p, part) + rest == [added] + ([delta] + ([told, done] + rest));
    assert [told, done] + rest == [told] + ([done] + rest);
    WholeText(part.text, env.auth);
    PartOpens(c, k, p, id, part, env, [told, done] + rest);
    var mid := PartBegun(c, k, part, env);
    PartEnds(mid, k, p, id, part, env, rest);
    TwoHalves(c, k, p, part, env);
  }

  lemma TwoHalves(c: Control, k: nat, p: nat, part: Part, env: Environment)
    requires k < |c.items| && |c.items[k].parts| == p
    ensures PartEnded(PartBegun(c, k, part, env), k, p, part, env) == AfterPart(c, k, part, env)
  {
    hide Buffer.Feed, Utf8Length, Restored;
    WholeText(part.text, env.auth);
    var s, begun, finished := c.items[k], Begun(part, env.auth), Flushed(part, env.auth);
    assert (s.parts + [begun])[p := finished] == s.parts + [finished];
    var mid := c.items[k := s.(parts := s.parts + [begun])];
    assert mid[k := s.(parts := s.parts + [finished])] == c.items[k := s.(parts := s.parts + [finished])];
  }

  lemma PartPlays(c: Control, r: Response, k: nat, p: nat, env: Environment, rest: seq<Event>) returns (next: Control)
    requires k < |r.output| && r.output[k].Message? && p < |r.output[k].content|
    requires Within(c, r, k, p, env)
    ensures Within(next, r, k, p + 1, env)
    ensures PlayAll(Open(c), PartEvents(k, r.output[k].id, p, r.output[k].content[p]) + rest, env) == PlayAll(Open(next), rest, env)
  {
    hide Utf8Length, Restored, CheckOutput, PlayAll, PartEvents, Checked, Told, PartTold, Flushed;
    var item, part := r.output[k], r.output[k].content[p];
    assert part in item.content && PartOk(part);
    PartSteps(c, k, p, item.id, part, env, rest);
    FinishedTold(part, env.auth);
    next := AfterPart(c, k, part, env);
    forall q | 0 <= q < p + 1
      ensures PartTold(next.items[k].parts[q], item.content[q], env.auth)
    {
      if q < p {
        assert next.items[k].parts[q] == c.items[k].parts[q];
      }
    }
    forall j | 0 <= j < k
      ensures Told(next.items[j], r.output[j], env.auth)
    {
      assert next.items[j] == c.items[j];
    }
  }

  lemma {:induction false} PartsPlay(c: Control, r: Response, k: nat, p: nat, env: Environment, rest: seq<Event>)
    returns (next: Control)
    requires k < |r.output| && r.output[k].Message? && p <= |r.output[k].content|
    requires Within(c, r, k, p, env)
    ensures Within(next, r, k, |r.output[k].content|, env)
    ensures PlayAll(Open(c), PartsEvents(k, r.output[k].id, r.output[k].content, p) + rest, env) == PlayAll(Open(next), rest, env)
    decreases |r.output[k].content| - p
  {
    hide PlayAll, PartEvents, Within;
    var item := r.output[k];
    if p == |item.content| {
      next := c;
      assert [] + rest == rest;
    } else {
      var tail := PartsEvents(k, item.id, item.content, p + 1) + rest;
      assert PartsEvents(k, item.id, item.content, p) + rest == PartEvents(k, item.id, p, item.content[p]) + tail;
      next := PartPlays(c, r, k, p, env, tail);
      next := PartsPlay(next, r, k, p + 1, env, rest);
    }
  }

  // ---------- The beginning and the end of an item ----------

  lemma StartChecked(item: Item, maxItems: nat)
    requires CheckItem(item, true, maxItems).None?
    ensures CheckItem(StartOf(item), false, maxItems).None?
  {
    assert item.Message? ==> StartOf(item).content == [];
  }

  /** The check of the remaining items, one item further. */
  lemma CheckedOne(output: seq<Item>, k: nat, ids: set<string>, calls: set<string>, env: Environment)
    requires k < |output| && Checked(output[k..], ids, calls, env)
    ensures var item := output[k];
            && CheckItem(item, true, env.maxItems).None? && item.id !in ids && (item.ToolCall? ==> item.callId !in calls)
            && Checked(output[k + 1..], ids + {item.id}, if item.ToolCall? then calls + {item.callId} else calls, env)
  {
    hide CheckItem;
    var total: nat :| CheckOutput(output[k..], true, env.maxItems, total, ids, calls).None?;
    assert output[k..][1..] == output[k + 1..] && output[k..][0] == output[k];
    var item := output[k];
    var after := if item.Message? then total + |item.content| else total;
    assert CheckOutput(output[k + 1..], true, env.maxItems, after, ids + {item.id},
                       if item.ToolCall? then calls + {item.callId} else calls).None?;
  }

  function Fresh(item: Item): ItemState { ItemState(StartOf(item), false, [], "", [], false, "", None) }

  function AddedSize(k: nat, item: Item, env: Environment): nat {
    if item.ToolCall? then env.eventSize(Plain(ItemAdded(k, StartOf(item)))) else 0
  }

  /** The run after an item was announced. */
  function Started(c: Control, k: nat, item: Item, env: Environment): Control {
    c.(items := c.items + [Fresh(item)], ids := c.ids + {item.id},
       calls := if item.ToolCall? then c.calls + {item.callId} else c.calls,
       totalItems := c.totalItems + 1, pendingBytes := c.pendingBytes + AddedSize(k, item, env),
       sequenceMode := Some(false))
  }

  lemma ItemStarts(c: Control, r: Response, k: nat, env: Environment, rest: seq<Event>)
    requires Ready(c, r, k, env) && k < |r.output|
    ensures var item := r.output[k];
            var next := Started(c, k, item, env);
            && CheckItem(item, true, env.maxItems).None? && Checked(r.output[k + 1..], next.ids, next.calls, env)
            && PlayAll(Open(c), [Plain(ItemAdded(k, StartOf(item)))] + rest, env) == PlayAll(Open(next), rest, env)
  {
    hide PlayAll, CheckItem, Checked, Told;
    var item, e := r.output[k], Plain(ItemAdded(k, StartOf(r.output[k])));
    CheckedOne(r.output, k, c.ids, c.calls, env);
    StartChecked(item, env.maxItems);
    StartKeeps(item);
    assert c.Accepts(e, env);
    assert c.Next(e, env) == Started(c, k, item, env);
    OneEvent(c, e, rest, env);
  }

  lemma StartKeeps(item: Item)
    ensures var start := StartOf(item);
            && start.id == item.id && start.Message? == item.Message? && start.ToolCall? == item.ToolCall?
            && (item.ToolCall? ==> start.callId == item.callId && start.arguments == "" && start.name == item.name && start.custom == item.custom)
            && (item.Message? ==> start.content == [])
  {
  }

  /** The item as gathered so far is the item that ends. */
  predicate Gathered(s: ItemState, item: Item, auth: Authority) {
    && s.raw == StartOf(item) && !s.done && s.final.None?
    && (item.Message? ==> PartsTold(s.parts, item.content, |item.content|, auth))
    && (!item.Message? ==> s.parts == [])
    && (item.ToolCall? ==> s.arguments == item.arguments && s.argsDone)
  }

  lemma GatheredCompares(s: ItemState, item: Item, env: Environment)
    requires Gathered(s, item, env.auth) && CheckItem(item, true, env.maxItems).None?
    ensures Confirms(item, s, env.maxItems)
    ensures CompareItem(item, s.(final := Some(item), done := true), env.maxItems).None?
  {
    hide Restored, CheckItem;
    CompleteStatus(item, env.maxItems);
  }

  lemma SameParts(parts: seq<PartState>, content: seq<Part>, auth: Authority)
    requires PartsTold(parts, content, |content|, auth)
    ensures PartSnapshots(parts, true) == RestoreContent(content, auth)
  {
    hide Restored;
    forall p | 0 <= p < |content|
      ensures PartSnapshots(parts, true)[p] == RestoreContent(content, auth)[p]
    {
      assert PartTold(parts[p], content[p], auth);
    }
  }

  function DoneSize(k: nat, item: Item, env: Environment): nat {
    if item.ToolCall? then env.eventSize(Plain(ItemDone(k, item))) else 0
  }

  /** The run after an item ended. */
  function Ended(c: Control, k: nat, item: Item, env: Environment): Control
    requires k < |c.items|
  {
    c.(items := c.items[k := c.items[k].(final := Some(item), done := true)],
       pendingBytes := c.pendingBytes + DoneSize(k, item, env), sequenceMode := Some(false))
  }

  lemma ItemEnds(c: Control, k: nat, item: Item, env: Environment, rest: seq<Event>)
    requires c.started && c.sequenceMode != Some(true) && |c.items| == k + 1 <= env.maxItems
    requires Gathered(c.items[k], item, env.auth) && CheckItem(item, true, env.maxItems).None?
    requires c.pendingBytes + DoneSize(k, item, env) <= env.maxOutputBytes
    ensures Told(Ended(c, k, item, env).items[k], item, env.auth)
    ensures PlayAll(Open(c), [Plain(ItemDone(k, item))] + rest, env) == PlayAll(Open(Ended(c, k, item, env)), rest, env)
  {
    hide PlayAll, CheckItem, Confirms, Restored;
    var e := Plain(ItemDone(k, item));
    GatheredCompares(c.items[k], item, env);
    StartKeeps(item);
    assert c.Accepts(e, env);
    assert c.Next(e, env) == Ended(c, k, item, env);
    OneEvent(c, e, rest, env);
  }

  // ---------- Each kind of item ----------

  lemma MessagePlays(c: Control, r: Response, k: nat, env: Environment, rest: seq<Event>) returns (next: Control)
    requires Ready(c, r, k, env) && k < |r.output| && r.output[k].Message?
    ensures Ready(next, r, k + 1, env)
    ensures PlayAll(Open(c), ItemEvents(k, r.output[k]) + rest, env) == PlayAll(Open(next), rest, env)
  {
    hide PlayAll, CheckItem, Checked, PartsEvents, Utf8Length, Restored;
    var item := r.output[k];
    var inner, end := PartsEvents(k, item.id, item.content, 0), [Plain(ItemDone(k, item))];
    assert ItemEvents(k, item) + rest == [Plain(ItemAdded(k, StartOf(item)))] + (inner + (end + rest));
    ItemStarts(c, r, k, env, inner + (end + rest));
    StartWithin(c, r, k, env);
    var c2 := PartsPlay(Started(c, k, item, env), r, k, 0, env, end + rest);
    StartKeeps(item);
    ItemEnds(c2, k, item, env, rest);
    next := Ended(c2, k, item, env);
    TellsOn(c2, next, r, k, env);
  }

  lemma StartWithin(c: Control, r: Response, k: nat, env: Environment)
    requires Ready(c, r, k, env) && k < |r.output| && r.output[k].Message?
    requires var c1 := Started(c, k, r.output[k], env);
             CheckItem(r.output[k], true, env.maxItems).None? && Checked(r.output[k + 1..], c1.ids, c1.calls, env)
    ensures Within(Started(c, k, r.output[k], env), r, k, 0, env)
  {
    hide CheckItem, Checked, Utf8Length, Restored, Told, PartsRaw, PartsProse;
    var c1 := Started(c, k, r.output[k], env);
    forall j | 0 <= j < k
      ensures Told(c1.items[j], r.output[j], env.auth)
    {
      assert c1.items[j] == c.items[j];
    }
  }

  lemma TellsOn(c: Control, next: Control, r: Response, k: nat, env: Environment)
    requires k < |r.output| && r.output[k].Message? && Within(c, r, k, |r.output[k].content|, env)
    requires |next.items| == k + 1 && next == c.(items := next.items, sequenceMode := Some(false))
    requires next.items[..k] == c.items[..k] && Told(next.items[k], r.output[k], env.auth)
    ensures Ready(next, r, k + 1, env)
  {
    hide CheckItem, Checked, Utf8Length, Restored, Told;
    forall j | 0 <= j < k + 1
      ensures Told(next.items[j], r.output[j], env.auth)
    {
      if j < k {
        assert next.items[..k][j] == c.items[..k][j];
      }
    }
  }

  function ArgumentSize(k: nat, item: Item, env: Environment): nat
    requires item.ToolCall?
  {
    env.eventSize(Plain(ArgsDelta(k, item.id, item.custom, item.arguments)))
    + env.eventSize(Plain(ArgsDone(k, item.id, item.custom, item.arguments)))
  }

  /** The run after a call's arguments came in. */
  function Argued(c: Control, k: nat, item: Item, env: Environment): Control
    requires k < |c.items| && item.ToolCall?
  {
    c.(items := c.items[k := Fresh(item).(arguments := item.arguments, argsDone := true)],
       rawBytes := c.rawBytes + Utf8Length(item.arguments), pendingBytes := c.pendingBytes + ArgumentSize(k, item, env),
       sequenceMode := Some(false))
  }

  lemma ArgumentSteps(c: Control, k: nat, item: Item, env: Environment, rest: seq<Event>)
    requires c.started && c.sequenceMode != Some(true) && |c.items| == k + 1 <= env.maxItems
    requires item.ToolCall? && c.items[k] == Fresh(item)
    requires c.rawBytes + Utf8Length(item.arguments) <= env.maxOutputBytes
    requires c.pendingBytes + ArgumentSize(k, item, env) <= env.maxOutputBytes
    ensures Gathered(Argued(c, k, item, env).items[k], item, env.auth)
    ensures PlayAll(Open(c), InnerEvents(k, item) + rest, env) == PlayAll(Open(Argued(c, k, item, env)), rest, env)
  {
    hide PlayAll, Utf8Length;
    var delta, done := Plain(ArgsDelta(k, item.id, item.custom, item.arguments)), Plain(ArgsDone(k, item.id, item.custom, item.arguments));
    StartKeeps(item);
    assert c.Accepts(delta, env);
    var c1 := c.Next(delta, env);
    assert [] + [item.arguments] == [item.arguments];
    assert Join([item.arguments]) == item.arguments + Join([]) == item.arguments;
    assert c1.Accepts(done, env);
    assert c1.Next(done, env).items == Argued(c, k, item, env).items;
    assert InnerEvents(k, item) + rest == [delta] + ([done] + rest);
    OneEvent(c, delta, [done] + rest, env);
    OneEvent(c1, done, rest, env);
  }

  lemma CallPlays(c: Control, r: Response, k: nat, env: Environment, rest: seq<Event>) returns (next: Control)
    requires Ready(c, r, k, env) && k < |r.output| && r.output[k].ToolCall?
    ensures Ready(next, r, k + 1, env)
    ensures PlayAll(Open(c), ItemEvents(k, r.output[k]) + rest, env) == PlayAll(Open(next), rest, env)
  {
    hide PlayAll, CheckItem, Checked, Utf8Length, Restored, Told, Gathered;
    var item := r.output[k];
    var inner, end := InnerEvents(k, item), [Plain(ItemDone(k, item))];
    assert ItemEvents(k, item) + rest == [Plain(ItemAdded(k, StartOf(item)))] + (inner + (end + rest)) by { hide InnerEvents; }
    ItemStarts(c, r, k, env, inner + (end + rest));
    var c1 := Started(c, k, item, env);
    ArgumentSteps(c1, k, item, env, end + rest);
    var c2 := Argued(c1, k, item, env);
    ItemEnds(c2, k, item, env, rest);
    next := Ended(c2, k, item, env);
    forall j | 0 <= j < k + 1
      ensures Told(next.items[j], r.output[j], env.auth)
    {
      if j < k {
        assert next.items[j] == c2.items[j] == c1.items[j] == c.items[j];
      }
    }
  }

  lemma ReasoningPlays(c: Control, r: Response, k: nat, env: Environment, rest: seq<Event>) returns (next: Control)
    requires Ready(c, r, k, env) && k < |r.output| && r.output[k].Reasoning?
    ensures Ready(next, r, k + 1, env)
    ensures PlayAll(Open(c), ItemEvents(k, r.output[k]) + rest, env) == PlayAll(Open(next), rest, env)
  {
    hide PlayAll, CheckItem, Checked, Utf8Length, Restored, Told;
    var item := r.output[k];
    var end := [Plain(ItemDone(k, item))];
    assert ItemEvents(k, item) + rest == [Plain(ItemAdded(k, StartOf(item)))] + (end + rest);
    ItemStarts(c, r, k, env, end + rest);
    var c1 := Started(c, k, item, env);
    ItemEnds(c1, k, item, env, rest);
    next := Ended(c1, k, item, env);
    forall j | 0 <= j < k + 1
      ensures Told(next.items[j], r.output[j], env.auth)
    {
      if j < k {
        assert next.items[j] == c1.items[j] == c.items[j];
      }
    }
  }

  lemma {:induction false} OutputPlays(c: Control, r: Response, k: nat, env: Environment, rest: seq<Event>) returns (next: Control)
    requires Ready(c, r, k, env)
    ensures Ready(next, r, |r.output|, env)
    ensures PlayAll(Open(c), OutputEvents(r.output, k) + rest, env) == PlayAll(Open(next), rest, env)
    decreases |r.output| - k
  {
    hide PlayAll, ItemEvents;
    if k == |r.output| {
      next := c;
      assert [] + rest == rest;
    } else {
      var tail := OutputEvents(r.output, k + 1) + rest;
      assert OutputEvents(r.output, k) + rest == ItemEvents(k, r.output[k]) + tail;
      hide Ready;
      var after;
      if r.output[k].Message? {
        after := MessagePlays(c, r, k, env, tail);
      } else if r.output[k].ToolCall? {
        after := CallPlays(c, r, k, env, tail);
      } else {
        after := ReasoningPlays(c, r, k, env, tail);
      }
      next := OutputPlays(after, r, k + 1, env, rest);
    }
  }

  // ---------- The end of the response ----------

  /** The gathered items are the response's: same calls, same restoration, same cost. */
  lemma {:induction false} ItemsTold(items: seq<ItemState>, output: seq<Item>, k: nat, env: Environment)
    requires |items| == |output| && k <= |output| && forall j | 0 <= j < |output| :: Told(items[j], output[j], env.auth)
    ensures StateCalls(items[k..]) == CallsOf(output[k..])
    ensures Tools(items[k..], env).bytes + ProseTotal(output, k, env) == OutputShare(output[k..], env).bytes
    decreases |output| - k
  {
    hide Utf8Length, Restored, PartsTold, TallyOf;
    if k < |output| {
      ItemsTold(items, output, k + 1, env);
      assert items[k..][1..] == items[k + 1..] && output[k..][1..] == output[k + 1..];
      OneTold(items[k], output[k], env);
    }
  }

  lemma OneTold(s: ItemState, item: Item, env: Environment)
    requires Told(s, item, env.auth)
    ensures item.ToolCall? == s.raw.ToolCall? && (item.ToolCall? ==> StateCall(s) == BufferedResponse.CallOf(item))
    ensures StateShare(s, env).bytes + ProseCost(item, env) == ItemShare(item, env).bytes
    ensures StateAccepted(s, env) ==> ItemSnapshot(WithRestored(s, env), true) == RestoreItem(item, env)
  {
    hide Utf8Length, Restored, TallyOf;
    StartKeeps(item);
    if item.Message? {
      SameParts(s.parts, item.content, env.auth);
      PartsShare(item.content, 0, env.auth);
      assert item.content[0..] == item.content;
    }
    hide PartSnapshots, RestoreContent, ContentShare, PartsProse;
  }

  lemma {:induction false} PartsShare(content: seq<Part>, p: nat, auth: Authority)
    requires p <= |content|
    ensures PartsProse(content, p, auth) == ContentShare(content[p..], auth).bytes
    decreases |content| - p
  {
    hide Utf8Length, Restored, TallyOf;
    if p < |content| {
      PartsShare(content, p + 1, auth);
      assert content[p..][1..] == content[p + 1..];
    }
  }

  lemma CompletesToo(c: Control, r: Response, env: Environment)
    requires Ready(c, r, |r.output|, env) && Releasable(r, env)
    ensures c.Accepts(Plain(Completed(r)), env)
  {
    hide CheckResponse, Confirms, CheckItem, Utf8Length, Restored, PartsTold, OutputShare, Tools, StateCalls, CallsOf, Checked;
    hide ItemShare, StateShare, ProseTotal, RawTotal, HeldTotal, PartTotal;
    var items, output := c.items, r.output;
    var n := |output|;
    ItemsTold(items, output, 0, env);
    assert items[0..] == items && output[0..] == output;
    ChecksEach(r, env);
    forall k | 0 <= k < n
      ensures items[k].done && Confirms(output[k], items[k], env.maxItems) && StateAccepted(items[k], env)
      ensures ItemSnapshot(WithRestored(items[k], env), true) == RestoreItem(output[k], env)
    {
      OneTold(items[k], output[k], env);
      ToldCompares(items[k], output[k], env);
    }
    assert Snapshots(AllRestored(items, env)) == RestoreItems(output, env);
    NothingLeft(output, env);
  }

  lemma NothingLeft(output: seq<Item>, env: Environment)
    ensures ProseTotal(output, |output|, env) == 0
  {
  }

  lemma ToldCompares(s: ItemState, item: Item, env: Environment)
    requires Told(s, item, env.auth) && CheckItem(item, true, env.maxItems).None?
    ensures Confirms(item, s, env.maxItems)
  {
    CompleteStatus(item, env.maxItems);
    hide CheckItem, Restored;
  }

  lemma ChecksEach(r: Response, env: Environment)
    requires CheckResponse(r, true, env).None?
    ensures forall k | 0 <= k < |r.output| :: CheckItem(r.output[k], true, env.maxItems).None?
  {
    hide CheckItem;
    forall k | 0 <= k < |r.output|
      ensures CheckItem(r.output[k], true, env.maxItems).None?
    {
      EachChecked(r.output, k, env.maxItems, |r.output|, {}, {});
    }
  }

  lemma {:induction false} EachChecked(output: seq<Item>, k: nat, maxItems: nat, total: nat, ids: set<string>, calls: set<string>)
    requires k < |output| && CheckOutput(output, true, maxItems, total, ids, calls).None?
    ensures CheckItem(output[k], true, maxItems).None?
    decreases |output|
  {
    hide CheckItem;
    if k > 0 {
      var item := output[0];
      EachChecked(output[1..], k - 1, maxItems, if item.Message? then total + |item.content| else total,
                  ids + {item.id}, if item.ToolCall? then calls + {item.callId} else calls);
    }
  }

  lemma {:induction false} TotalFits(output: seq<Item>, k: nat, maxItems: nat, total: nat, ids: set<string>, calls: set<string>)
    requires k <= |output| && total <= maxItems && CheckOutput(output[k..], true, maxItems, total, ids, calls).None?
    ensures total + PartTotal(output, k) <= maxItems
    decreases |output| - k
  {
    hide CheckItem;
    if k < |output| {
      var item := output[k];
      assert output[k..][1..] == output[k + 1..] && output[k..][0] == item;
      TotalFits(output, k + 1, maxItems, total + PartCount(item), ids + {item.id},
                if item.ToolCall? then calls + {item.callId} else calls);
    }
  }

  lemma {:induction false} ProseWithin(output: seq<Item>, k: nat, env: Environment)
    requires k <= |output|
    ensures ProseTotal(output, k, env) <= OutputShare(output[k..], env).bytes
    decreases |output| - k
  {
    hide Utf8Length, Restored, TallyOf;
    if k < |output| {
      ProseWithin(output, k + 1, env);
      assert output[k..][1..] == output[k + 1..];
      if output[k].Message? {
        PartsShare(output[k].content, 0, env.auth);
        assert output[k].content[0..] == output[k].content;
      }
    }
  }

  lemma OpenerReady(r: Response, env: Environment)
    requires Releasable(r, env) && Fits(r, env)
    ensures OPENING.Accepts(Opener(r), env) && Ready(OPENING.Next(Opener(r), env), r, 0, env)
  {
    hide CheckItem, OutputShare, CallsOf, RestoreItems, Utf8Length;
    assert r.output[0..] == r.output;
    ProseWithin(r.output, 0, env);
    TotalFits(r.output, 0, env.maxItems, |r.output|, {}, {});
    hide ProseTotal, RawTotal, HeldTotal, PartTotal;
    assert CheckResponse(Opener(r).body.response, false, env).None?;
    assert Checked(r.output, {}, {}, env) by { hide CheckOutput; }
  }

  /** Whatever the buffered path releases is accepted as a stream too, within the stream's own limits. */
  lemma PlainestAccepted(r: Response, env: Environment)
    requires Releasable(r, env) && Fits(r, env)
    ensures Plays(Open(OPENING), Frames(Plainest(r)), env) == Complete
  {
    OpenerReady(r, env);
    hide PlayAll, Ready, Releasable, Fits, OutputEvents, Control.Accepts, Control.Next, Plays, Frames, Opener;
    var last := Plain(Completed(r));
    PlaysFrames(Open(OPENING), Plainest(r), env);
    OneEvent(OPENING, Opener(r), OutputEvents(r.output, 0) + [last], env) by { OpenerOpens(r); }
    var next := OutputPlays(OPENING.Next(Opener(r), env), r, 0, env, [last]);
    CompletesToo(next, r, env);
    Completing(next, last, env);
  }

  lemma OpenerOpens(r: Response)
    ensures !Opener(r).body.Completed?
  {
  }

  lemma Completing(c: Control, last: Event, env: Environment)
    requires c.Accepts(last, env) && last.body.Completed?
    ensures PlayAll(Open(c), [last], env) == Complete
  {
    hide Control.Accepts;
    assert [last][1..] == [];
  }
}
