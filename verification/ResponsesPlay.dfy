/** The Responses machine as a pure step function: which events it accepts, and what they lead to. */
module ResponsesPlay {
  import opened Text
  import opened Tokens
  import opened Restoration
  import opened TokenStream
  import opened ResponsesProtocol
  import opened BufferedResponse
  import opened ResponsesInvariants
  import opened ResponsesRelease

  /** What decides about the next event. */
  datatype Control = Control(
    started: bool,
    inProgress: bool,
    responseId: Option<string>,
    items: seq<ItemState>,
    ids: set<string>,
    calls: set<string>,
    pendingBytes: nat,
    rawBytes: nat,
    restoredBytes: nat,
    totalItems: nat,
    sequence: int,
    sequenceMode: Option<bool>
  ) {
    predicate Numbered(e: Event) {
      && (sequenceMode.Some? ==> sequenceMode.value == e.sequence.Some?)
      && (e.sequence.Some? ==> e.sequence.value > sequence)
    }

    function Observed(e: Event): Control {
      this.(sequence := if e.sequence.Some? then e.sequence.value else sequence, sequenceMode := Some(e.sequence.Some?))
    }

    /** What is received, held, and released stays within the limits. */
    predicate RawFits(text: string, env: Environment) { rawBytes + Utf8Length(text) <= env.maxOutputBytes }

    predicate HeldFits(e: Event, env: Environment) { pendingBytes + env.eventSize(e) <= env.maxOutputBytes }

    predicate TextFits(k: nat, p: nat, value: string, final: bool, env: Environment)
      requires k < |items| && p < |items[k].parts|
    {
      var (after, text) := items[k].parts[p].buffer.Feed(value, final, env.auth);
      && Utf8Length(after.raw) <= env.maxOutputBytes && Utf8Length(after.text) <= env.maxOutputBytes
      && restoredBytes + Utf8Length(text) <= env.maxOutputBytes
    }

    predicate Located(index: int, itemId: string, env: Environment) {
      0 <= index < env.maxItems && index < |items| && !items[index].done && itemId == items[index].raw.id
    }

    // ---------- Acceptance, kind by kind ----------

    predicate Opens(e: Event, env: Environment)
      requires e.body.Created? || e.body.InProgress?
    {
      && CheckResponse(e.body.response, false, env).None? && e.body.response.output == []
      && if e.body.Created? then !started
         else started && !inProgress && items == [] && Some(e.body.response.id) == responseId
    }

    /** An item that may be announced here and now. */
    predicate Announces(e: Event, env: Environment)
      requires e.body.ItemAdded?
    {
      var item := e.body.item;
      && 0 <= e.body.index < env.maxItems && CheckItem(item, false, env.maxItems).None?
      && e.body.index == |items| && item.id !in ids
      && (item.Message? ==> item.content == [])
      && (item.ToolCall? ==> item.arguments == "" && item.callId !in calls)
      && totalItems < env.maxItems
      && (item.ToolCall? ==> HeldFits(e, env))
    }

    predicate OpensPart(e: Event, env: Environment)
      requires e.body.PartAdded?
    {
      && Located(e.body.index, e.body.itemId, env) && PartOk(e.body.part) && 0 <= e.body.contentIndex < env.maxItems
      && items[e.body.index].raw.Message? && e.body.contentIndex == |items[e.body.index].parts|
      && e.body.part.text == "" && totalItems < env.maxItems
    }

    predicate ClosesPart(e: Event, env: Environment)
      requires e.body.PartDone?
    {
      && Located(e.body.index, e.body.itemId, env) && PartOk(e.body.part) && 0 <= e.body.contentIndex < env.maxItems
      && items[e.body.index].raw.Message? && e.body.contentIndex < |items[e.body.index].parts|
      && var tracked := items[e.body.index].parts[e.body.contentIndex];
      && !tracked.done && tracked.buffer.closed && e.body.part.refusal == tracked.raw.refusal
      && e.body.part.text == tracked.buffer.raw
    }

    /** The part a text event speaks of, open and of the event's kind. */
    predicate Speaks(e: Event, env: Environment)
      requires e.body.TextDelta? || e.body.TextDone?
    {
      && Located(e.body.index, e.body.itemId, env) && 0 <= e.body.contentIndex < env.maxItems
      && items[e.body.index].raw.Message? && e.body.contentIndex < |items[e.body.index].parts|
      && var part := items[e.body.index].parts[e.body.contentIndex];
      && part.raw.refusal == e.body.refusal && !part.done && !part.buffer.closed
      && (e.body.TextDone? ==> e.body.text == part.buffer.raw)
    }

    predicate TakesText(e: Event, env: Environment)
      requires e.body.TextDelta? || e.body.TextDone?
    {
      && Speaks(e, env)
      && (e.body.TextDelta? ==> RawFits(e.body.delta, env))
      && TextFits(e.body.index, e.body.contentIndex, Fragment(e), e.body.TextDone?, env)
    }

    /** The call an argument event speaks of, its arguments not yet complete. */
    predicate Argues(e: Event, env: Environment)
      requires e.body.ArgsDelta? || e.body.ArgsDone?
    {
      && Located(e.body.index, e.body.itemId, env)
      && items[e.body.index].raw.ToolCall? && items[e.body.index].raw.custom == e.body.custom && !items[e.body.index].argsDone
      && (e.body.ArgsDone? ==> e.body.value == Join(items[e.body.index].chunks))
    }

    predicate TakesArguments(e: Event, env: Environment)
      requires e.body.ArgsDelta? || e.body.ArgsDone?
    {
      Argues(e, env) && (e.body.ArgsDelta? ==> RawFits(e.body.delta, env)) && HeldFits(e, env)
    }

    /** The item may end, and the event repeats it. */
    predicate Ends(e: Event, env: Environment)
      requires e.body.ItemDone?
    {
      && 0 <= e.body.index < env.maxItems && e.body.index < |items|
      && var s := items[e.body.index];
      && !s.done && (s.raw.Message? ==> forall p | p in s.parts :: p.done) && (s.raw.ToolCall? ==> s.argsDone)
      && Confirms(e.body.item, s, env.maxItems)
    }

    predicate TakesEnd(e: Event, env: Environment)
      requires e.body.ItemDone?
    {
      Ends(e, env) && (items[e.body.index].raw.ToolCall? ==> HeldFits(e, env))
    }

    /** Exactly when the provider's completion is accepted. */
    predicate Completable(e: Event, env: Environment)
      requires e.body.Completed?
    {
      var response := e.body.response;
      && CheckResponse(response, true, env).None?
      && Some(response.id) == responseId && |response.output| == |items|
      && (forall k | 0 <= k < |items| :: items[k].done && Confirms(response.output[k], items[k], env.maxItems))
      && env.batchOk(StateCalls(items))
      && (forall k | 0 <= k < |items| :: StateAccepted(items[k], env))
      && restoredBytes + Tools(items, env).bytes <= env.maxOutputBytes
      && env.responseSize(response.(output := Snapshots(AllRestored(items, env)))) <= env.maxOutputBytes
    }

    predicate Accepts(e: Event, env: Environment) {
      && Numbered(e)
      && match e.body
         case Created(_) => Opens(e, env)
         case InProgress(_) => Opens(e, env)
         case ItemAdded(_, _) => started && Announces(e, env)
         case PartAdded(_, _, _, _) => started && OpensPart(e, env)
         case PartDone(_, _, _, _) => started && ClosesPart(e, env)
         case TextDelta(_, _, _, _, _) => started && TakesText(e, env)
         case TextDone(_, _, _, _, _) => started && TakesText(e, env)
         case ArgsDelta(_, _, _, _) => started && TakesArguments(e, env)
         case ArgsDone(_, _, _, _) => started && TakesArguments(e, env)
         case ItemDone(_, _) => started && TakesEnd(e, env)
         case Completed(_) => started && Completable(e, env)
         case _ => false
    }

    // ---------- What an accepted event leads to ----------

    function Opened(e: Event): Control
      requires e.body.Created? || e.body.InProgress?
    {
      if e.body.Created? then Observed(e).(started := true, responseId := Some(e.body.response.id))
      else Observed(e).(inProgress := true)
    }

    function Announced(e: Event, env: Environment): Control
      requires e.body.ItemAdded?
    {
      var item := e.body.item;
      Observed(e).(
        items := items + [ItemState(item, false, [], "", [], false, "", None)], ids := ids + {item.id},
        calls := if item.ToolCall? then calls + {item.callId} else calls, totalItems := totalItems + 1,
        pendingBytes := if item.ToolCall? then pendingBytes + env.eventSize(e) else pendingBytes)
    }

    function PartOpened(e: Event, env: Environment): Control
      requires e.body.PartAdded? && OpensPart(e, env)
    {
      var s := items[e.body.index];
      Observed(e).(
        items := items[e.body.index := s.(parts := s.parts + [PartState(e.body.part, OPENED, false)])],
        totalItems := totalItems + 1)
    }

    function PartClosed(e: Event, env: Environment): Control
      requires e.body.PartDone? && ClosesPart(e, env)
    {
      var s, p := items[e.body.index], e.body.contentIndex;
      Observed(e).(items := items[e.body.index := s.(parts := s.parts[p := PartState(e.body.part, s.parts[p].buffer, true)])])
    }

    function Spoken(e: Event, env: Environment): Control
      requires (e.body.TextDelta? || e.body.TextDone?) && Speaks(e, env)
    {
      var k, p := e.body.index, e.body.contentIndex;
      Observed(e).(
        items := items[k := Fed(items[k], p, Fragment(e), e.body.TextDone?, env.auth)],
        rawBytes := rawBytes + Utf8Length(Fragment(e)),
        restoredBytes := restoredBytes + Utf8Length(items[k].parts[p].buffer.Feed(Fragment(e), e.body.TextDone?, env.auth).1))
    }

    function Argued(e: Event, env: Environment): Control
      requires (e.body.ArgsDelta? || e.body.ArgsDone?) && Argues(e, env)
    {
      Observed(e).(
        items := items[e.body.index := ArguedItem(items[e.body.index], e)],
        rawBytes := if e.body.ArgsDelta? then rawBytes + Utf8Length(e.body.delta) else rawBytes,
        pendingBytes := pendingBytes + env.eventSize(e))
    }

    function Ended(e: Event, env: Environment): Control
      requires e.body.ItemDone? && Ends(e, env)
    {
      var k := e.body.index;
      Observed(e).(
        items := items[k := items[k].(final := Some(e.body.item), done := true)],
        pendingBytes := if items[k].raw.ToolCall? then pendingBytes + env.eventSize(e) else pendingBytes)
    }

    function Next(e: Event, env: Environment): Control
      requires Accepts(e, env) && !e.body.Completed?
    {
      match e.body
      case Created(_) => Opened(e)
      case InProgress(_) => Opened(e)
      case ItemAdded(_, _) => Announced(e, env)
      case PartAdded(_, _, _, _) => PartOpened(e, env)
      case PartDone(_, _, _, _) => PartClosed(e, env)
      case TextDelta(_, _, _, _, _) => Spoken(e, env)
      case TextDone(_, _, _, _, _) => Spoken(e, env)
      case ArgsDelta(_, _, _, _) => Argued(e, env)
      case ArgsDone(_, _, _, _) => Argued(e, env)
      case ItemDone(_, _) => Ended(e, env)
      case _ => this
    }
  }

  function Fragment(e: Event): string
    requires e.body.TextDelta? || e.body.TextDone?
  {
    if e.body.TextDelta? then e.body.delta else ""
  }

  /** The call after one argument event. */
  function ArguedItem(s: ItemState, e: Event): ItemState
    requires e.body.ArgsDelta? || e.body.ArgsDone?
  {
    if e.body.ArgsDelta? then s.(chunks := s.chunks + [e.body.delta])
    else s.(arguments := Join(s.chunks), chunks := [], argsDone := true)
  }

  const OPENING: Control := Control(false, false, None, [], {}, {}, 0, 0, 0, 0, -1, None)

  // ---------- One event after another ----------

  /** Still open, ended by an accepted completion, or refused. */
  datatype Stage = Open(control: Control) | Complete | Refused

  function Proceed(s: Stage, e: Event, env: Environment): Stage {
    if !s.Open? || !s.control.Accepts(e, env) then Refused
    else if e.body.Completed? then Complete
    else Open(s.control.Next(e, env))
  }
}
