/** The Messages machine as a pure step function: which events it accepts, and what they lead to. */
module MessagesPlay {
  import opened Text
  import opened Tokens
  import opened Restoration
  import opened TokenStream
  import opened MessagesProtocol
  import opened MessagesInvariants
  import opened MessagesRelease
  import opened MessagesSteps
  import B = BufferedMessage

  /** The run so far, and what decides with it about the next event. */
  datatype Control = Control(
    run: Run,
    pendingBytes: nat,
    rawBytes: nat,
    restoredBytes: nat,
    totalItems: nat,
    sequence: int,
    sequenceMode: Option<bool>
  ) {
    predicate Numbered(e: Event) {
      && (sequenceMode.Some? ==> sequenceMode.value == e.sequence.Some?)
      && (e.sequence.Some? ==> e.sequence.value > sequence)
    }

    function Observed(e: Event): Control {
      this.(sequence := if e.sequence.Some? then e.sequence.value else sequence, sequenceMode := Some(e.sequence.Some?))
    }

    /** What is received, held, and released stays within the limits. */
    predicate RawFits(text: string, env: Environment) { rawBytes + Utf8Length(text) <= env.maxOutputBytes }

    predicate HeldFits(e: Event, env: Environment) { pendingBytes + env.eventSize(e) <= env.maxOutputBytes }

    predicate TextFits(k: nat, value: string, final: bool, env: Environment)
      requires k < |run.blocks|
    {
      var (after, text) := run.blocks[k].buffer.Feed(value, final, env.auth);
      && Utf8Length(after.raw) <= env.maxOutputBytes && Utf8Length(after.text) <= env.maxOutputBytes
      && restoredBytes + Utf8Length(text) <= env.maxOutputBytes
    }

    predicate StopFits(stop: Stop, env: Environment) {
      restoredBytes + B.StopBytes(stop, env.auth) <= env.maxOutputBytes
    }

    predicate Located(index: int, env: Environment) {
      0 <= index < env.maxItems && index < |run.blocks| && !run.blocks[index].done
    }

    // ---------- Acceptance, kind by kind ----------

    predicate Opens(e: Event, env: Environment)
      requires e.body.MessageStart?
    {
      !run.started && CheckMessage(e.body.message, true, env).None?
    }

    predicate Announces(e: Event, env: Environment)
      requires e.body.BlockStart?
    {
      && 0 <= e.body.index < env.maxItems && e.body.index == |run.blocks|
      && CheckBlock(e.body.block, true, env).None? && (e.body.block.ToolUse? ==> e.body.block.id !in run.calls)
      && totalItems < env.maxItems && (e.body.block.ToolUse? ==> HeldFits(e, env))
    }

    predicate TakesText(e: Event, env: Environment)
      requires e.body.TextDelta?
    {
      && Located(e.body.index, env) && run.blocks[e.body.index].raw.TextBlock?
      && RawFits(e.body.text, env) && TextFits(e.body.index, e.body.text, false, env)
    }

    predicate TakesJson(e: Event, env: Environment)
      requires e.body.JsonDelta?
    {
      && Located(e.body.index, env) && run.blocks[e.body.index].raw.ToolUse?
      && RawFits(e.body.partial, env) && HeldFits(e, env)
    }

    predicate Stops(e: Event, env: Environment)
      requires e.body.BlockStop?
    {
      && Located(e.body.index, env)
      && if run.blocks[e.body.index].raw.ToolUse? then HeldFits(e, env) else TextFits(e.body.index, "", true, env)
    }

    predicate Closes(e: Event, env: Environment)
      requires e.body.MessageDelta?
    {
      && CheckStop(e.body.stop, env).None? && env.controlsOk(e.body.usage)
      && (forall k | 0 <= k < |run.blocks| :: run.blocks[k].done)
      && (run.calls != {} ==> e.body.stop.reason == "tool_use")
      && StopFits(e.body.stop, env)
    }

    predicate Completable(env: Environment) {
      && run.done && env.batchOk(StateCalls(run.blocks))
      && (forall k | 0 <= k < |run.blocks| :: CallAccepted(run.blocks[k], env))
      && restoredBytes + ToolBytes(run.blocks, env) <= env.maxOutputBytes
    }

    predicate Accepts(e: Event, env: Environment) {
      && Numbered(e)
      && match e.body
         case Ping => true
         case MessageStart(_) => Opens(e, env)
         case BlockStart(_, _) => run.started && !run.done && Announces(e, env)
         case TextDelta(_, _) => run.started && !run.done && TakesText(e, env)
         case JsonDelta(_, _) => run.started && !run.done && TakesJson(e, env)
         case BlockStop(_) => run.started && !run.done && Stops(e, env)
         case MessageDelta(_, _) => run.started && !run.done && Closes(e, env)
         case MessageStop => run.started && Completable(env)
         case _ => false
    }

    // ---------- What an accepted event leads to ----------

    function Passed(e: Event): Control { Observed(e).(run := run.Passed(e.body)) }

    function Announced(e: Event, env: Environment): Control
      requires e.body.BlockStart?
    {
      Observed(e).(
        run := run.Started(e.body.block), totalItems := totalItems + 1,
        pendingBytes := if e.body.block.ToolUse? then pendingBytes + env.eventSize(e) else pendingBytes)
    }

    function Texted(e: Event, value: string, final: bool, env: Environment): Control
      requires 0 <= Index(e.body) < |run.blocks|
    {
      var k := Index(e.body);
      Observed(e).(
        run := run.Texted(k, value, final, env.auth), rawBytes := rawBytes + Utf8Length(value),
        restoredBytes := restoredBytes + Utf8Length(run.blocks[k].buffer.Feed(value, final, env.auth).1))
    }

    function Called(e: Event, env: Environment): Control
      requires (e.body.BlockStop? || e.body.JsonDelta?) && 0 <= e.body.index < |run.blocks|
    {
      Observed(e).(
        run := run.Called(e.body.index, e.body), pendingBytes := pendingBytes + env.eventSize(e),
        rawBytes := if e.body.JsonDelta? then rawBytes + Utf8Length(e.body.partial) else rawBytes)
    }

    function Stopped(e: Event, env: Environment): Control
      requires e.body.BlockStop? && 0 <= e.body.index < |run.blocks|
    {
      if run.blocks[e.body.index].raw.ToolUse? then Called(e, env) else Texted(e, "", true, env)
    }

    function Closed(e: Event, env: Environment): Control
      requires e.body.MessageDelta?
    {
      Observed(e).(run := run.Closed(e.body, env.auth), restoredBytes := restoredBytes + B.StopBytes(e.body.stop, env.auth))
    }

    function Next(e: Event, env: Environment): Control
      requires Accepts(e, env) && !e.body.MessageStop?
    {
      match e.body
      case BlockStart(_, _) => Announced(e, env)
      case TextDelta(_, text) => Texted(e, text, false, env)
      case JsonDelta(_, _) => Called(e, env)
      case BlockStop(_) => Stopped(e, env)
      case MessageDelta(_, _) => Closed(e, env)
      case Ping => Passed(e)
      case MessageStart(_) => Passed(e)
      case _ => this
    }
  }

  const OPENING: Control := Control(Run(false, false, None, {}, [], [], NOTHING, [], []), 0, 0, 0, 0, -1, None)

  // ---------- One event after another ----------

  /** Still open, ended by an accepted end, or refused. */
  datatype Stage = Open(control: Control) | Complete | Refused

  function Proceed(s: Stage, e: Event, env: Environment): Stage {
    if !s.Open? || !s.control.Accepts(e, env) then Refused
    else if e.body.MessageStop? then Complete
    else Open(s.control.Next(e, env))
  }
}
