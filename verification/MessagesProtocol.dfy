/** Messages blocks and events: what is validated, what a client assembles, and what restoring a message means. */
module MessagesProtocol {
  import opened Text
  import opened Tokens
  import opened Restoration
  import opened TokenStream
  import opened Json
  import R = ResponsesProtocol

  type Error = R.Error

  datatype Block =
    | TextBlock(text: string, extras: map<string, R.Spelling>)
    | ToolUse(id: string, name: string, input: Json, extras: map<string, R.Spelling>)

  datatype Details = Details(kind: string, category: Option<string>, explanation: Option<string>)

  datatype Stop = Stop(reason: string, sequence: Option<string>, details: Option<Details>)

  /** `controls` stands for every message field besides identity, content and stop. */
  datatype Message = Message(id: string, content: seq<Block>, stop: Option<Stop>, controls: string)

  datatype Body =
    | Failed
    | Ping
    | MessageStart(message: Message)
    | BlockStart(index: int, block: Block)
    | TextDelta(index: int, text: string)
    | JsonDelta(index: int, partial: string)
    | BlockStop(index: int)
    | MessageDelta(stop: Stop, usage: string)
    | MessageStop
    | Unknown

  datatype Event = Event(sequence: Option<int>, body: Body)

  datatype Environment = Environment(
    auth: Authority,
    tools: R.Call -> R.ToolResult,
    batchOk: seq<R.Call> -> bool,
    parse: string -> Option<Json>,
    dump: Json -> string,
    controlsOk: string -> bool,
    stopSequences: seq<string>,
    eventSize: Event -> nat,
    maxItems: nat,
    maxOutputBytes: nat
  )

  // ---------- Validation ----------

  predicate StopReason(reason: string) {
    reason in {"end_turn", "tool_use", "max_tokens", "refusal", "pause_turn", "stop_sequence", "model_context_window_exceeded"}
  }

  predicate RefusalCategory(category: string) {
    category in {"cyber", "bio", "frontier_llm", "reasoning_extraction", "general_harms"}
  }

  function CheckBlock(b: Block, start: bool, env: Environment): Option<Error> {
    match b
    case TextBlock(text, extras) =>
      if !(extras.Keys <= {"citations"}) || (start && text != "") then Some(R.InvalidStream) else None
    case ToolUse(id, name, input, extras) =>
      if !(extras.Keys <= {"caller", "toolset_name"}) then Some(R.InvalidStream)
      else if "toolset_name" in extras && extras["toolset_name"] != R.AsNull then Some(R.UnsupportedContent)
      else if !R.IsIdentifier(id, 128) || !R.IsIdentifier(name, 64) then Some(R.InvalidStream)
      else if !input.Obj? || (start && input.members != []) then Some(R.InvalidStream)
      else if env.parse(env.dump(input)).None? then Some(R.InvalidStream)
      else None
  }

  function CheckStop(stop: Stop, env: Environment): Option<Error> {
    if !StopReason(stop.reason) then Some(R.InvalidStream)
    else if stop.reason == "stop_sequence" && stop.sequence.None? then Some(R.InvalidStream)
    else if stop.reason == "stop_sequence" && stop.sequence.value !in env.stopSequences then Some(R.SnapshotMismatch)
    else if stop.reason != "stop_sequence" && stop.sequence.Some? then Some(R.InvalidStream)
    else if stop.details.Some?
            && (stop.reason != "refusal" || stop.details.value.kind != "refusal"
                || (stop.details.value.category.Some? && !RefusalCategory(stop.details.value.category.value)))
    then Some(R.InvalidStream)
    else None
  }

  function CheckContent(content: seq<Block>, calls: set<string>, env: Environment): Option<Error> {
    if content == [] then None
    else
      var bad := CheckBlock(content[0], false, env);
      if bad.Some? then bad
      else if content[0].ToolUse? && content[0].id in calls then Some(R.InvalidStream)
      else CheckContent(content[1..], if content[0].ToolUse? then calls + {content[0].id} else calls, env)
  }

  function CheckMessage(m: Message, start: bool, env: Environment): Option<Error> {
    if !R.IsIdentifier(m.id, 128) || !env.controlsOk(m.controls) then Some(R.InvalidStream)
    else if |m.content| > env.maxItems then Some(R.ItemLimit)
    else if start then if m.content != [] || m.stop.Some? then Some(R.InvalidStream) else None
    else if m.stop.None? then Some(R.InvalidStream)
    else if CheckStop(m.stop.value, env).Some? then CheckStop(m.stop.value, env)
    else if CheckContent(m.content, {}, env).Some? then CheckContent(m.content, {}, env)
    else if (exists b | b in m.content :: b.ToolUse?) && m.stop.value.reason != "tool_use" then Some(R.UpstreamFailed)
    else None
  }

  // ---------- Restoring a whole message: what the buffered path returns ----------

  function ToolOf(b: Block, env: Environment): R.ToolResult
    requires b.ToolUse?
  {
    env.tools(R.Call(b.name, env.dump(b.input), false))
  }

  predicate BlockAccepted(b: Block, env: Environment) {
    b.ToolUse? ==> ToolOf(b, env).ToolRestored? && env.parse(ToolOf(b, env).arguments).Some?
  }

  function RestoreBlock(b: Block, env: Environment): Block
    requires BlockAccepted(b, env)
  {
    if b.TextBlock? then b.(text := Restored(b.text, env.auth))
    else b.(input := env.parse(ToolOf(b, env).arguments).value)
  }

  function BlockTally(b: Block, env: Environment): Tally {
    if b.TextBlock? then TallyOf(Lex(b.text), env.auth)
    else if ToolOf(b, env).ToolRestored? then NOTHING.(restored := ToolOf(b, env).restored)
    else NOTHING
  }

  function ContentTally(content: seq<Block>, env: Environment): Tally {
    if content == [] then NOTHING else BlockTally(content[0], env).Plus(ContentTally(content[1..], env))
  }

  predicate Explained(stop: Stop) { stop.details.Some? && stop.details.value.explanation.Some? }

  function RestoreStop(stop: Stop, auth: Authority): Stop {
    if Explained(stop) then
      stop.(details := Some(stop.details.value.(explanation := Some(Restored(stop.details.value.explanation.value, auth)))))
    else stop
  }

  function StopTally(stop: Stop, auth: Authority): Tally {
    if Explained(stop) then TallyOf(Lex(stop.details.value.explanation.value), auth) else NOTHING
  }

  /** `shown` is `m` with every text, every call and the stop explanation restored. */
  ghost predicate RestoresMessage(m: Message, shown: Message, env: Environment) {
    && m.stop.Some?
    && |shown.content| == |m.content|
    && shown == m.(content := shown.content, stop := Some(RestoreStop(m.stop.value, env.auth)))
    && forall k | 0 <= k < |m.content| ::
         BlockAccepted(m.content[k], env) && shown.content[k] == RestoreBlock(m.content[k], env)
  }

  function MessageTally(m: Message, env: Environment): Tally
    requires m.stop.Some?
  {
    ContentTally(m.content, env).Plus(StopTally(m.stop.value, env.auth))
  }

  // ---------- What a client assembles from a list of events ----------

  function Index(b: Body): int {
    match b
    case BlockStart(index, _) => index
    case TextDelta(index, _) => index
    case JsonDelta(index, _) => index
    case BlockStop(index) => index
    case _ => -1
  }

  /** The events of one content block, in order. */
  function About(bodies: seq<Body>, k: int): seq<Body> {
    if bodies == [] then [] else (if Index(bodies[0]) == k then [bodies[0]] else []) + About(bodies[1..], k)
  }

  function TextOf(bodies: seq<Body>): string {
    if bodies == [] then "" else (if bodies[0].TextDelta? then bodies[0].text else "") + TextOf(bodies[1..])
  }

  function JsonOf(bodies: seq<Body>): string {
    if bodies == [] then "" else (if bodies[0].JsonDelta? then bodies[0].partial else "") + JsonOf(bodies[1..])
  }

  /** How many blocks the events announce. */
  function Announced(bodies: seq<Body>): nat {
    if bodies == [] then 0 else (if bodies[0].BlockStart? then 1 else 0) + Announced(bodies[1..])
  }

  function OpenedBy(bodies: seq<Body>): Option<Message> {
    if bodies == [] then None
    else if bodies[0].MessageStart? then Some(bodies[0].message)
    else OpenedBy(bodies[1..])
  }

  function StopIn(bodies: seq<Body>): Option<Stop> {
    if bodies == [] then None
    else if bodies[0].MessageDelta? then Some(bodies[0].stop)
    else StopIn(bodies[1..])
  }

  /** Arguments that never arrived are an empty object. */
  function OrEmpty(arguments: string): string { if arguments == "" then "{}" else arguments }

  /** One block as its events describe it: its start, then its deltas concatenated. */
  function BlockOf(about: seq<Body>, env: Environment): Option<Block> {
    if about == [] || !about[0].BlockStart? then None
    else
      match about[0].block
      case TextBlock(_, extras) => Some(TextBlock(TextOf(about), extras))
      case ToolUse(id, name, _, extras) =>
        var input := env.parse(OrEmpty(JsonOf(about)));
        if input.None? then None else Some(ToolUse(id, name, input.value, extras))
  }

  /** The message a reader of these events ends up with. */
  ghost predicate Assembles(bodies: seq<Body>, m: Message, env: Environment) {
    && OpenedBy(bodies).Some? && StopIn(bodies).Some?
    && m == OpenedBy(bodies).value.(content := m.content, stop := StopIn(bodies))
    && |m.content| == Announced(bodies)
    && forall k | 0 <= k < |m.content| :: BlockOf(About(bodies, k), env) == Some(m.content[k])
  }

  // ---------- Appending ----------

  lemma {:induction false} AboutAppend(a: seq<Body>, b: seq<Body>, k: int)
    ensures About(a + b, k) == About(a, k) + About(b, k)
  {
    if a == [] {
      assert a + b == b;
    } else {
      assert (a + b)[1..] == a[1..] + b && (a + b)[0] == a[0];
      AboutAppend(a[1..], b, k);
      hide Index;
      Associate(if Index(a[0]) == k then [a[0]] else [], About(a[1..], k), About(b, k));
    }
  }

  lemma TextAppend(a: seq<Body>, b: seq<Body>)
    ensures TextOf(a + b) == TextOf(a) + TextOf(b)
    ensures JsonOf(a + b) == JsonOf(a) + JsonOf(b)
  {
    hide TextOf, JsonOf;
    ProseAppend(a, b);
    JsonAppend(a, b);
  }

  lemma {:induction false} ProseAppend(a: seq<Body>, b: seq<Body>)
    ensures TextOf(a + b) == TextOf(a) + TextOf(b)
  {
    if a == [] {
      assert a + b == b;
    } else {
      assert (a + b)[1..] == a[1..] + b && (a + b)[0] == a[0];
      ProseAppend(a[1..], b);
      Associate(if a[0].TextDelta? then a[0].text else "", TextOf(a[1..]), TextOf(b));
    }
  }

  lemma {:induction false} JsonAppend(a: seq<Body>, b: seq<Body>)
    ensures JsonOf(a + b) == JsonOf(a) + JsonOf(b)
  {
    if a == [] {
      assert a + b == b;
    } else {
      assert (a + b)[1..] == a[1..] + b && (a + b)[0] == a[0];
      JsonAppend(a[1..], b);
      Associate(if a[0].JsonDelta? then a[0].partial else "", JsonOf(a[1..]), JsonOf(b));
    }
  }

  lemma {:induction false} HeadAppend(a: seq<Body>, b: seq<Body>)
    ensures Announced(a + b) == Announced(a) + Announced(b)
    ensures OpenedBy(a + b) == if OpenedBy(a).Some? then OpenedBy(a) else OpenedBy(b)
    ensures StopIn(a + b) == if StopIn(a).Some? then StopIn(a) else StopIn(b)
  {
    if a == [] {
      assert a + b == b;
    } else {
      assert (a + b)[1..] == a[1..] + b;
      HeadAppend(a[1..], b);
    }
  }

  /** Events of one block only. */
  predicate AllAbout(bodies: seq<Body>, k: int) {
    forall b | b in bodies :: Index(b) == k
  }

  lemma {:induction false} AboutOne(bodies: seq<Body>, k: int, j: int)
    requires AllAbout(bodies, k)
    ensures About(bodies, j) == if j == k then bodies else []
  {
    if bodies != [] {
      assert bodies[0] in bodies;
      AboutOne(bodies[1..], k, j);
      assert bodies == [bodies[0]] + bodies[1..];
    }
  }

  // ---------- Counters ----------

  lemma {:induction false} ContentTallyAppend(a: seq<Block>, b: seq<Block>, env: Environment)
    ensures ContentTally(a + b, env) == ContentTally(a, env).Plus(ContentTally(b, env))
  {
    hide BlockTally, Tally.Plus;
    PlusLaws(ContentTally(b, env), NOTHING, NOTHING);
    if a == [] {
      assert a + b == b;
    } else {
      assert (a + b)[1..] == a[1..] + b;
      ContentTallyAppend(a[1..], b, env);
      PlusLaws(BlockTally(a[0], env), ContentTally(a[1..], env), ContentTally(b, env));
    }
  }
}
