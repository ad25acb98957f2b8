/** Responses items, events and snapshots: what is validated, compared and restored. */
module ResponsesProtocol {
  import opened Text
  import opened Tokens
  import opened Restoration
  import opened TokenStream

  datatype Error =
    | InvalidStream
    | UpstreamFailed
    | SnapshotMismatch
    | ItemLimit
    | OutputTooLarge
    | UnsupportedContent
    | UnsupportedEvent
    | ToolFailed
    | TruncatedStream

  /** An optional field that may be absent, null, or spelled with its one empty value. */
  datatype Spelling = AsNull | AsEmpty

  datatype Status = NoStatus | NullStatus | StatusText(text: string)

  datatype Part = Part(refusal: bool, text: string, extras: map<string, Spelling>)

  datatype Item =
    | Message(id: string, status: Status, phase: Option<string>, content: seq<Part>, extras: map<string, Spelling>)
    | ToolCall(id: string, status: Status, custom: bool, callId: string, name: string, arguments: string,
               extras: map<string, Spelling>)
    | Reasoning(id: string, status: Status, extras: map<string, Spelling>)

  /** `controls` stands for every response field besides identity, status and output. */
  datatype Response = Response(id: string, status: string, output: seq<Item>, controls: string)

  datatype Body =
    | Failed
    | Created(response: Response)
    | InProgress(response: Response)
    | ItemAdded(index: int, item: Item)
    | PartAdded(index: int, itemId: string, contentIndex: int, part: Part)
    | PartDone(index: int, itemId: string, contentIndex: int, part: Part)
    | TextDelta(index: int, itemId: string, contentIndex: int, refusal: bool, delta: string)
    | TextDone(index: int, itemId: string, contentIndex: int, refusal: bool, text: string)
    | ArgsDelta(index: int, itemId: string, custom: bool, delta: string)
    | ArgsDone(index: int, itemId: string, custom: bool, value: string)
    | ItemDone(index: int, item: Item)
    | Completed(response: Response)
    | Unknown

  datatype Event = Event(sequence: Option<int>, body: Body)

  datatype Call = Call(name: string, arguments: string, custom: bool)

  /** A registry that refuses any call in which a token is refused only ever reports restored tokens. */
  datatype ToolResult = ToolRestored(arguments: string, restored: nat) | ToolRefused

  /** The request's fixed surroundings; the registry and the size measures are total functions of their arguments. */
  datatype Environment = Environment(
    auth: Authority,
    tools: Call -> ToolResult,
    batchOk: seq<Call> -> bool,
    controlsOk: string -> bool,
    eventSize: Event -> nat,
    responseSize: Response -> nat,
    maxItems: nat,
    maxOutputBytes: nat
  )

  // ---------- Validation ----------

  predicate IsIdentifier(s: string, limit: nat) {
    && 1 <= |s| <= limit
    && forall k | 0 <= k < |s| ::
         'A' <= s[k] <= 'Z' || 'a' <= s[k] <= 'z' || '0' <= s[k] <= '9' || s[k] == '_' || s[k] == '-'
  }

  predicate PartOk(part: Part) {
    if part.refusal then part.extras == map[]
    else part.extras.Keys <= {"annotations", "logprobs"} &&
         ("annotations" in part.extras ==> part.extras["annotations"] == AsEmpty)
  }

  predicate StatusOk(item: Item, completed: bool) {
    match item.status
    case NoStatus => true
    case NullStatus => !item.Message?
    case StatusText(text) => text == if completed then "completed" else "in_progress"
  }

  function CheckItem(item: Item, completed: bool, maxItems: nat): Option<Error> {
    if "metadata" in item.extras && item.extras["metadata"] != AsNull then Some(UnsupportedContent)
    else
      match item
      case Message(id, _, phase, content, extras) =>
        if !(extras.Keys <= {"metadata"}) then Some(InvalidStream)
        else if phase.Some? && phase.value !in {"commentary", "final_answer"} then Some(InvalidStream)
        else if |content| > maxItems then Some(ItemLimit)
        else if exists p | p in content :: !PartOk(p) then Some(InvalidStream)
        else if !IsIdentifier(id, 128) || !StatusOk(item, completed) then Some(InvalidStream)
        else None
      case ToolCall(id, _, _, callId, name, _, extras) =>
        if !(extras.Keys <= {"metadata", "namespace", "caller", "async", "encrypted_function_args"}) then Some(InvalidStream)
        else if "namespace" in extras && extras["namespace"] != AsNull then Some(UnsupportedContent)
        else if !IsIdentifier(callId, 128) || !IsIdentifier(name, 64) then Some(InvalidStream)
        else if !IsIdentifier(id, 128) || !StatusOk(item, completed) then Some(InvalidStream)
        else None
      case Reasoning(id, _, extras) =>
        if !(extras.Keys <= {"metadata", "content", "encrypted_content"}) then Some(InvalidStream)
        else if "encrypted_content" in extras && extras["encrypted_content"] != AsNull then Some(UnsupportedContent)
        else if !IsIdentifier(id, 128) || !StatusOk(item, completed) then Some(InvalidStream)
        else None
  }

  /** The loop over a response's output: each item, the running item total, and fresh identifiers. */
  function CheckOutput(output: seq<Item>, completed: bool, maxItems: nat, total: nat, ids: set<string>, calls: set<string>)
    : Option<Error>
  {
    if output == [] then None
    else
      var item := output[0];
      var bad := CheckItem(item, completed, maxItems);
      var total' := if item.Message? then total + |item.content| else total;
      if bad.Some? then bad
      else if item.Message? && total' > maxItems then Some(ItemLimit)
      else if item.id in ids || (item.ToolCall? && item.callId in calls) then Some(InvalidStream)
      else CheckOutput(output[1..], completed, maxItems, total', ids + {item.id},
                       if item.ToolCall? then calls + {item.callId} else calls)
  }

  function CheckResponse(response: Response, completed: bool, env: Environment): Option<Error> {
    if !IsIdentifier(response.id, 128) then Some(InvalidStream)
    else if response.status !in (if completed then {"completed"} else {"queued", "in_progress"}) then Some(UpstreamFailed)
    else if !env.controlsOk(response.controls) then Some(InvalidStream)
    else if |response.output| > env.maxItems then Some(ItemLimit)
    else CheckOutput(response.output, completed, env.maxItems, |response.output|, {}, {})
  }

  // ---------- Item state and snapshots ----------

  datatype PartState = PartState(raw: Part, buffer: Buffer, done: bool) {
    function Snapshot(restored: bool): Part {
      raw.(text := if restored then buffer.text else buffer.raw)
    }
  }

  datatype ItemState = ItemState(
    raw: Item,
    done: bool,
    parts: seq<PartState>,
    arguments: string,
    chunks: seq<string>,
    argsDone: bool,
    restored: string,
    final: Option<Item>
  )

  function PartSnapshots(parts: seq<PartState>, restored: bool): (content: seq<Part>)
    ensures |content| == |parts|
    ensures forall p | 0 <= p < |parts| :: content[p] == parts[p].Snapshot(restored)
  {
    seq(|parts|, p requires 0 <= p < |parts| => parts[p].Snapshot(restored))
  }

  function ItemSnapshot(s: ItemState, restored: bool): Item {
    var base := if s.final.Some? then s.final.value else s.raw.(status := StatusText("completed"));
    match base
    case Message(_, _, _, _, _) => base.(content := PartSnapshots(s.parts, restored))
    case ToolCall(_, _, _, _, _, _, _) => base.(arguments := if restored then s.restored else s.arguments)
    case Reasoning(_, _, _) => base
  }

  function CanonicalContent(content: seq<Part>): (r: seq<Part>)
    ensures |r| == |content|
    ensures forall p | 0 <= p < |r| :: r[p] == content[p].(extras := map[])
  {
    seq(|content|, p requires 0 <= p < |content| => content[p].(extras := map[]))
  }

  /** The form in which two snapshots of one item must agree: optional empty fields are filled in alike. */
  function Canonical(item: Item): Item {
    var plain := item.(extras := map[], status := if item.status.StatusText? then item.status else StatusText("completed"));
    if item.Message? then plain.(content := CanonicalContent(item.content)) else plain
  }

  function CompareItem(snapshot: Item, s: ItemState, maxItems: nat): Option<Error> {
    var bad := CheckItem(snapshot, true, maxItems);
    var validated, expected := Canonical(snapshot), Canonical(ItemSnapshot(s, false));
    if bad.Some? then bad
    else if validated.Message? && s.final.None? && !expected.Message? then Some(InvalidStream)
    else
      var expected' := if validated.Message? && s.final.None? && expected.phase.None?
                       then expected.(phase := validated.phase) else expected;
      if validated != expected' then Some(SnapshotMismatch) else None
  }

  /** Completed, or left open to mean it. */
  predicate Over(status: Status) {
    status == NoStatus || status == NullStatus || status == StatusText("completed")
  }

  /** Two finished items that differ at most in how absent and empty fields are spelled. */
  predicate Alike(a: Item, b: Item) {
    && a.id == b.id && a.Message? == b.Message? && a.ToolCall? == b.ToolCall? && Over(a.status) && Over(b.status)
    && (a.Message? ==>
          && a.phase == b.phase && |a.content| == |b.content|
          && forall p | 0 <= p < |a.content| ::
               a.content[p].refusal == b.content[p].refusal && a.content[p].text == b.content[p].text)
    && (a.ToolCall? ==>
          a.callId == b.callId && a.name == b.name && a.custom == b.custom && a.arguments == b.arguments)
  }

  /** What the stream said of an item is what a final snapshot says: kind, identity, association, phase, texts and
      arguments; a phase may still become known with the first such snapshot. */
  predicate Repeats(item: Item, s: ItemState) {
    var known := if s.final.Some? then s.final.value else s.raw;
    && item.id == known.id && item.Message? == known.Message? && item.ToolCall? == known.ToolCall?
    && (item.Message? ==>
          && (item.phase == known.phase || (s.final.None? && known.phase.None?))
          && |item.content| == |s.parts|
          && forall p | 0 <= p < |s.parts| ::
               item.content[p].refusal == s.parts[p].raw.refusal && item.content[p].text == s.parts[p].buffer.raw)
    && (item.ToolCall? ==>
          && item.callId == known.callId && item.name == known.name && item.custom == known.custom
          && item.arguments == s.arguments)
    && (s.final.Some? ==> Over(known.status))
  }

  predicate Confirms(item: Item, s: ItemState, maxItems: nat) {
    CheckItem(item, true, maxItems).None? && Repeats(item, s)
  }

  /** A snapshot passes exactly when it is well formed and repeats what the stream said, field by field. */
  lemma CompareExactly(item: Item, s: ItemState, maxItems: nat)
    ensures CompareItem(item, s, maxItems).None? <==> Confirms(item, s, maxItems)
  {
    CompleteStatus(item, maxItems);
    hide CheckItem, PartSnapshots, CanonicalContent;
    var snapshot := ItemSnapshot(s, false);
    if item.Message? && snapshot.Message? {
      SameParts(item.content, s.parts);
    }
  }

  lemma CompleteStatus(item: Item, maxItems: nat)
    ensures CheckItem(item, true, maxItems).None? ==> Over(item.status)
  {
  }

  lemma SameParts(content: seq<Part>, parts: seq<PartState>)
    ensures CanonicalContent(content) == CanonicalContent(PartSnapshots(parts, false))
            <==> |content| == |parts|
                 && forall p | 0 <= p < |parts| ::
                      content[p].refusal == parts[p].raw.refusal && content[p].text == parts[p].buffer.raw
  {
    var a, b := CanonicalContent(content), CanonicalContent(PartSnapshots(parts, false));
    if a == b {
      forall p | 0 <= p < |parts|
        ensures content[p].refusal == parts[p].raw.refusal && content[p].text == parts[p].buffer.raw
      {
        assert a[p] == b[p];
      }
    }
  }

  // ---------- Which events are executable ----------

  predicate IsToolBody(b: Body) {
    match b
    case ItemAdded(_, item) => item.ToolCall?
    case ItemDone(_, item) => item.ToolCall?
    case ArgsDelta(_, _, _, _) => true
    case ArgsDone(_, _, _, _) => true
    case _ => false
  }

  function ToolIndex(b: Body): int
    requires IsToolBody(b)
  {
    b.index
  }

  /** The executable events about output item `k`, in order. */
  function About(bodies: seq<Body>, k: int): seq<Body> {
    if bodies == [] then []
    else (if IsToolBody(bodies[0]) && ToolIndex(bodies[0]) == k then [bodies[0]] else []) + About(bodies[1..], k)
  }

  lemma {:induction false} AboutAppend(a: seq<Body>, b: seq<Body>, k: int)
    ensures About(a + b, k) == About(a, k) + About(b, k)
  {
    if a == [] {
      assert a + b == b;
    } else {
      assert (a + b)[1..] == a[1..] + b;
      AboutAppend(a[1..], b, k);
    }
  }

  /** The prose released so far for one content part: its deltas, concatenated. */
  function Deltas(bodies: seq<Body>, i: int, p: int): string {
    if bodies == [] then ""
    else
      var b := bodies[0];
      (if b.TextDelta? && b.index == i && b.contentIndex == p then b.delta else "") + Deltas(bodies[1..], i, p)
  }

  lemma {:induction false} DeltasAppend(a: seq<Body>, b: seq<Body>, i: int, p: int)
    ensures Deltas(a + b, i, p) == Deltas(a, i, p) + Deltas(b, i, p)
  {
    if a == [] {
      assert a + b == b;
    } else {
      assert (a + b)[1..] == a[1..] + b;
      DeltasAppend(a[1..], b, i, p);
    }
  }

  // ---------- Counters and restored bytes, summed together ----------

  datatype Ledger = Ledger(counts: Tally, bytes: nat) {
    function Plus(other: Ledger): Ledger { Ledger(counts.Plus(other.counts), bytes + other.bytes) }
  }

  const ZERO: Ledger := Ledger(NOTHING, 0)

  lemma LedgerLaws(x: Ledger, y: Ledger, z: Ledger)
    ensures x.Plus(y).Plus(z) == x.Plus(y.Plus(z))
    ensures x.Plus(y) == y.Plus(x)
    ensures ZERO.Plus(x) == x == x.Plus(ZERO)
  {
    PlusLaws(x.counts, y.counts, z.counts);
    hide Tally.Plus;
  }
}
