/** A message that the buffered path accepts is also accepted as a stream, when it comes block by block. */
module MessagesCanonical {
  import opened Text
  import opened Tokens
  import opened Restoration
  import opened TokenStream
  import opened Json
  import opened MessagesProtocol
  import opened MessagesInvariants
  import opened MessagesRelease
  import opened MessagesSteps
  import opened MessagesPlay
  import opened MessagesStream
  import B = BufferedMessage
  import R = ResponsesProtocol

  // ---------- The plainest stream of a message ----------

  function Plain(body: Body): Frame { Payload(Event(None, body)) }

  /** A block as it is announced: without its text or input. */
  function StartOf(b: Block): Block { if b.TextBlock? then b.(text := "") else b.(input := Obj([])) }

  /** All of a block's text or input at once. */
  function WholeOf(k: nat, b: Block, env: Environment): Body {
    if b.TextBlock? then TextDelta(k, b.text) else JsonDelta(k, env.dump(b.input))
  }

  function BlockFrames(k: nat, b: Block, env: Environment): seq<Frame> {
    [Plain(BlockStart(k, StartOf(b))), Plain(WholeOf(k, b, env)), Plain(BlockStop(k))]
  }

  function ContentFrames(content: seq<Block>, k: nat, env: Environment): seq<Frame>
    decreases |content| - k
  {
    if k >= |content| then [] else BlockFrames(k, content[k], env) + ContentFrames(content, k + 1, env)
  }

  function Plainest(m: Message, usage: string, env: Environment): seq<Frame>
    requires m.stop.Some?
  {
    [Plain(MessageStart(m.(content := [], stop := None)))] + ContentFrames(m.content, 0, env)
    + [Plain(MessageDelta(m.stop.value, usage)), Plain(MessageStop)]
  }

  // ---------- What the limits have to allow ----------

  function RawCost(b: Block, env: Environment): nat { Utf8Length(if b.TextBlock? then b.text else env.dump(b.input)) }

  function HeldCost(k: nat, b: Block, env: Environment): nat {
    if b.TextBlock? then 0
    else
      env.eventSize(Event(None, BlockStart(k, StartOf(b)))) + env.eventSize(Event(None, WholeOf(k, b, env)))
      + env.eventSize(Event(None, BlockStop(k)))
  }

  function ProseCost(b: Block, env: Environment): nat {
    if b.TextBlock? then Utf8Length(Restored(b.text, env.auth)) else 0
  }

  /** What the blocks from `k` on bring in, hold back, and release. */
  function RawTotal(content: seq<Block>, k: nat, env: Environment): nat
    decreases |content| - k
  {
    if k >= |content| then 0 else RawCost(content[k], env) + RawTotal(content, k + 1, env)
  }

  function HeldTotal(content: seq<Block>, k: nat, env: Environment): nat
    decreases |content| - k
  {
    if k >= |content| then 0 else HeldCost(k, content[k], env) + HeldTotal(content, k + 1, env)
  }

  function ProseTotal(content: seq<Block>, k: nat, env: Environment): nat
    decreases |content| - k
  {
    if k >= |content| then 0 else ProseCost(content[k], env) + ProseTotal(content, k + 1, env)
  }

  /** The stream's own limits, and what a decoder does with nothing and with an empty object. */
  predicate Fits(m: Message, usage: string, env: Environment) {
    && RawTotal(m.content, 0, env) <= env.maxOutputBytes && HeldTotal(m.content, 0, env) <= env.maxOutputBytes
    && env.controlsOk(usage)
    && env.parse("").None? && env.parse(env.dump(Obj([]))).Some?
  }

  // ---------- Block by block ----------

  /** A block that has been told to its end. */
  predicate Told(s: BlockState, b: Block, env: Environment) {
    && s.done && s.raw == StartOf(b) && (b.ToolUse? ==> s.chunks == [env.dump(b.input)])
  }

  ghost predicate Ready(c: Control, content: seq<Block>, k: nat, env: Environment) {
    && c.run.started && !c.run.done && c.sequenceMode != Some(true)
    && |c.run.blocks| == k == c.totalItems && k <= |content| <= env.maxItems
    && c.rawBytes + RawTotal(content, k, env) <= env.maxOutputBytes
    && c.pendingBytes + HeldTotal(content, k, env) <= env.maxOutputBytes
    && c.restoredBytes + ProseTotal(content, k, env) == ProseTotal(content, 0, env) <= env.maxOutputBytes
    && CheckContent(content[k..], c.run.calls, env).None?
    && (c.run.calls != {} ==> exists b :: b in content && b.ToolUse?)
    && forall j | 0 <= j < k :: Told(c.run.blocks[j], content[j], env)
  }

  lemma OneFrame(c: Control, e: Event, rest: seq<Frame>, env: Environment)
    requires c.Accepts(e, env) && !e.body.MessageStop?
    ensures Plays(Open(c), [Payload(e)] + rest, env) == Plays(Open(c.Next(e, env)), rest, env)
  {
    hide Control.Accepts, Control.Next;
    assert ([Payload(e)] + rest)[1..] == rest;
  }

  lemma ThreeFrames(c: Control, a: Event, b: Event, d: Event, rest: seq<Frame>, env: Environment)
    requires c.Accepts(a, env) && !a.body.MessageStop?
    requires var c1 := c.Next(a, env); c1.Accepts(b, env) && !b.body.MessageStop?
    requires var c2 := c.Next(a, env).Next(b, env); c2.Accepts(d, env) && !d.body.MessageStop?
    ensures Plays(Open(c), [Payload(a), Payload(b), Payload(d)] + rest, env)
            == Plays(Open(c.Next(a, env).Next(b, env).Next(d, env)), rest, env)
  {
    hide Control.Accepts, Control.Next, Plays;
    var c1 := c.Next(a, env);
    var c2 := c1.Next(b, env);
    assert [Payload(a), Payload(b), Payload(d)] + rest == [Payload(a)] + ([Payload(b)] + ([Payload(d)] + rest));
    OneFrame(c, a, [Payload(b)] + ([Payload(d)] + rest), env);
    OneFrame(c1, b, [Payload(d)] + rest, env);
    OneFrame(c2, d, rest, env);
  }

  lemma TextPlays(c: Control, content: seq<Block>, k: nat, env: Environment, rest: seq<Frame>) returns (next: Control)
    requires Ready(c, content, k, env) && k < |content| && content[k].TextBlock?
    ensures Ready(next, content, k + 1, env)
    ensures Plays(Open(c), BlockFrames(k, content[k], env) + rest, env) == Plays(Open(next), rest, env)
  {
    hide Buffer.Feed, Utf8Length, Restored, Buffer.Share, Tally.Plus, TextOut;
    var b := content[k];
    var start, whole, stop := Event(None, BlockStart(k, StartOf(b))), Event(None, TextDelta(k, b.text)), Event(None, BlockStop(k));
    WholeText(b.text, env.auth);
    Suffix(content, k, c.run.calls, env);
    NoBytes();
    var c1 := c.Next(start, env);
    assert c1.run.blocks[k] == BlockState(StartOf(b), false, [], OPENED, "");
    assert c1.Accepts(whole, env);
    var c2 := c1.Next(whole, env);
    assert c2.Accepts(stop, env);
    next := c2.Next(stop, env);
    ThreeFrames(c, start, whole, stop, rest, env);
    assert next.run.calls == c.run.calls;
    forall j | 0 <= j < k + 1
      ensures Told(next.run.blocks[j], content[j], env)
    {
      if j < k {
        assert next.run.blocks[j] == c.run.blocks[j];
      }
    }
  }

  lemma CallPlays(c: Control, content: seq<Block>, k: nat, env: Environment, rest: seq<Frame>) returns (next: Control)
    requires Ready(c, content, k, env) && k < |content| && content[k].ToolUse? && env.parse(env.dump(Obj([]))).Some?
    ensures Ready(next, content, k + 1, env)
    ensures Plays(Open(c), BlockFrames(k, content[k], env) + rest, env) == Plays(Open(next), rest, env)
  {
    hide Utf8Length;
    var b := content[k];
    var start, whole, stop := Event(None, BlockStart(k, StartOf(b))), Event(None, WholeOf(k, b, env)), Event(None, BlockStop(k));
    Suffix(content, k, c.run.calls, env);
    var c1 := c.Next(start, env);
    assert c1.run.blocks[k] == BlockState(StartOf(b), false, [], OPENED, "");
    assert c1.Accepts(whole, env);
    var c2 := c1.Next(whole, env);
    assert c2.Accepts(stop, env);
    next := c2.Next(stop, env);
    ThreeFrames(c, start, whole, stop, rest, env);
    assert b in content;
    assert [] + [env.dump(b.input)] == [env.dump(b.input)];
    forall j | 0 <= j < k + 1
      ensures Told(next.run.blocks[j], content[j], env)
    {
      if j < k {
        assert next.run.blocks[j] == c.run.blocks[j];
      }
    }
  }

  /** The check of the remaining content, one block further. */
  lemma Suffix(content: seq<Block>, k: nat, calls: set<string>, env: Environment)
    requires k < |content| && CheckContent(content[k..], calls, env).None?
    ensures var b := content[k];
            && CheckBlock(b, false, env).None? && (b.ToolUse? ==> b.id !in calls)
            && CheckContent(content[k + 1..], if b.ToolUse? then calls + {b.id} else calls, env).None?
            && (b.TextBlock? || env.parse(env.dump(Obj([]))).Some? ==> CheckBlock(StartOf(b), true, env).None?)
  {
    assert content[k..][1..] == content[k + 1..];
  }

  lemma {:induction false} ContentPlays(c: Control, content: seq<Block>, k: nat, env: Environment, rest: seq<Frame>)
    returns (next: Control)
    requires Ready(c, content, k, env) && env.parse(env.dump(Obj([]))).Some?
    ensures Ready(next, content, |content|, env)
    ensures Plays(Open(c), ContentFrames(content, k, env) + rest, env) == Plays(Open(next), rest, env)
    decreases |content| - k
  {
    hide Plays, BlockFrames;
    if k == |content| {
      next := c;
      assert [] + rest == rest;
    } else {
      var tail := ContentFrames(content, k + 1, env) + rest;
      assert ContentFrames(content, k, env) + rest == BlockFrames(k, content[k], env) + tail;
      hide Ready;
      if content[k].TextBlock? {
        next := TextPlays(c, content, k, env, tail);
      } else {
        next := CallPlays(c, content, k, env, tail);
      }
      next := ContentPlays(next, content, k + 1, env, rest);
    }
  }

  // ---------- The end ----------

  /** The machine's calls are the message's, and cost the same. */
  lemma {:induction false} CallsTold(blocks: seq<BlockState>, content: seq<Block>, k: nat, env: Environment)
    requires |blocks| == |content| && k <= |content| && env.parse("").None?
    requires forall j | 0 <= j < |content| :: Told(blocks[j], content[j], env) && CheckBlock(content[j], false, env).None?
    ensures StateCalls(blocks[k..]) == B.CallsOf(content[k..], env)
    ensures ToolBytes(blocks[k..], env) + ProseTotal(content, k, env) == B.ContentBytes(content[k..], env)
    decreases |content| - k
  {
    hide Utf8Length, Restored;
    if k < |content| {
      CallsTold(blocks, content, k + 1, env);
      assert blocks[k..][1..] == blocks[k + 1..] && content[k..][1..] == content[k + 1..];
      ArgumentsTold(blocks[k], content[k], env);
    }
  }

  lemma ArgumentsTold(s: BlockState, b: Block, env: Environment)
    requires Told(s, b, env) && CheckBlock(b, false, env).None? && env.parse("").None?
    ensures b.ToolUse? == s.raw.ToolUse?
    ensures b.ToolUse? ==> s.raw.name == b.name && ArgumentsOf(s) == env.dump(b.input)
    ensures BlockAccepted(b, env) ==> CallAccepted(s, env)
  {
    if b.ToolUse? {
      assert Join([env.dump(b.input)]) == env.dump(b.input) + Join([]) == env.dump(b.input);
    }
  }

  lemma {:induction false} AllChecked(content: seq<Block>, calls: set<string>, env: Environment, j: nat)
    requires CheckContent(content, calls, env).None? && j < |content|
    ensures CheckBlock(content[j], false, env).None?
    decreases |content|
  {
    hide CheckBlock;
    if j > 0 {
      AllChecked(content[1..], if content[0].ToolUse? then calls + {content[0].id} else calls, env, j - 1);
    }
  }

  /** Everything that the end of the message asks for. */
  lemma EndPlays(c: Control, m: Message, usage: string, env: Environment)
    requires B.Accepts(m, env) && Fits(m, usage, env) && Ready(c, m.content, |m.content|, env)
    ensures Plays(Open(c), [Plain(MessageDelta(m.stop.value, usage)), Plain(MessageStop)], env) == Complete
  {
    hide Utf8Length, Restored, B.StopBytes, CheckStop, CheckContent, CheckBlock;
    var stop, n := m.stop.value, |m.content|;
    forall j | 0 <= j < n
      ensures CheckBlock(m.content[j], false, env).None? && CallAccepted(c.run.blocks[j], env)
    {
      AllChecked(m.content, {}, env, j);
      ArgumentsTold(c.run.blocks[j], m.content[j], env);
    }
    CallsTold(c.run.blocks, m.content, 0, env);
    assert c.run.blocks[0..] == c.run.blocks && m.content[0..] == m.content;
    var delta, last := Event(None, MessageDelta(stop, usage)), Event(None, MessageStop);
    LastFrames(c, m, delta, last, env);
  }

  lemma LastFrames(c: Control, m: Message, delta: Event, last: Event, env: Environment)
    requires c.run.started && !c.run.done && c.sequenceMode != Some(true) && delta.sequence == last.sequence == None
    requires delta.body.MessageDelta? && last.body.MessageStop? && c.Closes(delta, env)
    requires env.batchOk(StateCalls(c.run.blocks))
    requires forall k | 0 <= k < |c.run.blocks| :: CallAccepted(c.run.blocks[k], env)
    requires c.restoredBytes + B.StopBytes(delta.body.stop, env.auth) + ToolBytes(c.run.blocks, env) <= env.maxOutputBytes
    ensures Plays(Open(c), [Payload(delta), Payload(last)], env) == Complete
  {
    hide B.StopBytes, CheckStop, StateCalls, CallAccepted, ToolBytes, RestoreStop, StopTally, Tally.Plus, Control.Closes;
    assert c.Accepts(delta, env);
    var next := c.Next(delta, env);
    assert next.run.blocks == c.run.blocks && next.run.started && next.run.done;
    assert next.Accepts(last, env);
    assert [Payload(delta), Payload(last)] == [Payload(delta)] + [Payload(last)];
    OneFrame(c, delta, [Payload(last)], env);
    assert [Payload(last)][1..] == [];
  }

  lemma {:induction false} ProseWithin(content: seq<Block>, k: nat, env: Environment)
    requires k <= |content|
    ensures ProseTotal(content, k, env) <= B.ContentBytes(content[k..], env)
    decreases |content| - k
  {
    hide Utf8Length, Restored;
    if k < |content| {
      ProseWithin(content, k + 1, env);
      assert content[k..][1..] == content[k + 1..];
    }
  }

  lemma StartReady(m: Message, usage: string, env: Environment)
    requires B.Accepts(m, env) && Fits(m, usage, env)
    ensures var start := Event(None, MessageStart(m.(content := [], stop := None)));
            OPENING.Accepts(start, env) && Ready(OPENING.Next(start, env), m.content, 0, env)
  {
    hide CheckStop, B.ContentBytes, B.StopBytes, B.CallsOf;
    ProseWithin(m.content, 0, env);
    assert m.content[0..] == m.content;
    hide CheckContent, RawTotal, HeldTotal, ProseTotal;
  }

  /** Whatever the buffered path accepts is accepted as a stream too, within the stream's own limits. */
  lemma PlainestAccepted(m: Message, usage: string, env: Environment)
    requires B.Accepts(m, env) && Fits(m, usage, env)
    ensures Plays(Open(OPENING), Plainest(m, usage, env), env) == Complete
  {
    var start := Event(None, MessageStart(m.(content := [], stop := None)));
    var end := [Plain(MessageDelta(m.stop.value, usage)), Plain(MessageStop)];
    StartReady(m, usage, env);
    assert env.parse(env.dump(Obj([]))).Some?;
    hide Plays, Ready, B.Accepts, Fits, ContentFrames, Control.Accepts, Control.Next;
    assert Plainest(m, usage, env) == [Payload(start)] + (ContentFrames(m.content, 0, env) + end);
    OneFrame(OPENING, start, ContentFrames(m.content, 0, env) + end, env);
    var next := ContentPlays(OPENING.Next(start, env), m.content, 0, env, end);
    EndPlays(next, m, usage, env);
  }
}
