/** What the buffered path says of the message that an accepted stream described. */
module MessagesBuffered {
  import opened Text
  import opened Tokens
  import opened Restoration
  import opened TokenStream
  import opened Json
  import opened MessagesProtocol
  import opened MessagesInvariants
  import opened MessagesRelease
  import opened MessagesBytes
  import opened MessagesMachine
  import R = ResponsesProtocol
  import B = BufferedMessage

  predicate SameNames(x: seq<R.Call>, y: seq<R.Call>) {
    |x| == |y| && forall k | 0 <= k < |x| :: x[k].name == y[k].name && x[k].custom == y[k].custom
  }

  /** The registry restores what arguments decode to, and the batch check looks at the names of the calls only. */
  ghost predicate SpellingFree(env: Environment) {
    && (forall name: string, a: string, b: string | env.parse(a).Some? && env.parse(a) == env.parse(b) ::
          env.tools(R.Call(name, a, false)) == env.tools(R.Call(name, b, false)))
    && (forall x, y | SameNames(x, y) :: env.batchOk(x) == env.batchOk(y))
  }

  /** A block costs and calls the same on both paths. */
  ghost predicate Alike(b: BlockState, raw: Block, env: Environment) {
    && BlockAccepted(raw, env)
    && B.BlockBytes(raw, env) == Utf8Length(b.buffer.text) + ToolSize(b, env)
    && raw.ToolUse? == b.raw.ToolUse? && (raw.ToolUse? ==> raw.name == b.raw.name)
  }

  lemma BlockAlike(b: BlockState, k: int, received: seq<Body>, sent: seq<Body>, held: seq<Body>, raw: Block, env: Environment)
    requires BlockCompleted(b, k, received, sent, held, env) && Lawful(env) && SpellingFree(env)
    requires BlockOf(received, env) == Some(raw)
    ensures Alike(b, raw, env)
  {
    BlockRefines(b, k, received, sent, held, env);
    if b.raw.TextBlock? {
      hide Lawful, SpellingFree;
      ProseRefines(b, k, received, sent, held, env);
      hide Faithful, Restored, TextOf, JsonOf, Utf8Length;
      ClosedMeans(b.buffer, env.auth);
    } else {
      CallAlike(b, k, received, sent, held, raw, env);
    }
  }

  lemma CallAlike(b: BlockState, k: int, received: seq<Body>, sent: seq<Body>, held: seq<Body>, raw: Block, env: Environment)
    requires BlockCompleted(b, k, received, sent, held, env) && Lawful(env) && SpellingFree(env) && b.raw.ToolUse?
    requires BlockOf(received, env) == Some(raw) && BlockAccepted(raw, env)
    ensures Alike(b, raw, env)
  {
    hide TextOf, Join, Held;
    var a := ArgumentsOf(b);
    assert raw.ToolUse? && raw.name == b.raw.name && env.parse(a) == Some(raw.input);
    assert env.parse(env.dump(raw.input)) == env.parse(a);
    assert env.tools(R.Call(raw.name, env.dump(raw.input), false)) == env.tools(R.Call(raw.name, a, false));
    assert b.buffer.text == "";
  }

  lemma {:induction false} ContentAlike(content: seq<Block>, blocks: seq<BlockState>, env: Environment)
    requires |content| == |blocks| && forall k | 0 <= k < |blocks| :: Alike(blocks[k], content[k], env)
    ensures B.ContentBytes(content, env) == ProseBytes(blocks) + ToolBytes(blocks, env)
    ensures SameNames(B.CallsOf(content, env), StateCalls(blocks))
  {
    hide B.BlockBytes, ToolSize, Utf8Length, BlockAccepted, ArgumentsOf;
    if blocks != [] {
      assert Alike(blocks[0], content[0], env);
      forall k | 0 <= k < |blocks| - 1
        ensures Alike(blocks[1..][k], content[1..][k], env)
      {
        assert Alike(blocks[k + 1], content[k + 1], env);
      }
      ContentAlike(content[1..], blocks[1..], env);
    }
  }

  /** The message that the provider's events describe passes the buffered path but for its size limits. */
  lemma BufferedAccepts(m: Messages, released: seq<Body>, msg: Message)
    requires m.CompletedBy(released) && Lawful(m.env) && SpellingFree(m.env)
    requires Assembles(m.received, msg, m.env) && CheckMessage(msg, false, m.env).None?
    ensures B.Accepts(msg, m.env)
  {
    hide Lawful, SpellingFree, CheckMessage, BlockCompleted, About, BlockOf, Alike, HeadInv, HeldOk, OpenedBy, StopIn;
    hide B.ContentBytes, B.CallsOf, StateCalls, ProseBytes, ToolBytes, Announced;
    var blocks := m.blocks;
    Counted(m, released, msg);
    forall k | 0 <= k < |blocks|
      ensures Alike(blocks[k], msg.content[k], m.env)
    {
      BlockAlike(blocks[k], k, About(m.received, k), About(m.sent, k), About(m.pending, k), msg.content[k], m.env);
    }
    ContentAlike(msg.content, blocks, m.env);
    SameBatch(B.CallsOf(msg.content, m.env), StateCalls(blocks), m.env);
    AcceptedBlocks(msg.content, blocks, m.env);
  }

  lemma Counted(m: Messages, released: seq<Body>, msg: Message)
    requires m.CompletedBy(released) && Assembles(m.received, msg, m.env)
    ensures |msg.content| == |m.blocks| && msg.stop == StopIn(m.received) && msg.stop.Some?
    ensures forall k | 0 <= k < |m.blocks| ::
              BlockCompleted(m.blocks[k], k, About(m.received, k), About(m.sent, k), About(m.pending, k), m.env)
    ensures ProseBytes(m.blocks) + ToolBytes(m.blocks, m.env) + B.StopBytes(msg.stop.value, m.env.auth) <= m.env.maxOutputBytes
    ensures m.env.batchOk(StateCalls(m.blocks))
  {
    hide BlockCompleted, About, BlockOf, OpenedBy, StopIn, B.StopBytes, Announced, ProseBytes, ToolBytes, StateCalls;
  }

  lemma SameBatch(x: seq<R.Call>, y: seq<R.Call>, env: Environment)
    requires SpellingFree(env) && SameNames(x, y)
    ensures env.batchOk(x) == env.batchOk(y)
  {
  }

  lemma AcceptedBlocks(content: seq<Block>, blocks: seq<BlockState>, env: Environment)
    requires |content| == |blocks| && forall k | 0 <= k < |blocks| :: Alike(blocks[k], content[k], env)
    ensures B.AllAccepted(content, env)
  {
    hide BlockAccepted, B.BlockBytes;
    forall k | 0 <= k < |content|
      ensures BlockAccepted(content[k], env)
    {
      assert Alike(blocks[k], content[k], env);
    }
  }
}
