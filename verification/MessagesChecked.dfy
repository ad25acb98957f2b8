/** What the Messages machine validates on the way adds up to what the buffered path validates at once. */
module MessagesChecked {
  import opened Text
  import opened Tokens
  import opened Restoration
  import opened TokenStream
  import opened Json
  import opened MessagesProtocol
  import opened MessagesInvariants
  import opened MessagesRelease
  import opened MessagesSteps
  import R = ResponsesProtocol

  ghost predicate StartsChecked(blocks: seq<BlockState>, env: Environment) {
    forall k | 0 <= k < |blocks| :: CheckBlock(blocks[k].raw, true, env).None?
  }

  /** No two calls share an identifier, and all identifiers are known. */
  ghost predicate CallsApart(blocks: seq<BlockState>, calls: set<string>) {
    && (forall k | 0 <= k < |blocks| && blocks[k].raw.ToolUse? :: blocks[k].raw.id in calls)
    && (forall i, j | 0 <= i < j < |blocks| && blocks[i].raw.ToolUse? && blocks[j].raw.ToolUse? :: blocks[i].raw.id != blocks[j].raw.id)
  }

  ghost predicate EndsChecked(received: seq<Body>, env: Environment) {
    && (OpenedBy(received).Some? ==> CheckMessage(OpenedBy(received).value, true, env).None?)
    && (StopIn(received).Some? ==> CheckStop(StopIn(received).value, env).None?)
  }

  ghost predicate Checked(r: Run, total: nat, env: Environment) {
    && |r.blocks| == total <= env.maxItems
    && StartsChecked(r.blocks, env) && CallsApart(r.blocks, r.calls)
    && EndsChecked(r.received, env)
  }

  lemma CheckedNew(env: Environment)
    ensures Checked(Run(false, false, None, {}, [], [], NOTHING, [], []), 0, env)
  {
    assert OpenedBy([]) == None && StopIn([]) == None;
  }

  lemma EndsCheckedNext(received: seq<Body>, b: Body, env: Environment)
    requires EndsChecked(received, env)
    requires b.MessageStart? ==> CheckMessage(b.message, true, env).None?
    requires b.MessageDelta? ==> CheckStop(b.stop, env).None?
    ensures EndsChecked(received + [b], env)
  {
    hide CheckMessage, CheckStop, OpenedBy, StopIn;
    PassHead(received, b);
  }

  /** A block is announced with a new identifier and passes its check. */
  lemma CheckedStart(r: Run, raw: Block, total: nat, env: Environment)
    requires Checked(r, total, env) && CheckBlock(raw, true, env).None? && total < env.maxItems
    requires raw.ToolUse? ==> raw.id !in r.calls
    ensures Checked(r.Started(raw), total + 1, env)
  {
    hide CheckBlock, EndsChecked;
    EndsCheckedNext(r.received, BlockStart(|r.blocks|, raw), env);
  }

  /** An event that announces nothing leaves the blocks as they were announced. */
  lemma CheckedNext(r: Run, next: Run, b: Body, total: nat, env: Environment)
    requires Checked(r, total, env)
    requires |next.blocks| == |r.blocks| && next.calls == r.calls && next.received == r.received + [b]
    requires forall k | 0 <= k < |r.blocks| :: next.blocks[k].raw == r.blocks[k].raw
    requires b.MessageStart? ==> CheckMessage(b.message, true, env).None?
    requires b.MessageDelta? ==> CheckStop(b.stop, env).None?
    ensures Checked(next, total, env)
  {
    hide CheckBlock, EndsChecked, CheckMessage, CheckStop;
    EndsCheckedNext(r.received, b, env);
  }

  /** Restoring the calls leaves what was announced as it was. */
  lemma CheckedRestored(before: seq<BlockState>, r: Run, total: nat, env: Environment)
    requires |before| == |r.blocks| && forall k | 0 <= k < |before| :: r.blocks[k].raw == before[k].raw
    requires |before| == total <= env.maxItems && StartsChecked(before, env) && CallsApart(before, r.calls) && EndsChecked(r.received, env)
    ensures Checked(r, total, env)
  {
    hide CheckBlock, EndsChecked;
  }

  // ---------- Both together ----------

  /** Everything a run keeps: what it says, what it counts, what it has validated. */
  ghost predicate Sound(r: Run, total: nat, env: Environment) { Keeps(r, env.auth) && Checked(r, total, env) }

  lemma SoundNew(env: Environment)
    ensures Sound(Run(false, false, None, {}, [], [], NOTHING, [], []), 0, env)
  {
    hide Keeps, Checked;
    KeepsNew(env.auth);
    CheckedNew(env);
  }

  lemma SoundPass(r: Run, b: Body, total: nat, env: Environment)
    requires Sound(r, total, env) && (b.Ping? || (b.MessageStart? && !r.started))
    requires b.MessageStart? ==> CheckMessage(b.message, true, env).None?
    ensures Sound(r.Passed(b), total, env)
  {
    hide Keeps, Checked;
    KeepsPass(r, b, env.auth);
    CheckedNext(r, r.Passed(b), b, total, env);
  }

  lemma SoundStart(r: Run, raw: Block, total: nat, env: Environment)
    requires Sound(r, total, env) && !r.done && CheckBlock(raw, true, env).None?
    requires raw.ToolUse? ==> raw.id !in r.calls
    ensures total < env.maxItems ==> Sound(r.Started(raw), total + 1, env)
  {
    assert raw.TextBlock? ==> raw.text == "";
    hide Keeps, Checked, CheckBlock;
    KeepsStart(r, raw, env.auth);
    if total < env.maxItems {
      CheckedStart(r, raw, total, env);
    }
  }

  lemma SoundText(r: Run, k: nat, value: string, final: bool, total: nat, env: Environment)
    requires Sound(r, total, env) && !r.done && k < |r.blocks| && r.blocks[k].raw.TextBlock? && !r.blocks[k].done
    requires final ==> value == ""
    ensures Sound(r.Texted(k, value, final, env.auth), total, env)
  {
    hide Keeps, Checked, Buffer.Feed, Buffer.Share, TextOut, Tally.Plus;
    KeepsText(r, k, value, final, env.auth);
    CheckedNext(r, r.Texted(k, value, final, env.auth), if final then BlockStop(k) else TextDelta(k, value), total, env);
  }

  lemma SoundCall(r: Run, k: nat, e: Body, total: nat, env: Environment)
    requires Sound(r, total, env) && !r.done && k < |r.blocks| && r.blocks[k].raw.ToolUse? && !r.blocks[k].done
    requires (e.BlockStop? || e.JsonDelta?) && e.index == k
    ensures Sound(r.Called(k, e), total, env)
  {
    hide Keeps, Checked;
    KeepsCall(r, k, e, env.auth);
    CheckedNext(r, r.Called(k, e), e, total, env);
  }

  lemma SoundEnd(r: Run, b: Body, total: nat, env: Environment)
    requires Sound(r, total, env) && !r.done && b.MessageDelta? && CheckStop(b.stop, env).None?
    requires forall k | 0 <= k < |r.blocks| :: r.blocks[k].done
    requires r.calls != {} ==> b.stop.reason == "tool_use"
    ensures Sound(r.Closed(b, env.auth), total, env)
  {
    hide Keeps, Checked, RestoreStop, StopTally, CheckStop, Tally.Plus;
    KeepsEnd(r, b, env.auth);
    CheckedNext(r, r.Closed(b, env.auth), b, total, env);
  }

  lemma SoundParts(r: Run, total: nat, env: Environment)
    requires Sound(r, total, env)
    ensures Keeps(r, env.auth) && Checked(r, total, env)
  {
  }

  lemma CheckedParts(r: Run, total: nat, env: Environment)
    requires Checked(r, total, env)
    ensures |r.blocks| == total <= env.maxItems && StartsChecked(r.blocks, env) && CallsApart(r.blocks, r.calls) && EndsChecked(r.received, env)
  {
  }

  // ---------- The assembled message ----------

  /** A block as assembled from its events passes the whole-message check its announcement passed. */
  lemma BlockChecks(raw: Block, about: seq<Body>, env: Environment)
    requires Lawful(env) && CheckBlock(raw, true, env).None?
    requires about != [] && about[0].BlockStart? && about[0].block == raw && BlockOf(about, env).Some?
    ensures CheckBlock(BlockOf(about, env).value, false, env).None?
    ensures BlockOf(about, env).value.ToolUse? == raw.ToolUse?
    ensures raw.ToolUse? ==> BlockOf(about, env).value.id == raw.id
  {
    hide TextOf, JsonOf;
    if raw.ToolUse? {
      var a := OrEmpty(JsonOf(about));
      assert env.parse(env.dump(env.parse(a).value)) == env.parse(a);
    }
  }

  lemma {:induction false} ContentChecks(content: seq<Block>, calls: set<string>, env: Environment)
    requires forall k | 0 <= k < |content| :: CheckBlock(content[k], false, env).None?
    requires forall k | 0 <= k < |content| && content[k].ToolUse? :: content[k].id !in calls
    requires forall i, j | 0 <= i < j < |content| && content[i].ToolUse? && content[j].ToolUse? :: content[i].id != content[j].id
    ensures CheckContent(content, calls, env) == None
  {
    hide CheckBlock;
    if content != [] {
      var rest := content[1..];
      assert forall k | 0 <= k < |rest| :: rest[k] == content[k + 1];
      ContentChecks(rest, if content[0].ToolUse? then calls + {content[0].id} else calls, env);
    }
  }

  /** What a stream lets through, the buffered path lets through too. */
  lemma AssembledChecks(r: Run, total: nat, env: Environment, m: Message)
    requires Checked(r, total, env) && Lawful(env)
    requires Assembles(r.received, m, env) && |m.content| == |r.blocks|
    requires forall k | 0 <= k < |r.blocks| ::
               About(r.received, k) != [] && About(r.received, k)[0] == BlockStart(k, r.blocks[k].raw)
    requires StopIn(r.received).value.reason == "tool_use" || NoCalls(r.blocks)
    ensures CheckMessage(m, false, env).None?
  {
    hide CheckBlock, CheckStop, About, BlockOf, Lawful, OpenedBy, StopIn, Announced;
    forall k | 0 <= k < |m.content|
      ensures CheckBlock(m.content[k], false, env).None?
      ensures m.content[k].ToolUse? == r.blocks[k].raw.ToolUse?
      ensures m.content[k].ToolUse? ==> m.content[k].id == r.blocks[k].raw.id
    {
      BlockChecks(r.blocks[k].raw, About(r.received, k), env);
    }
    ContentChecks(m.content, {}, env);
    hide CheckContent;
    if exists b | b in m.content :: b.ToolUse? {
      var b :| b in m.content && b.ToolUse?;
      var k :| 0 <= k < |m.content| && m.content[k] == b;
      assert r.blocks[k].raw.ToolUse?;
    }
  }
}
