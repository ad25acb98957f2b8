/** Restoring a whole buffered message at once: the plain meaning that the Messages stream has to agree with. */
module BufferedMessage {
  import opened Text
  import opened Tokens
  import opened Restoration
  import opened Json
  import opened MessagesProtocol
  import R = ResponsesProtocol
  import F = MessagesFields

  /** The calls of a message, their input serialized anew. */
  function CallsOf(content: seq<Block>, env: Environment): seq<R.Call> {
    if content == [] then []
    else
      (if content[0].ToolUse? then [R.Call(content[0].name, env.dump(content[0].input), false)] else []) + CallsOf(content[1..], env)
  }

  predicate AllAccepted(content: seq<Block>, env: Environment) {
    forall k | 0 <= k < |content| :: BlockAccepted(content[k], env)
  }

  function BlockBytes(b: Block, env: Environment): nat {
    if b.TextBlock? then Utf8Length(Restored(b.text, env.auth))
    else if ToolOf(b, env).ToolRestored? then Utf8Length(ToolOf(b, env).arguments)
    else 0
  }

  function ContentBytes(content: seq<Block>, env: Environment): nat {
    if content == [] then 0 else BlockBytes(content[0], env) + ContentBytes(content[1..], env)
  }

  function StopBytes(stop: Stop, auth: Authority): nat {
    if Explained(stop) then Utf8Length(Restored(stop.details.value.explanation.value, auth)) else 0
  }

  function RestoreContent(content: seq<Block>, env: Environment): (r: seq<Block>)
    requires AllAccepted(content, env)
    ensures |r| == |content|
    ensures forall k | 0 <= k < |r| :: r[k] == RestoreBlock(content[k], env)
  {
    seq(|content|, k requires 0 <= k < |content| => RestoreBlock(content[k], env))
  }

  function RestoredMessage(m: Message, env: Environment): Message
    requires m.stop.Some? && AllAccepted(m.content, env)
  {
    m.(content := RestoreContent(m.content, env), stop := Some(RestoreStop(m.stop.value, env.auth)))
  }

  /** What a buffered message has to pass besides the two size limits. */
  predicate Accepts(m: Message, env: Environment) {
    && m.stop.Some? && CheckMessage(m, false, env).None?
    && env.batchOk(CallsOf(m.content, env))
    && AllAccepted(m.content, env)
    && ContentBytes(m.content, env) + StopBytes(m.stop.value, env.auth) <= env.maxOutputBytes
  }

  /** Exactly when a buffered message is released. */
  predicate Releasable(m: Message, env: Environment, size: Message -> nat) {
    && size(m) <= env.maxOutputBytes
    && Accepts(m, env)
    && size(RestoredMessage(m, env)) <= env.maxOutputBytes
  }

  /** A message is restored in one way only. */
  lemma RestoredUnique(m: Message, shown: Message, env: Environment)
    ensures RestoresMessage(m, shown, env)
            <==> m.stop.Some? && AllAccepted(m.content, env) && shown == RestoredMessage(m, env)
  {
    hide RestoreBlock, RestoreStop, BlockAccepted;
    if RestoresMessage(m, shown, env) {
      assert shown.content == RestoreContent(m.content, env);
    }
  }

  lemma {:induction false} BytesAppend(a: seq<Block>, b: seq<Block>, env: Environment)
    ensures ContentBytes(a + b, env) == ContentBytes(a, env) + ContentBytes(b, env)
  {
    hide BlockBytes;
    if a == [] {
      assert a + b == b;
    } else {
      assert (a + b)[1..] == a[1..] + b;
      BytesAppend(a[1..], b, env);
    }
  }

  lemma ContentSnoc(content: seq<Block>, k: nat, env: Environment)
    requires k < |content|
    ensures ContentBytes(content[..k + 1], env) == ContentBytes(content[..k], env) + BlockBytes(content[k], env)
    ensures ContentBytes(content[..k + 1], env) <= ContentBytes(content, env)
    ensures ContentTally(content[..k + 1], env) == ContentTally(content[..k], env).Plus(BlockTally(content[k], env))
  {
    hide BlockBytes, BlockTally, Tally.Plus;
    assert content[..k + 1] == content[..k] + [content[k]];
    assert content == content[..k + 1] + content[k + 1..];
    BytesAppend(content[..k], [content[k]], env);
    BytesAppend(content[..k + 1], content[k + 1..], env);
    ContentTallyAppend(content[..k], [content[k]], env);
    assert [content[k]][1..] == [];
    PlusLaws(BlockTally(content[k], env), NOTHING, NOTHING);
  }

  // ---------- The loop that does it ----------

  /** One block, within what is left of the budget. */
  method RestoreOne(env: Environment, b: Block, outcome: RestorationOutcome, used: nat)
    returns (r: Result<(Block, nat), Error>)
    requires used <= env.maxOutputBytes
    modifies outcome
    ensures r.Ok? <==> BlockAccepted(b, env) && used + BlockBytes(b, env) <= env.maxOutputBytes
    ensures r.Ok? ==>
              && r.value == (RestoreBlock(b, env), used + BlockBytes(b, env))
              && outcome.Counts() == old(outcome.Counts()).Plus(BlockTally(b, env))
  {
    hide Restored, TallyOf, Lex, Tally.Plus, Utf8Length, ByAnswer, RestorationOutcome.Counts;
    if b.TextBlock? {
      var restored := RestoreText(env.auth, b.text, env.maxOutputBytes - used);
      if restored.Err? {
        assert restored.error == NegativeBudget || restored.error == OutputTooLarge;
        return Err(R.OutputTooLarge);
      }
      outcome.Merge(restored.value);
      return Ok((b.(text := restored.value.text), used + Utf8Length(restored.value.text)));
    }
    var answer := ToolOf(b, env);
    if answer.ToolRefused? {
      return Err(R.ToolFailed);
    }
    var input := env.parse(answer.arguments);
    if input.None? {
      return Err(R.InvalidStream);
    }
    var other := new RestorationOutcome.AllRestored(answer.arguments, answer.restored);
    outcome.Merge(other);
    if used + Utf8Length(answer.arguments) > env.maxOutputBytes {
      return Err(R.OutputTooLarge);
    }
    return Ok((b.(input := input.value), used + Utf8Length(answer.arguments)));
  }

  /** The explanation of the stop, within what is left of the budget. */
  method RestoreDetails(env: Environment, stop: Stop, outcome: RestorationOutcome, used: nat) returns (r: Result<Stop, Error>)
    requires used <= env.maxOutputBytes
    modifies outcome
    ensures r.Ok? <==> used + StopBytes(stop, env.auth) <= env.maxOutputBytes
    ensures r.Ok? ==>
              && r.value == RestoreStop(stop, env.auth)
              && outcome.Counts() == old(outcome.Counts()).Plus(StopTally(stop, env.auth))
  {
    hide Restored, TallyOf, Lex, Tally.Plus, Utf8Length, ByAnswer, RestorationOutcome.Counts;
    PlusLaws(outcome.Counts(), NOTHING, NOTHING);
    if !Explained(stop) {
      return Ok(stop);
    }
    var details := stop.details.value;
    var restored := RestoreText(env.auth, details.explanation.value, env.maxOutputBytes - used);
    if restored.Err? {
      assert restored.error == NegativeBudget || restored.error == OutputTooLarge;
      return Err(R.OutputTooLarge);
    }
    outcome.Merge(restored.value);
    return Ok(stop.(details := Some(details.(explanation := Some(restored.value.text)))));
  }

  /** Validates and restores a buffered message atomically, including all tools. */
  method RestoreMessage(env: Environment, size: Message -> nat, m: Message)
    returns (r: Result<(Message, RestorationOutcome), Error>)
    ensures r.Ok? <==> Releasable(m, env, size)
    ensures r.Ok? ==> F.MessageFits(m, env)
    ensures r.Ok? ==>
              && r.value.0 == RestoredMessage(m, env)
              && fresh(r.value.1)
              && r.value.1.Counts() == MessageTally(m, env)
    ensures size(m) > env.maxOutputBytes ==> r == Err(R.OutputTooLarge)
    ensures size(m) <= env.maxOutputBytes && CheckMessage(m, false, env).Some? ==>
              r == Err(CheckMessage(m, false, env).value)
  {
    hide CheckMessage, CallsOf, ContentBytes, ContentTally, StopBytes, StopTally, BlockBytes, BlockTally, BlockAccepted;
    hide RestoreStop, RestoreBlock, Tally.Plus, RestorationOutcome.Counts, F.MessageFits;
    if size(m) > env.maxOutputBytes {
      return Err(R.OutputTooLarge);
    }
    var bad := CheckMessage(m, false, env);
    if bad.Some? {
      return Err(bad.value);
    }
    if !env.batchOk(CallsOf(m.content, env)) {
      return Err(R.ToolFailed);
    }
    CheckedStop(m, env);
    F.MessageExactly(m, env);
    var outcome := new RestorationOutcome("");
    var content: seq<Block> := [];
    var bytes := 0;
    var k := 0;
    ContentStart(m.content, env);
    while k < |m.content|
      invariant 0 <= k <= |m.content| && |content| == k
      invariant fresh(outcome)
      invariant forall j | 0 <= j < k :: BlockAccepted(m.content[j], env) && content[j] == RestoreBlock(m.content[j], env)
      invariant bytes == ContentBytes(m.content[..k], env) <= env.maxOutputBytes
      invariant outcome.Counts() == ContentTally(m.content[..k], env)
    {
      ContentSnoc(m.content, k, env);
      var one := RestoreOne(env, m.content[k], outcome, bytes);
      if one.Err? {
        return Err(one.error);
      }
      content, bytes := content + [one.value.0], one.value.1;
      k := k + 1;
    }
    assert m.content[..k] == m.content;
    var stop := RestoreDetails(env, m.stop.value, outcome, bytes);
    if stop.Err? {
      return Err(stop.error);
    }
    var result := m.(content := content, stop := Some(stop.value));
    assert content == RestoreContent(m.content, env);
    if size(result) > env.maxOutputBytes {
      return Err(R.OutputTooLarge);
    }
    return Ok((result, outcome));
  }

  lemma CheckedStop(m: Message, env: Environment)
    requires CheckMessage(m, false, env).None?
    ensures m.stop.Some?
  {
    hide CheckStop, CheckContent;
  }

  lemma ContentStart(content: seq<Block>, env: Environment)
    ensures ContentBytes(content[..0], env) == 0 && ContentTally(content[..0], env) == NOTHING
  {
  }
}
