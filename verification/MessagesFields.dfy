/** What the validators of Messages blocks, stops and messages accept, field by field and for a whole message at once. */
module MessagesFields {
  import opened Tokens
  import opened Json
  import opened MessagesProtocol
  import R = ResponsesProtocol
  import F = ResponsesChecked

  // ---------- Why a message stops ----------

  /** One of the seven reasons. */
  predicate ReasonFits(reason: string) {
    || reason == "end_turn" || reason == "tool_use" || reason == "max_tokens" || reason == "refusal"
    || reason == "pause_turn" || reason == "stop_sequence" || reason == "model_context_window_exceeded"
  }

  predicate CategoryFits(category: string) {
    || category == "cyber" || category == "bio" || category == "frontier_llm" || category == "reasoning_extraction"
    || category == "general_harms"
  }

  /** A stop sequence is there exactly when it is the reason, and is one the request asked for; details explain
      refusals only. */
  predicate StopFits(stop: Stop, env: Environment) {
    && ReasonFits(stop.reason)
    && (stop.sequence.Some? <==> stop.reason == "stop_sequence")
    && (stop.sequence.Some? ==> stop.sequence.value in env.stopSequences)
    && (stop.details.Some? ==>
          && stop.reason == "refusal" && stop.details.value.kind == "refusal"
          && (stop.details.value.category.Some? ==> CategoryFits(stop.details.value.category.value)))
  }

  /** Exactly which stops pass. */
  lemma StopExactly(stop: Stop, env: Environment)
    ensures CheckStop(stop, env).None? <==> StopFits(stop, env)
  {
    assert StopReason(stop.reason) <==> ReasonFits(stop.reason);
    if stop.details.Some? && stop.details.value.category.Some? {
      assert RefusalCategory(stop.details.value.category.value) <==> CategoryFits(stop.details.value.category.value);
    }
    hide StopReason, ReasonFits, RefusalCategory, CategoryFits;
  }

  // ---------- One block ----------

  predicate BlockFits(b: Block, start: bool, env: Environment) {
    match b
    case TextBlock(text, extras) => (forall field | field in extras :: field == "citations") && (start ==> text == "")
    case ToolUse(id, name, input, extras) =>
      && F.Named(id, 128) && F.Named(name, 64) && F.Null(extras, "toolset_name")
      && (forall field | field in extras :: field == "caller" || field == "toolset_name")
      && input.Obj? && (start ==> input.members == []) && env.parse(env.dump(input)).Some?
  }

  lemma BlockExactly(b: Block, start: bool, env: Environment)
    ensures CheckBlock(b, start, env).None? <==> BlockFits(b, start, env)
  {
    if b.ToolUse? {
      F.IdentifierExactly(b.id, 128);
      F.IdentifierExactly(b.name, 64);
    }
    hide R.IsIdentifier, F.Named;
  }

  // ---------- A whole message ----------

  ghost predicate BlocksFit(content: seq<Block>, env: Environment) {
    forall k | 0 <= k < |content| :: BlockFits(content[k], false, env)
  }

  ghost predicate CallsDistinct(content: seq<Block>) {
    forall i, j | 0 <= i < j < |content| && content[i].ToolUse? && content[j].ToolUse? :: content[i].id != content[j].id
  }

  ghost predicate CallsNew(content: seq<Block>, calls: set<string>) {
    forall k | 0 <= k < |content| && content[k].ToolUse? :: content[k].id !in calls
  }

  /** The loop with its set of identifiers decides a property of the whole list. */
  lemma {:induction false} ContentExactly(content: seq<Block>, calls: set<string>, env: Environment)
    ensures CheckContent(content, calls, env).None?
            <==> BlocksFit(content, env) && CallsDistinct(content) && CallsNew(content, calls)
  {
    hide CheckBlock, BlockFits;
    if content != [] {
      var first, rest := content[0], content[1..];
      BlockExactly(first, false, env);
      FirstFits(content, calls, env);
      ContentExactly(rest, if first.ToolUse? then calls + {first.id} else calls, env);
    }
  }

  lemma FirstFits(content: seq<Block>, calls: set<string>, env: Environment)
    requires content != []
    ensures var first, rest := content[0], content[1..];
            && (BlocksFit(content, env) <==> BlockFits(first, false, env) && BlocksFit(rest, env))
            && (CallsDistinct(content) && CallsNew(content, calls)
                <==> && (first.ToolUse? ==> first.id !in calls) && CallsDistinct(rest)
                     && CallsNew(rest, if first.ToolUse? then calls + {first.id} else calls))
  {
    hide BlockFits;
    var first, rest := content[0], content[1..];
    assert forall k | 0 <= k < |rest| :: rest[k] == content[k + 1];
    assert forall k | 1 <= k < |content| :: content[k] == rest[k - 1];
  }

  /** A message as it opens: nothing but who it is. */
  predicate OpeningFits(m: Message, env: Environment) {
    F.Named(m.id, 128) && env.controlsOk(m.controls) && m.content == [] && m.stop.None?
  }

  /** A finished message: every block fits, no two calls are confused, and calls are why it stopped. */
  ghost predicate MessageFits(m: Message, env: Environment) {
    && F.Named(m.id, 128) && env.controlsOk(m.controls) && |m.content| <= env.maxItems
    && m.stop.Some? && StopFits(m.stop.value, env)
    && BlocksFit(m.content, env) && CallsDistinct(m.content)
    && forall k | 0 <= k < |m.content| && m.content[k].ToolUse? :: m.stop.value.reason == "tool_use"
  }

  /** Exactly which messages pass, opening and finished. */
  lemma MessageExactly(m: Message, env: Environment)
    ensures CheckMessage(m, true, env).None? <==> OpeningFits(m, env)
    ensures CheckMessage(m, false, env).None? <==> MessageFits(m, env)
  {
    F.IdentifierExactly(m.id, 128);
    ContentExactly(m.content, {}, env);
    assert CallsNew(m.content, {});
    if m.stop.Some? {
      StopExactly(m.stop.value, env);
      CallsAreWhy(m);
    }
    hide R.IsIdentifier, F.Named, CheckContent, BlocksFit, CallsDistinct, CheckStop, StopFits;
  }

  lemma CallsAreWhy(m: Message)
    requires m.stop.Some?
    ensures ((exists b | b in m.content :: b.ToolUse?) && m.stop.value.reason != "tool_use")
            <==> !(forall k | 0 <= k < |m.content| && m.content[k].ToolUse? :: m.stop.value.reason == "tool_use")
  {
    if exists k :: 0 <= k < |m.content| && m.content[k].ToolUse? {
      var k :| 0 <= k < |m.content| && m.content[k].ToolUse?;
      assert m.content[k] in m.content;
    }
  }
}
