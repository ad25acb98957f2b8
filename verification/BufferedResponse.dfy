/** Restoring a whole buffered response at once: the plain meaning that streaming has to agree with. */
module BufferedResponse {
  import opened Text
  import opened Tokens
  import opened Restoration
  import opened ResponsesProtocol
  import F = ResponsesChecked

  // ---------- What restoration makes of a response ----------

  function TextShare(text: string, auth: Authority): Ledger {
    Ledger(TallyOf(Lex(text), auth), Utf8Length(Restored(text, auth)))
  }

  function RestorePart(part: Part, auth: Authority): Part { part.(text := Restored(part.text, auth)) }

  function RestoreContent(content: seq<Part>, auth: Authority): (r: seq<Part>)
    ensures |r| == |content|
    ensures forall p | 0 <= p < |r| :: r[p] == RestorePart(content[p], auth)
  {
    if content == [] then [] else [RestorePart(content[0], auth)] + RestoreContent(content[1..], auth)
  }

  function ContentShare(content: seq<Part>, auth: Authority): Ledger {
    if content == [] then ZERO else TextShare(content[0].text, auth).Plus(ContentShare(content[1..], auth))
  }

  function CallOf(item: Item): Call
    requires item.ToolCall?
  {
    Call(item.name, item.arguments, item.custom)
  }

  function CallsOf(output: seq<Item>): seq<Call> {
    if output == [] then []
    else (if output[0].ToolCall? then [CallOf(output[0])] else []) + CallsOf(output[1..])
  }

  function ToolShare(result: ToolResult): Ledger {
    if result.ToolRestored? then Ledger(NOTHING.(restored := result.restored), Utf8Length(result.arguments)) else ZERO
  }

  function RestoreItem(item: Item, env: Environment): Item {
    match item
    case Message(_, _, _, content, _) => item.(content := RestoreContent(content, env.auth))
    case ToolCall(_, _, _, _, _, _, _) =>
      if env.tools(CallOf(item)).ToolRestored? then item.(arguments := env.tools(CallOf(item)).arguments) else item
    case Reasoning(_, _, _) => item
  }

  function ItemShare(item: Item, env: Environment): Ledger {
    match item
    case Message(_, _, _, content, _) => ContentShare(content, env.auth)
    case ToolCall(_, _, _, _, _, _, _) => ToolShare(env.tools(CallOf(item)))
    case Reasoning(_, _, _) => ZERO
  }

  function RestoreItems(output: seq<Item>, env: Environment): (r: seq<Item>)
    ensures |r| == |output|
    ensures forall k | 0 <= k < |r| :: r[k] == RestoreItem(output[k], env)
  {
    if output == [] then [] else [RestoreItem(output[0], env)] + RestoreItems(output[1..], env)
  }

  function OutputShare(output: seq<Item>, env: Environment): Ledger {
    if output == [] then ZERO else ItemShare(output[0], env).Plus(OutputShare(output[1..], env))
  }

  /** `shown` is `item` as the client may see it: the provider's words restored, everything else as it was. */
  predicate Shows(item: Item, shown: Item, env: Environment) {
    && shown.id == item.id && shown.Message? == item.Message? && shown.ToolCall? == item.ToolCall?
    && Over(item.status) && Over(shown.status)
    && (item.Message? ==>
          && shown.phase == item.phase && |shown.content| == |item.content|
          && forall p | 0 <= p < |item.content| ::
               && shown.content[p].refusal == item.content[p].refusal
               && shown.content[p].text == Restored(item.content[p].text, env.auth))
    && (item.ToolCall? ==>
          && shown.callId == item.callId && shown.name == item.name && shown.custom == item.custom
          && var result := env.tools(Call(item.name, item.arguments, item.custom));
          && result.ToolRestored? && shown.arguments == result.arguments)
  }

  /** The buffered path shows every item it accepts. */
  lemma BufferedShows(item: Item, env: Environment)
    requires CheckItem(item, true, env.maxItems).None?
    requires item.ToolCall? ==> env.tools(CallOf(item)).ToolRestored?
    ensures Shows(item, RestoreItem(item, env), env)
  {
    CompleteStatus(item, env.maxItems);
    hide CheckItem, Restored;
  }

  predicate ToolsAccept(output: seq<Item>, env: Environment) {
    forall k | 0 <= k < |output| && output[k].ToolCall? :: env.tools(CallOf(output[k])).ToolRestored?
  }

  function RestoredResponse(response: Response, env: Environment): Response {
    response.(output := RestoreItems(response.output, env))
  }

  /** Exactly when a buffered response is released: nothing else can refuse it. */
  predicate Releasable(response: Response, env: Environment) {
    && env.responseSize(response) <= env.maxOutputBytes
    && CheckResponse(response, true, env).None?
    && env.batchOk(CallsOf(response.output))
    && ToolsAccept(response.output, env)
    && OutputShare(response.output, env).bytes <= env.maxOutputBytes
    && env.responseSize(RestoredResponse(response, env)) <= env.maxOutputBytes
  }

  lemma {:induction false} CallsAppend(a: seq<Item>, b: seq<Item>)
    ensures CallsOf(a + b) == CallsOf(a) + CallsOf(b)
  {
    if a == [] {
      assert a + b == b;
    } else {
      assert (a + b)[1..] == a[1..] + b;
      CallsAppend(a[1..], b);
    }
  }

  lemma {:induction false} ShareAppend(a: seq<Item>, b: seq<Item>, env: Environment)
    ensures OutputShare(a + b, env) == OutputShare(a, env).Plus(OutputShare(b, env))
  {
    hide ItemShare, Ledger.Plus;
    LedgerLaws(OutputShare(b, env), ZERO, ZERO);
    if a == [] {
      assert a + b == b;
    } else {
      assert (a + b)[1..] == a[1..] + b;
      ShareAppend(a[1..], b, env);
      LedgerLaws(ItemShare(a[0], env), OutputShare(a[1..], env), OutputShare(b, env));
    }
  }

  lemma {:induction false} ContentShareAppend(a: seq<Part>, b: seq<Part>, auth: Authority)
    ensures ContentShare(a + b, auth) == ContentShare(a, auth).Plus(ContentShare(b, auth))
  {
    hide TextShare, Ledger.Plus;
    LedgerLaws(ContentShare(b, auth), ZERO, ZERO);
    if a == [] {
      assert a + b == b;
    } else {
      assert (a + b)[1..] == a[1..] + b;
      ContentShareAppend(a[1..], b, auth);
      LedgerLaws(TextShare(a[0].text, auth), ContentShare(a[1..], auth), ContentShare(b, auth));
    }
  }

  lemma ShareSnoc(output: seq<Item>, k: nat, env: Environment)
    requires k < |output|
    ensures OutputShare(output[..k + 1], env) == OutputShare(output[..k], env).Plus(ItemShare(output[k], env))
    ensures CallsOf(output[..k + 1]) == CallsOf(output[..k]) + (if output[k].ToolCall? then [CallOf(output[k])] else [])
  {
    hide ItemShare, Ledger.Plus;
    assert output[..k + 1] == output[..k] + [output[k]];
    ShareAppend(output[..k], [output[k]], env);
    CallsAppend(output[..k], [output[k]]);
    LedgerLaws(ItemShare(output[k], env), ZERO, ZERO);
  }

  lemma ContentShareSnoc(content: seq<Part>, p: nat, auth: Authority)
    requires p < |content|
    ensures ContentShare(content[..p + 1], auth)
            == ContentShare(content[..p], auth).Plus(TextShare(content[p].text, auth))
  {
    hide TextShare, Ledger.Plus;
    assert content[..p + 1] == content[..p] + [content[p]];
    ContentShareAppend(content[..p], [content[p]], auth);
    LedgerLaws(TextShare(content[p].text, auth), ZERO, ZERO);
  }

  lemma SharePrefix(output: seq<Item>, k: nat, env: Environment)
    requires k <= |output|
    ensures OutputShare(output[..k], env).bytes <= OutputShare(output, env).bytes
  {
    hide ItemShare;
    assert output == output[..k] + output[k..];
    ShareAppend(output[..k], output[k..], env);
  }

  lemma ContentSharePrefix(content: seq<Part>, p: nat, auth: Authority)
    requires p <= |content|
    ensures ContentShare(content[..p], auth).bytes <= ContentShare(content, auth).bytes
  {
    hide TextShare;
    assert content == content[..p] + content[p..];
    ContentShareAppend(content[..p], content[p..], auth);
  }

  // ---------- The loops that do it ----------

  /** Restores a message's parts in order, each within what is left of the budget. */
  method RestoreParts(env: Environment, content: seq<Part>, outcome: RestorationOutcome, used: nat)
    returns (r: Result<(seq<Part>, nat), Error>)
    requires used <= env.maxOutputBytes
    modifies outcome
    ensures var share := ContentShare(content, env.auth);
            if used + share.bytes > env.maxOutputBytes then r == Err(Error.OutputTooLarge)
            else
              && r == Ok((RestoreContent(content, env.auth), used + share.bytes))
              && outcome.Counts() == old(outcome.Counts()).Plus(share.counts)
  {
    hide Restored, TallyOf, Lex, Tally.Plus, Utf8Length, ByAnswer, RestorationOutcome.Counts, ContentShare, RestoreContent;
    var parts: seq<Part> := [];
    var bytes := used;
    var p := 0;
    ContentStart(content, outcome.Counts(), env.auth);
    while p < |content|
      invariant 0 <= p <= |content| == |parts| + (|content| - p)
      invariant forall q | 0 <= q < p :: parts[q] == RestorePart(content[q], env.auth)
      invariant bytes == used + ContentShare(content[..p], env.auth).bytes <= env.maxOutputBytes
      invariant outcome.Counts() == old(outcome.Counts()).Plus(ContentShare(content[..p], env.auth).counts)
    {
      ContentShareSnoc(content, p, env.auth);
      ContentSharePrefix(content, p + 1, env.auth);
      var restored := RestoreText(env.auth, content[p].text, env.maxOutputBytes - bytes);
      if restored.Err? {
        assert restored.error == NegativeBudget || restored.error == RestorationError.OutputTooLarge;
        return Err(Error.OutputTooLarge);
      }
      parts := parts + [content[p].(text := restored.value.text)];
      PlusLaws(old(outcome.Counts()), ContentShare(content[..p], env.auth).counts, restored.value.Counts());
      outcome.Merge(restored.value);
      bytes := bytes + Utf8Length(restored.value.text);
      p := p + 1;
    }
    assert content[..p] == content && parts == RestoreContent(content, env.auth);
    return Ok((parts, bytes));
  }

  lemma ContentStart(content: seq<Part>, counts: Tally, auth: Authority)
    ensures ContentShare(content[..0], auth) == ZERO && counts.Plus(NOTHING) == counts
  {
  }

  /** Validates and restores a buffered response atomically, including all tools. */
  method RestoreResponse(env: Environment, response: Response)
    returns (r: Result<(Response, RestorationOutcome), Error>)
    ensures r.Ok? <==> Releasable(response, env)
    ensures r.Ok? ==> F.ResponseFits(response, true, env)
    ensures r.Ok? ==>
              && r.value.0 == RestoredResponse(response, env)
              && fresh(r.value.1)
              && r.value.1.Counts() == OutputShare(response.output, env).counts
    ensures env.responseSize(response) > env.maxOutputBytes ==> r == Err(Error.OutputTooLarge)
    ensures env.responseSize(response) <= env.maxOutputBytes && CheckResponse(response, true, env).Some? ==>
              r == Err(CheckResponse(response, true, env).value)
  {
    hide Restored, TallyOf, Lex, Tally.Plus, Utf8Length, ByAnswer, RestorationOutcome.Counts, OutputShare, RestoreItems;
    hide CheckResponse, CallsOf, ContentShare, RestoreContent, F.ResponseFits;
    F.ResponseExactly(response, true, env);
    if env.responseSize(response) > env.maxOutputBytes {
      return Err(Error.OutputTooLarge);
    }
    var bad := CheckResponse(response, true, env);
    if bad.Some? {
      return Err(bad.value);
    }
    if !env.batchOk(CallsOf(response.output)) {
      return Err(ToolFailed);
    }
    var outcome := new RestorationOutcome("");
    var output: seq<Item> := [];
    var bytes := 0;
    var k := 0;
    OutputStart(response.output, outcome.Counts(), env);
    while k < |response.output|
      invariant 0 <= k <= |response.output| && |output| == k
      invariant fresh(outcome)
      invariant forall j | 0 <= j < k :: output[j] == RestoreItem(response.output[j], env)
      invariant forall j | 0 <= j < k && response.output[j].ToolCall? :: env.tools(CallOf(response.output[j])).ToolRestored?
      invariant bytes == OutputShare(response.output[..k], env).bytes <= env.maxOutputBytes
      invariant outcome.Counts() == OutputShare(response.output[..k], env).counts
    {
      var item := response.output[k];
      ShareSnoc(response.output, k, env);
      SharePrefix(response.output, k + 1, env);
      PlusLaws(outcome.Counts(), NOTHING, NOTHING);
      if item.Message? {
        var parts := RestoreParts(env, item.content, outcome, bytes);
        if parts.Err? {
          return Err(parts.error);
        }
        output := output + [item.(content := parts.value.0)];
        bytes := parts.value.1;
      } else if item.ToolCall? {
        var restored := env.tools(CallOf(item));
        if restored.ToolRefused? {
          return Err(ToolFailed);
        }
        output := output + [item.(arguments := restored.arguments)];
        var other := new RestorationOutcome.AllRestored(restored.arguments, restored.restored);
        outcome.Merge(other);
        bytes := bytes + Utf8Length(restored.arguments);
        if bytes > env.maxOutputBytes {
          return Err(Error.OutputTooLarge);
        }
      } else {
        output := output + [item];
      }
      k := k + 1;
    }
    assert response.output[..k] == response.output && output == RestoreItems(response.output, env);
    var result := response.(output := output);
    if env.responseSize(result) > env.maxOutputBytes {
      return Err(Error.OutputTooLarge);
    }
    return Ok((result, outcome));
  }

  lemma OutputStart(output: seq<Item>, counts: Tally, env: Environment)
    ensures OutputShare(output[..0], env) == ZERO
  {
  }
}
