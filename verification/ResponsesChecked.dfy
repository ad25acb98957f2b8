/** What the validators of Responses items accept, field by field and for a whole response at once. */
module ResponsesChecked {
  import opened Tokens
  import opened ResponsesProtocol

  const CAPITALS := "ABCDEFGHIJKLMNOPQRSTUVWXYZ"
  const SMALL := "abcdefghijklmnopqrstuvwxyz"
  const OTHERS := "0123456789_-"

  /** At least one, at most `limit` of those characters. */
  predicate Named(s: string, limit: nat) {
    1 <= |s| <= limit && forall c | c in s :: c in CAPITALS || c in SMALL || c in OTHERS
  }

  lemma CapitalExactly(c: char)
    ensures c in CAPITALS <==> 'A' <= c <= 'Z'
  {
    if 'A' <= c <= 'Z' {
      assert CAPITALS[c as int - 'A' as int] == c;
    }
  }

  lemma SmallExactly(c: char)
    ensures c in SMALL <==> 'a' <= c <= 'z'
  {
    if 'a' <= c <= 'z' {
      assert SMALL[c as int - 'a' as int] == c;
    }
  }

  lemma OtherExactly(c: char)
    ensures c in OTHERS <==> '0' <= c <= '9' || c == '_' || c == '-'
  {
    if '0' <= c <= '9' {
      assert OTHERS[c as int - '0' as int] == c;
    }
    assert OTHERS[10] == '_' && OTHERS[11] == '-';
  }

  lemma IdentifierExactly(s: string, limit: nat)
    ensures IsIdentifier(s, limit) <==> Named(s, limit)
  {
    forall k | 0 <= k < |s|
      ensures s[k] in CAPITALS || s[k] in SMALL || s[k] in OTHERS
              <==> 'A' <= s[k] <= 'Z' || 'a' <= s[k] <= 'z' || '0' <= s[k] <= '9' || s[k] == '_' || s[k] == '-'
    {
      CapitalExactly(s[k]);
      SmallExactly(s[k]);
      OtherExactly(s[k]);
    }
    assert forall c | c in s :: exists k :: 0 <= k < |s| && s[k] == c;
    assert forall k | 0 <= k < |s| :: s[k] in s;
  }

  // ---------- One part, one item ----------

  /** An optional field that is left out or null; one that is left out or has some empty spelling. */
  predicate Null(extras: map<string, Spelling>, field: string) { field in extras ==> extras[field] == AsNull }

  predicate Empty(extras: map<string, Spelling>, field: string) { field in extras ==> extras[field] == AsEmpty }

  predicate PartFits(part: Part) {
    forall field | field in part.extras ::
      !part.refusal && (field == "logprobs" || (field == "annotations" && part.extras[field] == AsEmpty))
  }

  lemma PartExactly(part: Part)
    ensures PartOk(part) <==> PartFits(part)
  {
    if part.refusal && PartFits(part) {
      assert part.extras.Keys == {};
      assert part.extras == map[];
    }
  }

  /** The status an item has when its response is completed, or not yet. */
  predicate StatusFits(item: Item, completed: bool) {
    || item.status == NoStatus || (item.status == NullStatus && !item.Message?)
    || item.status == StatusText(if completed then "completed" else "in_progress")
  }

  /** The optional fields that an item of its kind may have. */
  predicate ExtraFits(item: Item, field: string) {
    || field == "metadata"
    || (item.ToolCall? && (field == "namespace" || field == "caller" || field == "async" || field == "encrypted_function_args"))
    || (item.Reasoning? && (field == "content" || field == "encrypted_content"))
  }

  predicate MessageFits(item: Item)
    requires item.Message?
  {
    && (item.phase == None || item.phase == Some("commentary") || item.phase == Some("final_answer"))
    && forall p | 0 <= p < |item.content| :: PartFits(item.content[p])
  }

  predicate ItemFits(item: Item, completed: bool) {
    && Named(item.id, 128) && StatusFits(item, completed)
    && Null(item.extras, "metadata") && Null(item.extras, "namespace") && Null(item.extras, "encrypted_content")
    && (forall field | field in item.extras :: ExtraFits(item, field))
    && (item.Message? ==> MessageFits(item))
    && (item.ToolCall? ==> Named(item.callId, 128) && Named(item.name, 64))
  }

  lemma StatusExactly(item: Item, completed: bool)
    ensures StatusOk(item, completed) <==> StatusFits(item, completed)
  {
  }

  lemma PartsExactly(content: seq<Part>)
    ensures (exists part | part in content :: !PartOk(part)) <==> !(forall p | 0 <= p < |content| :: PartFits(content[p]))
  {
    hide PartOk, PartFits;
    forall p | 0 <= p < |content|
      ensures PartOk(content[p]) <==> PartFits(content[p])
    {
      PartExactly(content[p]);
    }
    if exists part | part in content :: !PartOk(part) {
      var part :| part in content && !PartOk(part);
      var p :| 0 <= p < |content| && content[p] == part;
      assert !PartFits(content[p]);
    } else {
      forall p | 0 <= p < |content|
        ensures PartFits(content[p])
      {
        assert content[p] in content;
      }
    }
  }

  /** Exactly which items pass. */
  lemma ItemExactly(item: Item, completed: bool, maxItems: nat)
    ensures CheckItem(item, completed, maxItems).None?
            <==> ItemFits(item, completed) && (item.Message? ==> |item.content| <= maxItems)
  {
    StatusExactly(item, completed);
    IdentifierExactly(item.id, 128);
    hide StatusOk, StatusFits, IsIdentifier, Named, PartOk, PartFits;
    match item {
      case Message(_, _, _, content, _) => PartsExactly(content);
      case ToolCall(_, _, _, callId, name, _, _) =>
        IdentifierExactly(callId, 128);
        IdentifierExactly(name, 64);
      case Reasoning(_, _, _) =>
    }
  }

  // ---------- A whole output ----------

  function Parts(output: seq<Item>): nat {
    if output == [] then 0 else (if output[0].Message? then |output[0].content| else 0) + Parts(output[1..])
  }

  /** No two items share an identifier, no two calls a call identifier. */
  ghost predicate Distinct(output: seq<Item>) {
    forall i, j | 0 <= i < j < |output| ::
      && output[i].id != output[j].id
      && (output[i].ToolCall? && output[j].ToolCall? ==> output[i].callId != output[j].callId)
  }

  ghost predicate Apart(output: seq<Item>, ids: set<string>, calls: set<string>) {
    forall k | 0 <= k < |output| :: output[k].id !in ids && (output[k].ToolCall? ==> output[k].callId !in calls)
  }

  ghost predicate AllFit(output: seq<Item>, completed: bool) {
    forall k | 0 <= k < |output| :: ItemFits(output[k], completed)
  }

  /** The loop with its running total and its two sets decides a property of the whole list. */
  lemma {:induction false} OutputExactly(output: seq<Item>, completed: bool, maxItems: nat, total: nat, ids: set<string>,
                                         calls: set<string>)
    requires total <= maxItems
    ensures CheckOutput(output, completed, maxItems, total, ids, calls).None?
            <==> && AllFit(output, completed) && Distinct(output) && Apart(output, ids, calls)
                 && total + Parts(output) <= maxItems
  {
    hide CheckItem, ItemFits;
    if output != [] {
      var item, rest := output[0], output[1..];
      var size := if item.Message? then |item.content| else 0;
      ItemExactly(item, completed, maxItems);
      HeadFits(output, completed, ids, calls);
      if total + size <= maxItems {
        OutputExactly(rest, completed, maxItems, total + size, ids + {item.id},
                      if item.ToolCall? then calls + {item.callId} else calls);
      }
    }
  }

  lemma HeadFits(output: seq<Item>, completed: bool, ids: set<string>, calls: set<string>)
    requires output != []
    ensures var item, rest := output[0], output[1..];
            && (AllFit(output, completed) <==> ItemFits(item, completed) && AllFit(rest, completed))
            && (Distinct(output) && Apart(output, ids, calls)
                <==> && item.id !in ids && (item.ToolCall? ==> item.callId !in calls)
                     && Distinct(rest)
                     && Apart(rest, ids + {item.id}, if item.ToolCall? then calls + {item.callId} else calls))
  {
    AllCons(output, completed);
    DistinctCons(output);
    ApartCons(output, ids, calls);
    hide ItemFits, AllFit;
    var item, rest := output[0], output[1..];
    var ids', calls' := ids + {item.id}, if item.ToolCall? then calls + {item.callId} else calls;
    assert Apart(rest, ids', calls') <==> Apart(rest, ids, calls) && Differs(item, rest);
    hide Distinct, Apart;
  }

  /** Every later item has another identifier, every later call another call identifier. */
  ghost predicate Differs(item: Item, rest: seq<Item>) {
    forall k | 0 <= k < |rest| :: rest[k].id != item.id && (item.ToolCall? && rest[k].ToolCall? ==> rest[k].callId != item.callId)
  }

  lemma AllCons(output: seq<Item>, completed: bool)
    requires output != []
    ensures AllFit(output, completed) <==> ItemFits(output[0], completed) && AllFit(output[1..], completed)
  {
    hide ItemFits;
    var rest := output[1..];
    assert forall k | 0 < k < |output| :: output[k] == rest[k - 1];
    assert forall k | 0 <= k < |rest| :: rest[k] == output[k + 1];
  }

  lemma DistinctCons(output: seq<Item>)
    requires output != []
    ensures Distinct(output) <==> Differs(output[0], output[1..]) && Distinct(output[1..])
  {
    var rest := output[1..];
    assert forall k | 0 < k < |output| :: output[k] == rest[k - 1];
    assert forall k | 0 <= k < |rest| :: rest[k] == output[k + 1];
  }

  lemma ApartCons(output: seq<Item>, ids: set<string>, calls: set<string>)
    requires output != []
    ensures Apart(output, ids, calls) <==>
              output[0].id !in ids && (output[0].ToolCall? ==> output[0].callId !in calls) && Apart(output[1..], ids, calls)
  {
    var rest := output[1..];
    assert forall k | 0 < k < |output| :: output[k] == rest[k - 1];
    assert forall k | 0 <= k < |rest| :: rest[k] == output[k + 1];
  }

  /** Exactly which responses pass, opening or completed. */
  lemma ResponseExactly(r: Response, completed: bool, env: Environment)
    ensures CheckResponse(r, completed, env).None? <==> ResponseFits(r, completed, env)
  {
    hide CheckOutput, AllFit, Distinct, IsIdentifier, Named;
    IdentifierExactly(r.id, 128);
    if |r.output| <= env.maxItems {
      OutputExactly(r.output, completed, env.maxItems, |r.output|, {}, {});
    }
  }

  /** A well-formed response: every item is, no two are confused, and items and parts together are not too many. */
  ghost predicate ResponseFits(r: Response, completed: bool, env: Environment) {
    && Named(r.id, 128) && env.controlsOk(r.controls)
    && (if completed then r.status == "completed" else r.status == "queued" || r.status == "in_progress")
    && AllFit(r.output, completed) && Distinct(r.output)
    && |r.output| + Parts(r.output) <= env.maxItems
  }
}
