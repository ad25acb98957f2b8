# A verified model of the gateway's private-value path

The gateway stands between clients and language-model providers. It finds private values in a request, replaces each
by a typed token that only this request's vault entry can turn back, sends the tokenized request on, and restores the
values in what comes back, also while the answer is still streaming. This project models that path and the state
machines and stores that guard it, and proves that each clever form agrees with a simple one:

- **Tokens and restoration.** The token grammar; restoration from right to left under a byte budget; restoration of
  prose delta by delta, holding back only what could still become a token. Any way of cutting a text into deltas gives
  the one-shot result.
- **Response streams.** The event machines of the Responses and Messages protocols, as classes with one handler for each
  kind of event. Prose leaves while it arrives; tool calls stay private until the whole run is accepted. For every
  accepted run the client ends up with what the buffered path would have made of the provider's final response or
  message, and every call is released exactly once; a failed run releases none.
- **Detection view, conflicts, mapping back.** The normalised view with its offset map, the bisecting conflict
  resolution, and the check that only whole clusters of the original are ever replaced.
- **Tokenizing.** Minting, replacing, and the round trip through restoration, down to when it is exact.
- **JSON locations.** Listing everything a payload says, and editing parts of it in any order, also inside JSON-encoded
  strings.
- **Guards.** The server-sent events parser, the encrypted expiring vault under concurrent requests, the schema
  compiler and matcher for executable tools, the patch parser and the documents it accepts, admission and audit of
  requests, checksums, and the policy with its routing floor.

One module stands for one part of the gateway; the lowest ones are `Text`, `Tokens` and `Json`. Specification
functions say what an operation means; the methods and classes follow the code's own loops and fields and are proved
against them. Where a method and its specification share a check, a lemma named `…Exactly` states what the check
decides in the fields of its input.

What the code consults and the model cannot contain is a function-valued parameter: the character database
(`DetectionView.Unicode`), HMAC, canonical form and upper-casing (`Transformation.Minter`), authenticated encryption
(`Vault.Aead`), the vault's answers to one request (`Restoration.Authority`), the tool registry and the size of
serialized values (the two `Environment` types), and the JSON decoder and serializer (`JsonLocations.Codec`). The few
facts assumed about them are named predicates (`Lawful`, `Ideal`) that appear as preconditions; `Vault.IdealExists`
shows that the idealised encryption is possible.

Where the code and its documentation disagree, or a promise holds only under a condition, the model follows the code:

- The documentation of conflict resolution says that of two spans one inside the other the container is kept. The code
  ranks by score first. `Containers.ContainersWinExactly` says for every list when no span survives inside a larger one,
  `Containers.NestedExactly` when of nested detections exactly the outermost survive, and `Containers.ContainerLost` is
  a list for which a container is lost to a third span although it scores no lower.
- The neighbour test of conflict resolution keeps out an empty span at the start of a kept one, which a scan for
  overlaps keeps; `ConflictReference.ResolutionIsScan` gives the exact condition and
  `ConflictReference.EveryPartIsScan` one on the detections alone. Detectors only emit nonempty spans.
- The documentation calls the resolution deterministic. It is when each detector reads one text
  (`Conflicts.DetectedDecides`); otherwise the order decides exactly when a kept span is level with a different
  one (`DetectionOrder.OrderExactly`).
- Edits inside one encoded field are decoded and serialized one by one, so an order of edits can fail at a tree in
  between that another order never builds (`JsonRewriting.RewriteAll`, `JsonLimits.OrderCanFail`).
- Tokenizing keeps the first spelling it sees of a canonical value, from the right, so a round trip restores that
  spelling. Every span keeps its own spelling exactly under the spelling check that requests with tools pass
  (`AgentPreparation.SpellingExactly`, `AgentPreparation.TwoSpellings`).
- Even then a text comes back exactly if, and where values cannot be mistaken for tokens only if, its entity types fit
  the token grammar and its gaps quote none of the request's own tokens (`AgentPreparation.RequestRoundTrip`). A
  configured pattern may have any entity type (`AgentPreparation.OneSpanExactly`, `AgentPreparation.OrderIdLost`), and
  a client may quote a token (`AgentPreparation.QuotedToken`).
- A storage key is said to separate tenants. It does, exactly when no tenant's name starts with another's followed by
  NUL (`Vault.TenantsApartExactly`). Tenant names come from an environment variable, which cannot hold a NUL; the
  conversation named in an erase request can, and is harmless (`Vault.PrefixExact`).
- A patch rebuilt by arbitrary restorers parses again exactly if no restored hunk context lost its leading space
  (`Patches.RebuiltParsesAgain`). Restorers that restore tokens never do that, so the registry's second pass accepts
  whatever the first one rebuilt, as long as its paths stand (`PatchRestoration.RestoredParsesAgain`).

`dafny verify dfyconfig.toml` checks everything.

## Model

| member | source | states |
|---|---|---|
| TokenGrammar.TokenLanguage | gateway/transformations/tokens.py:117 | a string is a token exactly when it is `<`, an upper-case entity name of at most 64 characters, `:v1:`, 32 hex digits and `>`; the characters are listed one by one by the lemmas beside it |
| TokenGrammar.TokenBrackets | gateway/transformations/tokens.py:117 | a token contains `<` only first and `>` only last |
| TokenGrammar.TokenPrefixUnique | gateway/transformations/tokens.py:117 | at one position at most one length matches, so the pattern has no choice to make |
| TokenGrammar.PossiblePrefixExact | gateway/streaming/tokens.py:26-43 | the prefix test accepts exactly the nonempty proper prefixes of tokens |
| TokenGrammar.HeldSuffixBounded | gateway/streaming/tokens.py:14-43 | anything the prefix test accepts is shorter than the longest token and has no later `<` |
| Tokens.TokenProvenance.Record | gateway/transformations/tokens.py:310-311 | recording files the surrogate under its own token and changes no other record |
| Restoration.RestorationOutcome.Merge | gateway/restoration/engine.py:61-68 | merging adds all counters and refused tokens and keeps the text |
| Restoration.RestorationOutcome.Refuse | gateway/restoration/engine.py:125-151 | one refusal is one token under exactly one reason |
| Restoration.Account | gateway/restoration/engine.py:120-155 | a matched token is restored, or refused and counted once, and rendered accordingly |
| Restoration.RestoreText | gateway/restoration/engine.py:96-162 | the right-to-left pass returns the text with exactly the tokens replaced whose record is the caller's own, present, readable and of the same canonical value, each refusal counted under the reason its vault answer names, and fails exactly when that text exceeds the byte budget |
| Restoration.RestoredByAnswer | gateway/restoration/engine.py:120-155 | token by token, the vault's answer decides: a token nobody minted, another conversation's record, a missing key, nothing stored or another value stored each add to their own counter and leave the token standing; the rest are restored |
| Restoration.TallyBalances | gateway/restoration/engine.py:42-66 | refusals by reason add up to the refused tokens |
| TokenStream.LexSplit | gateway/streaming/tokens.py:77-103 | cutting a text where no token crosses the cut cuts its tokens and gaps at the same place |
| TokenStream.FeedKeeps | gateway/streaming/tokens.py:77-103 | after any delta the released text is the restoration of what is no longer held, and only a possible token start is held |
| TokenStream.HoldIsBounded | gateway/streaming/tokens.py:89-93 | what a block holds back is empty or a proper prefix of a token, so always shorter than the longest token |
| TokenStream.ChunkIndependence | gateway/streaming/tokens.py:77-103 | however a text is cut into deltas, the outputs concatenate to its one-shot restoration, with equal counters and the same refused tokens |
| TokenStream.IncrementalRestorer.Feed | gateway/streaming/tokens.py:77-103 | a delta releases exactly that, adds exactly its counts to the shared outcome, and fails exactly when closed or over a budget |
| ResponsesProtocol.AboutAppend | gateway/streaming/protocols.py:911-944 | executable events about one item are selected in order, also across batches |
| ResponsesProtocol.CompareExactly | gateway/streaming/protocols.py:848-885 | a snapshot passes the comparison exactly when it repeats what was received: kind, id and phase, of a call its id, name, arguments and sort, of a message every part in text and refusal; only optional empty fields and a missing status are forgiven |
| ResponsesChecked.IdentifierExactly | gateway/streaming/protocols.py:70-75 | an identifier passes exactly when it is a nonempty, bounded text of letters, digits, dash and underscore, with the further characters names may have |
| ResponsesChecked.ItemExactly | gateway/streaming/protocols.py:158-218 | an item passes the check exactly when each of its fields is what its kind and the stage of the stream allow |
| ResponsesChecked.ResponseExactly | gateway/streaming/protocols.py:221-422 | a response passes the check exactly when its items do, there are not too many of them or their parts, and no id is used twice |
| BufferedResponse.BufferedShows | gateway/streaming/protocols.py:577-641 | the item the buffered path releases keeps kind, id, phase and part kinds, with restored texts, and of a call its ids and name, with the restored arguments |
| BufferedResponse.RestoreParts | gateway/streaming/protocols.py:612-630 | parts are restored in order within what is left of the budget, or refused for size exactly when their sum exceeds it |
| BufferedResponse.RestoreResponse | gateway/streaming/protocols.py:577-641 | the buffered path accepts exactly the releasable responses and returns every text and call restored, with their summed counters |
| ResponsesInvariants.RunAdd | gateway/streaming/protocols.py:974-1002 | announcing an item keeps every invariant of the run; a call's announcement is held, not sent |
| ResponsesInvariants.RunFeed | gateway/streaming/protocols.py:1036-1081 | a text event moves one part's released text, the sent deltas and the counters by the same amount |
| ResponsesInvariants.RunArguments | gateway/streaming/protocols.py:1082-1111 | argument fragments are collected and held, never sent |
| ResponsesInvariants.RunClose | gateway/streaming/protocols.py:1112-1131 | a finished item keeps its identity, association and arguments |
| ResponsesShown.ShowAdd | gateway/streaming/protocols.py:974-1002 | a prose item shows its start, a call shows nothing |
| ResponsesShown.ShowFeed | gateway/streaming/protocols.py:1036-1081 | text events extend a part's shown shape by nonempty deltas and, at the end, its whole text |
| ResponsesShown.ShowClosePart | gateway/streaming/protocols.py:1003-1035 | a finished part shows its final form with the restored text |
| ResponsesShown.ShowCloseItem | gateway/streaming/protocols.py:1112-1131 | a finished prose item shows its restored snapshot once |
| ResponsesShown.EndsTell | gateway/streaming/protocols.py:1036-1081 | in any run, accepted or not, the text in an end event is what the deltas sent for that part add up to |
| ResponsesRelease.ReleaseAbout | gateway/streaming/protocols.py:911-944 | what is released about one item depends only on what was held about it |
| ResponsesRelease.ReleaseCalls | gateway/streaming/protocols.py:911-944 | nothing is released but executable events about the calls |
| ResponsesRelease.ReleaseShape | gateway/streaming/protocols.py:911-944 | however its arguments were cut up, a finished call is released as start, one delta, and its two ends |
| ResponsesRelease.ItemRefines | gateway/streaming/protocols.py:832-885 | the item a client was shown agrees field by field with what the buffered path makes of the provider's final item, whatever optional empty fields that one spells out |
| ResponsesRelease.LedgerRefines | gateway/streaming/protocols.py:783-793 | counters and bytes summed as the stream goes equal those of the buffered path |
| ResponsesRelease.StreamingRefinesBuffering | gateway/streaming/protocols.py:1132-1153 | item by item and field by field the released response is the buffered restoration of the provider's response, with equal counters, and would have been released there unless only the size of a whole response forbids it |
| ResponsesRelease.ToolsReleasedOnce | gateway/streaming/protocols.py:887-944 | every call of a completed run is released as exactly four events carrying its restored arguments |
| ResponsesRelease.ProseReleased | gateway/streaming/protocols.py:1036-1081 | a part's deltas concatenate to the restoration of the provider's final text for it |
| ResponsesMachine.Responses.Observe | gateway/streaming/protocols.py:762-776 | an event passes exactly when numbering is uniform and strictly rising and the run is still open |
| ResponsesMachine.Responses.Hold | gateway/streaming/protocols.py:794-798 | an executable event is kept and charged, or refused over the limit |
| ResponsesMachine.Responses.HandleOpening | gateway/streaming/protocols.py:946-973 | an opening event is accepted exactly when its numbering, its empty response and its place allow it, and is passed on unchanged |
| ResponsesMachine.Responses.HandleItemAdded | gateway/streaming/protocols.py:974-1002 | an item is accepted exactly when it is next, fresh, well formed, empty and within the limits; prose is passed on, a call held |
| ResponsesMachine.Responses.HandlePartAdded | gateway/streaming/protocols.py:1003-1021 | a part is accepted exactly when it is the next of an open message, empty and within the limits |
| ResponsesMachine.Responses.HandlePartDone | gateway/streaming/protocols.py:1022-1035 | a part ends exactly when its text has and the event repeats what was received; it shows the restored text |
| ResponsesMachine.Responses.FeedPart | gateway/streaming/protocols.py:1064-1066 | one part takes a delta unless a budget forbids it; exactly its share of counters and bytes is charged |
| ResponsesMachine.Responses.HandleText | gateway/streaming/protocols.py:1036-1081 | a text event is accepted exactly when it speaks to an open part and fits the budgets; what restoration settles is passed on |
| ResponsesMachine.Responses.HandleArguments | gateway/streaming/protocols.py:1082-1111 | an argument event is accepted exactly when it continues or repeats an open call's arguments and fits; it is held and sent to nobody |
| ResponsesMachine.Responses.HandleItemDone | gateway/streaming/protocols.py:1112-1131 | an item ends exactly when all its parts or arguments have and the event repeats its fields; prose shows its restored snapshot, a call's end is held |
| ResponsesMachine.Responses.RestoreCalls | gateway/streaming/protocols.py:900-910 | the batch passes exactly when the registry restores every call within the byte budget; counters and bytes move by their sum |
| ResponsesMachine.Responses.RewritePending | gateway/streaming/protocols.py:911-944 | the rewriting loop releases the specified events in order |
| ResponsesMachine.Responses.CompareAll | gateway/streaming/protocols.py:1143-1146 | comparison passes exactly when every item has ended and the completed response repeats its fields |
| ResponsesMachine.Responses.ReleaseTools | gateway/streaming/protocols.py:887-944 | calls are released exactly when the batch is valid, every call is restored and the bytes fit |
| ResponsesMachine.Responses.HandleCompleted | gateway/streaming/protocols.py:1132-1153 | completion is accepted exactly under the listed conditions, and ends in the state from which the guarantees of an accepted run follow |
| ResponsesMachine.Responses.Handle | gateway/streaming/protocols.py:946-1154 | every step either fails or keeps all invariants and grows what was sent by exactly what it returns |
| ResponsesMachine.Responses.Encode | gateway/streaming/protocols.py:800-805 | numbered streams are renumbered from zero without gaps |
| ResponsesStream.AcceptedRun | gateway/streaming/protocols.py:1132-1153 | the final state means all that a client of an accepted run may rely on |
| ResponsesStream.EncodeAll | gateway/streaming/protocols.py:1408-1410 | the last events continue the numbering |
| ResponsesStream.Yield | gateway/streaming/protocols.py:1390-1391 | a step's events are yielded in order, prose only, each part in its shape |
| ResponsesStream.TakeFrame | gateway/streaming/protocols.py:1372-1391 | a frame is yielded on at once, kept back when it completes the run, or refused; nothing follows completion |
| ResponsesStream.RestoreStream | gateway/streaming/protocols.py:1348-1410 | every run: accepted exactly when the pure step function plays it to its end, nothing executable before acceptance, nothing at all of the last events in a failed run, gapless numbers, every end telling what was sent; an accepted run refines the buffered path in content and counters, shows every part whole, and releases the four events of every call under the provider's identifiers, then the response, and nothing else |
| ResponsesCanonical.PlainestAccepted | gateway/streaming/protocols.py:946-1153 | a response that the buffered path releases is accepted as a stream of items and parts, within the stream's limits |
| Sequencing.SeenNext | gateway/streaming/protocols.py:762-776 | an accepted event's number fits strictly above all before it |
| MessagesInvariants.RunTouch | gateway/streaming/protocols.py:1240-1305 | a step about one block changes what was received, sent and held about that block only |
| MessagesFields.StopExactly | gateway/streaming/protocols.py:456-488 | a stop passes exactly when its reason is one of the seven, a sequence is given just for `stop_sequence` and is one the request asked for, and details just for `refusal`, with a known category or none |
| MessagesFields.BlockExactly | gateway/streaming/protocols.py:425-453 | a block passes exactly when its kind and fields are allowed at this stage |
| MessagesFields.MessageExactly | gateway/streaming/protocols.py:490-540 | a message passes as a beginning or as a whole exactly under these conditions on its fields, with distinct call ids and a stop reason that fits its calls |
| MessagesInvariants.FeedsBlock | gateway/streaming/protocols.py:1262-1276 | a text delta releases what restoration settles, if anything |
| MessagesInvariants.StopsProse | gateway/streaming/protocols.py:1287-1305 | a text block's stop follows everything it still held |
| MessagesInvariants.HoldsFragment | gateway/streaming/protocols.py:1277-1286 | a fragment of a call's arguments is held |
| MessagesRelease.ReleaseAbout | gateway/streaming/protocols.py:1195-1216 | what is released about one block depends only on what was held about it |
| MessagesRelease.ReleasedOnce | gateway/streaming/protocols.py:1195-1216 | however its arguments were cut up, a finished call leaves as start, one delta, stop |
| MessagesRelease.BlockRefines | gateway/streaming/protocols.py:642-676 | the block a client assembles is the buffered restoration of the block the provider described, counted alike |
| MessagesRelease.MessageRefines | gateway/streaming/protocols.py:640-685 | the message a client assembles is the restored message of the provider, stop explanation included, with equal counters |
| BufferedMessage.RestoreMessage | gateway/streaming/protocols.py:577-685 | the buffered path accepts exactly the releasable messages and returns every block and the explanation restored, with their summed counters |
| BufferedMessage.RestoredUnique | gateway/streaming/protocols.py:657-685 | there is one restoration of a message, and it is what the buffered path returns |
| MessagesBytes.BytesText | gateway/streaming/protocols.py:783-792 | a text event charges the budget with exactly what it releases |
| MessagesBuffered.BufferedAccepts | gateway/streaming/protocols.py:640-685 | the buffered path would have accepted the message of an accepted stream: same checks, same batch, same bytes |
| MessagesSteps.KeepsStart | gateway/streaming/protocols.py:1240-1261 | announcing a block keeps every invariant |
| MessagesSteps.KeepsText | gateway/streaming/protocols.py:1262-1305 | a text delta or stop keeps every invariant |
| MessagesSteps.KeepsCall | gateway/streaming/protocols.py:1277-1292 | a fragment or stop of a call keeps every invariant |
| MessagesSteps.KeepsEnd | gateway/streaming/protocols.py:1306-1333 | the message ends once, after every block, its explanation restored and counted |
| MessagesSteps.KeptAtEnd | gateway/streaming/protocols.py:1339-1345 | a message that is done has every block done and a stop reason that allows its calls |
| MessagesChecked.AssembledChecks | gateway/streaming/protocols.py:490-540 | what a stream lets through passes the check of the buffered path as a whole |
| MessagesMachine.Messages.HandlePing | gateway/streaming/protocols.py:1223-1225 | a ping is accepted exactly when its numbering fits, and passed on |
| MessagesMachine.Messages.HandleMessageStart | gateway/streaming/protocols.py:1226-1237 | an opening is accepted exactly when it is the first and passes its check |
| MessagesMachine.Messages.HandleBlockStart | gateway/streaming/protocols.py:1240-1261 | a block is accepted exactly when it is next, well formed, empty, fresh and within the limits; a call is held |
| MessagesMachine.Messages.HandleText | gateway/streaming/protocols.py:1262-1276 | a text delta is accepted exactly when its block is open prose and the budgets allow; what restoration settles is passed on |
| MessagesMachine.Messages.HandleJson | gateway/streaming/protocols.py:1277-1286 | a fragment is accepted exactly when its call is open and it fits; it is held |
| MessagesMachine.Messages.HandleBlockStop | gateway/streaming/protocols.py:1287-1305 | a stop is accepted exactly when its block is open and what it still held fits; a call's stop is held |
| MessagesMachine.Messages.RestoreExplanation | gateway/streaming/protocols.py:1320-1331 | a stop explanation is restored exactly when it fits what is left of the budget |
| MessagesMachine.Messages.HandleMessageDelta | gateway/streaming/protocols.py:1306-1333 | the stop is accepted exactly when its fields are well formed, every block has stopped, calls have their reason and the explanation fits |
| MessagesMachine.Messages.Handle | gateway/streaming/protocols.py:1219-1337 | every step either fails or keeps all invariants and grows what was received and sent by exactly itself |
| MessagesMachine.Messages.RestoreCalls | gateway/streaming/protocols.py:1171-1194 | the batch passes exactly when every call decodes, is restored, decodes again and the bytes fit |
| MessagesMachine.Messages.RewritePending | gateway/streaming/protocols.py:1195-1216 | the rewriting loop releases the specified events in order |
| MessagesMachine.Messages.ReleaseTools | gateway/streaming/protocols.py:1171-1217 | the calls are released exactly when their batch is valid and every one is restored within the budget |
| MessagesMachine.Messages.Complete | gateway/streaming/protocols.py:1339-1345 | the end is accepted exactly when the message is done, its batch valid and every call restored within the budget; only then anything executable leaves |
| MessagesStream.AcceptedRun | gateway/streaming/protocols.py:1339-1345 | the final state means all that a client of an accepted message may rely on |
| MessagesStream.TakeFrame | gateway/streaming/protocols.py:1372-1391 | a frame is yielded on at once, kept back when it ends the message, or refused |
| MessagesStream.RestoreStream | gateway/streaming/protocols.py:1348-1410 | every run: accepted exactly when the pure step function plays it to its end, only prose in its proper shape before acceptance, nothing executable in a failed run; an accepted run releases every call once as its whole batch was validated, and a client assembles the buffered restoration of the provider's message, which the buffered path would have released too unless either is too large for it |
| MessagesCanonical.PlainestAccepted | gateway/streaming/protocols.py:1219-1345 | a message that the buffered path accepts is accepted as a stream of blocks, within the stream's limits |
| DetectionView.StripIgnorables | gateway/normalization/view.py:206-228 | dropped characters are absorbed by the next kept one, trailing ones by the last |
| DetectionView.NormalizeClusters | gateway/normalization/view.py:243-259 | every output character of a cluster maps to the cluster's whole range |
| DetectionView.NextCluster | gateway/normalization/view.py:76-84 | a cluster is a character with all combining marks after it |
| DetectionView.BuildDetectionView | gateway/normalization/view.py:163-266 | the loops, and the shortcut for plain ASCII, build the specified view |
| DetectionView.NothingToView | gateway/normalization/view.py:229-239 | a text of dropped characters only has an empty view |
| DetectionView.FastPath | gateway/normalization/view.py:191-202 | for plain ASCII the full path gives what the shortcut gives |
| DetectionView.ViewTiles | gateway/normalization/view.py:163-266 | the distinct ranges of a nonempty view tile the original exactly and in order |
| DetectionView.MapsToEnds | gateway/normalization/view.py:108-122 | an in-range span maps to its first character's start and its last character's end, and never fails |
| DetectionView.RoundTripExactly | gateway/normalization/view.py:124-142 | the round-trip check accepts exactly the spans that cover whole clusters |
| Conflicts.BisectRight | gateway/detectors/base.py:96 | the bisection finds the number of starts at or before a position |
| Conflicts.BlocksIsOverlap | gateway/detectors/base.py:97-102 | the two neighbour tests are the overlap test exactly when the candidate is not an empty span at the start of a nonempty one; so always for nonempty spans |
| Conflicts.NeighboursDecide | gateway/detectors/base.py:93-104 | a kept span blocks a candidate exactly when one of its two neighbours does |
| Conflicts.ResolveConflicts | gateway/detectors/base.py:49-111 | the bisecting loop returns the greedy that scans everything kept so far |
| Conflicts.GreedyChained | gateway/detectors/base.py:106-111 | the result is in text order and pairwise disjoint |
| Conflicts.GreedyMeaning | gateway/detectors/base.py:93-106 | the result is part of the input, and whatever was dropped is blocked by a kept span ranked at least as high |
| Conflicts.OrderIrrelevant | gateway/detectors/base.py:84-91 | if the ranking leaves no two different spans level, the result depends only on which spans there are |
| Conflicts.DetectedDecides | gateway/inspection/preparation.py:52-64 | the ranking leaves none level when each detector reads one text, folded or not, since it names the detector |
| Conflicts.LevelPair | gateway/detectors/base.py:84-91 | of two nonempty spans the order of detection matters exactly when they are level and differ |
| DetectionOrder.OrderExactly | gateway/detectors/base.py:84-91 | any nonempty spans are resolved alike in every order exactly when no kept span is level with a different one |
| Conflicts.ResolvedStays | gateway/detectors/base.py:49-111 | resolving a resolved list changes nothing |
| Conflicts.ContainerKept | gateway/detectors/base.py:49-60 | of two spans alone, one inside the other, the outer one is kept exactly when it does not score lower |
| Conflicts.TextExactly | gateway/detectors/base.py:88-91 | texts are ranked alphabetically: by the first difference, or the shorter first |
| Conflicts.PairKept | gateway/detectors/base.py:88-104 | of two overlapping spans the better scored is kept, then the longer, then the earlier, then the one whose entity type and last whose detector comes first alphabetically |
| Conflicts.OkExactly | gateway/domain.py:44-51 | a span is in order exactly when it could be cut from some text |
| Containers.InnerKept | gateway/detectors/base.py:52-60 | in any list, a span inside one that scores no lower is kept only if a kept span of no lower rank, disjoint from it, took out the container |
| Containers.ContainerLost | gateway/detectors/base.py:52-60 | three spans for which the documented container rule fails although the container scores no lower |
| Containers.ContainersWinExactly | gateway/detectors/base.py:52-60 | in any list of nonempty spans, no span survives inside a larger detected one exactly when every such span is outranked and overlapped by a winner among the outermost spans |
| Containers.NestedExactly | gateway/detectors/base.py:52-60 | for nested detections exactly the outermost ranges survive if and only if around every detection some outermost one scores at least as high |
| ConflictReference.ResolutionIsScan | tests/test_properties_and_fuzz.py:206-226 | the result is that of scanning all kept spans for an overlap and sorting at the end, exactly when no empty span stands at the start of a kept span that outranks it |
| ConflictReference.NonemptyStubFree | tests/test_properties_and_fuzz.py:206-226 | for nonempty spans that condition always holds |
| ConflictReference.EveryPartIsScan | tests/test_properties_and_fuzz.py:206-226 | both agree on whatever is made of some spans exactly when none of them is empty at the start of one that outranks it |
| ConflictReference.StubDropped | tests/test_properties_and_fuzz.py:206-226 | an empty span that the neighbour test drops and the scan keeps |
| Preparation.AcceptsExactly | gateway/inspection/preparation.py:66-79 | mapping and round-trip check accept a span exactly when it is in range, nonempty and covers whole clusters |
| Preparation.MappedFound | gateway/inspection/preparation.py:65-91 | a mapped span has its detection's entity type, score and detector, covers the original from where its first matched character comes from to where the last one ends, and quotes it |
| Preparation.MapToOriginal | gateway/inspection/preparation.py:65-91 | either one span cannot be mapped, or each comes back with its own entity type, score and detector over the original of what it matched, and for a conflict-free list the second resolution changes nothing |
| Preparation.MappedStays | gateway/inspection/preparation.py:65-91 | mapping a conflict-free list keeps it in order and disjoint, so no detection is lost |
| Preparation.InspectText | gateway/inspection/preparation.py:93-100 | inspection fails exactly when a kept span does not cover whole clusters; otherwise every kept detection is returned with its own type, score and detector, over the original of what it matched and quoting it |
| LengthPrefix.Utf8Injective | gateway/transformations/tokens.py:143-161 | different strings have different UTF-8 bytes |
| LengthPrefix.LengthPrefixedInjective | gateway/transformations/tokens.py:143-161 | the length-prefixed form determines its parts, whatever they contain and however many there are |
| LengthPrefix.PartSpelled | gateway/transformations/tokens.py:143-161 | a part is spelled by its byte count, a colon and its bytes |
| LengthPrefix.MessagesExactly | gateway/transformations/tokens.py:211-219 | the two messages in full: domains, parts and their order, separators, and the three header bytes |
| LengthPrefix.TagMessageInjective | gateway/transformations/tokens.py:212-219 | the message a tag is derived from determines version, tenant, conversation, type and canonical value |
| LengthPrefix.AadInjective | gateway/vault/store.py:240-268 | the additional data determine tenant, conversation, token, token version, key version and format |
| Transformation.MintedIsToken | gateway/transformations/tokens.py:223-264 | a minted token is recognised by the restoring pattern exactly when the entity type fits the grammar |
| Transformation.HexReads | gateway/transformations/tokens.py:220-222 | a tag reads back as the digest bytes it was made of, high digit first |
| Transformation.TokensAgree | gateway/transformations/tokens.py:205-264 | two tokens agree exactly when their upper-cased types do and the first 16 digest bytes of their messages, which name domain, version, tenant, conversation, type and canonical value |
| Transformation.TokensApart | gateway/transformations/tokens.py:205-264 | equal tokens of another tenant, conversation, type or value take two different messages whose digests begin with the same 16 bytes |
| Transformation.Mint | gateway/transformations/tokens.py:223-264 | a known token is re-used, a new one recorded with its spelling, and a token claimed by another value refused |
| Transformation.MintAllKeeps | gateway/transformations/engine.py:49-58 | earlier records stand, every span's token is recorded with its canonical value under the first spelling seen |
| Transformation.ReplacedLast | gateway/transformations/engine.py:46-61 | replacing from the right peels off the last gap and replacement |
| Transformation.Transform | gateway/transformations/engine.py:25-61 | the right-to-left loop replaces every resolved span by its token, hands each to the vault, and fails exactly on a collision |
| Transformation.SeamAfterToken | gateway/transformations/tokens.py:117 | no match can cross the end of a minted token, recognised or not |
| Transformation.RestoredPieces | gateway/restoration/engine.py:115-162 | restoring gap, minted token and rest is restoring each by itself |
| Transformation.RoundTrip | gateway/transformations/engine.py:44-61 | restoring a transformed text restores every span's token and every gap by itself, whatever the entity types |
| Transformation.ReturnsFit | gateway/restoration/engine.py:115-155 | a span whose entity type fits the grammar comes back as the spelling on record |
| Transformation.ReturnsUnfit | gateway/restoration/engine.py:115-155 | any other span comes back with its opening bracket in front, if no minted token begins another |
| Transformation.FreeStands | gateway/restoration/engine.py:115-162 | a text in which none of this request's tokens is matched is left as it is |
| Transformation.QuotedChanges | gateway/restoration/engine.py:115-162 | a text in which one is matched changes, and nothing after it can hide that |
| Transformation.ExactPieces | gateway/transformations/engine.py:44-61 | own spellings and clean gaps give back the text exactly |
| Transformation.ExactOnly | gateway/transformations/engine.py:44-61 | and, as long as changes show in a first character, nothing else does |
| AgentPreparation.CheckSpellings | gateway/inspection/agent.py:141-150 | the check passes exactly when equal types and canonical values are always spelled alike |
| AgentPreparation.RewriteLocations | gateway/inspection/agent.py:164-176 | every location is transformed in order under one provenance, or one collision refuses the request |
| AgentPreparation.OwnSpelling | gateway/inspection/agent.py:141-150 | with one spelling per value every span's recorded spelling is its own |
| AgentPreparation.SpellingExactly | gateway/inspection/agent.py:141-150 | every span of a minted request is on record under its own spelling exactly when the check passes |
| AgentPreparation.SecondSpellingWins | gateway/transformations/engine.py:44-61 | two spans of one value come back both spelled like the later one, so the text returns as it was exactly when they are spelled alike |
| AgentPreparation.TwoSpellings | gateway/transformations/engine.py:44-61 | a text with two spellings of one name that does not come back as it was |
| AgentPreparation.RequestRoundTrip | gateway/inspection/agent.py:126-176 | a request that passes the spelling check gets a text back byte for byte if its entity types fit the grammar and its gaps quote none of the request's tokens; and only then, if no value starts with a bracket and no token begins another |
| AgentPreparation.TypesPrefixFree | gateway/transformations/tokens.py:117 | no token begins another unless an entity type contains a closing bracket |
| AgentPreparation.OneSpanExactly | gateway/transformations/engine.py:44-61 | a single span in clean surroundings comes back exactly when its entity type fits the grammar, whatever the type |
| AgentPreparation.OrderIdLost | gateway/transformations/engine.py:44-61 | a text that does not come back: its configured entity type has a dash |
| AgentPreparation.QuotedToken | gateway/transformations/engine.py:44-61 | a text that does not come back: it quotes its own token |
| JsonPaths.RewriteAt | gateway/protocols/base.py:301-322 | looking up commutes with editing leaves |
| JsonPaths.PutIsEdit | gateway/protocols/base.py:305-312 | an edit in place of one string leaf is one more entry of an edit map |
| JsonPaths.WalkExact | gateway/protocols/base.py:259-298 | the walk lists exactly the keys and leaves of a tree |
| JsonBounds.BoundedJson | gateway/protocols/base.py:75-101 | the explicit stack decides the recursive bound on depth and collection size |
| JsonBounds.BoundedExactly | gateway/protocols/base.py:75-101 | that bound allows exactly the values in which nothing lies deeper than 32 and no collection holds more than 512 |
| JsonLocations.LocationBuilder.EncodedObject | gateway/protocols/base.py:223-239 | a string is accepted exactly when it encodes an object, whose compact spelling goes on |
| JsonLocations.LocationBuilder.JsonContent | gateway/protocols/base.py:241-257 | the copy is equal and exactly its string and number leaves are classified |
| JsonLocations.LocationBuilder.Finish | gateway/protocols/base.py:259-298 | the recursive walk lists the specified locations in order |
| JsonLocations.ListingExact | gateway/protocols/base.py:259-298 | a location is listed exactly when it is a key, a string leaf or a classified number of the payload or of JSON encoded in one of its strings |
| JsonRewriting.ReplaceLocation | gateway/protocols/base.py:301-322 | one edit in place, through decoding and serializing when the text is inside encoded JSON |
| JsonRewriting.ListedContent | gateway/protocols/base.py:280-285 | the locations that may change are exactly the classified texts that are really there |
| JsonRewriting.EncodedEdit | gateway/protocols/base.py:313-322 | an edit inside an encoded field is an edit of the tree it encodes |
| JsonRewriting.SameEdit | gateway/protocols/base.py:305-306 | an edit that repeats the text is no edit |
| JsonRewriting.RewriteAll | gateway/inspection/agent.py:164-176 | edits one after the other amount to one tree map; they all succeed exactly when every encoded field, as the edits before left it, fits the decoder each time it is edited |
| JsonRewriting.ChosenExact | gateway/inspection/agent.py:164-176 | the edits made are exactly the chosen texts at exactly the listed places |
| JsonRewriting.OrderIrrelevant | gateway/inspection/agent.py:164-176 | the same locations in any order, repeated or not, make the same edits, so any two orders that succeed give the same payload |
| JsonRewriting.PairFits | gateway/protocols/base.py:313-322 | two changes inside one encoded field succeed in one order exactly if the decoder takes the field as it was and with the first change made |
| JsonLimits.OrderCanFail | gateway/protocols/base.py:104-121 | for every size limit of the decoder, two changes inside an encoded object that succeed in one order and fail in the other |
| JsonRewriting.OnlyContentChanges | gateway/protocols/base.py:301-322 | keys, shape, numbers and unedited strings stay; an encoded field decodes to its own edited tree |
| JsonRewriting.KindExactly | gateway/protocols/base.py:301-322 | what stays when texts change: a string is a string, a list as long, an object with the same keys in a row, anything else itself |
| JsonRewriting.OnlyContentChangesWithin | gateway/protocols/base.py:313-322 | the same inside an encoded field, for several edits at once |
| Sse.SseParser.Finish | gateway/streaming/sse.py:73-103 | one line's effect on the frame |
| Sse.SseParser.Take | gateway/streaming/sse.py:107-126 | one character's effect, CRLF counted once and charged twice |
| Sse.FieldExactly | gateway/streaming/sse.py:80-103 | which lines are comments, data or event names, and what each says, spelled out |
| Sse.ParseSse | gateway/streaming/sse.py:60-130 | events and ending are those of the whole text, however it was cut into chunks |
| SseGrammar.RunExact | gateway/streaming/sse.py:73-130 | inside a frame the machine accepts what the grammar accepts and yields what it means |
| SseGrammar.ParseExact | gateway/streaming/sse.py:60-130 | a text is accepted exactly when every frame is well formed, bounded and ended, and yields exactly the grammar's events |
| SseGrammar.YieldedBounded | gateway/streaming/sse.py:116-119 | no event beyond the bound is ever yielded from any text, in failing runs too |
| SseGrammar.EncodeReadsBack | gateway/streaming/sse.py:133-136 | any concatenation of encoded events reads back as those events in order |
| Vault.PrefixExact | gateway/vault/store.py:230-238 | a key starts with the prefix an erasure asks for exactly when it belongs to that conversation, whatever conversation is asked for |
| Vault.TenantsApartExactly | gateway/vault/store.py:230-238 | for any two tenant names, erasures of the one stay away from the other's records exactly when the other name does not start with the one followed by NUL |
| Vault.NulWouldCollide | gateway/vault/store.py:230-238 | two names for which they would not |
| Vault.KeyInjective | gateway/vault/store.py:234-238 | stored keys of different scope or token differ |
| Vault.UnsealExact | gateway/vault/store.py:300-350 | a record opens for its own tenant, conversation, token and version, in time and with its key, and for nobody else |
| Vault.UnsealExactly | gateway/vault/store.py:300-350 | for any stored bytes, which of absent, missing key, foreign, or found is answered, and with what value |
| Vault.InMemoryBackend.Get | gateway/vault/store.py:174-185 | expired material is never returned and is dropped on the way |
| Vault.InMemoryBackend.DeletePrefix | gateway/vault/store.py:191-196 | exactly the keys under the prefix go, and are counted |
| Vault.InMemoryBackend.PurgeExpired | gateway/vault/store.py:198-203 | exactly the expired items go, and are counted |
| Vault.SurrogateVault.Put | gateway/vault/store.py:270-298 | a value is sealed under the active key and stored under the caller's own key |
| Vault.SurrogateVault.Get | gateway/vault/store.py:300-350 | a read fetches under the caller's own key, then opens with a second reading of the clock |
| Vault.SurrogateVault.DeleteConversation | gateway/vault/store.py:355-362 | the conversation's prefix is erased and counted |
| VaultRuns.Perform | gateway/vault/store.py:270-365 | each step of a trace is one call of the vault |
| VaultRuns.StepRefines | gateway/vault/store.py:158-207 | one step, whoever takes it, answers as the expiring map and keeps the correspondence |
| VaultRuns.VaultIsExpiringMap | gateway/vault/store.py:158-207 | under every interleaving and non-decreasing clock all answers are those of a map that only forgets by expiry and erasure, whatever conversation an erasure names |
| VaultRuns.ClockedExactly | gateway/vault/store.py:158-207 | the runs considered are all those whose steps are well formed and taken at non-decreasing times |
| VaultRuns.LeavesExactly | gateway/vault/store.py:352-362 | the steps said to leave a record alone are exactly those after which no ledger has lost it |
| VaultRuns.ConversationMatches | gateway/api/app.py:292-330 | erasing by prefix erases exactly the named conversation's records, and none if no record can have that name |
| VaultRuns.PurgeInvisible | gateway/vault/store.py:198-203 | a sweep anywhere in a run changes no answer |
| VaultRuns.RotationKeepsRecords | gateway/vault/store.py:103-140 | under additive rotation no record ever misses its key |
| VaultRuns.AdditiveExactly | gateway/vault/store.py:103-140 | additive runs are those in which every ring holds all versions of the rings before it |
| VaultRuns.StaysReadable | gateway/vault/store.py:270-350 | a record stays readable through any interleaving of refreshes, sweeps and other conversations' erasures |
| VaultRuns.OwnBytesBack | gateway/restoration/engine.py:125-152 | whichever concurrent spelling refreshed the record last, the request gets its own bytes back |
| JsonValues.EqualExact | gateway/tools/bound.py:168-183 | JSON equality is sameness of the values denoted: integers and floats are numbers, objects are maps |
| JsonValues.EqualIsEquivalence | gateway/tools/bound.py:168-183 | JSON equality is reflexive, symmetric and transitive |
| ToolSchema.CompileSchema | gateway/tools/bound.py:101-165 | a schema is accepted exactly when every schema in it is well formed, none is too deep, and the shared budget covers them all; acceptance spends one for each |
| SchemaRules.CompileTool | gateway/tools/bound.py:79-165 | a tool schema is accepted exactly when it holds at most 512 schemas, none nested more than 16 deep, and every one of them has supported keywords only, each with a value its rule allows |
| SchemaRules.RuleExactly | gateway/tools/bound.py:112-165 | what is checked of a keyword is its rule, in the keyword's own name and the value's own fields |
| SchemaRules.LiteralExactly | gateway/tools/bound.py:79-98 | a literal passes exactly when nothing in it lies deeper than 16 and no collection in it holds more than 128 |
| SchemaRules.SoundExactly | gateway/tools/bound.py:101-165 | the walk over subschemas reaches exactly the schemas one can get to through properties, combiners, items and further properties |
| ToolSemantics.TypeIs | gateway/tools/bound.py:186-193 | the type test is the declared type of the value |
| ToolSemantics.OneSatisfied | gateway/tools/bound.py:206-213 | counting one match is finding the only one |
| ToolSemantics.PropertiesMean | gateway/tools/bound.py:214-222 | each property answers to its own schema, or else to the one for additional properties |
| ToolSemantics.MatchesExact | gateway/tools/bound.py:196-248 | the matcher accepts a value exactly when it satisfies every keyword of the compiled schema |
| ToolSemantics.SpellingIrrelevant | gateway/tools/bound.py:196-248 | equal values are accepted alike, whatever their member order or number type |
| Patches.SplitJoins | gateway/tools/patches.py:62-66 | splitting into lines and joining them is the identity |
| Patches.RestorePatch | gateway/tools/patches.py:55-133 | the nested loops are the machine over lines |
| PatchGrammar.RebuildExactly | gateway/tools/patches.py:24-133 | a patch is accepted exactly when it spells a document of added, deleted and updated files, their moves and hunks, whose every text is restored on one line with no path written twice, and what comes back spells the restored document |
| PatchGrammar.RunReads | gateway/tools/patches.py:70-133 | from any point of the parse: the remaining lines are accepted exactly when they spell the rest of a file and further files |
| Patches.StepAgain | gateway/tools/patches.py:76-133 | a rebuilt line takes the parser through the same step, unless a hunk context was spoilt |
| Patches.RebuiltParsesAgain | gateway/tools/patches.py:55-133 | for any restorers the rebuilt patch parses again, with the same skeleton, exactly when every restored hunk context is empty or led by a space |
| PatchRestoration.RestoredParsesAgain | gateway/tools/registry.py:171-189 | with the restoration engine behind the restorers the second pass accepts every rebuilt patch and reads the same skeleton |
| Patches.KeepIsIdentity | gateway/tools/patches.py:55-133 | with nothing to restore an accepted patch comes back byte for byte |
| Lifecycle.AgentRuntime.Admit | gateway/api/agent_runtime.py:193-197 | a place is taken exactly when one is free |
| Lifecycle.AgentRuntime.Release | gateway/api/agent_runtime.py:199-200 | one place is given back |
| Lifecycle.StreamLifecycle.Finish | gateway/api/agent_runtime.py:49-69 | the first finish audits and releases, whether or not the audit can be written; later ones do nothing |
| Lifecycle.Take | gateway/api/agent.py:117-307 | a step on the shared objects changes counter and audits exactly as its control flow says |
| Lifecycle.AdvanceKeeps | gateway/api/agent.py:117-307 | every step leaves the flags meaning what the phase says |
| Lifecycle.AlwaysEnds | gateway/api/agent.py:25-37 | a request that is not over can always go on, and is over after finitely many steps |
| Lifecycle.EveryInterleaving | gateway/api/agent.py:117-307 | after any interleaving the counter is the number of admitted unreleased requests and within the limit; a request that is over was audited once and, if admitted, released once |
| Lifecycle.NothingLeaks | gateway/api/agent_runtime.py:193-200 | when everything is over every place is free |
| Luhn.LuhnValid | gateway/detectors/deterministic.py:64-76 | the loop accepts exactly 13 to 19 digits whose Luhn sum is divisible by ten |
| Luhn.LuhnCard | evals/datasets/generate.py:123-133 | generated numbers have the right length and a sum divisible by ten |
| Luhn.SingleErrorDetected | gateway/detectors/deterministic.py:64-76 | no single wrong digit passes, at any length |
| Luhn.TranspositionDetected | gateway/detectors/deterministic.py:64-76 | a swap of neighbours passes exactly when they are equal or are 0 and 9 |
| Iban.IbanValid | gateway/detectors/deterministic.py:79-100 | the loop decides shape, alphabet and remainder 1 of the big number |
| Iban.LettersExactly | gateway/detectors/deterministic.py:79-100 | letters are the 26 capitals |
| Iban.NumbersExactly | gateway/detectors/deterministic.py:89-96 | letters stand for 10 to 35 in alphabetical order, in either case |
| Iban.RemainderExact | gateway/detectors/deterministic.py:89-100 | the remainder of the big number is a left-to-right fold of small ones |
| Iban.ErrorDetected | gateway/detectors/deterministic.py:79-100 | in any accepted candidate, spaced or in lower case, replacing one character by another of its class is detected |
| Iban.BuiltIsValid | evals/datasets/generate.py:115-119 | a built IBAN validates exactly when its account part has at least eleven characters, as long as its number can be read |
| Iban.LongestValid | gateway/detectors/deterministic.py:121-143 | the result is the longest whole-group prefix that validates, or there is none |
| Policy.FirstMatch | gateway/policy/engine.py:177-199 | the loop returns the first matching rule's decision, or denies |
| Policy.FirstIsBest | gateway/policy/engine.py:100-108 | that decision is of a matching rule that no other matching rule precedes |
| PolicyMeaning.DecidedExactly | gateway/policy/engine.py:70-108 | a request is decided by the one rule whose application and findings condition it meets and that precedes every other such rule, in that rule's own terms, or denied if there is none |
| PolicyMeaning.FloorExactly | gateway/policy/local_routing.py:93-113 | the floor moves a request exactly when it must stay local and would not, and touches nothing else |
| PolicyMeaning.RequiredExactly | gateway/policy/local_routing.py:80-90 | start-up requires exactly what a rule can select, and the local destination as soon as a mode is on |
| PolicyMeaning.ComposedExactly | gateway/policy/engine.py:118-148 | composing keeps all rules, the mode and the default, and refuses repeated names and a second mode |
| Policy.PermutationInvariant | gateway/policy/engine.py:100-108 | the order rules were written in does not matter |
| Policy.BlockWins | gateway/policy/engine.py:100-108 | a matching block is outranked only by a strictly higher priority |
| Policy.DestinationsRequired | gateway/policy/engine.py:150-165 | no request selects a destination that start-up did not require |
| Policy.FloorHolds | gateway/policy/local_routing.py:93-113 | the floor never weakens a block and moves all it must to the one local destination |
| Policy.CompositionCommutes | gateway/policy/engine.py:118-148 | filters composed before or after the routing mode give the same decisions |
| Policy.Route | gateway/inspection/pipeline.py:141-184 | the check fires exactly on a configured, unblocked request that must stay local and whose provider is not the local one; whatever is sent although it must stay local went to the local provider |
| Policy.TripwireUnreachable | gateway/inspection/pipeline.py:170-184 | with one mode in both places the check never fires, and nothing required is missing |
| Policy.TripwireCatches | gateway/inspection/pipeline.py:170-184 | whatever was decided, a request that must stay local reaches no other provider |

## Left out

- Real cryptography and real Unicode tables: parameters with stated laws. NFKC and folding enter only through nonempty
  output and, for ASCII, the absence of combining marks.
- Characters are Unicode scalar values; lone surrogates, which the gateway refuses, cannot occur.
- The event machines keep each text block as a value and the counters as a sum. The objects that the code shares
  between blocks (`IncrementalRestorer`, `RestorationOutcome`) are verified by themselves, so that sharing inside a
  machine is not captured; nor are the counters a failing run leaves behind.
- Event and response fields besides identity, association, order, content and status: one `controls` or `usage` value
  with an abstract validity test. Log probabilities on text events and the long per-field whitelists are part of it.
- Which public code a refused response, message or stream carries; the contracts say exactly when it is refused.
- Serialized sizes are functions of the value, and the numbers Messages events may carry are checked but not re-emitted.
- The tool registry is a total deterministic function of a call; its own validation of arguments, paths, shells and
  searches is not modelled, except patches and schemas.
- Comparing the Messages stream with the buffered path assumes that the registry's answer depends only on what the
  arguments decode to (`MessagesRelease.Lawful`, `MessagesBuffered.SpellingFree`), because the buffered path serializes
  them anew; the registry's own limit on the length of the arguments as written is not modelled.
- Conversation identifiers under which records are stored, and tokens, contain no NUL: a session identifier, a header
  value or a generated name.
- Decoding UTF-8: streams are sequences of decoded characters, so a block with an invalid byte fails here at that
  byte and in the code before its earlier characters are processed.
- Clock readings are integers. Detection scores are real numbers; detectors themselves, their patterns, and the screening of mixed scripts.
- JSON numbers too long to be written out, and the byte limit of the JSON decoder, which appears only as `Codec.fits`.
- The builders that walk each protocol's request fields; only the classification they produce is modelled.
- Restorers of the patch parser are functions; the registry's own refusal of repeated canonical paths is not.
- Binding declared tools to registry fields, and the flat contract of tool schemas.
- Loading a policy document, policy versions and reason texts.
- The bodies of requests and responses in the lifecycle, time limits, and a server that never closes a response
  object; each suspension point is one event, and an audit that fails to be written counts as written.
- The chat pipeline's own restoration and rebuilding of messages: the same loop as in the buffered path.
- HTTP, routing of connections, configuration, diagnostics, the playground and evaluation.
