/** What every run of the Responses machine keeps, and how one event moves it. */
module ResponsesInvariants {
  import opened Text
  import opened Tokens
  import opened Restoration
  import opened TokenStream
  import opened ResponsesProtocol
  import opened BufferedResponse

  // ---------- One output item ----------

  ghost predicate PartInv(p: PartState, auth: Authority) {
    Faithful(p.buffer, auth) && (p.done ==> p.buffer.closed)
  }

  /** The final snapshot is of the item that was added. */
  predicate SameItem(final: Item, raw: Item) {
    && final.Message? == raw.Message? && final.ToolCall? == raw.ToolCall?
    && final.id == raw.id
    && (raw.ToolCall? ==>
          final.custom == raw.custom && final.callId == raw.callId && final.name == raw.name)
  }

  ghost predicate ItemInv(s: ItemState, auth: Authority) {
    && (forall p | 0 <= p < |s.parts| :: PartInv(s.parts[p], auth))
    && (!s.raw.Message? ==> s.parts == [])
    && (s.final.Some? <==> s.done)
    && (s.done ==>
          && SameItem(s.final.value, s.raw)
          && (forall p | 0 <= p < |s.parts| :: s.parts[p].done)
          && (s.raw.ToolCall? ==> s.argsDone))
  }

  ghost predicate ItemsInv(items: seq<ItemState>, auth: Authority) {
    forall k | 0 <= k < |items| :: ItemInv(items[k], auth)
  }

  // ---------- Counters and bytes ----------

  function PartLedger(p: PartState): Ledger { Ledger(p.buffer.counts, Utf8Length(p.buffer.text)) }

  function PartsLedger(parts: seq<PartState>): Ledger {
    if parts == [] then ZERO else PartLedger(parts[0]).Plus(PartsLedger(parts[1..]))
  }

  function Prose(items: seq<ItemState>): Ledger {
    if items == [] then ZERO else PartsLedger(items[0].parts).Plus(Prose(items[1..]))
  }

  lemma {:induction false} PartsLedgerUpdate(parts: seq<PartState>, p: nat, after: PartState, extra: Ledger)
    requires p < |parts| && PartLedger(after) == PartLedger(parts[p]).Plus(extra)
    ensures PartsLedger(parts[p := after]) == PartsLedger(parts).Plus(extra)
  {
    hide PartLedger, Ledger.Plus;
    var rest := PartsLedger(parts[1..]);
    if p == 0 {
      assert parts[0 := after][1..] == parts[1..];
      LedgerLaws(PartLedger(parts[0]), extra, rest);
      LedgerLaws(PartLedger(parts[0]), rest, extra);
      LedgerLaws(extra, rest, ZERO);
    } else {
      assert parts[p := after][1..] == parts[1..][p - 1 := after];
      PartsLedgerUpdate(parts[1..], p - 1, after, extra);
      LedgerLaws(PartLedger(parts[0]), rest, extra);
    }
  }

  lemma {:induction false} PartsLedgerSnoc(parts: seq<PartState>, p: PartState)
    requires PartLedger(p) == ZERO
    ensures PartsLedger(parts + [p]) == PartsLedger(parts)
  {
    hide PartLedger, Ledger.Plus;
    LedgerLaws(ZERO, ZERO, ZERO);
    if parts == [] {
      assert (parts + [p])[1..] == [];
    } else {
      assert (parts + [p])[1..] == parts[1..] + [p];
      PartsLedgerSnoc(parts[1..], p);
    }
  }

  lemma {:induction false} ProseUpdate(items: seq<ItemState>, k: nat, after: ItemState, extra: Ledger)
    requires k < |items| && PartsLedger(after.parts) == PartsLedger(items[k].parts).Plus(extra)
    ensures Prose(items[k := after]) == Prose(items).Plus(extra)
  {
    hide PartsLedger, Ledger.Plus;
    var first, rest := PartsLedger(items[0].parts), Prose(items[1..]);
    if k == 0 {
      assert items[0 := after][1..] == items[1..];
      LedgerLaws(first, extra, rest);
      LedgerLaws(first, rest, extra);
      LedgerLaws(extra, rest, ZERO);
    } else {
      assert items[k := after][1..] == items[1..][k - 1 := after];
      ProseUpdate(items[1..], k - 1, after, extra);
      LedgerLaws(first, rest, extra);
    }
  }

  lemma {:induction false} ProseSnoc(items: seq<ItemState>, s: ItemState)
    requires s.parts == []
    ensures Prose(items + [s]) == Prose(items)
  {
    hide PartLedger, Ledger.Plus;
    LedgerLaws(ZERO, ZERO, ZERO);
    if items == [] {
      assert (items + [s])[1..] == [];
    } else {
      assert (items + [s])[1..] == items[1..] + [s];
      ProseSnoc(items[1..], s);
    }
  }

  // ---------- Held executable events ----------

  predicate ArgsDeltaOf(b: Body, k: int, raw: Item) {
    raw.ToolCall? && b.ArgsDelta? && b.index == k && b.itemId == raw.id && b.custom == raw.custom
  }

  /** For a tool item: its start, argument deltas, then at most the arguments' end and the item's end. */
  ghost predicate HeldShape(held: seq<Body>, s: ItemState, k: int) {
    if !s.raw.ToolCall? then held == []
    else
      exists deltas: seq<Body> ::
        && (forall d | d in deltas :: ArgsDeltaOf(d, k, s.raw))
        && held == [ItemAdded(k, s.raw)] + deltas + HeldTail(s, k)
  }

  function HeldTail(s: ItemState, k: int): seq<Body>
    requires s.raw.ToolCall?
  {
    (if s.argsDone then [ArgsDone(k, s.raw.id, s.raw.custom, s.arguments)] else []) +
    (if s.done && s.final.Some? then [ItemDone(k, s.final.value)] else [])
  }

  ghost predicate HeldInv(items: seq<ItemState>, pending: seq<Body>) {
    && (forall b | b in pending :: IsToolBody(b) && 0 <= ToolIndex(b) < |items| && items[ToolIndex(b)].raw.ToolCall?)
    && (forall k | 0 <= k < |items| :: HeldShape(About(pending, k), items[k], k))
  }

  lemma {:induction false} AboutNone(pending: seq<Body>, k: int)
    requires forall b | b in pending :: IsToolBody(b) && ToolIndex(b) != k
    ensures About(pending, k) == []
  {
    if pending != [] {
      assert pending[0] in pending;
      AboutNone(pending[1..], k);
    }
  }

  lemma AboutSnoc(pending: seq<Body>, b: Body, k: int)
    ensures About(pending + [b], k)
            == About(pending, k) + (if IsToolBody(b) && ToolIndex(b) == k then [b] else [])
  {
    AboutAppend(pending, [b], k);
    assert [b][1..] == [];
  }

  /** A new item: nothing about it is held yet, unless it is a tool call, whose start is held. */
  lemma HeldAppend(items: seq<ItemState>, pending: seq<Body>, s: ItemState)
    requires HeldInv(items, pending)
    requires !s.argsDone && !s.done
    ensures var k := |items|;
            HeldInv(items + [s], if s.raw.ToolCall? then pending + [ItemAdded(k, s.raw)] else pending)
  {
    hide HeldShape, HeldTail;
    var k := |items|;
    var pending' := if s.raw.ToolCall? then pending + [ItemAdded(k, s.raw)] else pending;
    AboutNone(pending, k);
    forall j | 0 <= j < |items + [s]|
      ensures HeldShape(About(pending', j), (items + [s])[j], j)
    {
      AboutSnoc(pending, ItemAdded(k, s.raw), j);
      assert About(pending, j) + [] == About(pending, j);
      if j == k {
        HeldStart(s, k);
        assert About(pending', k) == if s.raw.ToolCall? then [ItemAdded(k, s.raw)] else [];
      } else {
        assert (items + [s])[j] == items[j];
      }
    }
  }

  lemma HeldStart(s: ItemState, k: int)
    requires !s.argsDone && !s.done
    ensures HeldShape(if s.raw.ToolCall? then [ItemAdded(k, s.raw)] else [], s, k)
  {
    if s.raw.ToolCall? {
      var deltas: seq<Body> := [];
      assert [ItemAdded(k, s.raw)] == [ItemAdded(k, s.raw)] + deltas + HeldTail(s, k);
    }
  }

  /** What one held event may do to the item it is about. */
  ghost predicate HeldStep(s: ItemState, after: ItemState, k: int, b: Body) {
    && s.raw.ToolCall? && after.raw == s.raw && IsToolBody(b) && ToolIndex(b) == k
    && (|| (ArgsDeltaOf(b, k, s.raw) && !s.argsDone && !s.done && !after.argsDone && !after.done)
        || (!s.argsDone && !s.done && after.argsDone && !after.done
            && b == ArgsDone(k, s.raw.id, s.raw.custom, after.arguments))
        || (s.argsDone && !s.done && after.argsDone && after.arguments == s.arguments
            && after.done && after.final.Some? && b == ItemDone(k, after.final.value)))
  }

  lemma HeldShapeStep(held: seq<Body>, s: ItemState, after: ItemState, k: int, b: Body)
    requires HeldShape(held, s, k) && HeldStep(s, after, k, b)
    ensures HeldShape(held + [b], after, k)
  {
    var deltas: seq<Body> :|
      && (forall d | d in deltas :: ArgsDeltaOf(d, k, s.raw))
      && held == [ItemAdded(k, s.raw)] + deltas + HeldTail(s, k);
    if b.ArgsDelta? {
      assert held + [b] == [ItemAdded(k, s.raw)] + (deltas + [b]) + HeldTail(after, k);
    } else {
      assert held + [b] == [ItemAdded(k, s.raw)] + deltas + HeldTail(after, k);
    }
  }

  lemma HeldUpdate(items: seq<ItemState>, pending: seq<Body>, k: nat, after: ItemState, b: Body)
    requires HeldInv(items, pending) && k < |items| && HeldStep(items[k], after, k, b)
    ensures HeldInv(items[k := after], pending + [b])
  {
    hide HeldShape, HeldTail;
    forall j | 0 <= j < |items|
      ensures HeldShape(About(pending + [b], j), items[k := after][j], j)
    {
      AboutSnoc(pending, b, j);
      assert About(pending, j) + [] == About(pending, j);
      if j == k {
        HeldShapeStep(About(pending, k), items[k], after, k, b);
      }
    }
  }

  /** Fields that the held events do not mention may change freely. */
  ghost predicate HeldSame(s: ItemState, after: ItemState) {
    && after.raw == s.raw
    && (s.raw.ToolCall? ==>
          after.argsDone == s.argsDone && after.arguments == s.arguments && after.done == s.done && after.final == s.final)
  }

  lemma HeldKeep(items: seq<ItemState>, pending: seq<Body>, k: nat, after: ItemState)
    requires HeldInv(items, pending) && k < |items| && HeldSame(items[k], after)
    ensures HeldInv(items[k := after], pending)
  {
    forall j | 0 <= j < |items|
      ensures HeldShape(About(pending, j), items[k := after][j], j)
    {
      assert HeldShape(About(pending, j), items[j], j);
      if j == k && items[k].raw.ToolCall? {
        assert HeldTail(after, k) == HeldTail(items[k], k);
      }
    }
  }

  // ---------- What has been sent ----------

  function TextAt(items: seq<ItemState>, i: int, p: int): string {
    if 0 <= i < |items| && 0 <= p < |items[i].parts| then items[i].parts[p].buffer.text else ""
  }

  /** Only prose has left the machine, and each part's deltas concatenate to what its block released. */
  ghost predicate SentInv(items: seq<ItemState>, sent: seq<Body>) {
    && (forall b | b in sent :: !IsToolBody(b))
    && (forall i: int, p: int :: Deltas(sent, i, p) == TextAt(items, i, p))
  }

  ghost predicate SameTexts(items: seq<ItemState>, items': seq<ItemState>) {
    forall i: int, p: int :: TextAt(items', i, p) == TextAt(items, i, p)
  }

  /** Part `q` of item `k` released `out` more; every other part released nothing. */
  ghost predicate TextGrows(items: seq<ItemState>, items': seq<ItemState>, k: int, q: int, out: string) {
    forall i: int, p: int :: TextAt(items', i, p) == TextAt(items, i, p) + (if i == k && p == q then out else "")
  }

  lemma DeltasSnoc(sent: seq<Body>, b: Body, i: int, p: int)
    ensures Deltas(sent + [b], i, p)
            == Deltas(sent, i, p) + (if b.TextDelta? && b.index == i && b.contentIndex == p then b.delta else "")
  {
    DeltasAppend(sent, [b], i, p);
    assert [b][1..] == [];
    hide IsToolBody;
  }

  lemma SentKeep(items: seq<ItemState>, items': seq<ItemState>, sent: seq<Body>, b: Body)
    requires SentInv(items, sent) && !IsToolBody(b) && !b.TextDelta?
    requires SameTexts(items, items')
    ensures SentInv(items', sent) && SentInv(items', sent + [b])
  {
    hide TextAt, Deltas, IsToolBody;
    forall i: int, p: int
      ensures Deltas(sent + [b], i, p) == TextAt(items', i, p)
    {
      DeltasSnoc(sent, b, i, p);
      assert TextAt(items', i, p) == TextAt(items, i, p);
    }
  }

  /** A delta goes out when its block released text. */
  lemma SentDelta(items: seq<ItemState>, items': seq<ItemState>, sent: seq<Body>, b: Body)
    requires SentInv(items, sent) && b.TextDelta?
    requires TextGrows(items, items', b.index, b.contentIndex, b.delta)
    ensures SentInv(items', sent + [b])
    ensures b.delta == "" ==> SentInv(items', sent)
  {
    hide TextAt, Deltas;
    assert !IsToolBody(b);
    hide IsToolBody;
    forall i: int, p: int
      ensures Deltas(sent + [b], i, p) == TextAt(items', i, p)
    {
      DeltasSnoc(sent, b, i, p);
      assert TextAt(items', i, p) == TextAt(items, i, p) + (if i == b.index && p == b.contentIndex then b.delta else "");
    }
    if b.delta == "" {
      forall i: int, p: int
        ensures Deltas(sent, i, p) == TextAt(items', i, p)
      {
        DeltasSnoc(sent, b, i, p);
        assert Deltas(sent, i, p) + "" == Deltas(sent, i, p);
      }
    }
  }

  lemma SentSilent(items: seq<ItemState>, items': seq<ItemState>, sent: seq<Body>)
    requires SentInv(items, sent) && SameTexts(items, items')
    ensures SentInv(items', sent)
  {
    hide TextAt, Deltas, IsToolBody;
    forall i: int, p: int
      ensures Deltas(sent, i, p) == TextAt(items', i, p)
    {
      assert TextAt(items', i, p) == TextAt(items, i, p);
    }
  }

  lemma SamePartTexts(items: seq<ItemState>, k: nat, after: ItemState)
    requires k < |items| && SameTexts([items[k]], [after])
    ensures SameTexts(items, items[k := after])
  {
    forall i: int, p: int
      ensures TextAt(items[k := after], i, p) == TextAt(items, i, p)
    {
      assert TextAt([after], 0, p) == TextAt([items[k]], 0, p);
    }
  }

  lemma SnocTexts(items: seq<ItemState>, s: ItemState)
    requires s.parts == []
    ensures SameTexts(items, items + [s])
  {
  }

  lemma OnePartGrows(items: seq<ItemState>, k: nat, p: nat, after: Buffer, out: string)
    requires k < |items| && p < |items[k].parts|
    requires after.text == items[k].parts[p].buffer.text + out
    ensures var s := items[k];
            TextGrows(items, items[k := s.(parts := s.parts[p := s.parts[p].(buffer := after)])], k, p, out)
  {
    var s := items[k];
    var items' := items[k := s.(parts := s.parts[p := s.parts[p].(buffer := after)])];
    forall i: int, q: int
      ensures TextAt(items', i, q) == TextAt(items, i, q) + (if i == k && q == p then out else "")
    {
      assert TextAt(items, i, q) + "" == TextAt(items, i, q);
    }
  }

  // ---------- The four together ----------

  ghost predicate RunInv(items: seq<ItemState>, pending: seq<Body>, sent: seq<Body>, ledger: Ledger, auth: Authority) {
    && ItemsInv(items, auth)
    && ledger == Prose(items)
    && HeldInv(items, pending)
    && SentInv(items, sent)
  }

  lemma RunStarts(auth: Authority)
    ensures RunInv([], [], [], ZERO, auth)
  {
    assert About([], 0) == [];
  }

  /** An event that concerns no item, or only repeats one, is passed on. */
  lemma RunPass(items: seq<ItemState>, pending: seq<Body>, sent: seq<Body>, ledger: Ledger, auth: Authority, b: Body)
    requires RunInv(items, pending, sent, ledger, auth) && !IsToolBody(b) && !b.TextDelta?
    ensures RunInv(items, pending, sent + [b], ledger, auth)
  {
    hide ItemsInv, Prose, HeldInv, TextAt, SentInv;
    SentKeep(items, items, sent, b);
  }

  lemma RunAdd(items: seq<ItemState>, pending: seq<Body>, sent: seq<Body>, ledger: Ledger, auth: Authority, s: ItemState)
    requires RunInv(items, pending, sent, ledger, auth)
    requires s.parts == [] && !s.done && !s.argsDone && s.final.None?
    ensures var b := ItemAdded(|items|, s.raw);
            if s.raw.ToolCall? then RunInv(items + [s], pending + [b], sent, ledger, auth)
            else RunInv(items + [s], pending, sent + [b], ledger, auth)
  {
    assert ItemInv(s, auth);
    hide *;
    RunParts(items, pending, sent, ledger, auth);
    ItemsSnoc(items, s, auth);
    SnocTexts(items, s);
    ProseSnoc(items, s);
    HeldAppend(items, pending, s);
    if s.raw.ToolCall? {
      SentSilent(items, items + [s], sent);
      RunWhole(items + [s], pending + [ItemAdded(|items|, s.raw)], sent, ledger, auth);
    } else {
      ProseItem(s.raw, |items|);
      SentKeep(items, items + [s], sent, ItemAdded(|items|, s.raw));
      RunWhole(items + [s], pending, sent + [ItemAdded(|items|, s.raw)], ledger, auth);
    }
  }

  lemma ProseItem(item: Item, k: int)
    requires !item.ToolCall?
    ensures !IsToolBody(ItemAdded(k, item)) && !IsToolBody(ItemDone(k, item))
  {
  }

  lemma RunParts(items: seq<ItemState>, pending: seq<Body>, sent: seq<Body>, ledger: Ledger, auth: Authority)
    requires RunInv(items, pending, sent, ledger, auth)
    ensures ItemsInv(items, auth) && ledger == Prose(items) && HeldInv(items, pending) && SentInv(items, sent)
  {
  }

  lemma RunWhole(items: seq<ItemState>, pending: seq<Body>, sent: seq<Body>, ledger: Ledger, auth: Authority)
    requires ItemsInv(items, auth) && ledger == Prose(items) && HeldInv(items, pending) && SentInv(items, sent)
    ensures RunInv(items, pending, sent, ledger, auth)
  {
  }

  lemma ItemsSnoc(items: seq<ItemState>, s: ItemState, auth: Authority)
    requires ItemsInv(items, auth) && ItemInv(s, auth)
    ensures ItemsInv(items + [s], auth)
  {
    hide ItemInv;
  }

  lemma ItemsUpdate(items: seq<ItemState>, k: nat, after: ItemState, auth: Authority)
    requires ItemsInv(items, auth) && k < |items| && ItemInv(after, auth)
    ensures ItemsInv(items[k := after], auth)
  {
    hide ItemInv;
  }

  lemma ProseKeep(items: seq<ItemState>, k: nat, after: ItemState)
    requires k < |items| && PartsLedger(after.parts) == PartsLedger(items[k].parts)
    ensures Prose(items[k := after]) == Prose(items)
  {
    hide Prose, PartsLedger, Ledger.Plus;
    LedgerLaws(PartsLedger(after.parts), ZERO, ZERO);
    LedgerLaws(Prose(items), ZERO, ZERO);
    ProseUpdate(items, k, after, ZERO);
  }

  /** An executable event about item `k` is held. */
  lemma RunHold(items: seq<ItemState>, pending: seq<Body>, sent: seq<Body>, ledger: Ledger, auth: Authority,
                k: nat, after: ItemState, b: Body)
    requires RunInv(items, pending, sent, ledger, auth)
    requires k < |items| && HeldStep(items[k], after, k, b) && after.parts == items[k].parts && ItemInv(after, auth)
    ensures RunInv(items[k := after], pending + [b], sent, ledger, auth)
  {
    assert SameTexts([items[k]], [after]);
    hide HeldInv, SentInv, SameTexts, HeldStep, ItemInv, ItemsInv, Prose, PartsLedger;
    ItemsUpdate(items, k, after, auth);
    ProseKeep(items, k, after);
    HeldUpdate(items, pending, k, after, b);
    SamePartTexts(items, k, after);
    SentSilent(items, items[k := after], sent);
  }

  /** A message item changes without releasing text, and one event is passed on about it. */
  lemma RunShow(items: seq<ItemState>, pending: seq<Body>, sent: seq<Body>, ledger: Ledger, auth: Authority,
                k: nat, after: ItemState, b: Body)
    requires RunInv(items, pending, sent, ledger, auth)
    requires k < |items| && HeldSame(items[k], after) && ItemInv(after, auth)
    requires PartsLedger(after.parts) == PartsLedger(items[k].parts)
    requires SameTexts([items[k]], [after])
    requires !IsToolBody(b) && !b.TextDelta?
    ensures RunInv(items[k := after], pending, sent + [b], ledger, auth)
  {
    hide HeldInv, SentInv, SameTexts, HeldSame, ItemInv, ItemsInv, Prose, PartsLedger;
    ItemsUpdate(items, k, after, auth);
    ProseKeep(items, k, after);
    HeldKeep(items, pending, k, after);
    SamePartTexts(items, k, after);
    SentKeep(items, items[k := after], sent, b);
  }

  /** The item after one of its blocks took a delta. */
  function Fed(s: ItemState, p: nat, delta: string, final: bool, auth: Authority): ItemState
    requires p < |s.parts|
  {
    s.(parts := s.parts[p := s.parts[p].(buffer := s.parts[p].buffer.Feed(delta, final, auth).0)])
  }

  /** One prose block took a delta and released `out`; a delta event carries it out unless it is empty. */
  lemma RunFeed(items: seq<ItemState>, pending: seq<Body>, sent: seq<Body>, ledger: Ledger, auth: Authority,
                k: nat, p: nat, delta: string, final: bool, b: Body)
    requires RunInv(items, pending, sent, ledger, auth)
    requires k < |items| && p < |items[k].parts| && !items[k].parts[p].done && !items[k].parts[p].buffer.closed
    requires b.TextDelta? && b.index == k && b.contentIndex == p
    requires b.delta == items[k].parts[p].buffer.Feed(delta, final, auth).1
    ensures var items' := items[k := Fed(items[k], p, delta, final, auth)];
            var share := Ledger(items[k].parts[p].buffer.Share(delta, final, auth), Utf8Length(b.delta));
            && RunInv(items', pending, sent + [b], ledger.Plus(share), auth)
            && (b.delta == "" ==> RunInv(items', pending, sent, ledger.Plus(share), auth))
  {
    hide HeldInv, SentInv, ItemInv, ItemsInv, Prose, PartsLedger, Ledger.Plus, Buffer.Feed, Buffer.Share, TextGrows;
    hide PartLedger;
    var s := items[k];
    var part := s.parts[p];
    FedItem(s, p, delta, final, auth) by { assert ItemInv(s, auth) by { ItemOf(items, k, auth); } }
    var s' := Fed(s, p, delta, final, auth);
    var share := Ledger(part.buffer.Share(delta, final, auth), Utf8Length(b.delta));
    ItemsUpdate(items, k, s', auth);
    FeedLedger(part, delta, final, auth);
    PartsLedgerUpdate(s.parts, p, s'.parts[p], share);
    ProseUpdate(items, k, s', share);
    HeldKeep(items, pending, k, s');
    OnePartGrows(items, k, p, s'.parts[p].buffer, b.delta);
    SentDelta(items, items[k := s'], sent, b);
  }

  lemma ItemOf(items: seq<ItemState>, k: nat, auth: Authority)
    requires ItemsInv(items, auth) && k < |items|
    ensures ItemInv(items[k], auth)
  {
  }

  lemma FedItem(s: ItemState, p: nat, delta: string, final: bool, auth: Authority)
    requires ItemInv(s, auth) && p < |s.parts| && !s.parts[p].done && !s.parts[p].buffer.closed
    ensures ItemInv(Fed(s, p, delta, final, auth), auth)
    ensures var (after, out) := s.parts[p].buffer.Feed(delta, final, auth);
            after.text == s.parts[p].buffer.text + out && after.closed == final
  {
    hide Faithful, Buffer.Feed, SameItem;
    FeedKeeps(s.parts[p].buffer, delta, final, auth);
  }

  lemma FeedLedger(part: PartState, delta: string, final: bool, auth: Authority)
    ensures var (after, out) := part.buffer.Feed(delta, final, auth);
            PartLedger(part.(buffer := after))
            == PartLedger(part).Plus(Ledger(part.buffer.Share(delta, final, auth), Utf8Length(out)))
  {
    var (after, out) := part.buffer.Feed(delta, final, auth);
    hide Buffer.Share, Utf8Length, Tally.Plus, Restored;
    Utf8LengthAppend(part.buffer.text, out);
  }

  // ---------- The remaining events ----------

  lemma RunOpenPart(items: seq<ItemState>, pending: seq<Body>, sent: seq<Body>, ledger: Ledger, auth: Authority,
                    k: nat, part: Part, b: Body)
    requires RunInv(items, pending, sent, ledger, auth) && b.PartAdded?
    requires k < |items| && items[k].raw.Message? && !items[k].done
    ensures var s := items[k];
            RunInv(items[k := s.(parts := s.parts + [PartState(part, OPENED, false)])], pending, sent + [b], ledger, auth)
  {
    hide RunInv;
    var s := items[k];
    var newPart := PartState(part, OPENED, false);
    ItemOf(items, k, auth) by { RunParts(items, pending, sent, ledger, auth); }
    OpenItem(s, newPart, auth);
    assert !IsToolBody(b);
    hide *;
    RunShow(items, pending, sent, ledger, auth, k, s.(parts := s.parts + [newPart]), b);
  }

  lemma OpenItem(s: ItemState, newPart: PartState, auth: Authority)
    requires ItemInv(s, auth) && s.raw.Message? && !s.done && newPart.buffer == OPENED && !newPart.done
    ensures var after := s.(parts := s.parts + [newPart]);
            && ItemInv(after, auth) && SameTexts([s], [after]) && HeldSame(s, after)
            && PartsLedger(after.parts) == PartsLedger(s.parts)
  {
    hide Faithful, PartsLedger;
    OpenedFaithful(auth);
    PartsLedgerSnoc(s.parts, newPart);
  }

  lemma RunClosePart(items: seq<ItemState>, pending: seq<Body>, sent: seq<Body>, ledger: Ledger, auth: Authority,
                     k: nat, p: nat, part: Part, b: Body)
    requires RunInv(items, pending, sent, ledger, auth) && b.PartDone?
    requires k < |items| && items[k].raw.Message? && !items[k].done && p < |items[k].parts|
    requires items[k].parts[p].buffer.closed
    ensures var s := items[k];
            RunInv(items[k := s.(parts := s.parts[p := PartState(part, s.parts[p].buffer, true)])],
                   pending, sent + [b], ledger, auth)
  {
    hide RunInv;
    var s := items[k];
    var closed := PartState(part, s.parts[p].buffer, true);
    ItemOf(items, k, auth) by { RunParts(items, pending, sent, ledger, auth); }
    ClosePart(s, p, closed, auth);
    assert !IsToolBody(b);
    hide *;
    RunShow(items, pending, sent, ledger, auth, k, s.(parts := s.parts[p := closed]), b);
  }

  lemma ClosePart(s: ItemState, p: nat, closed: PartState, auth: Authority)
    requires ItemInv(s, auth) && s.raw.Message? && !s.done && p < |s.parts|
    requires closed.buffer == s.parts[p].buffer && closed.buffer.closed
    ensures var after := s.(parts := s.parts[p := closed]);
            && ItemInv(after, auth) && SameTexts([s], [after]) && HeldSame(s, after)
            && PartsLedger(after.parts) == PartsLedger(s.parts)
  {
    hide Faithful, PartsLedger, Utf8Length, Ledger.Plus;
    LedgerLaws(PartLedger(closed), ZERO, ZERO);
    LedgerLaws(PartsLedger(s.parts), ZERO, ZERO);
    PartsLedgerUpdate(s.parts, p, closed, ZERO);
  }

  lemma RunArguments(items: seq<ItemState>, pending: seq<Body>, sent: seq<Body>, ledger: Ledger, auth: Authority,
                     k: nat, after: ItemState, b: Body)
    requires RunInv(items, pending, sent, ledger, auth)
    requires k < |items| && items[k].raw.ToolCall? && !items[k].done && !items[k].argsDone
    requires after == items[k].(chunks := after.chunks, arguments := after.arguments, argsDone := after.argsDone)
    requires if after.argsDone then b == ArgsDone(k, items[k].raw.id, items[k].raw.custom, after.arguments)
             else ArgsDeltaOf(b, k, items[k].raw)
    ensures RunInv(items[k := after], pending + [b], sent, ledger, auth)
  {
    hide Faithful, HeldInv, SentInv, Prose, PartsLedger;
    assert ItemInv(after, auth) by { ItemOf(items, k, auth); }
    assert HeldStep(items[k], after, k, b);
    hide RunInv, HeldStep, ItemInv;
    RunHold(items, pending, sent, ledger, auth, k, after, b);
  }

  /** A snapshot accepted as an item's end is of the item that was added. */
  lemma ComparedSame(item: Item, s: ItemState, maxItems: nat)
    requires s.final.None? && Confirms(item, s, maxItems)
    ensures SameItem(item, s.raw)
  {
    hide CheckItem;
  }

  lemma RunClose(items: seq<ItemState>, pending: seq<Body>, sent: seq<Body>, ledger: Ledger, env: Environment,
                 k: nat, item: Item)
    requires RunInv(items, pending, sent, ledger, env.auth)
    requires k < |items| && !items[k].done && Confirms(item, items[k], env.maxItems)
    requires items[k].raw.ToolCall? ==> items[k].argsDone
    requires items[k].raw.Message? ==> forall p | p in items[k].parts :: p.done
    ensures var s := items[k];
            var after := s.(final := Some(item), done := true);
            if s.raw.ToolCall? then RunInv(items[k := after], pending + [ItemDone(k, item)], sent, ledger, env.auth)
            else RunInv(items[k := after], pending, sent + [ItemDone(k, ItemSnapshot(after, true))], ledger, env.auth)
  {
    var s := items[k];
    var after := s.(final := Some(item), done := true);
    hide Faithful, HeldInv, SentInv, Prose, PartsLedger, Confirms, ItemSnapshot, SameItem;
    ItemOf(items, k, env.auth);
    ComparedSame(item, s, env.maxItems);
    CloseItem(s, item, env.auth);
    assert SameTexts([s], [after]);
    hide RunInv, ItemInv;
    if s.raw.ToolCall? {
      assert HeldStep(s, after, k, ItemDone(k, item));
      RunHold(items, pending, sent, ledger, env.auth, k, after, ItemDone(k, item));
    } else {
      SnapshotKind(s, item);
      ProseItem(ItemSnapshot(after, true), k);
      RunShow(items, pending, sent, ledger, env.auth, k, after, ItemDone(k, ItemSnapshot(after, true)));
    }
  }

  lemma CloseItem(s: ItemState, item: Item, auth: Authority)
    requires ItemInv(s, auth) && SameItem(item, s.raw) && !s.done
    requires s.raw.ToolCall? ==> s.argsDone
    requires s.raw.Message? ==> forall p | p in s.parts :: p.done
    ensures ItemInv(s.(final := Some(item), done := true), auth)
  {
    hide PartInv, SameItem;
  }

  lemma SnapshotKind(s: ItemState, item: Item)
    requires SameItem(item, s.raw) && !s.raw.ToolCall?
    ensures !ItemSnapshot(s.(final := Some(item), done := true), true).ToolCall?
  {
  }
}
