/** What a client sees of the prose of a Responses stream: every item and every part in its proper shape. */
module ResponsesShown {
  import opened Text
  import opened Tokens
  import opened Restoration
  import opened TokenStream
  import opened ResponsesProtocol
  import opened ResponsesInvariants

  predicate OfPart(b: Body, k: int, p: int) {
    (b.PartAdded? || b.PartDone? || b.TextDelta? || b.TextDone?) && b.index == k && b.contentIndex == p
  }

  predicate OfItem(b: Body, k: int) { (b.ItemAdded? || b.ItemDone?) && b.index == k }

  /** The events of one content part, in order. */
  function AboutPart(bodies: seq<Body>, k: int, p: int): seq<Body> {
    if bodies == [] then [] else (if OfPart(bodies[0], k, p) then [bodies[0]] else []) + AboutPart(bodies[1..], k, p)
  }

  /** The start and the end of one output item. */
  function AboutItem(bodies: seq<Body>, k: int): seq<Body> {
    if bodies == [] then [] else (if OfItem(bodies[0], k) then [bodies[0]] else []) + AboutItem(bodies[1..], k)
  }

  lemma {:induction false} AboutPartAppend(a: seq<Body>, b: seq<Body>, k: int, p: int)
    ensures AboutPart(a + b, k, p) == AboutPart(a, k, p) + AboutPart(b, k, p)
  {
    hide OfPart;
    if a == [] {
      assert a + b == b;
    } else {
      assert (a + b)[1..] == a[1..] + b && (a + b)[0] == a[0];
      AboutPartAppend(a[1..], b, k, p);
      Associate(if OfPart(a[0], k, p) then [a[0]] else [], AboutPart(a[1..], k, p), AboutPart(b, k, p));
    }
  }

  lemma {:induction false} AboutItemAppend(a: seq<Body>, b: seq<Body>, k: int)
    ensures AboutItem(a + b, k) == AboutItem(a, k) + AboutItem(b, k)
  {
    hide OfItem;
    if a == [] {
      assert a + b == b;
    } else {
      assert (a + b)[1..] == a[1..] + b && (a + b)[0] == a[0];
      AboutItemAppend(a[1..], b, k);
      Associate(if OfItem(a[0], k) then [a[0]] else [], AboutItem(a[1..], k), AboutItem(b, k));
    }
  }

  // ---------- Shapes ----------

  function Ends(part: PartState): nat { (if part.buffer.closed then 1 else 0) + (if part.done then 1 else 0) }

  /** A part on its way out: announced empty, nonempty deltas, then its whole text, then its final form. */
  ghost predicate PartShape(events: seq<Body>, k: int, id: string, p: int, part: PartState) {
    && (part.done ==> part.buffer.closed)
    && Ends(part) < |events|
    && var n := |events| - Ends(part);
    && events[0].PartAdded? && events[0].itemId == id && events[0].part.text == "" && events[0].part.refusal == part.raw.refusal
    && (forall i | 1 <= i < n :: IsDelta(events[i], id, part.raw.refusal))
    && (part.buffer.closed ==> events[n] == TextDone(k, id, p, part.raw.refusal, part.buffer.text))
    && (part.done ==> events[n + 1] == PartDone(k, id, p, part.Snapshot(true)))
  }

  predicate IsDelta(b: Body, id: string, refusal: bool) { b.TextDelta? && b.itemId == id && b.refusal == refusal && b.delta != "" }

  /** An item's two events; a call shows neither before the end of the run. */
  ghost predicate ItemShape(events: seq<Body>, k: int, s: ItemState) {
    events == if s.raw.ToolCall? then []
              else [ItemAdded(k, s.raw)] + (if s.done then [ItemDone(k, ItemSnapshot(s, true))] else [])
  }

  ghost predicate PartsShown(items: seq<ItemState>, sent: seq<Body>) {
    && (forall k, p | 0 <= k < |items| && 0 <= p < |items[k].parts| ::
          PartShape(AboutPart(sent, k, p), k, items[k].raw.id, p, items[k].parts[p]))
    && (forall k, p | !(0 <= k < |items| && 0 <= p < |items[k].parts|) :: AboutPart(sent, k, p) == [])
  }

  ghost predicate ItemsShown(items: seq<ItemState>, sent: seq<Body>) {
    && (forall k | 0 <= k < |items| :: ItemShape(AboutItem(sent, k), k, items[k]))
    && (forall k | !(0 <= k < |items|) :: AboutItem(sent, k) == [])
  }

  ghost predicate ShownInv(items: seq<ItemState>, sent: seq<Body>) { PartsShown(items, sent) && ItemsShown(items, sent) }

  lemma ShownStarts()
    ensures ShownInv([], [])
  {
  }

  // ---------- What one step adds ----------

  predicate AllOfPart(out: seq<Body>, k: int, p: int) { forall b | b in out :: OfPart(b, k, p) }

  predicate AllOfItem(out: seq<Body>, k: int) { forall b | b in out :: OfItem(b, k) }

  lemma {:induction false} PartOnly(out: seq<Body>, k: int, p: int, j: int, q: int)
    requires AllOfPart(out, k, p)
    ensures AboutPart(out, j, q) == if j == k && q == p then out else []
    ensures AboutItem(out, j) == []
  {
    if out != [] {
      assert out[0] in out;
      PartOnly(out[1..], k, p, j, q);
      assert out == [out[0]] + out[1..];
    }
  }

  lemma {:induction false} ItemOnly(out: seq<Body>, k: int, j: int, q: int)
    requires AllOfItem(out, k)
    ensures AboutItem(out, j) == if j == k then out else []
    ensures AboutPart(out, j, q) == []
  {
    if out != [] {
      assert out[0] in out;
      ItemOnly(out[1..], k, j, q);
      assert out == [out[0]] + out[1..];
    }
  }

  /** The same item with one part replaced or added. */
  ghost predicate PartMoved(s: ItemState, after: ItemState, p: nat) {
    && after.raw == s.raw && after.done == s.done && !s.done
    && p <= |s.parts| && p < |after.parts|
    && |after.parts| == (if p == |s.parts| then |s.parts| + 1 else |s.parts|)
    && forall q | 0 <= q < |s.parts| && q != p :: after.parts[q] == s.parts[q]
  }

  lemma ShowPart(items: seq<ItemState>, sent: seq<Body>, k: nat, p: nat, after: ItemState, out: seq<Body>)
    requires ShownInv(items, sent) && k < |items| && PartMoved(items[k], after, p) && AllOfPart(out, k, p)
    requires PartShape(AboutPart(sent, k, p) + out, k, after.raw.id, p, after.parts[p])
    ensures ShownInv(items[k := after], sent + out)
  {
    hide PartShape, ItemShape, AllOfPart, AboutPart, AboutItem;
    forall j, q
      ensures AboutPart(sent + out, j, q) == AboutPart(sent, j, q) + (if j == k && q == p then out else [])
    {
      AboutPartAppend(sent, out, j, q);
      PartOnly(out, k, p, j, q);
    }
    forall j
      ensures AboutItem(sent + out, j) == AboutItem(sent, j)
    {
      AboutItemAppend(sent, out, j);
      PartOnly(out, k, p, j, p);
    }
    ShowPartParts(items, sent, k, p, after, out);
    ShowPartItems(items, sent, k, p, after, out);
  }

  lemma ShowPartParts(items: seq<ItemState>, sent: seq<Body>, k: nat, p: nat, after: ItemState, out: seq<Body>)
    requires PartsShown(items, sent) && k < |items| && PartMoved(items[k], after, p)
    requires PartShape(AboutPart(sent, k, p) + out, k, after.raw.id, p, after.parts[p])
    requires forall j, q :: AboutPart(sent + out, j, q) == AboutPart(sent, j, q) + (if j == k && q == p then out else [])
    ensures PartsShown(items[k := after], sent + out)
  {
    hide PartShape, AboutPart;
    var items' := items[k := after];
    forall j, q | 0 <= j < |items'| && 0 <= q < |items'[j].parts|
      ensures PartShape(AboutPart(sent + out, j, q), j, items'[j].raw.id, q, items'[j].parts[q])
    {
      if j == k && q == p {
      } else {
        assert AboutPart(sent + out, j, q) == AboutPart(sent, j, q);
      }
    }
  }

  lemma ShowPartItems(items: seq<ItemState>, sent: seq<Body>, k: nat, p: nat, after: ItemState, out: seq<Body>)
    requires ItemsShown(items, sent) && k < |items| && PartMoved(items[k], after, p)
    requires forall j :: AboutItem(sent + out, j) == AboutItem(sent, j)
    ensures ItemsShown(items[k := after], sent + out)
  {
    hide AboutItem;
  }

  /** The same parts: an item added, ended, or a call that gathers its arguments. */
  lemma ShowItem(items: seq<ItemState>, sent: seq<Body>, k: nat, after: ItemState, out: seq<Body>)
    requires ShownInv(items, sent) && k <= |items| && AllOfItem(out, k)
    requires k < |items| ==> after.parts == items[k].parts && after.raw == items[k].raw
    requires k == |items| ==> after.parts == []
    requires ItemShape(AboutItem(sent, k) + out, k, after)
    ensures ShownInv(if k == |items| then items + [after] else items[k := after], sent + out)
  {
    hide PartShape, ItemShape, AllOfItem, AboutPart, AboutItem;
    forall j, q
      ensures AboutPart(sent + out, j, q) == AboutPart(sent, j, q)
    {
      AboutPartAppend(sent, out, j, q);
      ItemOnly(out, k, j, q);
    }
    forall j
      ensures AboutItem(sent + out, j) == AboutItem(sent, j) + (if j == k then out else [])
    {
      AboutItemAppend(sent, out, j);
      ItemOnly(out, k, j, 0);
    }
    ShowItemParts(items, sent, k, after, out);
    ShowItemItems(items, sent, k, after, out);
  }

  lemma ShowItemParts(items: seq<ItemState>, sent: seq<Body>, k: nat, after: ItemState, out: seq<Body>)
    requires PartsShown(items, sent) && k <= |items|
    requires k < |items| ==> after.parts == items[k].parts && after.raw == items[k].raw
    requires k == |items| ==> after.parts == []
    requires forall j, q :: AboutPart(sent + out, j, q) == AboutPart(sent, j, q)
    ensures PartsShown(if k == |items| then items + [after] else items[k := after], sent + out)
  {
    hide PartShape, AboutPart;
  }

  lemma ShowItemItems(items: seq<ItemState>, sent: seq<Body>, k: nat, after: ItemState, out: seq<Body>)
    requires ItemsShown(items, sent) && k <= |items|
    requires forall j :: AboutItem(sent + out, j) == AboutItem(sent, j) + (if j == k then out else [])
    requires ItemShape(AboutItem(sent, k) + out, k, after)
    ensures ItemsShown(if k == |items| then items + [after] else items[k := after], sent + out)
  {
    hide ItemShape, AboutItem;
    var items' := if k == |items| then items + [after] else items[k := after];
    forall j | 0 <= j < |items'|
      ensures ItemShape(AboutItem(sent + out, j), j, items'[j])
    {
      if j != k {
        assert AboutItem(sent + out, j) == AboutItem(sent, j);
      }
    }
  }

  /** An event about neither is passed on. */
  lemma ShowPass(items: seq<ItemState>, sent: seq<Body>, b: Body)
    requires ShownInv(items, sent) && (b.Created? || b.InProgress?)
    ensures ShownInv(items, sent + [b])
  {
    hide PartShape, ItemShape;
    assert [b][1..] == [];
    forall j, q
      ensures AboutPart(sent + [b], j, q) == AboutPart(sent, j, q)
    {
      AboutPartAppend(sent, [b], j, q);
      assert AboutPart([b], j, q) == [];
    }
    forall j
      ensures AboutItem(sent + [b], j) == AboutItem(sent, j)
    {
      AboutItemAppend(sent, [b], j);
      assert AboutItem([b], j) == [];
    }
    hide AboutPart, AboutItem;
  }

  // ---------- The handlers' steps ----------

  lemma ShowAdd(items: seq<ItemState>, sent: seq<Body>, s: ItemState)
    requires ShownInv(items, sent) && s.parts == [] && !s.done
    ensures ShownInv(items + [s], if s.raw.ToolCall? then sent else sent + [ItemAdded(|items|, s.raw)])
  {
    var out := if s.raw.ToolCall? then [] else [ItemAdded(|items|, s.raw)];
    assert AllOfItem(out, |items|);
    hide PartShape, AboutPart, AboutItem, AllOfItem, PartsShown;
    assert AboutItem(sent, |items|) == [];
    assert [] + out == out;
    ShowItem(items, sent, |items|, s, out);
    assert sent + [] == sent;
  }

  lemma ShowOpenPart(items: seq<ItemState>, sent: seq<Body>, k: nat, part: Part)
    requires ShownInv(items, sent) && k < |items| && !items[k].done && part.text == ""
    ensures var s := items[k];
            ShownInv(items[k := s.(parts := s.parts + [PartState(part, OPENED, false)])],
                     sent + [PartAdded(k, s.raw.id, |s.parts|, part)])
  {
    var s := items[k];
    var p := |s.parts|;
    var out := [PartAdded(k, s.raw.id, p, part)];
    assert AllOfPart(out, k, p);
    assert AboutPart(sent, k, p) == [];
    assert [] + out == out;
    hide AboutPart, AboutItem, AllOfPart, ShownInv;
    ShowPart(items, sent, k, p, s.(parts := s.parts + [PartState(part, OPENED, false)]), out);
  }

  /** What a delta, or the end of a text, sends on. */
  function TextOut(s: ItemState, k: int, p: nat, delta: string, final: bool, auth: Authority): seq<Body>
    requires p < |s.parts|
  {
    var (after, text) := s.parts[p].buffer.Feed(delta, final, auth);
    var refusal := s.parts[p].raw.refusal;
    var first := TextDelta(k, s.raw.id, p, refusal, text);
    var done := TextDone(k, s.raw.id, p, refusal, after.text);
    if final then if text == "" then [done] else [first, done]
    else if text == "" then [] else [first]
  }

  lemma FedShape(events: seq<Body>, s: ItemState, k: int, p: nat, delta: string, final: bool, auth: Authority)
    requires p < |s.parts| && PartShape(events, k, s.raw.id, p, s.parts[p])
    requires !s.parts[p].buffer.closed && Faithful(s.parts[p].buffer, auth)
    ensures PartShape(events + TextOut(s, k, p, delta, final, auth), k, s.raw.id, p, Fed(s, p, delta, final, auth).parts[p])
    ensures AllOfPart(TextOut(s, k, p, delta, final, auth), k, p)
  {
    hide Faithful, Buffer.Feed;
    FeedKeeps(s.parts[p].buffer, delta, final, auth);
    var out := TextOut(s, k, p, delta, final, auth);
    var all := events + out;
    assert forall i | 0 <= i < |events| :: all[i] == events[i];
  }

  lemma ShowFeed(items: seq<ItemState>, sent: seq<Body>, k: nat, p: nat, delta: string, final: bool, auth: Authority)
    requires ShownInv(items, sent) && k < |items| && !items[k].done && p < |items[k].parts|
    requires !items[k].parts[p].buffer.closed && Faithful(items[k].parts[p].buffer, auth)
    ensures ShownInv(items[k := Fed(items[k], p, delta, final, auth)], sent + TextOut(items[k], k, p, delta, final, auth))
  {
    var s := items[k];
    assert PartShape(AboutPart(sent, k, p), k, s.raw.id, p, s.parts[p]);
    hide PartShape, AboutPart, AboutItem, AllOfPart, ShownInv, TextOut, Faithful, Buffer.Feed;
    FedShape(AboutPart(sent, k, p), s, k, p, delta, final, auth);
    ShowPart(items, sent, k, p, Fed(s, p, delta, final, auth), TextOut(s, k, p, delta, final, auth));
  }

  lemma ShowClosePart(items: seq<ItemState>, sent: seq<Body>, k: nat, p: nat, part: Part)
    requires ShownInv(items, sent) && k < |items| && !items[k].done && p < |items[k].parts|
    requires var tracked := items[k].parts[p]; !tracked.done && tracked.buffer.closed && part.refusal == tracked.raw.refusal
    ensures var s := items[k];
            var buffer := s.parts[p].buffer;
            ShownInv(items[k := s.(parts := s.parts[p := PartState(part, buffer, true)])],
                     sent + [PartDone(k, s.raw.id, p, part.(text := buffer.text))])
  {
    var s := items[k];
    var buffer := s.parts[p].buffer;
    var out := [PartDone(k, s.raw.id, p, part.(text := buffer.text))];
    assert AllOfPart(out, k, p);
    assert PartShape(AboutPart(sent, k, p), k, s.raw.id, p, s.parts[p]);
    hide AboutPart, AboutItem, AllOfPart, ShownInv;
    ClosedShape(AboutPart(sent, k, p), k, s.raw.id, p, s.parts[p], part);
    hide PartShape;
    ShowPart(items, sent, k, p, s.(parts := s.parts[p := PartState(part, buffer, true)]), out);
  }

  lemma ClosedShape(events: seq<Body>, k: int, id: string, p: nat, tracked: PartState, part: Part)
    requires PartShape(events, k, id, p, tracked) && !tracked.done && tracked.buffer.closed && part.refusal == tracked.raw.refusal
    ensures PartShape(events + [PartDone(k, id, p, part.(text := tracked.buffer.text))], k, id, p, PartState(part, tracked.buffer, true))
  {
    var all := events + [PartDone(k, id, p, part.(text := tracked.buffer.text))];
    assert forall i | 0 <= i < |events| :: all[i] == events[i];
  }

  lemma ShowCloseItem(items: seq<ItemState>, sent: seq<Body>, k: nat, after: ItemState)
    requires ShownInv(items, sent) && k < |items| && !items[k].done && after.done
    requires after.parts == items[k].parts && after.raw == items[k].raw
    ensures ShownInv(items[k := after], if after.raw.ToolCall? then sent else sent + [ItemDone(k, ItemSnapshot(after, true))])
  {
    hide ItemSnapshot;
    var out := if after.raw.ToolCall? then [] else [ItemDone(k, ItemSnapshot(after, true))];
    assert AllOfItem(out, k);
    assert ItemShape(AboutItem(sent, k), k, items[k]);
    hide PartShape, AboutPart, AboutItem, AllOfItem, ShownInv;
    assert [] + out == out;
    ShowItem(items, sent, k, after, out);
    assert sent + [] == sent;
  }

  lemma ShowCall(items: seq<ItemState>, sent: seq<Body>, k: nat, after: ItemState)
    requires ShownInv(items, sent) && k < |items| && items[k].raw.ToolCall?
    requires after.parts == items[k].parts && after.raw == items[k].raw
    ensures ShownInv(items[k := after], sent)
  {
    assert ItemShape(AboutItem(sent, k), k, items[k]);
    assert AllOfItem([], k);
    hide PartShape, AboutPart, AboutItem, AllOfItem, ShownInv;
    ShowItem(items, sent, k, after, []);
    assert sent + [] == sent;
  }

  lemma PartFaithful(items: seq<ItemState>, pending: seq<Body>, sent: seq<Body>, ledger: Ledger, auth: Authority, k: nat, p: nat)
    requires RunInv(items, pending, sent, ledger, auth) && k < |items| && p < |items[k].parts|
    ensures Faithful(items[k].parts[p].buffer, auth)
  {
    hide Faithful, HeldInv, SentInv, Prose;
    assert ItemInv(items[k], auth);
    assert PartInv(items[k].parts[p], auth);
  }

  /** One text event: what it sends on keeps both invariants. */
  lemma TextStep(items: seq<ItemState>, pending: seq<Body>, sent: seq<Body>, ledger: Ledger, auth: Authority,
                 k: nat, p: nat, delta: string, final: bool)
    requires RunInv(items, pending, sent, ledger, auth) && ShownInv(items, sent)
    requires k < |items| && items[k].raw.Message? && !items[k].done && p < |items[k].parts|
    requires !items[k].parts[p].done && !items[k].parts[p].buffer.closed
    ensures var s := items[k];
            var buffer := s.parts[p].buffer;
            var after := items[k := Fed(s, p, delta, final, auth)];
            var out := sent + TextOut(s, k, p, delta, final, auth);
            && RunInv(after, pending, out,
                      ledger.Plus(Ledger(buffer.Share(delta, final, auth), Utf8Length(buffer.Feed(delta, final, auth).1))), auth)
            && ShownInv(after, out)
  {
    hide RunInv, ShownInv, Buffer.Feed, Buffer.Share, Utf8Length, Ledger.Plus, Faithful;
    var s := items[k];
    var buffer := s.parts[p].buffer;
    PartFaithful(items, pending, sent, ledger, auth, k, p);
    ShowFeed(items, sent, k, p, delta, final, auth);
    var (after, text) := buffer.Feed(delta, final, auth);
    var first := TextDelta(k, s.raw.id, p, s.parts[p].raw.refusal, text);
    RunFeed(items, pending, sent, ledger, auth, k, p, delta, final, first);
    var now := ledger.Plus(Ledger(buffer.Share(delta, final, auth), Utf8Length(text)));
    var fed := items[k := Fed(s, p, delta, final, auth)];
    var start := if text == "" then sent else sent + [first];
    assert sent + [] == sent;
    if final {
      var done := TextDone(k, s.raw.id, p, s.parts[p].raw.refusal, after.text);
      RunPass(fed, pending, start, now, auth, done);
      assert sent + TextOut(s, k, p, delta, final, auth) == start + [done];
    }
  }

  /** Restoring calls shows nothing of them yet and touches nothing else. */
  lemma ShownRestored(items: seq<ItemState>, items': seq<ItemState>, sent: seq<Body>)
    requires ShownInv(items, sent) && |items| == |items'|
    requires forall k | 0 <= k < |items| ::
               && items'[k].raw == items[k].raw && items'[k].parts == items[k].parts
               && (!items[k].raw.ToolCall? ==> items'[k] == items[k])
    ensures ShownInv(items', sent)
  {
    hide PartShape, AboutPart, AboutItem;
  }

  // ---------- Ends tell what was sent before ----------

  /** The text in an end event is what the part's deltas add up to. */
  predicate ToldBy(b: Body, bodies: seq<Body>) {
    match b
    case TextDone(k, _, p, _, text) => text == Deltas(bodies, k, p)
    case PartDone(k, _, p, part) => part.text == Deltas(bodies, k, p)
    case ItemDone(k, item) =>
      item.Message? ==> forall p | 0 <= p < |item.content| :: item.content[p].text == Deltas(bodies, k, p)
    case _ => true
  }

  lemma {:induction false} InAboutPart(bodies: seq<Body>, b: Body, k: int, p: int)
    requires b in bodies && OfPart(b, k, p)
    ensures b in AboutPart(bodies, k, p)
  {
    if b != bodies[0] {
      InAboutPart(bodies[1..], b, k, p);
    }
  }

  lemma {:induction false} InAboutItem(bodies: seq<Body>, b: Body, k: int)
    requires b in bodies && OfItem(b, k)
    ensures b in AboutItem(bodies, k)
  {
    if b != bodies[0] {
      InAboutItem(bodies[1..], b, k);
    }
  }

  lemma ShapeTells(events: seq<Body>, k: int, id: string, p: int, part: PartState, b: Body)
    requires PartShape(events, k, id, p, part) && b in events
    ensures b.TextDone? ==> b.text == part.buffer.text
    ensures b.PartDone? ==> b.part.text == part.buffer.text
  {
    var i :| 0 <= i < |events| && events[i] == b;
    var n := |events| - Ends(part);
    if 1 <= i < n {
      assert IsDelta(events[i], id, part.raw.refusal);
    }
  }

  lemma SnapshotTells(s: ItemState, p: nat)
    ensures var item := ItemSnapshot(s, true);
            item.Message? ==> |item.content| == |s.parts| && (p < |s.parts| ==> item.content[p].text == s.parts[p].buffer.text)
  {
  }

  lemma EndsTell(items: seq<ItemState>, sent: seq<Body>, b: Body)
    requires ShownInv(items, sent) && SentInv(items, sent) && b in sent
    ensures ToldBy(b, sent)
  {
    hide AboutPart, AboutItem, PartShape, ItemSnapshot, Deltas, IsToolBody;
    if b.TextDone? || b.PartDone? {
      var k, p := b.index, b.contentIndex;
      InAboutPart(sent, b, k, p);
      assert 0 <= k < |items| && 0 <= p < |items[k].parts|;
      ShapeTells(AboutPart(sent, k, p), k, items[k].raw.id, p, items[k].parts[p], b);
      assert Deltas(sent, k, p) == TextAt(items, k, p);
    } else if b.ItemDone? && b.item.Message? {
      var k := b.index;
      InAboutItem(sent, b, k);
      assert 0 <= k < |items| && ItemShape(AboutItem(sent, k), k, items[k]);
      forall p | 0 <= p < |b.item.content|
        ensures b.item.content[p].text == Deltas(sent, k, p)
      {
        SnapshotTells(items[k], p);
        assert Deltas(sent, k, p) == TextAt(items, k, p);
      }
    }
  }
}
