/** What every reachable state of the Messages machine keeps, block by block. */
module MessagesInvariants {
  import opened Text
  import opened Tokens
  import opened Restoration
  import opened TokenStream
  import opened MessagesProtocol
  import R = ResponsesProtocol

  datatype BlockState = BlockState(raw: Block, done: bool, chunks: seq<string>, buffer: Buffer, restored: string)

  /** The held deltas of a call, one for each fragment that came in. */
  function HeldDeltas(k: int, chunks: seq<string>): (r: seq<Body>)
    ensures |r| == |chunks| && forall i | 0 <= i < |r| :: r[i] == JsonDelta(k, chunks[i])
  {
    seq(|chunks|, i requires 0 <= i < |chunks| => JsonDelta(k, chunks[i]))
  }

  function Held(b: BlockState, k: int): seq<Body> {
    [BlockStart(k, b.raw)] + HeldDeltas(k, b.chunks) + (if b.done then [BlockStop(k)] else [])
  }

  /** A prose block on its way out: its start, nonempty text deltas, and its stop once it is done. */
  ghost predicate ProseShape(sent: seq<Body>, k: int, raw: Block, done: bool) {
    var n := if done then |sent| - 1 else |sent|;
    && 1 <= n && sent[0] == BlockStart(k, raw)
    && (forall i | 1 <= i < n :: sent[i].TextDelta? && sent[i].index == k && sent[i].text != "")
    && (done ==> sent[n] == BlockStop(k))
  }

  ghost predicate ProseInv(b: BlockState, k: int, received: seq<Body>, sent: seq<Body>, held: seq<Body>, auth: Authority) {
    && b.raw.TextBlock? && Faithful(b.buffer, auth) && b.buffer.closed == b.done
    && b.raw.text == "" && b.chunks == [] && held == []
    && TextOf(received) == b.buffer.raw
    && TextOf(sent) == b.buffer.text
    && ProseShape(sent, k, b.raw, b.done)
  }

  ghost predicate CallInv(b: BlockState, k: int, received: seq<Body>, sent: seq<Body>, held: seq<Body>) {
    && sent == [] && b.buffer == OPENED
    && JsonOf(received) == Join(b.chunks)
    && held == Held(b, k)
  }

  ghost predicate BlockInv(b: BlockState, k: int, received: seq<Body>, sent: seq<Body>, held: seq<Body>, auth: Authority) {
    && received != [] && received[0] == BlockStart(k, b.raw)
    && if b.raw.TextBlock? then ProseInv(b, k, received, sent, held, auth) else CallInv(b, k, received, sent, held)
  }

  ghost predicate BlocksInv(blocks: seq<BlockState>, received: seq<Body>, sent: seq<Body>, held: seq<Body>, auth: Authority) {
    forall k | 0 <= k < |blocks| :: BlockInv(blocks[k], k, About(received, k), About(sent, k), About(held, k), auth)
  }

  /** Nothing was said about blocks that have not been announced. */
  ghost predicate NothingBeyond(n: nat, received: seq<Body>, sent: seq<Body>, held: seq<Body>) {
    forall k | k >= n :: About(received, k) == About(sent, k) == About(held, k) == []
  }

  ghost predicate HeldOk(blocks: seq<BlockState>, held: seq<Body>) {
    forall b | b in held :: 0 <= Index(b) < |blocks| && blocks[Index(b)].raw.ToolUse?
  }

  ghost predicate HeadInv(n: nat, received: seq<Body>, sent: seq<Body>, held: seq<Body>) {
    && Announced(received) == n == Announced(sent) + Announced(held)
    && OpenedBy(sent) == OpenedBy(received)
    && StopIn(sent) == None
    && AllOpen(sent)
  }

  /** Nothing but pings, the message's own start and block events. */
  ghost predicate AllOpen(bodies: seq<Body>) {
    forall b | b in bodies :: b.Ping? || b.MessageStart? || Index(b) >= 0
  }

  ghost predicate RunInv(blocks: seq<BlockState>, received: seq<Body>, sent: seq<Body>, held: seq<Body>, auth: Authority) {
    && BlocksInv(blocks, received, sent, held, auth)
    && NothingBeyond(|blocks|, received, sent, held)
    && HeldOk(blocks, held)
    && HeadInv(|blocks|, received, sent, held)
  }

  lemma RunStarts(auth: Authority)
    ensures RunInv([], [], [], [], auth)
  {
  }

  /** Events that belong to no block leave every block alone. */
  lemma RunPass(blocks: seq<BlockState>, received: seq<Body>, sent: seq<Body>, held: seq<Body>, auth: Authority, got: Body, out: seq<Body>)
    requires RunInv(blocks, received, sent, held, auth)
    requires Index(got) == -1 && AllAbout(out, -1)
    requires forall b | b in [got] + out :: !b.BlockStart?
    requires OpenedBy(received) == None ==> OpenedBy(out) == OpenedBy([got])
    requires StopIn(out) == None && AllOpen(out)
    ensures RunInv(blocks, received + [got], sent + out, held, auth)
  {
    hide BlockInv, About, AllAbout, Announced, OpenedBy, StopIn;
    forall k | k >= 0
      ensures About(received + [got], k) == About(received, k) && About(sent + out, k) == About(sent, k)
    {
      AboutAppend(received, [got], k);
      AboutAppend(sent, out, k);
      OneAbout(got);
      AboutOne([got], -1, k);
      AboutOne(out, -1, k);
    }
    HeadAppend(received, [got]);
    HeadAppend(sent, out);
    assert forall b | b in [got] :: b in [got] + out;
    NoStarts([got]);
    NoStarts(out);
    hide BlocksInv;
    KeepBlocks(blocks, received, sent, held, received + [got], sent + out, held, auth);
  }

  lemma KeepBlocks(blocks: seq<BlockState>, received: seq<Body>, sent: seq<Body>, held: seq<Body>,
                   received': seq<Body>, sent': seq<Body>, held': seq<Body>, auth: Authority)
    requires BlocksInv(blocks, received, sent, held, auth)
    requires forall k | 0 <= k < |blocks| ::
               About(received', k) == About(received, k) && About(sent', k) == About(sent, k) && About(held', k) == About(held, k)
    ensures BlocksInv(blocks, received', sent', held', auth)
  {
    hide BlockInv, About;
  }

  lemma OneAbout(b: Body)
    ensures AllAbout([b], Index(b))
  {
  }

  lemma {:induction false} NoStarts(bodies: seq<Body>)
    requires forall b | b in bodies :: !b.BlockStart?
    ensures Announced(bodies) == 0
  {
    if bodies != [] {
      assert bodies[0] in bodies;
      NoStarts(bodies[1..]);
    }
  }

  /** A step that concerns block `k` alone: what came in, what went out, what is held, and the block afterwards. */
  lemma RunTouch(blocks: seq<BlockState>, received: seq<Body>, sent: seq<Body>, held: seq<Body>, auth: Authority,
                 k: nat, b: BlockState, got: seq<Body>, out: seq<Body>, kept: seq<Body>)
    requires RunInv(blocks, received, sent, held, auth)
    requires k <= |blocks| && AllAbout(got, k) && AllAbout(out, k) && AllAbout(kept, k)
    requires k < |blocks| ==> b.raw == blocks[k].raw
    requires kept != [] ==> b.raw.ToolUse?
    requires BlockInv(b, k, About(received, k) + got, About(sent, k) + out, About(held, k) + kept, auth)
    requires Announced(got) == Announced(out) + Announced(kept) == if k == |blocks| then 1 else 0
    ensures RunInv(Placed(blocks, k, b), received + got, sent + out, held + kept, auth)
  {
    hide *;
    AppendTouches(received, got, k);
    AppendTouches(sent, out, k);
    AppendTouches(held, kept, k);
    RunParts(blocks, received, sent, held, auth);
    TouchBlocks(blocks, received, sent, held, auth, k, b, got, out, kept);
    TouchBeyond(blocks, received, sent, held, k, b, got, out, kept);
    TouchHead(blocks, received, sent, held, k, got, out, kept);
    TouchHeld(blocks, held, k, b, kept);
    RunWhole(Placed(blocks, k, b), received + got, sent + out, held + kept, auth,
             if k == |blocks| then |blocks| + 1 else |blocks|);
  }

  lemma RunParts(blocks: seq<BlockState>, received: seq<Body>, sent: seq<Body>, held: seq<Body>, auth: Authority)
    requires RunInv(blocks, received, sent, held, auth)
    ensures BlocksInv(blocks, received, sent, held, auth) && NothingBeyond(|blocks|, received, sent, held)
    ensures HeldOk(blocks, held) && HeadInv(|blocks|, received, sent, held)
  {
  }

  lemma RunWhole(blocks: seq<BlockState>, received: seq<Body>, sent: seq<Body>, held: seq<Body>, auth: Authority, n: nat)
    requires n == |blocks|
    requires BlocksInv(blocks, received, sent, held, auth) && NothingBeyond(n, received, sent, held)
    requires HeldOk(blocks, held) && HeadInv(n, received, sent, held)
    ensures RunInv(blocks, received, sent, held, auth)
  {
  }

  /** Appending `more` adds to what is said about block `k` and about no other. */
  ghost predicate Touches(bodies: seq<Body>, more: seq<Body>, k: nat) {
    forall j | j >= 0 :: About(bodies + more, j) == About(bodies, j) + (if j == k then more else [])
  }

  lemma AppendTouches(bodies: seq<Body>, more: seq<Body>, k: nat)
    requires AllAbout(more, k)
    ensures Touches(bodies, more, k)
  {
    hide About, AllAbout;
    forall j | j >= 0
      ensures About(bodies + more, j) == About(bodies, j) + (if j == k then more else [])
    {
      AboutAppend(bodies, more, j);
      AboutOne(more, k, j);
    }
  }

  lemma TouchBeyond(blocks: seq<BlockState>, received: seq<Body>, sent: seq<Body>, held: seq<Body>,
                    k: nat, b: BlockState, got: seq<Body>, out: seq<Body>, kept: seq<Body>)
    requires NothingBeyond(|blocks|, received, sent, held) && k <= |blocks|
    requires Touches(received, got, k) && Touches(sent, out, k) && Touches(held, kept, k)
    ensures |Placed(blocks, k, b)| == if k == |blocks| then |blocks| + 1 else |blocks|
    ensures NothingBeyond(|Placed(blocks, k, b)|, received + got, sent + out, held + kept)
  {
    hide About;
  }

  function Placed(blocks: seq<BlockState>, k: nat, b: BlockState): seq<BlockState>
    requires k <= |blocks|
  {
    if k == |blocks| then blocks + [b] else blocks[k := b]
  }

  lemma TouchBlocks(blocks: seq<BlockState>, received: seq<Body>, sent: seq<Body>, held: seq<Body>, auth: Authority,
                    k: nat, b: BlockState, got: seq<Body>, out: seq<Body>, kept: seq<Body>)
    requires BlocksInv(blocks, received, sent, held, auth) && k <= |blocks|
    requires BlockInv(b, k, About(received, k) + got, About(sent, k) + out, About(held, k) + kept, auth)
    requires Touches(received, got, k) && Touches(sent, out, k) && Touches(held, kept, k)
    ensures BlocksInv(Placed(blocks, k, b), received + got, sent + out, held + kept, auth)
  {
    hide BlockInv, About;
    var after := Placed(blocks, k, b);
    forall j | 0 <= j < |after|
      ensures BlockInv(after[j], j, About(received + got, j), About(sent + out, j), About(held + kept, j), auth)
    {
      if j != k {
        assert About(received + got, j) == About(received, j);
        assert About(sent + out, j) == About(sent, j);
        assert About(held + kept, j) == About(held, j);
        assert after[j] == blocks[j];
      }
    }
  }

  lemma TouchHead(blocks: seq<BlockState>, received: seq<Body>, sent: seq<Body>, held: seq<Body>,
                  k: nat, got: seq<Body>, out: seq<Body>, kept: seq<Body>)
    requires HeadInv(|blocks|, received, sent, held) && k <= |blocks|
    requires AllAbout(got, k) && AllAbout(out, k) && AllAbout(kept, k)
    requires Announced(got) == Announced(out) + Announced(kept) == if k == |blocks| then 1 else 0
    ensures HeadInv(if k == |blocks| then |blocks| + 1 else |blocks|, received + got, sent + out, held + kept)
  {
    hide Announced, AllAbout;
    HeadAppend(received, got);
    HeadAppend(sent, out);
    HeadAppend(held, kept);
    NoHead(got, k);
    NoHead(out, k);
    AboutIsOpen(out, k);
  }

  lemma AboutIsOpen(bodies: seq<Body>, k: nat)
    requires AllAbout(bodies, k)
    ensures AllOpen(bodies)
  {
  }

  lemma {:induction false} NoHead(bodies: seq<Body>, k: nat)
    requires AllAbout(bodies, k)
    ensures OpenedBy(bodies) == None && StopIn(bodies) == None
  {
    if bodies != [] {
      assert bodies[0] in bodies;
      NoHead(bodies[1..], k);
    }
  }

  lemma TouchHeld(blocks: seq<BlockState>, held: seq<Body>, k: nat, b: BlockState, kept: seq<Body>)
    requires HeldOk(blocks, held) && k <= |blocks| && AllAbout(kept, k)
    requires k < |blocks| ==> b.raw == blocks[k].raw
    requires kept != [] ==> b.raw.ToolUse?
    ensures HeldOk(Placed(blocks, k, b), held + kept)
  {
  }

  // ---------- The steps one block can take ----------

  lemma StartsBlock(raw: Block, k: nat, auth: Authority)
    requires raw.TextBlock? ==> raw.text == ""
    ensures var b := BlockState(raw, false, [], OPENED, "");
            var e := [BlockStart(k, raw)];
            && BlockInv(b, k, [] + e, [] + (if raw.TextBlock? then e else []), [] + (if raw.TextBlock? then [] else e), auth)
            && AllAbout(e, k) && Announced(e) == 1 && Announced([]) == 0 && AllAbout([], k)
  {
    OpenedFaithful(auth);
    hide Faithful;
    var e := [BlockStart(k, raw)];
    var b := BlockState(raw, false, [], OPENED, "");
    assert [] + e == e && e + [] == e;
    LastText([], BlockStart(k, raw));
    assert Join(b.chunks) == "";
    assert e[1..] == [];
    if raw.TextBlock? {
      assert ProseShape([] + e, k, raw, false);
      assert ProseInv(b, k, [] + e, [] + e, [] + [], auth);
    } else {
      assert Held(b, k) == e;
      assert CallInv(b, k, [] + e, [] + [], [] + e);
    }
  }

  lemma LastText(bodies: seq<Body>, b: Body)
    ensures TextOf(bodies + [b]) == TextOf(bodies) + (if b.TextDelta? then b.text else "")
    ensures JsonOf(bodies + [b]) == JsonOf(bodies) + (if b.JsonDelta? then b.partial else "")
  {
    TextAppend(bodies, [b]);
    assert [b][1..] == [];
    assert TextOf([]) == "" && JsonOf([]) == "";
  }

  /** A prose block takes one delta: what it releases is sent on, if anything. */
  lemma FeedsBlock(b: BlockState, k: nat, received: seq<Body>, sent: seq<Body>, held: seq<Body>, auth: Authority, value: string)
    requires BlockInv(b, k, received, sent, held, auth) && b.raw.TextBlock? && !b.done
    ensures var (after, text) := b.buffer.Feed(value, false, auth);
            BlockInv(b.(buffer := after), k, received + [TextDelta(k, value)],
                     sent + (if text == "" then [] else [TextDelta(k, text)]), held, auth)
  {
    hide Faithful, Buffer.Feed, TextOf, JsonOf;
    FeedKeeps(b.buffer, value, false, auth);
    var (after, text) := b.buffer.Feed(value, false, auth);
    LastText(received, TextDelta(k, value));
    LastText(sent, TextDelta(k, text));
    if text == "" {
      assert sent + [] == sent;
      assert b.buffer.text + text == b.buffer.text;
    }
  }

  /** A prose block stops: what it still held goes out before its stop event. */
  lemma StopsProse(b: BlockState, k: nat, received: seq<Body>, sent: seq<Body>, held: seq<Body>, auth: Authority)
    requires BlockInv(b, k, received, sent, held, auth) && b.raw.TextBlock? && !b.done
    ensures var (after, text) := b.buffer.Feed("", true, auth);
            BlockInv(b.(buffer := after, done := true), k, received + [BlockStop(k)],
                     sent + ((if text == "" then [] else [TextDelta(k, text)]) + [BlockStop(k)]), held, auth)
  {
    hide Faithful, Buffer.Feed, TextOf, JsonOf;
    FeedKeeps(b.buffer, "", true, auth);
    var (after, text) := b.buffer.Feed("", true, auth);
    LastText(received, BlockStop(k));
    var first := if text == "" then [] else [TextDelta(k, text)];
    LastText(sent, TextDelta(k, text));
    LastText(sent + first, BlockStop(k));
    assert sent + (first + [BlockStop(k)]) == (sent + first) + [BlockStop(k)];
    assert b.buffer.raw + "" == b.buffer.raw;
    if text == "" {
      assert sent + first == sent;
      assert b.buffer.text + text == b.buffer.text;
    }
  }

  /** A call takes one fragment of its arguments: it is held. */
  lemma HoldsFragment(b: BlockState, k: nat, received: seq<Body>, sent: seq<Body>, held: seq<Body>, auth: Authority, partial: string)
    requires BlockInv(b, k, received, sent, held, auth) && b.raw.ToolUse? && !b.done
    ensures BlockInv(b.(chunks := b.chunks + [partial]), k, received + [JsonDelta(k, partial)], sent,
                     held + [JsonDelta(k, partial)], auth)
  {
    hide TextOf, JsonOf, Join;
    LastText(received, JsonDelta(k, partial));
    JoinSnoc(b.chunks, partial);
    assert HeldDeltas(k, b.chunks + [partial]) == HeldDeltas(k, b.chunks) + [JsonDelta(k, partial)];
  }

  lemma StopsCall(b: BlockState, k: nat, received: seq<Body>, sent: seq<Body>, held: seq<Body>, auth: Authority)
    requires BlockInv(b, k, received, sent, held, auth) && b.raw.ToolUse? && !b.done
    ensures BlockInv(b.(done := true), k, received + [BlockStop(k)], sent, held + [BlockStop(k)], auth)
  {
    hide TextOf, JsonOf, Join;
    LastText(received, BlockStop(k));
  }

  // ---------- Counters ----------

  function ProseTally(blocks: seq<BlockState>): Tally {
    if blocks == [] then NOTHING else blocks[0].buffer.counts.Plus(ProseTally(blocks[1..]))
  }

  lemma {:induction false} ProseTallyGrows(blocks: seq<BlockState>, k: nat, b: BlockState, x: Tally)
    requires k < |blocks| && b.buffer.counts == blocks[k].buffer.counts.Plus(x)
    ensures ProseTally(blocks[k := b]) == ProseTally(blocks).Plus(x)
  {
    hide Tally.Plus;
    var rest := ProseTally(blocks[1..]);
    if k == 0 {
      assert blocks[0 := b][1..] == blocks[1..];
      PlusLaws(blocks[0].buffer.counts, x, rest);
      PlusLaws(x, rest, NOTHING);
      PlusLaws(blocks[0].buffer.counts, rest, x);
    } else {
      assert blocks[k := b][1..] == blocks[1..][k - 1 := b];
      ProseTallyGrows(blocks[1..], k - 1, b, x);
      PlusLaws(blocks[0].buffer.counts, rest, x);
    }
  }

  lemma {:induction false} ProseTallySnoc(blocks: seq<BlockState>, b: BlockState)
    ensures ProseTally(blocks + [b]) == ProseTally(blocks).Plus(b.buffer.counts)
  {
    hide Tally.Plus;
    PlusLaws(b.buffer.counts, NOTHING, NOTHING);
    if blocks == [] {
      assert [b][1..] == [];
      assert blocks + [b] == [b];
    } else {
      assert (blocks + [b])[1..] == blocks[1..] + [b];
      ProseTallySnoc(blocks[1..], b);
      PlusLaws(blocks[0].buffer.counts, ProseTally(blocks[1..]), b.buffer.counts);
    }
  }
}
