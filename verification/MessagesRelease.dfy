/** Releasing held calls, and why a completed Messages stream is the restored message. */
module MessagesRelease {
  import opened Text
  import opened Tokens
  import opened Restoration
  import opened TokenStream
  import opened Json
  import opened MessagesProtocol
  import opened MessagesInvariants
  import R = ResponsesProtocol

  // ---------- Restoring the calls ----------

  function ArgumentsOf(b: BlockState): string { OrEmpty(Join(b.chunks)) }

  function StateTool(b: BlockState, env: Environment): R.ToolResult
    requires b.raw.ToolUse?
  {
    env.tools(R.Call(b.raw.name, ArgumentsOf(b), false))
  }

  function StateCalls(blocks: seq<BlockState>): seq<R.Call> {
    if blocks == [] then []
    else (if blocks[0].raw.ToolUse? then [R.Call(blocks[0].raw.name, ArgumentsOf(blocks[0]), false)] else []) + StateCalls(blocks[1..])
  }

  /** A call whose arguments decode before and after the registry restored them. */
  predicate CallAccepted(b: BlockState, env: Environment) {
    b.raw.ToolUse? ==>
      && env.parse(ArgumentsOf(b)).Some?
      && StateTool(b, env).ToolRestored?
      && env.parse(StateTool(b, env).arguments).Some?
  }

  function WithRestored(b: BlockState, env: Environment): BlockState {
    if b.raw.ToolUse? && StateTool(b, env).ToolRestored? then b.(restored := StateTool(b, env).arguments) else b
  }

  function ToolShare(b: BlockState, env: Environment): Tally {
    if b.raw.ToolUse? && StateTool(b, env).ToolRestored? then NOTHING.(restored := StateTool(b, env).restored) else NOTHING
  }

  function ToolTally(blocks: seq<BlockState>, env: Environment): Tally {
    if blocks == [] then NOTHING else ToolShare(blocks[0], env).Plus(ToolTally(blocks[1..], env))
  }

  function ToolSize(b: BlockState, env: Environment): nat {
    if b.raw.ToolUse? && StateTool(b, env).ToolRestored? then Utf8Length(StateTool(b, env).arguments) else 0
  }

  /** The bytes of all restored arguments. */
  function ToolBytes(blocks: seq<BlockState>, env: Environment): nat {
    if blocks == [] then 0 else ToolSize(blocks[0], env) + ToolBytes(blocks[1..], env)
  }

  lemma {:induction false} ToolBytesSnoc(blocks: seq<BlockState>, k: nat, env: Environment)
    requires k < |blocks|
    ensures ToolBytes(blocks[..k + 1], env) == ToolBytes(blocks[..k], env) + ToolSize(blocks[k], env)
    ensures ToolBytes(blocks[..k + 1], env) <= ToolBytes(blocks, env)
    decreases k
  {
    hide ToolSize;
    if k == 0 {
      assert blocks[..1] == [blocks[0]] && blocks[..0] == [];
      assert [blocks[0]][1..] == [];
    } else {
      var rest := blocks[1..];
      assert blocks[..k + 1][1..] == rest[..k] && blocks[..k][1..] == rest[..k - 1] && rest[k - 1] == blocks[k];
      ToolBytesSnoc(rest, k - 1, env);
    }
  }

  lemma {:induction false} ToolTallySnoc(blocks: seq<BlockState>, k: nat, env: Environment)
    requires k < |blocks|
    ensures ToolTally(blocks[..k + 1], env) == ToolTally(blocks[..k], env).Plus(ToolShare(blocks[k], env))
    decreases k
  {
    hide ToolShare, Tally.Plus;
    PlusLaws(ToolShare(blocks[k], env), NOTHING, NOTHING);
    if k == 0 {
      assert blocks[..1] == [blocks[0]] && blocks[..0] == [];
      assert [blocks[0]][1..] == [];
    } else {
      var rest := blocks[1..];
      assert blocks[..k + 1][1..] == rest[..k] && blocks[..k][1..] == rest[..k - 1] && rest[k - 1] == blocks[k];
      ToolTallySnoc(rest, k - 1, env);
      PlusLaws(ToolShare(blocks[0], env), ToolTally(rest[..k - 1], env), ToolShare(blocks[k], env));
    }
  }

  // ---------- Rewriting the held events ----------

  function ReleaseOne(b: Body, restored: string, deltaSent: bool): (seq<Body>, bool) {
    match b
    case JsonDelta(index, _) => if deltaSent then ([], true) else ([JsonDelta(index, restored)], true)
    case BlockStop(index) => if deltaSent then ([b], true) else ([JsonDelta(index, restored), b], true)
    case _ => ([b], deltaSent)
  }

  /** All held events in order; `deltaSent` lists the blocks whose one delta has gone out. */
  function ReleaseAll(held: seq<Body>, blocks: seq<BlockState>, deltaSent: set<int>): seq<Body>
    requires HeldOk(blocks, held)
  {
    if held == [] then []
    else
      var b := held[0];
      assert b in held;
      var k := Index(b);
      var (out, now) := ReleaseOne(b, blocks[k].restored, k in deltaSent);
      out + ReleaseAll(held[1..], blocks, if now then deltaSent + {k} else deltaSent)
  }

  function ReleaseFor(held: seq<Body>, restored: string, deltaSent: bool): seq<Body> {
    if held == [] then []
    else
      var (out, now) := ReleaseOne(held[0], restored, deltaSent);
      out + ReleaseFor(held[1..], restored, now)
  }

  lemma ReleaseOneAbout(b: Body, restored: string, deltaSent: bool)
    ensures AllAbout(ReleaseOne(b, restored, deltaSent).0, Index(b))
    ensures Announced(ReleaseOne(b, restored, deltaSent).0) == Announced([b])
    ensures !b.JsonDelta? && !b.BlockStop? ==> ReleaseOne(b, restored, deltaSent).1 == deltaSent
  {
  }

  /** What is released about one block is what was held about it, rewritten. */
  lemma {:induction false} ReleaseAbout(held: seq<Body>, blocks: seq<BlockState>, deltaSent: set<int>, k: nat)
    requires HeldOk(blocks, held) && k < |blocks|
    ensures About(ReleaseAll(held, blocks, deltaSent), k) == ReleaseFor(About(held, k), blocks[k].restored, k in deltaSent)
  {
    hide ReleaseOne, Index;
    if held != [] {
      var b := held[0];
      assert b in held;
      var j := Index(b);
      var (out, now) := ReleaseOne(b, blocks[j].restored, j in deltaSent);
      var sent' := if now then deltaSent + {j} else deltaSent;
      ReleaseOneAbout(b, blocks[j].restored, j in deltaSent);
      ReleaseAbout(held[1..], blocks, sent', k);
      AboutAppend(out, ReleaseAll(held[1..], blocks, sent'), k);
      AboutOne(out, j, k);
      SentStays(b, blocks[j].restored, j in deltaSent);
      var rest := About(held[1..], k);
      assert About(held, k) == (if j == k then [b] else []) + rest;
      if j == k {
        ReleaseForCons(b, rest, blocks[k].restored, k in deltaSent);
      } else {
        assert About(held, k) == rest;
        assert [] + About(ReleaseAll(held[1..], blocks, sent'), k) == About(ReleaseAll(held[1..], blocks, sent'), k);
      }
    }
  }

  lemma ReleaseForCons(b: Body, rest: seq<Body>, restored: string, deltaSent: bool)
    ensures var (out, now) := ReleaseOne(b, restored, deltaSent);
            ReleaseFor([b] + rest, restored, deltaSent) == out + ReleaseFor(rest, restored, now)
  {
    hide ReleaseOne;
    assert ([b] + rest)[1..] == rest;
  }

  lemma SentStays(b: Body, restored: string, deltaSent: bool)
    ensures deltaSent ==> ReleaseOne(b, restored, deltaSent).1
  {
  }

  lemma {:induction false} ReleaseHead(held: seq<Body>, blocks: seq<BlockState>, deltaSent: set<int>)
    requires HeldOk(blocks, held)
    ensures Announced(ReleaseAll(held, blocks, deltaSent)) == Announced(held)
    ensures OpenedBy(ReleaseAll(held, blocks, deltaSent)) == None && StopIn(ReleaseAll(held, blocks, deltaSent)) == None
  {
    hide ReleaseOne, Index, AllAbout;
    if held != [] {
      var b := held[0];
      assert b in held;
      var j := Index(b);
      var (out, now) := ReleaseOne(b, blocks[j].restored, j in deltaSent);
      var sent' := if now then deltaSent + {j} else deltaSent;
      ReleaseOneAbout(b, blocks[j].restored, j in deltaSent);
      ReleaseHead(held[1..], blocks, sent');
      NoHead(out, j);
      HeadAppend(out, ReleaseAll(held[1..], blocks, sent'));
      assert held == [b] + held[1..];
      HeadAppend([b], held[1..]);
    }
  }

  /** Once the delta is out, the remaining fragments vanish. */
  lemma {:induction false} FragmentsVanish(k: int, chunks: seq<string>, restored: string)
    ensures ReleaseFor(HeldDeltas(k, chunks) + [BlockStop(k)], restored, true) == [BlockStop(k)]
  {
    var held := HeldDeltas(k, chunks) + [BlockStop(k)];
    if chunks == [] {
      assert held == [BlockStop(k)] && held[1..] == [];
    } else {
      assert held[0] == JsonDelta(k, chunks[0]) && held[1..] == HeldDeltas(k, chunks[1..]) + [BlockStop(k)];
      FragmentsVanish(k, chunks[1..], restored);
    }
  }

  /** However its arguments were cut up, a finished call leaves as start, one delta, stop. */
  lemma ReleasedOnce(b: BlockState, k: int)
    requires b.done && b.raw.ToolUse?
    ensures ReleaseFor(Held(b, k), b.restored, false) == [BlockStart(k, b.raw), JsonDelta(k, b.restored), BlockStop(k)]
  {
    var start, stop, delta := BlockStart(k, b.raw), BlockStop(k), JsonDelta(k, b.restored);
    var rest := HeldDeltas(k, b.chunks) + [stop];
    assert Held(b, k) == [start] + rest;
    ReleaseForCons(start, rest, b.restored, false);
    if b.chunks == [] {
      assert rest == [stop] + [];
      ReleaseForCons(stop, [], b.restored, false);
    } else {
      assert rest == [JsonDelta(k, b.chunks[0])] + (HeldDeltas(k, b.chunks[1..]) + [stop]);
      ReleaseForCons(JsonDelta(k, b.chunks[0]), HeldDeltas(k, b.chunks[1..]) + [stop], b.restored, false);
      FragmentsVanish(k, b.chunks[1..], b.restored);
    }
  }

  // ---------- The environment a comparison with the buffered path needs ----------

  /** The registry's answer depends on what the arguments decode to, not on how they are written. */
  ghost predicate SameAnswer(a: R.ToolResult, b: R.ToolResult, env: Environment) {
    || (a.ToolRefused? && b.ToolRefused?)
    || (a.ToolRestored? && b.ToolRestored? && a.restored == b.restored && env.parse(a.arguments) == env.parse(b.arguments))
  }

  ghost predicate Lawful(env: Environment) {
    && env.parse("") == None
    && (forall a: string | env.parse(a).Some? :: env.parse(a).value.Obj?)
    && (forall a: string | env.parse(a).Some? :: env.parse(env.dump(env.parse(a).value)) == env.parse(a))
    && (forall name: string, a: string, b: string | env.parse(a).Some? && env.parse(a) == env.parse(b) ::
          SameAnswer(env.tools(R.Call(name, a, false)), env.tools(R.Call(name, b, false)), env))
  }

  // ---------- The completed state ----------

  /** A block of an accepted stream, with everything said and held about it. */
  ghost predicate BlockCompleted(b: BlockState, k: int, received: seq<Body>, sent: seq<Body>, held: seq<Body>, env: Environment) {
    && b.done && CallAccepted(b, env)
    && BlockInv(b, k, received, sent, held, env.auth)
    && (b.raw.ToolUse? ==> b.restored == StateTool(b, env).arguments)
  }

  /** What the provider's events describe, and what the client's events describe. */
  lemma BlockRefines(b: BlockState, k: int, received: seq<Body>, sent: seq<Body>, held: seq<Body>, env: Environment)
    requires BlockCompleted(b, k, received, sent, held, env) && Lawful(env)
    ensures BlockOf(received, env).Some?
    ensures var raw := BlockOf(received, env).value;
            && BlockAccepted(raw, env)
            && BlockOf(sent + ReleaseFor(held, b.restored, false), env) == Some(RestoreBlock(raw, env))
            && BlockTally(raw, env) == b.buffer.counts.Plus(ToolShare(b, env))
  {
    hide Lawful, ReleaseFor;
    if b.raw.TextBlock? {
      ProseRefines(b, k, received, sent, held, env);
    } else {
      CallRefines(b, k, received, sent, held, env);
    }
  }

  lemma ProseRefines(b: BlockState, k: int, received: seq<Body>, sent: seq<Body>, held: seq<Body>, env: Environment)
    requires BlockCompleted(b, k, received, sent, held, env) && b.raw.TextBlock?
    ensures BlockOf(received, env) == Some(TextBlock(b.buffer.raw, b.raw.extras))
    ensures BlockOf(sent + ReleaseFor(held, b.restored, false), env)
            == Some(TextBlock(Restored(b.buffer.raw, env.auth), b.raw.extras))
    ensures BlockTally(TextBlock(b.buffer.raw, b.raw.extras), env) == b.buffer.counts.Plus(ToolShare(b, env))
  {
    assert ReleaseFor([], b.restored, false) == [] && sent + [] == sent;
    hide Faithful, Restored, TallyOf, Lex, ReleaseFor, TextOf, JsonOf;
    ClosedMeans(b.buffer, env.auth);
    PlusLaws(b.buffer.counts, NOTHING, NOTHING);
  }

  lemma CallRefines(b: BlockState, k: int, received: seq<Body>, sent: seq<Body>, held: seq<Body>, env: Environment)
    requires BlockCompleted(b, k, received, sent, held, env) && b.raw.ToolUse? && Lawful(env)
    ensures BlockOf(received, env).Some?
    ensures var raw := BlockOf(received, env).value;
            && BlockAccepted(raw, env)
            && BlockOf(sent + ReleaseFor(held, b.restored, false), env) == Some(RestoreBlock(raw, env))
            && BlockTally(raw, env) == b.buffer.counts.Plus(ToolShare(b, env))
  {
    hide ReleaseFor, Held, Restored, TallyOf, Lex, Join, TextOf;
    ReleasedOnce(b, k);
    var out := [BlockStart(k, b.raw), JsonDelta(k, b.restored), BlockStop(k)];
    assert sent + out == out;
    OneFragment(b.raw, k, b.restored);
    var a := ArgumentsOf(b);
    var raw := BlockOf(received, env).value;
    assert env.parse(env.dump(raw.input)) == env.parse(a);
    assert SameAnswer(env.tools(R.Call(b.raw.name, env.dump(raw.input), false)), env.tools(R.Call(b.raw.name, a, false)), env);
    assert OrEmpty(b.restored) == b.restored;
    PlusLaws(ToolShare(b, env), NOTHING, NOTHING);
  }

  lemma OneFragment(raw: Block, k: int, restored: string)
    ensures JsonOf([BlockStart(k, raw), JsonDelta(k, restored), BlockStop(k)]) == restored
  {
    var all := [BlockStart(k, raw), JsonDelta(k, restored), BlockStop(k)];
    var last := [BlockStop(k)];
    assert last[1..] == [];
    assert JsonOf(last) == JsonOf([]);
    assert all[1..] == [JsonDelta(k, restored)] + last;
    assert ([JsonDelta(k, restored)] + last)[1..] == last;
    assert restored + "" == restored;
  }

  // ---------- The whole message ----------

  ghost predicate AllCompleted(blocks: seq<BlockState>, received: seq<Body>, sent: seq<Body>, held: seq<Body>, env: Environment) {
    forall k | 0 <= k < |blocks| ::
      BlockCompleted(blocks[k], k, About(received, k), About(sent, k), About(held, k), env)
  }

  /** What leaves at the end: the rewritten calls, the stop with its explanation restored, and the last event. */
  function Released(held: seq<Body>, blocks: seq<BlockState>, stop: Stop, usage: string, auth: Authority): seq<Body>
    requires HeldOk(blocks, held)
  {
    ReleaseAll(held, blocks, {}) + [MessageDelta(RestoreStop(stop, auth), usage), MessageStop]
  }

  lemma ClientSees(blocks: seq<BlockState>, sent: seq<Body>, held: seq<Body>, stop: Stop, usage: string, auth: Authority, k: nat)
    requires HeldOk(blocks, held) && k < |blocks|
    ensures About(sent + Released(held, blocks, stop, usage, auth), k)
            == About(sent, k) + ReleaseFor(About(held, k), blocks[k].restored, false)
    ensures About(Released(held, blocks, stop, usage, auth), k) == ReleaseFor(About(held, k), blocks[k].restored, false)
  {
    var end := [MessageDelta(RestoreStop(stop, auth), usage), MessageStop];
    assert AllAbout(end, -1);
    AboutOne(end, -1, k);
    hide About, RestoreStop, ReleaseFor, ReleaseAll, HeldOk, AllAbout;
    ReleaseAbout(held, blocks, {}, k);
    AboutAppend(ReleaseAll(held, blocks, {}), end, k);
    AboutAppend(sent, Released(held, blocks, stop, usage, auth), k);
  }

  lemma ClientHead(blocks: seq<BlockState>, received: seq<Body>, sent: seq<Body>, held: seq<Body>, stop: Stop, usage: string, auth: Authority)
    requires HeldOk(blocks, held) && HeadInv(|blocks|, received, sent, held)
    ensures var all := sent + Released(held, blocks, stop, usage, auth);
            && Announced(all) == |blocks|
            && (OpenedBy(received).Some? ==> OpenedBy(all) == OpenedBy(received))
            && StopIn(all) == Some(RestoreStop(stop, auth))
  {
    var shown := RestoreStop(stop, auth);
    var end := [MessageDelta(shown, usage), MessageStop];
    EndHead(shown, usage);
    hide Announced, OpenedBy, StopIn, RestoreStop, ReleaseAll;
    ReleaseHead(held, blocks, {});
    HeadAppend(ReleaseAll(held, blocks, {}), end);
    HeadAppend(sent, Released(held, blocks, stop, usage, auth));
  }

  lemma EndHead(stop: Stop, usage: string)
    ensures var end := [MessageDelta(stop, usage), MessageStop];
            Announced(end) == 0 && OpenedBy(end) == None && StopIn(end) == Some(stop)
  {
    var end := [MessageDelta(stop, usage), MessageStop];
    assert end[1..] == [MessageStop];
    assert end[1..][1..] == [];
    assert OpenedBy(end[1..]) == OpenedBy([]) && Announced(end[1..]) == Announced([]);
  }

  /** The provider's message, as its own events describe it. */
  ghost function Described(n: nat, received: seq<Body>, env: Environment): (m: Message)
    requires OpenedBy(received).Some?
    requires forall k | 0 <= k < n :: BlockOf(About(received, k), env).Some?
    ensures |m.content| == n && forall k | 0 <= k < n :: m.content[k] == BlockOf(About(received, k), env).value
    ensures m == OpenedBy(received).value.(content := m.content, stop := StopIn(received))
  {
    OpenedBy(received).value.(
      content := seq(n, k requires 0 <= k < n => BlockOf(About(received, k), env).value), stop := StopIn(received))
  }

  ghost function Shown(m: Message, env: Environment): (r: Message)
    requires m.stop.Some? && forall k | 0 <= k < |m.content| :: BlockAccepted(m.content[k], env)
    ensures RestoresMessage(m, r, env)
  {
    m.(content := seq(|m.content|, k requires 0 <= k < |m.content| => RestoreBlock(m.content[k], env)),
       stop := Some(RestoreStop(m.stop.value, env.auth)))
  }

  /** A client of the stream assembles exactly what the buffered path makes of the provider's message. */
  lemma MessageRefines(blocks: seq<BlockState>, received: seq<Body>, sent: seq<Body>, held: seq<Body>, usage: string, env: Environment)
    requires Lawful(env) && HeldOk(blocks, held) && HeadInv(|blocks|, received, sent, held)
    requires AllCompleted(blocks, received, sent, held, env)
    requires OpenedBy(received).Some? && StopIn(received).Some?
    ensures exists m, shown ::
              && Assembles(received, m, env) && RestoresMessage(m, shown, env)
              && Assembles(sent + Released(held, blocks, StopIn(received).value, usage, env.auth), shown, env)
              && MessageTally(m, env)
                 == ProseTally(blocks).Plus(ToolTally(blocks, env)).Plus(StopTally(StopIn(received).value, env.auth))
  {
    hide *;
    AllRefine(blocks, received, sent, held, env);
    var stop := StopIn(received).value;
    var m := Described(|blocks|, received, env);
    AssembledBy(blocks, received, sent, held, m, env);
    var shown := Shown(m, env);
    ClientAssembles(blocks, received, sent, held, usage, env, m, shown);
    ContentBalances(m.content, blocks, env);
    TallyIs(m, env, stop);
  }

  lemma TallyIs(m: Message, env: Environment, stop: Stop)
    requires m.stop == Some(stop)
    ensures MessageTally(m, env) == ContentTally(m.content, env).Plus(StopTally(stop, env.auth))
  {
  }

  /** Every block refines, stated for all of them at once. */
  lemma AllRefine(blocks: seq<BlockState>, received: seq<Body>, sent: seq<Body>, held: seq<Body>, env: Environment)
    requires Lawful(env) && AllCompleted(blocks, received, sent, held, env)
    ensures forall k | 0 <= k < |blocks| :: BlockOf(About(received, k), env).Some?
    ensures forall k | 0 <= k < |blocks| :: Refined(blocks[k], BlockOf(About(received, k), env).value,
                                                    About(sent, k) + ReleaseFor(About(held, k), blocks[k].restored, false), env)
  {
    hide BlockCompleted, Lawful, About, BlockOf, ReleaseFor, BlockTally, BlockAccepted, ToolShare;
    forall k | 0 <= k < |blocks|
      ensures BlockOf(About(received, k), env).Some?
      ensures Refined(blocks[k], BlockOf(About(received, k), env).value,
                      About(sent, k) + ReleaseFor(About(held, k), blocks[k].restored, false), env)
    {
      BlockRefines(blocks[k], k, About(received, k), About(sent, k), About(held, k), env);
    }
  }

  ghost predicate Refined(b: BlockState, raw: Block, seen: seq<Body>, env: Environment) {
    && BlockAccepted(raw, env)
    && BlockOf(seen, env) == Some(RestoreBlock(raw, env))
    && BlockTally(raw, env) == b.buffer.counts.Plus(ToolShare(b, env))
  }

  lemma AssembledBy(blocks: seq<BlockState>, received: seq<Body>, sent: seq<Body>, held: seq<Body>, m: Message, env: Environment)
    requires HeadInv(|blocks|, received, sent, held) && OpenedBy(received).Some? && StopIn(received).Some?
    requires forall k | 0 <= k < |blocks| :: BlockOf(About(received, k), env).Some?
    requires forall k | 0 <= k < |blocks| :: Refined(blocks[k], BlockOf(About(received, k), env).value,
                                                     About(sent, k) + ReleaseFor(About(held, k), blocks[k].restored, false), env)
    requires |m.content| == |blocks| && forall k | 0 <= k < |blocks| :: m.content[k] == BlockOf(About(received, k), env).value
    requires m == OpenedBy(received).value.(content := m.content, stop := StopIn(received))
    ensures Assembles(received, m, env)
    ensures m.stop == StopIn(received)
    ensures forall k | 0 <= k < |m.content| :: BlockAccepted(m.content[k], env)
    ensures forall k | 0 <= k < |blocks| ::
              BlockTally(m.content[k], env) == blocks[k].buffer.counts.Plus(ToolShare(blocks[k], env))
  {
    hide About, BlockOf, ReleaseFor, BlockTally, BlockAccepted, ToolShare, OpenedBy, StopIn, Announced;
  }

  lemma ClientAssembles(blocks: seq<BlockState>, received: seq<Body>, sent: seq<Body>, held: seq<Body>, usage: string,
                        env: Environment, m: Message, shown: Message)
    requires HeldOk(blocks, held) && HeadInv(|blocks|, received, sent, held)
    requires OpenedBy(received).Some? && StopIn(received).Some?
    requires Assembles(received, m, env) && RestoresMessage(m, shown, env)
    requires forall k | 0 <= k < |blocks| :: BlockOf(About(received, k), env).Some?
    requires forall k | 0 <= k < |blocks| :: Refined(blocks[k], BlockOf(About(received, k), env).value,
                                                     About(sent, k) + ReleaseFor(About(held, k), blocks[k].restored, false), env)
    ensures Assembles(sent + Released(held, blocks, StopIn(received).value, usage, env.auth), shown, env)
  {
    hide About, BlockOf, ReleaseFor, BlockTally, BlockAccepted, ToolShare, OpenedBy, StopIn, Announced, Released, RestoreBlock, RestoreStop, HeldOk;
    var stop := StopIn(received).value;
    ClientHead(blocks, received, sent, held, stop, usage, env.auth);
    forall k | 0 <= k < |blocks|
      ensures BlockOf(About(sent + Released(held, blocks, stop, usage, env.auth), k), env) == Some(shown.content[k])
    {
      ClientSees(blocks, sent, held, stop, usage, env.auth, k);
    }
  }

  lemma {:induction false} ContentBalances(content: seq<Block>, blocks: seq<BlockState>, env: Environment)
    requires |content| == |blocks|
    requires forall k | 0 <= k < |blocks| ::
               BlockTally(content[k], env) == blocks[k].buffer.counts.Plus(ToolShare(blocks[k], env))
    ensures ContentTally(content, env) == ProseTally(blocks).Plus(ToolTally(blocks, env))
  {
    hide BlockTally, ToolShare, Tally.Plus;
    PlusLaws(NOTHING, NOTHING, NOTHING);
    if blocks != [] {
      ContentBalances(content[1..], blocks[1..], env);
      TallySwap(blocks[0].buffer.counts, ToolShare(blocks[0], env), ProseTally(blocks[1..]), ToolTally(blocks[1..], env));
    }
  }

  lemma TallySwap(a: Tally, b: Tally, x: Tally, y: Tally)
    ensures a.Plus(b).Plus(x.Plus(y)) == a.Plus(x).Plus(b.Plus(y))
  {
    hide Tally.Plus;
    PlusLaws(a, b, x.Plus(y));
    PlusLaws(b, x, y);
    PlusLaws(x, b, y);
    PlusLaws(a, x, b.Plus(y));
  }

  /** Setting the restored arguments changes nothing a run keeps. */
  lemma RestoredKeeps(b: BlockState, k: int, received: seq<Body>, sent: seq<Body>, held: seq<Body>, env: Environment)
    requires BlockInv(b, k, received, sent, held, env.auth) && b.done && CallAccepted(b, env)
    ensures BlockCompleted(WithRestored(b, env), k, received, sent, held, env)
    ensures ToolShare(WithRestored(b, env), env) == ToolShare(b, env)
  {
    hide Faithful, TextOf, JsonOf, Join;
  }
}
