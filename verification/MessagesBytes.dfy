/** The byte budget of a Messages run: what has been charged is what has been released. */
module MessagesBytes {
  import opened Text
  import opened Tokens
  import opened Restoration
  import opened TokenStream
  import opened MessagesProtocol
  import opened MessagesInvariants
  import opened MessagesRelease
  import opened MessagesSteps
  import B = BufferedMessage

  function ProseBytes(blocks: seq<BlockState>): nat {
    if blocks == [] then 0 else Utf8Length(blocks[0].buffer.text) + ProseBytes(blocks[1..])
  }

  function ExtraBytes(received: seq<Body>, auth: Authority): nat {
    if StopIn(received).Some? then B.StopBytes(StopIn(received).value, auth) else 0
  }

  /** Everything released or set aside for release so far. */
  function RunBytes(r: Run, auth: Authority): nat { ProseBytes(r.blocks) + ExtraBytes(r.received, auth) }

  lemma BytesSplit(r: Run, auth: Authority)
    ensures RunBytes(r, auth) == ProseBytes(r.blocks) + ExtraBytes(r.received, auth)
  {
  }

  lemma {:induction false} ProseBytesGrows(blocks: seq<BlockState>, k: nat, b: BlockState, x: nat)
    requires k < |blocks| && Utf8Length(b.buffer.text) == Utf8Length(blocks[k].buffer.text) + x
    ensures ProseBytes(blocks[k := b]) == ProseBytes(blocks) + x
  {
    hide Utf8Length;
    if k == 0 {
      assert blocks[0 := b][1..] == blocks[1..];
    } else {
      assert blocks[k := b][1..] == blocks[1..][k - 1 := b];
      ProseBytesGrows(blocks[1..], k - 1, b, x);
    }
  }

  lemma {:induction false} ProseBytesSnoc(blocks: seq<BlockState>, b: BlockState)
    ensures ProseBytes(blocks + [b]) == ProseBytes(blocks) + Utf8Length(b.buffer.text)
  {
    hide Utf8Length;
    if blocks == [] {
      assert blocks + [b] == [b] && [b][1..] == [];
    } else {
      assert (blocks + [b])[1..] == blocks[1..] + [b];
      ProseBytesSnoc(blocks[1..], b);
    }
  }

  lemma ExtraSame(received: seq<Body>, b: Body, auth: Authority)
    requires !b.MessageDelta?
    ensures ExtraBytes(received + [b], auth) == ExtraBytes(received, auth)
  {
    HeadAppend(received, [b]);
    assert [b][1..] == [];
    assert StopIn([b]) == None;
    hide StopIn, B.StopBytes;
  }

  // ---------- Step by step ----------

  lemma BytesPass(r: Run, b: Body, auth: Authority)
    requires !b.MessageDelta?
    ensures RunBytes(r.Passed(b), auth) == RunBytes(r, auth)
  {
    hide ExtraBytes, ProseBytes;
    ExtraSame(r.received, b, auth);
  }

  lemma BytesStart(r: Run, raw: Block, auth: Authority)
    ensures RunBytes(r.Started(raw), auth) == RunBytes(r, auth)
  {
    hide ExtraBytes, ProseBytes;
    ExtraSame(r.received, BlockStart(|r.blocks|, raw), auth);
    ProseBytesSnoc(r.blocks, BlockState(raw, false, [], OPENED, ""));
  }

  lemma BytesText(r: Run, k: nat, value: string, final: bool, auth: Authority)
    requires k < |r.blocks|
    ensures RunBytes(r.Texted(k, value, final, auth), auth)
            == RunBytes(r, auth) + Utf8Length(r.blocks[k].buffer.Feed(value, final, auth).1)
  {
    var b, fed := r.blocks[k], Fed(r.blocks[k], value, final, auth);
    var out := b.buffer.Feed(value, final, auth).1;
    assert fed.buffer.text == b.buffer.text + out;
    hide ExtraBytes, ProseBytes, Buffer.Feed, Utf8Length, Fed, TextOut, Buffer.Share;
    Utf8LengthAppend(b.buffer.text, out);
    ExtraSame(r.received, if final then BlockStop(k) else TextDelta(k, value), auth);
    ProseBytesGrows(r.blocks, k, fed, Utf8Length(out));
  }

  lemma BytesCall(r: Run, k: nat, e: Body, auth: Authority)
    requires k < |r.blocks| && (e.BlockStop? || e.JsonDelta?)
    ensures RunBytes(r.Called(k, e), auth) == RunBytes(r, auth)
  {
    hide ExtraBytes, ProseBytes, Utf8Length;
    ExtraSame(r.received, e, auth);
    ProseBytesGrows(r.blocks, k, Taken(r.blocks[k], e), 0);
  }

  lemma BytesClose(r: Run, b: Body, auth: Authority)
    requires b.MessageDelta? && StopIn(r.received).None?
    ensures RunBytes(r.Closed(b, auth), auth) == RunBytes(r, auth) + B.StopBytes(b.stop, auth)
  {
    HeadAppend(r.received, [b]);
    assert StopIn([b]) == Some(b.stop);
    hide StopIn, B.StopBytes, ProseBytes;
  }

  /** Restoring the calls changes neither what the prose nor what the calls cost. */
  lemma {:induction false} BytesRestored(before: seq<BlockState>, after: seq<BlockState>, env: Environment)
    requires |before| == |after| && forall k | 0 <= k < |before| :: after[k] == WithRestored(before[k], env)
    ensures ProseBytes(after) == ProseBytes(before) && ToolBytes(after, env) == ToolBytes(before, env)
  {
    hide Utf8Length;
    if before != [] {
      BytesRestored(before[1..], after[1..], env);
    }
  }
}
