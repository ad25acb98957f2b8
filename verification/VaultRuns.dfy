/** Every interleaving of concurrent requests against one vault, compared with a map that never forgets. */
module VaultRuns {
  import opened Tokens
  import opened LengthPrefix
  import opened Vault
  import R = Restoration

  /** One atomic step of some request, with the clock readings it was computed from. A step that takes the store's lock
      carries the time it does so; a sweep may have read the clock earlier, a read opens its record later. */
  datatype Step =
    | Put(ctx: Context, token: string, tokenVersion: string, value: string, nonce: Nonce, expiresAt: Time)
    | Get(ctx: Context, token: string, tokenVersion: string, opened_: Time)
    | Delete(ctx: Context, token: string)
    | DeleteConversation(ctx: Context)
    | Purge(read: Time)
    | Rotate(ring: KeyRing)

  datatype Timed = Timed(at: Time, step: Step)

  datatype System = System(store: Store, ring: KeyRing)

  /** What the vault's methods do to the store, and what a read answers. */
  function Exec(a: Aead, book: KeyBook, s: System, t: Timed): (System, Option<R.Lookup>)
  {
    match t.step
    case Put(ctx, token, tokenVersion, value, nonce, expiresAt) =>
      var record := Seal(a, book, Entry(ctx, token, tokenVersion, value, expiresAt), s.ring.active, nonce);
      (s.(store := s.store[StorageKey(ctx, token) := Item(record, expiresAt)]), None)
    case Get(ctx, token, tokenVersion, opened_) =>
      var (store, blob) := Fetch(s.store, StorageKey(ctx, token), t.at);
      (s.(store := store),
       Some(if blob.None? then R.Absent else Unseal(a, book, s.ring, ctx, token, tokenVersion, blob.value, opened_)))
    case Delete(ctx, token) => (s.(store := s.store - {StorageKey(ctx, token)}), None)
    case DeleteConversation(ctx) => (s.(store := s.store - Under(s.store, Prefix(ctx))), None)
    case Purge(read) => (s.(store := s.store - Expired(s.store, read)), None)
    case Rotate(ring) => (s.(ring := ring), None)
  }

  /** A step of a trace is a call of the vault; rotation is the operator starting a vault with another ring. */
  method Perform(vault: SurrogateVault, t: Timed) returns (answer: Option<R.Lookup>)
    requires !t.step.Rotate?
    modifies vault, vault.backend
    ensures (System(vault.backend.items, vault.ring), answer)
            == Exec(vault.aead, vault.book, System(old(vault.backend.items), vault.ring), t)
  {
    hide Seal, StorageKey, Unseal, Fetch, Prefix, Expired, Under;
    answer := None;
    match t.step {
      case Put(ctx, token, tokenVersion, value, nonce, expiresAt) =>
        vault.Put(ctx, token, value, tokenVersion, expiresAt - vault.ttl, nonce);
      case Get(ctx, token, tokenVersion, opened_) =>
        var r := vault.Get(ctx, token, tokenVersion, t.at, opened_);
        answer := Some(r);
      case Delete(ctx, token) =>
        vault.Delete(ctx, token);
      case DeleteConversation(ctx) =>
        var _ := vault.DeleteConversation(ctx);
      case Purge(read) =>
        var _ := vault.Purge(read);
    }
  }

  /** The answers of a whole run, in order. */
  function Run(a: Aead, book: KeyBook, s: System, trace: seq<Timed>): seq<R.Lookup>
    decreases |trace|
  {
    if trace == [] then []
    else
      var (next, answer) := Exec(a, book, s, trace[0]);
      (if answer.Some? then [answer.value] else []) + Run(a, book, next, trace[1..])
  }

  // ---------- The map that never forgets ----------

  datatype Slot = Slot(ctx: Context, token: string)

  datatype Record = Record(tokenVersion: string, value: string, expiresAt: Time, version: key_version, nonce: Nonce)

  datatype Ledger = Ledger(records: map<Slot, Record>, ring: KeyRing)

  /** The last put decides, until it expires or is erased; sweeping means nothing here. */
  function Answer(l: Ledger, ctx: Context, token: string, tokenVersion: string, fetched: Time, opened_: Time): R.Lookup {
    var slot := Slot(ctx, token);
    if slot !in l.records || fetched >= l.records[slot].expiresAt then R.Absent
    else
      var r := l.records[slot];
      if r.version !in l.ring.versions then R.MissingKey
      else if r.tokenVersion != tokenVersion || opened_ >= r.expiresAt then R.Absent
      else R.Found(r.value)
  }

  function Note(l: Ledger, t: Timed): (Ledger, Option<R.Lookup>) {
    match t.step
    case Put(ctx, token, tokenVersion, value, nonce, expiresAt) =>
      (l.(records := l.records[Slot(ctx, token) := Record(tokenVersion, value, expiresAt, l.ring.active, nonce)]), None)
    case Get(ctx, token, tokenVersion, opened_) => (l, Some(Answer(l, ctx, token, tokenVersion, t.at, opened_)))
    case Delete(ctx, token) => (l.(records := l.records - {Slot(ctx, token)}), None)
    case DeleteConversation(ctx) => (l.(records := map s | s in l.records && s.ctx != ctx :: l.records[s]), None)
    case Purge(_) => (l, None)
    case Rotate(ring) => (l.(ring := ring), None)
  }

  function Answers(l: Ledger, trace: seq<Timed>): seq<R.Lookup>
    decreases |trace|
  {
    if trace == [] then []
    else
      var (next, answer) := Note(l, trace[0]);
      (if answer.Some? then [answer.value] else []) + Answers(next, trace[1..])
  }

  // ---------- Which traces are runs ----------

  /** Stored identifiers and tokens contain no NUL; an erasure may name any conversation at all. */
  predicate StepOk(t: Timed) {
    match t.step
    case Put(ctx, token, _, _, _, _) => Scoped(ctx) && NulFree(token)
    case Get(ctx, _, _, opened_) => Scoped(ctx) && t.at <= opened_
    case Delete(ctx, _) => Scoped(ctx)
    case DeleteConversation(ctx) => NulFree(ctx.tenant)
    case Purge(read) => read <= t.at
    case Rotate(ring) => ring.Ok()
  }

  /** The lock is taken at non-decreasing times; nothing else is assumed about who does what when. */
  predicate Clocked(trace: seq<Timed>, from: Time) {
    if trace == [] then true
    else from <= trace[0].at && StepOk(trace[0]) && Clocked(trace[1..], trace[0].at)
  }

  lemma {:induction false} ClockedSteps(trace: seq<Timed>, from: Time)
    requires Clocked(trace, from)
    ensures forall t | t in trace :: StepOk(t)
  {
    if trace != [] {
      ClockedSteps(trace[1..], trace[0].at);
    }
  }

  lemma {:induction false} ClockedExactly(trace: seq<Timed>, from: Time)
    ensures Clocked(trace, from) <==>
              && (forall i | 0 <= i < |trace| :: from <= trace[i].at && StepOk(trace[i]))
              && (forall i, j | 0 <= i < j < |trace| :: trace[i].at <= trace[j].at)
  {
    if trace != [] {
      ClockedExactly(trace[1..], trace[0].at);
      assert forall i | 1 <= i < |trace| :: trace[i] == trace[1..][i - 1];
      if Clocked(trace, from) {
        forall i, j | 0 <= i < j < |trace|
          ensures trace[i].at <= trace[j].at
        {
          assert trace[j] == trace[1..][j - 1];
          assert i > 0 ==> trace[i] == trace[1..][i - 1];
        }
      } else if from <= trace[0].at && StepOk(trace[0]) {
        assert !Clocked(trace[1..], trace[0].at);
        if forall i | 0 <= i < |trace| :: from <= trace[i].at && StepOk(trace[i]) {
          assert forall k | 0 <= k < |trace[1..]| :: trace[1..][k] == trace[k + 1];
        }
      }
    }
  }

  // ---------- Refinement ----------

  function Stored(a: Aead, book: KeyBook, s: Slot, r: Record): Item
  {
    Item(Seal(a, book, Entry(s.ctx, s.token, r.tokenVersion, r.value, r.expiresAt), r.version, r.nonce), r.expiresAt)
  }

  predicate SlotOk(l: Ledger, s: Slot) { s in l.records && Scoped(s.ctx) && NulFree(s.token) }

  function KeyOf(s: Slot): string { StorageKey(s.ctx, s.token) }

  ghost predicate Kept(store: Store, records: map<Slot, Record>, now: Time) {
    forall slot | slot in records && records[slot].expiresAt > now :: KeyOf(slot) in store
  }

  ghost predicate Faithful(a: Aead, book: KeyBook, store: Store, records: map<Slot, Record>) {
    forall slot | slot in records && KeyOf(slot) in store :: store[KeyOf(slot)] == Stored(a, book, slot, records[slot])
  }

  ghost predicate Known(store: Store, records: map<Slot, Record>) {
    forall key | key in store :: exists slot :: slot in records && KeyOf(slot) == key
  }

  /** The store holds nothing but what the ledger says, and everything of it that has not expired. */
  ghost predicate Matches(a: Aead, book: KeyBook, s: System, l: Ledger, now: Time) {
    && s.ring == l.ring
    && (forall slot | slot in l.records :: SlotOk(l, slot))
    && Kept(s.store, l.records, now)
    && Faithful(a, book, s.store, l.records)
    && Known(s.store, l.records)
  }

  lemma SlotsApart(s: Slot, t: Slot)
    requires Scoped(s.ctx) && Scoped(t.ctx)
    ensures KeyOf(s) == KeyOf(t) <==> s == t
  {
    if KeyOf(s) == KeyOf(t) {
      KeyInjective(s.ctx, s.token, t.ctx, t.token);
    }
  }

  lemma SlotsAllApart(l: Ledger, s: Slot)
    requires Scoped(s.ctx) && forall slot | slot in l.records :: SlotOk(l, slot)
    ensures forall slot | slot in l.records :: KeyOf(slot) == KeyOf(s) <==> slot == s
  {
    hide KeyOf;
    forall slot | slot in l.records
      ensures KeyOf(slot) == KeyOf(s) <==> slot == s
    {
      SlotsApart(slot, s);
    }
  }

  /** Items that have expired may go at any time. */
  lemma Dropped(a: Aead, book: KeyBook, s: System, l: Ledger, now: Time, later: Time, gone: set<string>)
    requires Matches(a, book, s, l, now) && now <= later
    requires forall key | key in gone && key in s.store :: s.store[key].expiresAt <= later
    ensures Matches(a, book, s.(store := s.store - gone), l, later)
  {
    hide KeyOf, Seal;
    var after := s.store - gone;
    forall key | key in after
      ensures exists slot :: slot in l.records && KeyOf(slot) == key
    {
      assert key in s.store;
    }
    forall slot | slot in l.records && l.records[slot].expiresAt > later
      ensures KeyOf(slot) in after
    {
      assert s.store[KeyOf(slot)] == Stored(a, book, slot, l.records[slot]);
    }
  }

  lemma PutMatches(a: Aead, book: KeyBook, s: System, l: Ledger, now: Time, slot: Slot, r: Record)
    requires Matches(a, book, s, l, now) && Scoped(slot.ctx) && NulFree(slot.token)
    ensures Matches(a, book, s.(store := s.store[KeyOf(slot) := Stored(a, book, slot, r)]), l.(records := l.records[slot := r]), now)
  {
    hide KeyOf, Stored, Kept, Faithful, Known, Scoped, NulFree;
    SlotsAllApart(l, slot);
    PutKeeps(s.store, l.records, now, slot, r, Stored(a, book, slot, r));
    PutKnown(s.store, l.records, slot, r, Stored(a, book, slot, r));
    PutFaithful(a, book, s.store, l.records, slot, r);
  }

  lemma PutKeeps(store: Store, records: map<Slot, Record>, now: Time, slot: Slot, r: Record, item: Item)
    requires Kept(store, records, now)
    ensures Kept(store[KeyOf(slot) := item], records[slot := r], now)
  {
    hide KeyOf;
  }

  lemma PutKnown(store: Store, records: map<Slot, Record>, slot: Slot, r: Record, item: Item)
    requires Known(store, records)
    ensures Known(store[KeyOf(slot) := item], records[slot := r])
  {
    hide KeyOf;
    var records' := records[slot := r];
    assert slot in records';
    forall key | key in store && key != KeyOf(slot)
      ensures exists o :: o in records' && KeyOf(o) == key
    {
      var o :| o in records && KeyOf(o) == key;
      assert o in records';
    }
  }

  lemma PutFaithful(a: Aead, book: KeyBook, store: Store, records: map<Slot, Record>, slot: Slot, r: Record)
    requires Faithful(a, book, store, records)
    requires forall o | o in records :: KeyOf(o) == KeyOf(slot) <==> o == slot
    ensures Faithful(a, book, store[KeyOf(slot) := Stored(a, book, slot, r)], records[slot := r])
  {
    hide KeyOf, Stored;
  }

  /** Removing the same slots from both. */
  lemma RemoveMatches(a: Aead, book: KeyBook, s: System, l: Ledger, now: Time, gone: set<string>, records: map<Slot, Record>)
    requires Matches(a, book, s, l, now)
    requires forall slot :: slot in records <==> slot in l.records && KeyOf(slot) !in gone
    requires forall slot | slot in records :: records[slot] == l.records[slot]
    ensures Matches(a, book, s.(store := s.store - gone), l.(records := records), now)
  {
    hide KeyOf, Seal, Stored;
    forall key | key in s.store - gone
      ensures exists slot :: slot in records && KeyOf(slot) == key
    {
      var slot :| slot in l.records && KeyOf(slot) == key;
      assert slot in records;
    }
  }

  lemma GetAnswers(a: Aead, book: KeyBook, s: System, l: Ledger, now: Time, ctx: Context, token: string, tokenVersion: string,
                   at: Time, opened_: Time)
    requires Ideal(a) && Matches(a, book, s, l, now) && now <= at <= opened_ && Scoped(ctx)
    ensures var (store, blob) := Fetch(s.store, StorageKey(ctx, token), at);
            && Matches(a, book, s.(store := store), l, at)
            && Answer(l, ctx, token, tokenVersion, at, opened_)
               == if blob.None? then R.Absent else Unseal(a, book, s.ring, ctx, token, tokenVersion, blob.value, opened_)
  {
    hide Ideal, StorageKey, Seal, Unseal;
    var slot := Slot(ctx, token);
    var key := StorageKey(ctx, token);
    assert KeyOf(slot) == key;
    SlotsAllApart(l, slot);
    hide KeyOf;
    var (store, _) := Fetch(s.store, key, at);
    var gone := if key in s.store && at >= s.store[key].expiresAt then {key} else {};
    Dropped(a, book, s, l, now, at, gone);
    assert store == s.store - gone;
    if key in s.store {
      assert slot in l.records;
      var r := l.records[slot];
      UnsealExact(a, book, s.ring, Entry(ctx, token, r.tokenVersion, r.value, r.expiresAt), r.version, r.nonce,
                  ctx, token, tokenVersion, opened_);
    }
  }

  /** One step, whoever takes it: the same answer, and the correspondence stands. */
  lemma StepRefines(a: Aead, book: KeyBook, s: System, l: Ledger, now: Time, t: Timed)
    requires Ideal(a) && Matches(a, book, s, l, now) && now <= t.at && StepOk(t)
    ensures Exec(a, book, s, t).1 == Note(l, t).1
    ensures Matches(a, book, Exec(a, book, s, t).0, Note(l, t).0, t.at)
  {
    hide Matches, Ideal, Seal, Unseal, Fetch, Answer, Prefix;
    var none: set<string> := {};
    Dropped(a, book, s, l, now, t.at, none);
    assert s.(store := s.store - none) == s;
    match t.step
    case Put(ctx, token, tokenVersion, value, nonce, expiresAt) =>
      PutMatches(a, book, s, l, t.at, Slot(ctx, token), Record(tokenVersion, value, expiresAt, l.ring.active, nonce));
      SameRing(a, book, s, l, now);
    case Get(ctx, token, tokenVersion, opened_) =>
      GetAnswers(a, book, s, l, now, ctx, token, tokenVersion, t.at, opened_);
    case Delete(ctx, token) =>
      DeleteMatches(a, book, s, l, t.at, ctx, token);
    case DeleteConversation(ctx) =>
      ConversationMatches(a, book, s, l, t.at, ctx);
    case Purge(read) =>
      Dropped(a, book, s, l, now, t.at, Expired(s.store, read));
    case Rotate(ring) =>
      RotateMatches(a, book, s, l, t.at, ring);
  }

  lemma SameRing(a: Aead, book: KeyBook, s: System, l: Ledger, now: Time)
    requires Matches(a, book, s, l, now)
    ensures s.ring == l.ring
  {
  }

  lemma RotateMatches(a: Aead, book: KeyBook, s: System, l: Ledger, now: Time, ring: KeyRing)
    requires Matches(a, book, s, l, now)
    ensures Matches(a, book, s.(ring := ring), l.(ring := ring), now)
  {
    hide KeyOf, Stored;
  }

  lemma DeleteMatches(a: Aead, book: KeyBook, s: System, l: Ledger, now: Time, ctx: Context, token: string)
    requires Matches(a, book, s, l, now) && Scoped(ctx)
    ensures Matches(a, book, s.(store := s.store - {StorageKey(ctx, token)}), l.(records := l.records - {Slot(ctx, token)}), now)
  {
    var slot := Slot(ctx, token);
    assert KeyOf(slot) == StorageKey(ctx, token);
    SlotsAllApart(l, slot);
    RemoveMatches(a, book, s, l, now, {KeyOf(slot)}, l.records - {slot});
  }

  /** Erasing by prefix erases exactly the conversation's records, and nothing when there can be none. */
  lemma ConversationMatches(a: Aead, book: KeyBook, s: System, l: Ledger, now: Time, ctx: Context)
    requires Matches(a, book, s, l, now) && NulFree(ctx.tenant)
    ensures Matches(a, book, s.(store := s.store - Under(s.store, Prefix(ctx))),
                    l.(records := map o | o in l.records && o.ctx != ctx :: l.records[o]), now)
  {
    hide Prefix, StorageKey, Stored;
    var all := Under(s.store, Prefix(ctx)) + (set o | o in l.records && o.ctx == ctx :: KeyOf(o));
    forall o | o in l.records
      ensures KeyOf(o) in all <==> o.ctx == ctx
    {
      PrefixExact(ctx, o.ctx, o.token);
      forall p | p in l.records && p.ctx == ctx && KeyOf(p) == KeyOf(o)
        ensures p == o
      {
        SlotsApart(p, o);
      }
    }
    forall key | key in s.store && key in all
      ensures Prefix(ctx) <= key
    {
      if key !in Under(s.store, Prefix(ctx)) {
        var o :| o in l.records && o.ctx == ctx && KeyOf(o) == key;
        PrefixExact(ctx, o.ctx, o.token);
      }
    }
    assert s.store - all == s.store - Under(s.store, Prefix(ctx));
    RemoveMatches(a, book, s, l, now, all, map o | o in l.records && o.ctx != ctx :: l.records[o]);
  }

  lemma {:induction false} RunRefines(a: Aead, book: KeyBook, s: System, l: Ledger, trace: seq<Timed>, now: Time)
    requires Ideal(a) && Matches(a, book, s, l, now) && Clocked(trace, now)
    ensures Run(a, book, s, trace) == Answers(l, trace)
    decreases |trace|
  {
    hide Ideal, Matches, Exec, Note;
    if trace != [] {
      var t := trace[0];
      StepRefines(a, book, s, l, now, t);
      RunRefines(a, book, Exec(a, book, s, t).0, Note(l, t).0, trace[1..], t.at);
    }
  }

  /** From an empty store, every interleaving answers as the expiring map does. */
  lemma VaultIsExpiringMap(a: Aead, book: KeyBook, ring: KeyRing, trace: seq<Timed>, start: Time)
    requires Ideal(a) && Clocked(trace, start)
    ensures Run(a, book, System(map[], ring), trace) == Answers(Ledger(map[], ring), trace)
  {
    ClockedSteps(trace, start);
    NothingMatches(a, book, ring, start);
    hide Ideal, Matches, Run, Answers, Clocked;
    RunRefines(a, book, System(map[], ring), Ledger(map[], ring), trace, start);
  }

  lemma NothingMatches(a: Aead, book: KeyBook, ring: KeyRing, now: Time)
    ensures Matches(a, book, System(map[], ring), Ledger(map[], ring), now)
  {
  }

  // ---------- Consequences ----------

  lemma {:induction false} AnswersAppend(l: Ledger, x: seq<Timed>, y: seq<Timed>)
    ensures Answers(l, x + y) == Answers(l, x) + Answers(After(l, x), y)
    decreases |x|
  {
    hide Note;
    if x == [] {
      assert x + y == y;
    } else {
      assert (x + y)[1..] == x[1..] + y && (x + y)[0] == x[0];
      AnswersAppend(Note(l, x[0]).0, x[1..], y);
    }
  }

  function After(l: Ledger, trace: seq<Timed>): Ledger
    decreases |trace|
  {
    if trace == [] then l else After(Note(l, trace[0]).0, trace[1..])
  }

  /** A sweep at any moment of any run changes no answer at all. */
  lemma PurgeInvisible(a: Aead, book: KeyBook, ring: KeyRing, before: seq<Timed>, sweep: Timed, after: seq<Timed>, start: Time)
    requires Ideal(a) && sweep.step.Purge?
    requires Clocked(before + after, start) && Clocked(before + [sweep] + after, start)
    ensures Run(a, book, System(map[], ring), before + [sweep] + after) == Run(a, book, System(map[], ring), before + after)
  {
    hide Ideal, Run, Answers, Clocked, StepOk;
    var l := Ledger(map[], ring);
    VaultIsExpiringMap(a, book, ring, before + after, start);
    VaultIsExpiringMap(a, book, ring, before + [sweep] + after, start);
    AnswersAppend(l, before, after);
    assert before + [sweep] + after == before + ([sweep] + after);
    AnswersAppend(l, before, [sweep] + after);
    SweepSkips(After(l, before), sweep, after);
  }

  lemma SweepSkips(l: Ledger, sweep: Timed, after: seq<Timed>)
    requires sweep.step.Purge?
    ensures Answers(l, [sweep] + after) == Answers(l, after)
  {
    assert ([sweep] + after)[1..] == after;
  }

  /** Every rotation in the run keeps the versions that were there. */
  predicate Additive(trace: seq<Timed>, ring: KeyRing)
    decreases |trace|
  {
    if trace == [] then true
    else if trace[0].step.Rotate? then ring.versions <= trace[0].step.ring.versions && Additive(trace[1..], trace[0].step.ring)
    else Additive(trace[1..], ring)
  }

  lemma {:induction false} AdditiveExactly(trace: seq<Timed>, ring: KeyRing)
    ensures Additive(trace, ring) <==>
              && (forall i | 0 <= i < |trace| && trace[i].step.Rotate? :: ring.versions <= trace[i].step.ring.versions)
              && (forall i, j | 0 <= i < j < |trace| && trace[i].step.Rotate? && trace[j].step.Rotate? ::
                    trace[i].step.ring.versions <= trace[j].step.ring.versions)
    decreases |trace|
  {
    if trace != [] {
      var first, rest := trace[0], trace[1..];
      AdditiveExactly(rest, if first.step.Rotate? then first.step.ring else ring);
      assert forall i | 1 <= i < |trace| :: trace[i] == rest[i - 1];
      assert forall i | 0 <= i < |rest| :: rest[i] == trace[i + 1];
    }
  }

  /** Under additive rotation no record ever loses its key, so nothing fails to open for want of one. */
  lemma {:induction false} RotationKeepsRecords(l: Ledger, trace: seq<Timed>)
    requires Additive(trace, l.ring) && l.ring.Ok() && forall t | t in trace :: StepOk(t)
    requires forall s | s in l.records :: l.records[s].version in l.ring.versions
    ensures R.MissingKey !in Answers(l, trace) && R.ForeignRecord !in Answers(l, trace)
    decreases |trace|
  {
    if trace != [] {
      var next := Note(l, trace[0]).0;
      assert StepOk(trace[0]);
      RotationKeepsRecords(next, trace[1..]);
    }
  }

  /** The slot is not written, erased or re-keyed away by this step. */
  predicate Leaves(t: Timed, slot: Slot) {
    match t.step
    case Delete(ctx, token) => Slot(ctx, token) != slot
    case DeleteConversation(ctx) => ctx != slot.ctx
    case _ => true
  }

  /** These are the steps after which no ledger has lost the slot. */
  lemma LeavesExactly(t: Timed, slot: Slot)
    ensures Leaves(t, slot) <==> forall l: Ledger | slot in l.records :: slot in Note(l, t).0.records
  {
    var l := Ledger(map[slot := Record("", "", 0, 1, [0, 0, 0, 0, 0, 0, 0, 0, 0, 0, 0, 0])], KeyRing({1}, 1));
    assert !Leaves(t, slot) ==> slot !in Note(l, t).0.records;
  }

  /** Every put to the slot refreshes it with some spelling of one canonical value, and lives past `until`. */
  predicate Refreshes(t: Timed, slot: Slot, tokenVersion: string, canonical: string, canonicalize: string -> string, until: Time) {
    t.step.Put? && Slot(t.step.ctx, t.step.token) == slot ==>
      && t.step.tokenVersion == tokenVersion
      && canonicalize(t.step.value) == canonical
      && until < t.step.expiresAt
  }

  predicate Holds(l: Ledger, slot: Slot, tokenVersion: string, canonical: string, canonicalize: string -> string, until: Time) {
    && slot in l.records
    && l.records[slot].tokenVersion == tokenVersion
    && canonicalize(l.records[slot].value) == canonical
    && until < l.records[slot].expiresAt
    && l.records[slot].version in l.ring.versions
  }

  /** Once put, a token stays readable through any interleaving of refreshes, sweeps and other conversations' erasures. */
  lemma {:induction false} StaysReadable(l: Ledger, trace: seq<Timed>, slot: Slot, tokenVersion: string, canonical: string,
                                         canonicalize: string -> string, until: Time)
    requires Holds(l, slot, tokenVersion, canonical, canonicalize, until) && l.ring.Ok()
    requires Additive(trace, l.ring) && forall t | t in trace :: StepOk(t)
    requires forall t | t in trace :: Leaves(t, slot) && Refreshes(t, slot, tokenVersion, canonical, canonicalize, until)
    ensures Holds(After(l, trace), slot, tokenVersion, canonical, canonicalize, until)
    decreases |trace|
  {
    if trace != [] {
      StayStep(l, trace[0], slot, tokenVersion, canonical, canonicalize, until);
      hide Holds, Leaves, Refreshes, StepOk;
      RingStays(l, trace[0]);
      StaysReadable(Note(l, trace[0]).0, trace[1..], slot, tokenVersion, canonical, canonicalize, until);
    }
  }

  lemma StayStep(l: Ledger, t: Timed, slot: Slot, tokenVersion: string, canonical: string,
                 canonicalize: string -> string, until: Time)
    requires Holds(l, slot, tokenVersion, canonical, canonicalize, until) && l.ring.Ok() && StepOk(t)
    requires t.step.Rotate? ==> l.ring.versions <= t.step.ring.versions
    requires Leaves(t, slot) && Refreshes(t, slot, tokenVersion, canonical, canonicalize, until)
    ensures Holds(Note(l, t).0, slot, tokenVersion, canonical, canonicalize, until) && Note(l, t).0.ring.Ok()
  {
  }

  lemma RingStays(l: Ledger, t: Timed)
    ensures Note(l, t).0.ring == if t.step.Rotate? then t.step.ring else l.ring
  {
  }

  /** Whichever concurrent spelling refreshed the record last, the request gets its own bytes back. */
  lemma OwnBytesBack(l: Ledger, trace: seq<Timed>, slot: Slot, tokenVersion: string, until: Time, auth: R.Authority,
                     fetched: Time, opened_: Time)
    requires slot.token in auth.minted
    requires Holds(l, slot, tokenVersion, auth.minted[slot.token].canonical, auth.canonicalize, until) && l.ring.Ok()
    requires Additive(trace, l.ring) && forall t | t in trace :: StepOk(t)
    requires forall t | t in trace ::
               Leaves(t, slot) && Refreshes(t, slot, tokenVersion, auth.minted[slot.token].canonical, auth.canonicalize, until)
    requires fetched <= opened_ <= until
    requires auth.vault(slot.token) == Answer(After(l, trace), slot.ctx, slot.token, tokenVersion, fetched, opened_)
    ensures auth.Judge(slot.token) == R.Restore(auth.minted[slot.token].original)
  {
    StaysReadable(l, trace, slot, tokenVersion, auth.minted[slot.token].canonical, auth.canonicalize, until);
  }
}
