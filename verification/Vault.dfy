/** The encrypted expiring vault: under any interleaving it is a simple expiring map. */
module Vault {
  import opened Tokens
  import opened LengthPrefix
  import R = Restoration

  datatype Context = Context(tenant: string, conversation: string)

  type Bytes = seq<byte>

  /** Clock readings, in ticks; what matters is that they can be compared and written down. */
  type Time = int

  // ---------- Storage keys ----------

  const NUL: string := ['\0']

  function Prefix(ctx: Context): string { ctx.tenant + NUL + ctx.conversation + NUL }

  function StorageKey(ctx: Context, token: string): string { Prefix(ctx) + token }

  predicate NulFree(s: string) { '\0' !in s }

  /** Identifiers under which records are stored: neither part contains NUL. */
  predicate Scoped(ctx: Context) { NulFree(ctx.tenant) && NulFree(ctx.conversation) }

  lemma FirstNul(a: string, x: string, b: string, y: string)
    requires NulFree(a) && NulFree(b) && a + NUL + x == b + NUL + y
    ensures a == b && x == y
  {
    var s, t := a + NUL + x, b + NUL + y;
    assert s[|a|] == '\0' && t[|b|] == '\0';
    assert forall k | 0 <= k < |a| :: s[k] == a[k] && s[k] in a;
    assert forall k | 0 <= k < |b| :: t[k] == b[k] && t[k] in b;
    assert |a| == |b|;
    assert a == s[..|a|] && b == t[..|b|];
    assert x == s[|a| + 1..] && y == t[|b| + 1..];
  }

  /** A storage key starts with the prefix an erasure asks for exactly when it belongs to that conversation, whatever
      conversation is asked for. */
  lemma PrefixExact(ctx: Context, other: Context, token: string)
    requires NulFree(ctx.tenant) && Scoped(other) && NulFree(token)
    ensures Prefix(ctx) <= StorageKey(other, token) <==> ctx == other
  {
    var key := StorageKey(other, token);
    if Prefix(ctx) <= key {
      var rest := key[|Prefix(ctx)|..];
      assert key == ctx.tenant + NUL + (ctx.conversation + NUL + rest);
      assert key == other.tenant + NUL + (other.conversation + NUL + token);
      FirstNul(ctx.tenant, ctx.conversation + NUL + rest, other.tenant, other.conversation + NUL + token);
      OnlyNul(ctx.conversation, rest, other.conversation, token);
    }
  }

  /** Where the right side has a single NUL, so has the left. */
  lemma OnlyNul(a: string, x: string, b: string, y: string)
    requires NulFree(b) && NulFree(y) && a + NUL + x == b + NUL + y
    ensures a == b && x == y
  {
    var s, t := a + NUL + x, b + NUL + y;
    assert s[|a|] == '\0';
    assert forall k | 0 <= k < |b| :: t[k] == b[k] && t[k] in b;
    assert forall k | |b| < k < |t| :: t[k] == y[k - |b| - 1] && t[k] in y;
    assert |a| == |b|;
    assert a == s[..|a|] && b == t[..|b|];
    assert x == s[|a| + 1..] && y == t[|b| + 1..];
  }

  lemma KeyInjective(ctx: Context, token: string, ctx': Context, token': string)
    requires Scoped(ctx) && Scoped(ctx') && StorageKey(ctx, token) == StorageKey(ctx', token')
    ensures ctx == ctx' && token == token'
  {
    var rest, rest' := ctx.conversation + NUL + token, ctx'.conversation + NUL + token';
    assert StorageKey(ctx, token) == ctx.tenant + NUL + rest;
    assert StorageKey(ctx', token') == ctx'.tenant + NUL + rest';
    FirstNul(ctx.tenant, rest, ctx'.tenant, rest');
    FirstNul(ctx.conversation, token, ctx'.conversation, token');
  }

  // ---------- Which tenants are kept apart ----------

  /** Erasing `conversation` for one tenant reaches a record of another exactly when it is the same conversation. */
  predicate ErasesOnlyOwn(tenant: string, conversation: string, tenant': string, conversation': string, token: string) {
    var ctx, other := Context(tenant, conversation), Context(tenant', conversation');
    Prefix(ctx) <= StorageKey(other, token) <==> ctx == other
  }

  /** For all stored conversations and tokens the two tenants' erasures stay apart. */
  ghost predicate KeptApart(tenant: string, tenant': string) {
    forall conversation, conversation', token | NulFree(conversation) && NulFree(conversation') && NulFree(token) ::
      ErasesOnlyOwn(tenant, conversation, tenant', conversation', token)
  }

  /** Whatever the tenants are called, an erasure stays away from another tenant's records exactly when that tenant's
      name does not start with its own followed by NUL. */
  lemma TenantsApartExactly(tenant: string, tenant': string)
    ensures KeptApart(tenant, tenant') <==> !(tenant + NUL <= tenant')
  {
    if tenant + NUL <= tenant' {
      TenantsCollide(tenant, tenant');
    } else {
      forall conversation, conversation', token | NulFree(conversation) && NulFree(conversation') && NulFree(token)
        ensures ErasesOnlyOwn(tenant, conversation, tenant', conversation', token)
      {
        TenantsApart(tenant, conversation, tenant', conversation', token);
      }
    }
  }

  lemma TenantsApart(tenant: string, conversation: string, tenant': string, conversation': string, token: string)
    requires NulFree(conversation) && NulFree(conversation') && NulFree(token) && !(tenant + NUL <= tenant')
    ensures ErasesOnlyOwn(tenant, conversation, tenant', conversation', token)
  {
    var ctx, other := Context(tenant, conversation), Context(tenant', conversation');
    var key := StorageKey(other, token);
    if Prefix(ctx) <= key {
      var rest := key[|Prefix(ctx)|..];
      assert key == tenant + NUL + (conversation + NUL + rest);
      assert key == tenant' + NUL + (conversation' + NUL + token);
      var n := |tenant| + 1 + |conversation|;
      assert key[|tenant|] == '\0' && key[n] == '\0';
      if |tenant| < |tenant'| {
        ShorterPrefix(tenant + NUL, tenant', key);
        assert false;
      }
      NulsAt(tenant', conversation', token, key);
      assert |tenant| == |tenant'| && n == |tenant'| + 1 + |conversation'|;
      assert tenant == key[..|tenant|] && tenant' == key[..|tenant'|];
      assert conversation == key[|tenant| + 1..n] && conversation' == key[|tenant'| + 1..n];
    }
  }

  lemma ShorterPrefix(a: string, b: string, key: string)
    requires a <= key && b <= key && |a| <= |b|
    ensures a <= b
  {
    assert a == key[..|a|] == b[..|a|];
  }

  /** From the end of the tenant's name on, a storage key has two NULs. */
  lemma NulsAt(tenant: string, conversation: string, token: string, key: string)
    requires NulFree(conversation) && NulFree(token) && key == tenant + NUL + (conversation + NUL + token)
    ensures forall k | |tenant| <= k < |key| && key[k] == '\0' :: k == |tenant| || k == |tenant| + 1 + |conversation|
  {
  }

  function UpToNul(s: string): (r: string)
    ensures NulFree(r) && r <= s
    ensures |r| < |s| ==> s[|r|] == '\0'
  {
    if s == "" || s[0] == '\0' then "" else [s[0]] + UpToNul(s[1..])
  }

  lemma TenantsCollide(tenant: string, tenant': string)
    requires tenant + NUL <= tenant'
    ensures !KeptApart(tenant, tenant')
  {
    var conversation := UpToNul(tenant'[|tenant| + 1..]);
    var ctx, other := Context(tenant, conversation), Context(tenant', "");
    var key := StorageKey(other, "");
    assert NulFree("");
    var n := |tenant| + 1 + |conversation|;
    assert tenant'[..|tenant| + 1] == tenant + NUL;
    assert tenant'[|tenant| + 1..n] == conversation;
    assert key == tenant' + (NUL + NUL);
    assert (tenant' + NUL)[n] == '\0';
    assert (tenant' + NUL)[..n + 1] == Prefix(ctx);
    assert key[..n + 1] == Prefix(ctx);
    assert !ErasesOnlyOwn(tenant, conversation, tenant', "", "");
  }

  /** An erasure that reaches another tenant: the names the gateway could not tell apart. */
  lemma NulWouldCollide()
    ensures Context("a", "b") != Context("a\0b\0x", "c")
    ensures Prefix(Context("a", "b")) <= StorageKey(Context("a\0b\0x", "c"), "t")
    ensures !KeptApart("a", "a\0b\0x")
  {
    assert StorageKey(Context("a\0b\0x", "c"), "t") == "a\0b\0" + "x\0c\0t";
    assert Prefix(Context("a", "b")) == "a\0b\0";
    assert "a" + NUL <= "a\0b\0x";
    TenantsApartExactly("a", "a\0b\0x");
  }

  // ---------- Records ----------

  const FORMAT: byte := 1
  const HEADER_LENGTH := 3
  const NONCE_LENGTH := 12

  type Nonce = n: Bytes | |n| == 12 witness [0, 0, 0, 0, 0, 0, 0, 0, 0, 0, 0, 0]

  datatype Entry = Entry(ctx: Context, token: string, tokenVersion: string, value: string, expiresAt: Time)

  /** Authenticated encryption of one entry under a key, a nonce and additional data. */
  datatype Aead = Aead(
    encrypt: (Bytes, Bytes, Entry, Bytes) -> Bytes,
    decrypt: (Bytes, Bytes, Bytes, Bytes) -> Option<Entry>
  )

  predicate Opens(a: Aead, key: Bytes, nonce: Bytes, e: Entry, aad: Bytes) {
    a.decrypt(key, nonce, a.encrypt(key, nonce, e, aad), aad) == Some(e)
  }

  predicate Refuses(a: Aead, key: Bytes, nonce: Bytes, e: Entry, aad: Bytes, aad': Bytes) {
    a.decrypt(key, nonce, a.encrypt(key, nonce, e, aad), aad') == None
  }

  /** A ciphertext opens under the data it was made with, and under no other. */
  ghost predicate Ideal(a: Aead) {
    && (forall key, nonce, e, aad :: Opens(a, key, nonce, e, aad))
    && (forall key, nonce, e, aad, aad' | aad != aad' :: Refuses(a, key, nonce, e, aad, aad'))
  }

  // ---------- Such encryption is possible ----------

  function Ticks(t: Time): (s: string) { if t >= 0 then seq(t, _ => '+') else seq(-t, _ => '-') }

  lemma TicksInjective(t: Time, u: Time)
    requires Ticks(t) == Ticks(u)
    ensures t == u
  {
    assert |Ticks(t)| == (if t >= 0 then t else -t) && |Ticks(u)| == (if u >= 0 then u else -u);
    if t != 0 {
      assert Ticks(t)[0] == Ticks(u)[0];
    }
  }

  function Letters(bs: Bytes): (s: string)
    ensures |s| == |bs| && forall k | 0 <= k < |s| :: s[k] == bs[k] as char
  {
    seq(|bs|, k requires 0 <= k < |bs| => bs[k] as char)
  }

  /** An entry and its additional data, written down without loss. */
  function Written(e: Entry, aad: Bytes): Bytes {
    LengthPrefixed([e.ctx.tenant, e.ctx.conversation, e.token, e.tokenVersion, e.value, Ticks(e.expiresAt), Letters(aad)])
  }

  lemma WrittenInjective(e: Entry, aad: Bytes, e': Entry, aad': Bytes)
    requires Written(e, aad) == Written(e', aad')
    ensures e == e' && aad == aad'
  {
    hide LengthPrefixed, Ticks, Letters;
    var a := [e.ctx.tenant, e.ctx.conversation, e.token, e.tokenVersion, e.value, Ticks(e.expiresAt), Letters(aad)];
    var b := [e'.ctx.tenant, e'.ctx.conversation, e'.token, e'.tokenVersion, e'.value, Ticks(e'.expiresAt), Letters(aad')];
    LengthPrefixedInjective(a, b);
    assert a[0] == b[0] && a[1] == b[1] && a[2] == b[2] && a[3] == b[3] && a[4] == b[4] && a[5] == b[5] && a[6] == b[6];
    TicksInjective(e.expiresAt, e'.expiresAt);
    LettersInjective(aad, aad');
  }

  lemma LettersInjective(a: Bytes, b: Bytes)
    requires Letters(a) == Letters(b)
    ensures a == b
  {
    forall k | 0 <= k < |a|
      ensures a[k] == b[k]
    {
      assert Letters(a)[k] == Letters(b)[k];
    }
  }

  ghost function Reading(ciphertext: Bytes, aad: Bytes): Option<Entry> {
    if exists e: Entry :: Written(e, aad) == ciphertext then
      var e: Entry :| Written(e, aad) == ciphertext;
      Some(e)
    else None
  }

  lemma ReadingExact(e: Entry, aad: Bytes, aad': Bytes)
    ensures Reading(Written(e, aad), aad') == if aad == aad' then Some(e) else None
  {
    hide Written;
    forall x: Entry | Written(x, aad') == Written(e, aad)
      ensures x == e && aad == aad'
    {
      WrittenInjective(x, aad', e, aad);
    }
  }

  /** The idealised encryption is not asked to do the impossible. */
  lemma IdealExists()
    ensures exists a: Aead :: Ideal(a)
  {
    var a := Aead((k, n, e, aad) => Written(e, aad), (k, n, c, aad) => Reading(c, aad));
    forall key, nonce, e, aad
      ensures Opens(a, key, nonce, e, aad)
    {
      ReadingExact(e, aad, aad);
    }
    forall key, nonce, e, aad, aad' | aad != aad'
      ensures Refuses(a, key, nonce, e, aad, aad')
    {
      ReadingExact(e, aad, aad');
    }
    assert Ideal(a);
  }

  /** Key versions name keys; a ring holds some of them and writes with one. */
  datatype KeyRing = KeyRing(versions: set<key_version>, active: key_version) {
    predicate Ok() { active in versions }
  }

  type KeyBook = key_version -> Bytes

  function AadOf(ctx: Context, token: string, tokenVersion: string, version: key_version, format: byte): Bytes {
    Aad(ctx.tenant, ctx.conversation, token, tokenVersion, version, format)
  }

  /** A record as stored: format and key version, nonce, ciphertext. */
  function Seal(a: Aead, book: KeyBook, e: Entry, version: key_version, nonce: Nonce): (record: Bytes)
    ensures |record| >= HEADER_LENGTH + NONCE_LENGTH
  {
    Header(FORMAT, version) + nonce + a.encrypt(book(version), nonce, e, AadOf(e.ctx, e.token, e.tokenVersion, version, FORMAT))
  }

  /** Opening a fetched record for one caller at one time. */
  function Unseal(a: Aead, book: KeyBook, ring: KeyRing, ctx: Context, token: string, tokenVersion: string, record: Bytes, now: Time): R.Lookup {
    if |record| < HEADER_LENGTH + NONCE_LENGTH then R.Absent
    else
      var format, version := record[0], (record[1] as int) * 256 + record[2] as int;
      if format != FORMAT then R.Absent
      else if version !in ring.versions then R.MissingKey
      else
        var nonce, ciphertext := record[HEADER_LENGTH..HEADER_LENGTH + NONCE_LENGTH], record[HEADER_LENGTH + NONCE_LENGTH..];
        var plain := a.decrypt(book(version), nonce, ciphertext, AadOf(ctx, token, tokenVersion, version, format));
        if plain.None? then R.Absent
        else if plain.value.ctx != ctx then R.ForeignRecord
        else if now >= plain.value.expiresAt then R.Absent
        else R.Found(plain.value.value)
  }

  lemma SealParts(a: Aead, book: KeyBook, e: Entry, version: key_version, nonce: Nonce)
    ensures var record := Seal(a, book, e, version, nonce);
            && record[0] == FORMAT == 1 && (record[1] as int) * 256 + record[2] as int == version
            && record[HEADER_LENGTH..HEADER_LENGTH + NONCE_LENGTH] == nonce
            && record[HEADER_LENGTH + NONCE_LENGTH..]
               == a.encrypt(book(version), nonce, e, AadOf(e.ctx, e.token, e.tokenVersion, version, FORMAT))
  {
    hide Aad;
    var h := Header(FORMAT, version);
    var c := a.encrypt(book(version), nonce, e, AadOf(e.ctx, e.token, e.tokenVersion, version, FORMAT));
    var record := Seal(a, book, e, version, nonce);
    assert record == h + (nonce + c);
    assert record[0] == h[0] && record[1] == h[1] && record[2] == h[2];
    assert record[HEADER_LENGTH..] == nonce + c;
    assert record[HEADER_LENGTH..HEADER_LENGTH + NONCE_LENGTH] == nonce;
    assert record[HEADER_LENGTH + NONCE_LENGTH..] == c;
  }

  /** A record opens for its own context, token and version, in time and with its key; for nobody else. */
  lemma UnsealExact(a: Aead, book: KeyBook, ring: KeyRing, e: Entry, version: key_version, nonce: Nonce,
                    ctx: Context, token: string, tokenVersion: string, now: Time)
    requires Ideal(a)
    ensures Unseal(a, book, ring, ctx, token, tokenVersion, Seal(a, book, e, version, nonce), now)
            == if version !in ring.versions then R.MissingKey
               else if ctx != e.ctx || token != e.token || tokenVersion != e.tokenVersion then R.Absent
               else if now >= e.expiresAt then R.Absent
               else R.Found(e.value)
  {
    hide Aad, Seal;
    SealParts(a, book, e, version, nonce);
    var mine := AadOf(e.ctx, e.token, e.tokenVersion, version, FORMAT);
    var theirs := AadOf(ctx, token, tokenVersion, version, FORMAT);
    if mine == theirs {
      AadInjective(e.ctx.tenant, e.ctx.conversation, e.token, e.tokenVersion, version, FORMAT,
                   ctx.tenant, ctx.conversation, token, tokenVersion, version, FORMAT);
      assert Opens(a, book(version), nonce, e, mine);
    } else {
      assert Refuses(a, book(version), nonce, e, mine, theirs);
    }
  }

  /** Any record whatever: too short, of another format, under a key that is gone, not opening, another scope's, expired, or
      the value it was sealed with. */
  lemma UnsealExactly(a: Aead, book: KeyBook, ring: KeyRing, ctx: Context, token: string, tokenVersion: string, record: Bytes, now: Time)
    ensures var answer := Unseal(a, book, ring, ctx, token, tokenVersion, record, now);
            if |record| < 15 || record[0] != 1 then answer == R.Absent
            else
              var version := record[1] as int * 256 + record[2] as int;
              var plain := a.decrypt(book(version), record[3..15], record[15..], Aad(ctx.tenant, ctx.conversation, token, tokenVersion, version, 1));
              && (answer == R.MissingKey <==> version !in ring.versions)
              && (answer == R.ForeignRecord <==> version in ring.versions && plain.Some? && plain.value.ctx != ctx)
              && (forall value :: answer == R.Found(value) <==>
                    && version in ring.versions && plain.Some? && plain.value.ctx == ctx
                    && now < plain.value.expiresAt && value == plain.value.value)
  {
    hide Aad;
  }

  // ---------- The store ----------

  datatype Item = Item(blob: Bytes, expiresAt: Time)

  type Store = map<string, Item>

  function Fetch(store: Store, key: string, now: Time): (Store, Option<Bytes>) {
    if key !in store then (store, None)
    else if now >= store[key].expiresAt then (store - {key}, None)
    else (store, Some(store[key].blob))
  }

  function Expired(store: Store, now: Time): set<string> { set k | k in store && now >= store[k].expiresAt }

  function Under(store: Store, prefix: string): set<string> { set k | k in store && prefix <= k }

  class InMemoryBackend {
    var items: Store

    constructor ()
      ensures items == map[]
    {
      items := map[];
    }

    method Put(key: string, blob: Bytes, expiresAt: Time)
      modifies this
      ensures items == old(items)[key := Item(blob, expiresAt)]
    {
      items := items[key := Item(blob, expiresAt)];
    }

    /** Material past its expiry is dropped on the way, whether or not the sweeper has run. */
    method Get(key: string, now: Time) returns (blob: Option<Bytes>)
      modifies this
      ensures (items, blob) == Fetch(old(items), key, now)
    {
      if key !in items {
        return None;
      }
      var item := items[key];
      if now >= item.expiresAt {
        items := items - {key};
        return None;
      }
      return Some(item.blob);
    }

    method Delete(key: string)
      modifies this
      ensures items == old(items) - {key}
    {
      items := items - {key};
    }

    method DeletePrefix(prefix: string) returns (removed: nat)
      modifies this
      ensures items == old(items) - Under(old(items), prefix)
      ensures removed == |Under(old(items), prefix)| == |old(items)| - |items|
      ensures forall k :: k in items <==> k in old(items) && !(|prefix| <= |k| && k[..|prefix|] == prefix)
      ensures forall k | k in items :: items[k] == old(items)[k]
    {
      var stale := Under(items, prefix);
      SizeAfter(items, stale);
      items := items - stale;
      removed := |stale|;
    }

    method PurgeExpired(now: Time) returns (removed: nat)
      modifies this
      ensures items == old(items) - Expired(old(items), now)
      ensures removed == |Expired(old(items), now)| == |old(items)| - |items|
      ensures forall k :: k in items <==> k in old(items) && now < old(items)[k].expiresAt
      ensures forall k | k in items :: items[k] == old(items)[k]
    {
      var stale := Expired(items, now);
      SizeAfter(items, stale);
      items := items - stale;
      removed := |stale|;
    }
  }

  lemma SizeAfter(store: Store, stale: set<string>)
    requires stale <= store.Keys
    ensures |store - stale| == |store| - |stale|
  {
    assert (store - stale).Keys == store.Keys - stale;
    assert |store.Keys| == |store| && |(store - stale).Keys| == |store - stale|;
  }

  class SurrogateVault {
    const aead: Aead
    const book: KeyBook
    const ring: KeyRing
    const backend: InMemoryBackend
    const ttl: Time
    var unknownFormatRecords: nat

    constructor (aead: Aead, book: KeyBook, ring: KeyRing, backend: InMemoryBackend, ttl: Time)
      requires ring.Ok()
      ensures this.aead == aead && this.book == book && this.ring == ring && this.backend == backend && this.ttl == ttl
      ensures unknownFormatRecords == 0
    {
      this.aead, this.book, this.ring, this.backend, this.ttl := aead, book, ring, backend, ttl;
      unknownFormatRecords := 0;
    }

    /** Seals a value under the active key and stores it under the caller's own key. */
    method Put(ctx: Context, token: string, value: string, tokenVersion: string, clock: Time, nonce: Nonce)
        modifies backend
      ensures backend.items
              == old(backend.items)[StorageKey(ctx, token) :=
                   Item(Seal(aead, book, Entry(ctx, token, tokenVersion, value, clock + ttl), ring.active, nonce), clock + ttl)]
    {
      hide Seal, StorageKey;
      var expiresAt := clock + ttl;
      var record := Seal(aead, book, Entry(ctx, token, tokenVersion, value, expiresAt), ring.active, nonce);
      backend.Put(StorageKey(ctx, token), record, expiresAt);
    }

    /** Fetches under the caller's own key, then opens; the clock is read again before the value is given out. */
    method Get(ctx: Context, token: string, tokenVersion: string, fetched: Time, opened_: Time) returns (r: R.Lookup)
      modifies this, backend
      ensures var (items, blob) := Fetch(old(backend.items), StorageKey(ctx, token), fetched);
              && backend.items == items
              && r == if blob.None? then R.Absent else Unseal(aead, book, ring, ctx, token, tokenVersion, blob.value, opened_)
      ensures unknownFormatRecords >= old(unknownFormatRecords)
    {
      hide StorageKey, Aad;
      var record := backend.Get(StorageKey(ctx, token), fetched);
      if record.None? || |record.value| < HEADER_LENGTH + NONCE_LENGTH {
        return R.Absent;
      }
      var blob := record.value;
      var format, version := blob[0], (blob[1] as int) * 256 + blob[2] as int;
      if format != FORMAT {
        unknownFormatRecords := unknownFormatRecords + 1;
        return R.Absent;
      }
      if version !in ring.versions {
        return R.MissingKey;
      }
      var nonce, ciphertext := blob[HEADER_LENGTH..HEADER_LENGTH + NONCE_LENGTH], blob[HEADER_LENGTH + NONCE_LENGTH..];
      var plain := aead.decrypt(book(version), nonce, ciphertext, AadOf(ctx, token, tokenVersion, version, format));
      if plain.None? {
        return R.Absent;
      }
      var entry := plain.value;
      if entry.ctx.tenant != ctx.tenant || entry.ctx.conversation != ctx.conversation {
        return R.ForeignRecord;
      }
      return if opened_ >= entry.expiresAt then R.Absent else R.Found(entry.value);
    }

    method Delete(ctx: Context, token: string)
      modifies backend
      ensures backend.items == old(backend.items) - {StorageKey(ctx, token)}
    {
      backend.Delete(StorageKey(ctx, token));
    }

    method Purge(clock: Time) returns (removed: nat)
      modifies backend
      ensures backend.items == old(backend.items) - Expired(old(backend.items), clock)
      ensures removed == |old(backend.items)| - |backend.items|
    {
      removed := backend.PurgeExpired(clock);
    }

    method DeleteConversation(ctx: Context) returns (removed: nat)
      modifies backend
      ensures backend.items == old(backend.items) - Under(old(backend.items), Prefix(ctx))
      ensures removed == |old(backend.items)| - |backend.items|
    {
      removed := backend.DeletePrefix(Prefix(ctx));
    }
  }
}
