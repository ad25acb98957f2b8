/** Replacing detected spans by surrogate tokens, and what restoring the result gives back. */
module Transformation {
  import opened Text
  import opened TokenGrammar
  import opened Tokens
  import opened Restoration
  import opened TokenStream
  import opened Conflicts
  import opened LengthPrefix

  type Digest = d: seq<byte> | |d| == 32 witness seq(32, _ => 0)

  /** The keyed hash, the two string rules, and the scope that every token is bound to. */
  datatype Minter = Minter(
    hmac: seq<byte> -> Digest,
    upper: string -> string,
    canonicalize: string -> string,
    tenant: string,
    conversation: string
  )

  function HexDigit(n: int): (c: char)
    requires 0 <= n < 16
    ensures IsHex(c)
  {
    if n < 10 then '0' + n as char else 'a' + (n - 10) as char
  }

  function Hex(bs: seq<byte>): (s: string)
    ensures |s| == 2 * |bs| && AllHex(s)
  {
    if bs == [] then "" else [HexDigit(bs[0] / 16), HexDigit(bs[0] % 16)] + Hex(bs[1..])
  }

  function TagOf(m: Minter, entityType: string, canonical: string): (tag: string)
    ensures |tag| == TAG_HEX_LENGTH && AllHex(tag)
  {
    Hex(m.hmac(TagMessage(VERSION, m.tenant, m.conversation, entityType, canonical))[..16])
  }

  /** The token of a value: deterministic in this scope. */
  function TokenFor(m: Minter, entityType: string, value: string): string
  {
    var upper, canonical := m.upper(entityType), m.canonicalize(value);
    TokenText(upper, TagOf(m, upper, canonical))
  }

  function SpanToken(m: Minter, s: Span): string
  {
    TokenFor(m, s.entityType, s.text)
  }

  /** A minted token is one the restoring pattern recognises exactly when the entity type fits the grammar. */
  lemma MintedIsToken(m: Minter, entityType: string, value: string)
    ensures IsToken(TokenFor(m, entityType, value)) <==>
            IsEntityName(m.upper(entityType)) && |m.upper(entityType)| <= ENTITY_WIDTH
  {
    var upper := m.upper(entityType);
    var tag := TagOf(m, upper, m.canonicalize(value));
    hide TagOf, IsToken, IsEntityName, AllHex;
    if IsEntityName(upper) && |upper| <= ENTITY_WIDTH {
      TokenTextIsToken(upper, tag);
    }
    if IsToken(TokenText(upper, tag)) {
      EntityOfToken(upper, tag);
    }
  }

  lemma EntityOfToken(entity: string, tag: string)
    requires IsToken(TokenText(entity, tag)) && |tag| == TAG_HEX_LENGTH
    ensures IsEntityName(entity) && |entity| <= ENTITY_WIDTH
  {
    hide IsEntityName, AllHex;
    var t := TokenText(entity, tag);
    assert t[1..|t| - 37] == entity;
  }

  // ---------- What a token says ----------

  function DigitValue(c: char): int { if '0' <= c <= '9' then c as int - '0' as int else c as int - 'a' as int + 10 }

  lemma DigitReads(n: int)
    requires 0 <= n < 16
    ensures DigitValue(HexDigit(n)) == n
  {
  }

  /** A tag reads back as its bytes, the high digit first. */
  lemma {:induction false} HexReads(bs: seq<byte>)
    ensures forall k | 0 <= k < |bs| :: DigitValue(Hex(bs)[2 * k]) * 16 + DigitValue(Hex(bs)[2 * k + 1]) == bs[k]
  {
    hide HexDigit, DigitValue;
    if bs != [] {
      HexReads(bs[1..]);
      DigitReads(bs[0] / 16);
      DigitReads(bs[0] % 16);
      forall k | 0 <= k < |bs|
        ensures DigitValue(Hex(bs)[2 * k]) * 16 + DigitValue(Hex(bs)[2 * k + 1]) == bs[k]
      {
        if k > 0 {
          assert Hex(bs)[2 * k] == Hex(bs[1..])[2 * (k - 1)] && Hex(bs)[2 * k + 1] == Hex(bs[1..])[2 * (k - 1) + 1];
          assert bs[k] == bs[1..][k - 1];
        }
      }
    }
  }

  lemma HexInjective(a: seq<byte>, b: seq<byte>)
    requires Hex(a) == Hex(b)
    ensures a == b
  {
    hide Hex, DigitValue;
    HexReads(a);
    HexReads(b);
    assert |a| == |b|;
    forall k | 0 <= k < |a|
      ensures a[k] == b[k]
    {
      assert Hex(a)[2 * k] == Hex(b)[2 * k] && Hex(a)[2 * k + 1] == Hex(b)[2 * k + 1];
    }
  }

  /** What is hashed for a value: domain, version, tenant, conversation, upper-cased type and canonical value. */
  function Hashed(m: Minter, entityType: string, value: string): seq<byte> {
    LengthPrefixed(["quiethours/token", "v1", m.tenant, m.conversation, m.upper(entityType), m.canonicalize(value)])
  }

  /** A token names its type and the first sixteen bytes of the hash, and nothing else decides it. */
  lemma TokensAgree(m: Minter, e: string, v: string, m': Minter, e': string, v': string)
    ensures TokenFor(m, e, v) == TokenFor(m', e', v')
            <==> m.upper(e) == m'.upper(e') && m.hmac(Hashed(m, e, v))[..16] == m'.hmac(Hashed(m', e', v'))[..16]
  {
    hide LengthPrefixed, Hex;
    var tag, tag' := TagOf(m, m.upper(e), m.canonicalize(v)), TagOf(m', m'.upper(e'), m'.canonicalize(v'));
    assert tag == Hex(m.hmac(Hashed(m, e, v))[..16]) && tag' == Hex(m'.hmac(Hashed(m', e', v'))[..16]);
    if TokenFor(m, e, v) == TokenFor(m', e', v') {
      TextDecides(m.upper(e), tag, m'.upper(e'), tag');
      HexInjective(m.hmac(Hashed(m, e, v))[..16], m'.hmac(Hashed(m', e', v'))[..16]);
    }
  }

  lemma TextDecides(entity: string, tag: string, entity': string, tag': string)
    requires |tag| == |tag'| && TokenText(entity, tag) == TokenText(entity', tag')
    ensures entity == entity' && tag == tag'
  {
    var t, n := TokenText(entity, tag), |tag|;
    assert entity == t[1..|t| - n - 5] && tag == t[|t| - n - 1..|t| - 1];
    assert entity' == t[1..|t| - n - 5] && tag' == t[|t| - n - 1..|t| - 1];
  }

  /** One token in two places means the same tenant, conversation, type and canonical value, or a collision of the
      hash's first sixteen bytes. */
  lemma TokensApart(m: Minter, e: string, v: string, m': Minter, e': string, v': string)
    requires m.hmac == m'.hmac
    ensures TokenFor(m, e, v) == TokenFor(m', e', v') ==>
              || (&& m.tenant == m'.tenant && m.conversation == m'.conversation
                  && m.upper(e) == m'.upper(e') && m.canonicalize(v) == m'.canonicalize(v'))
              || (Hashed(m, e, v) != Hashed(m', e', v')
                  && m.hmac(Hashed(m, e, v))[..16] == m.hmac(Hashed(m', e', v'))[..16])
    ensures (&& m.tenant == m'.tenant && m.conversation == m'.conversation
             && m.upper(e) == m'.upper(e') && m.canonicalize(v) == m'.canonicalize(v')) ==>
              TokenFor(m, e, v) == TokenFor(m', e', v')
  {
    hide LengthPrefixed;
    TokensAgree(m, e, v, m', e', v');
    if Hashed(m, e, v) == Hashed(m', e', v') {
      TagMessageInjective("v1", m.tenant, m.conversation, m.upper(e), m.canonicalize(v),
                          "v1", m'.tenant, m'.conversation, m'.upper(e'), m'.canonicalize(v'));
    }
    hide TokenFor;
  }

  // ---------- Provenance ----------

  type Minted = map<string, SurrogateToken>

  /** Every record is filed under its own token, with the canonical form of the spelling it keeps. */
  ghost predicate Consistent(p: Minted, canonicalize: string -> string) {
    forall t | t in p :: p[t].token == t && p[t].canonical == canonicalize(p[t].original)
  }

  /** Minting one value: a known token is re-used unless another value claims it. */
  function MintOne(m: Minter, p: Minted, entityType: string, value: string): Option<Minted>
  {
    var upper, canonical := m.upper(entityType), m.canonicalize(value);
    var token := TokenFor(m, entityType, value);
    if token in p then
      if p[token].canonical != canonical then None else Some(p)
    else Some(p[token := SurrogateToken(token, upper, TagOf(m, upper, canonical), canonical, value)])
  }

  method Mint(m: Minter, entityType: string, value: string, provenance: TokenProvenance)
    returns (r: Option<SurrogateToken>)
    modifies provenance
    ensures r.Some? <==> MintOne(m, old(provenance.byToken), entityType, value).Some?
    ensures r.Some? ==>
              && Some(provenance.byToken) == MintOne(m, old(provenance.byToken), entityType, value)
              && TokenFor(m, entityType, value) in provenance.byToken
              && r.value == provenance.byToken[TokenFor(m, entityType, value)]
    ensures r.None? ==> provenance.byToken == old(provenance.byToken)
  {
    hide TokenText, TagOf;
    var upper, canonical := m.upper(entityType), m.canonicalize(value);
    var tag := TagOf(m, upper, canonical);
    var token := TokenText(upper, tag);
    var existing := provenance.Lookup(token);
    if existing.Some? {
      return if existing.value.canonical != canonical then None else existing;
    }
    var surrogate := SurrogateToken(token, upper, tag, canonical, value);
    provenance.Record(surrogate);
    return Some(surrogate);
  }

  /** Minting a list of spans from the right. */
  function MintAll(m: Minter, p: Minted, spans: seq<Span>): Option<Minted>
    decreases |spans|
  {
    if spans == [] then Some(p)
    else
      var last := spans[|spans| - 1];
      match MintOne(m, p, last.entityType, last.text)
      case None => None
      case Some(q) => MintAll(m, q, spans[..|spans| - 1])
  }

  lemma MintOneKeeps(m: Minter, p: Minted, entityType: string, value: string)
    requires Consistent(p, m.canonicalize)
    requires MintOne(m, p, entityType, value).Some?
    ensures var q := MintOne(m, p, entityType, value).value;
            var token := TokenFor(m, entityType, value);
            && Consistent(q, m.canonicalize)
            && p.Keys <= q.Keys == p.Keys + {token}
            && (forall t | t in p :: q[t] == p[t])
            && q[token].canonical == m.canonicalize(value)
            && (token !in p ==> q[token].original == value)
  {
    hide TokenText, TagOf;
  }

  /** Earlier records stand; every span's token is recorded with the span's canonical form. */
  lemma {:induction false} MintAllKeeps(m: Minter, p: Minted, spans: seq<Span>)
    requires Consistent(p, m.canonicalize) && MintAll(m, p, spans).Some?
    ensures var q := MintAll(m, p, spans).value;
            && Consistent(q, m.canonicalize)
            && p.Keys <= q.Keys && (forall t | t in p :: q[t] == p[t])
            && (forall s | s in spans :: SpanToken(m, s) in q && q[SpanToken(m, s)].canonical == m.canonicalize(s.text))
            && (forall t | t in q && t !in p :: exists s :: s in spans && SpanToken(m, s) == t && q[t].original == s.text)
    decreases |spans|
  {
    hide MintOne, TokenFor, Consistent;
    if spans != [] {
      var rest, last := spans[..|spans| - 1], spans[|spans| - 1];
      assert spans == rest + [last];
      MintOneKeeps(m, p, last.entityType, last.text);
      var mid := MintOne(m, p, last.entityType, last.text).value;
      MintAllKeeps(m, mid, rest);
      var q := MintAll(m, mid, rest).value;
      forall t | t in q && t !in p
        ensures exists s :: s in spans && SpanToken(m, s) == t && q[t].original == s.text
      {
        if t in mid {
          assert last in spans && SpanToken(m, last) == t;
        } else {
          var s :| s in rest && SpanToken(m, s) == t && q[t].original == s.text;
          assert s in spans;
        }
      }
    }
  }

  // ---------- Replacement ----------

  /** From `cursor` on: gaps copied, each span replaced by what `f` makes of it. */
  function Replaced(text: string, spans: seq<Span>, f: Span -> string, cursor: nat): string
    requires cursor <= |text| && InText(text, spans, cursor)
    decreases |spans|
  {
    if spans == [] then text[cursor..]
    else text[cursor..spans[0].start] + (f(spans[0]) + Replaced(text, spans[1..], f, spans[0].end))
  }

  /** The spans lie in the text from `cursor` on, in order and apart. */
  predicate InText(text: string, spans: seq<Span>, cursor: nat)
    decreases |spans|
  {
    if spans == [] then cursor <= |text|
    else cursor <= spans[0].start <= spans[0].end <= |text| && InText(text, spans[1..], spans[0].end)
  }

  lemma {:induction false} LastInText(text: string, spans: seq<Span>, cursor: nat)
    requires spans != [] && cursor <= |text| && InText(text, spans, cursor)
    ensures var n := |spans| - 1;
            && cursor <= spans[n].start <= spans[n].end <= |text|
            && InText(text[..spans[n].start], spans[..n], cursor)
    decreases |spans|
  {
    var n := |spans| - 1;
    if n > 0 {
      assert spans[1..][n - 1] == spans[n] && spans[1..][..n - 1] == spans[..n][1..];
      LastInText(text, spans[1..], spans[0].end);
    }
  }

  lemma Regroup(gap: string, put: string, rest: string, lastPut: string, end: string)
    ensures gap + (put + (rest + lastPut + end)) == gap + (put + rest) + lastPut + end
  {
  }

  lemma ReplacedStep(text: string, spans: seq<Span>, f: Span -> string, cursor: nat, cut: nat)
    requires spans != [] && cursor <= cut <= |text|
    requires InText(text[..cut], spans, cursor)
    ensures cursor <= spans[0].start <= spans[0].end <= cut && InText(text[..cut], spans[1..], spans[0].end)
    ensures Replaced(text[..cut], spans, f, cursor)
            == text[cursor..spans[0].start] + (f(spans[0]) + Replaced(text[..cut], spans[1..], f, spans[0].end))
  {
    assert text[..cut][cursor..spans[0].start] == text[cursor..spans[0].start];
  }

  /** Cutting off the last span: its gap and its replacement come last. */
  lemma {:induction false} ReplacedLast(text: string, spans: seq<Span>, f: Span -> string, cursor: nat)
    requires spans != [] && cursor <= |text| && InText(text, spans, cursor)
    ensures var n := |spans| - 1;
            && spans[n].start <= spans[n].end <= |text|
            && InText(text[..spans[n].start], spans[..n], cursor)
            && cursor <= spans[n].start
            && Replaced(text, spans, f, cursor)
               == Replaced(text[..spans[n].start], spans[..n], f, cursor) + f(spans[n]) + text[spans[n].end..]
    decreases |spans|
  {
    var n := |spans| - 1;
    var last := spans[n];
    LastInText(text, spans, cursor);
    if n == 0 {
      ReplacedOne(text, last, f, cursor);
      assert spans == [last] && spans[..0] == [];
    } else {
      ReplacedLastMore(text, spans, f, cursor);
    }
  }

  lemma ReplacedOne(text: string, s: Span, f: Span -> string, cursor: nat)
    requires cursor <= s.start <= s.end <= |text|
    ensures Replaced(text, [s], f, cursor) == Replaced(text[..s.start], [], f, cursor) + f(s) + text[s.end..]
  {
    assert text[..s.start][cursor..] == text[cursor..s.start];
    assert Replaced(text, [s][1..], f, s.end) == text[s.end..];
  }

  lemma {:induction false} ReplacedLastMore(text: string, spans: seq<Span>, f: Span -> string, cursor: nat)
    requires |spans| > 1 && cursor <= |text| && InText(text, spans, cursor)
    ensures var n := |spans| - 1;
            && spans[n].start <= spans[n].end <= |text|
            && InText(text[..spans[n].start], spans[..n], cursor)
            && cursor <= spans[n].start
            && Replaced(text, spans, f, cursor)
               == Replaced(text[..spans[n].start], spans[..n], f, cursor) + f(spans[n]) + text[spans[n].end..]
    decreases |spans|, 0
  {
    hide InText, Replaced;
    var n := |spans| - 1;
    var last, first, tail := spans[n], spans[0], spans[1..];
    LastInText(text, spans, cursor);
    assert text[..|text|] == text;
    ReplacedStep(text, spans, f, cursor, |text|);
    assert tail[n - 1] == last && tail[..n - 1] == spans[..n][1..] && spans[..n][0] == first;
    ReplacedLast(text, tail, f, first.end);
    ReplacedStep(text, spans[..n], f, cursor, last.start);
    Regroup(text[cursor..first.start], f(first), Replaced(text[..last.start], tail[..n - 1], f, first.end), f(last), text[last.end..]);
  }

  /** The replacement that transformation makes. */
  function TokenOf(m: Minter): Span -> string { (s: Span) => SpanToken(m, s) }

  lemma {:induction false} ChainInText(text: string, ordered: seq<Span>, cursor: nat)
    requires Chained(ordered) && (forall s | s in ordered :: s.end <= |text|) && cursor <= |text|
    requires ordered != [] ==> cursor <= ordered[0].start
    ensures InText(text, ordered, cursor)
    decreases |ordered|
  {
    if ordered != [] {
      assert ordered[0] in ordered && ordered[0].Ok();
      hide Span.Ok;
      ChainTail(ordered);
      ChainInText(text, ordered[1..], ordered[0].end);
    }
  }

  lemma GreedyInText(text: string, spans: seq<Span>)
    requires AllOk(spans) && forall s | s in spans :: CutFrom(s, text)
    ensures InText(text, Greedy(Ranked(spans)), 0)
    ensures forall s | s in Greedy(Ranked(spans)) :: CutFrom(s, text)
  {
    hide Greedy, Ranked, Chained, CutFrom, InText;
    var ordered := Greedy(Ranked(spans));
    RankedOk(spans);
    GreedyChained(Ranked(spans));
    GreedyMeaning(Ranked(spans));
    forall s | s in ordered
      ensures CutFrom(s, text) && s.end <= |text|
    {
      assert s in multiset(ordered);
      assert s in multiset(spans);
      CutEnds(s, text);
    }
    ChainInText(text, ordered, 0);
  }

  lemma CutEnds(s: Span, text: string)
    requires s in multiset{s} && CutFrom(s, text)
    ensures s.end <= |text|
  {
  }

  datatype TransformError = TokenCollision

  function CursorAt(text: string, ordered: seq<Span>, k: nat): nat
    requires k <= |ordered|
  {
    if k == |ordered| then |text| else ordered[k].start
  }

  /** `out` is the finished right end; what is left of `cursor` still waits. */
  ghost predicate Assembling(m: Minter, text: string, ordered: seq<Span>, k: nat, cursor: nat, out: string) {
    && k <= |ordered| && cursor <= |text|
    && InText(text, ordered, 0) && InText(text[..cursor], ordered[..k], 0)
    && Replaced(text, ordered, TokenOf(m), 0) == Replaced(text[..cursor], ordered[..k], TokenOf(m), 0) + out
  }

  /** One vault write: a span's token with the spelling it stands for. */
  predicate PutAt(m: Minter, p: Minted, s: Span, put: (string, string)) {
    SpanToken(m, s) in p && put == (SpanToken(m, s), p[SpanToken(m, s)].original)
  }

  /** The vault has been handed one pair for every span from `k` on, last span first. */
  ghost predicate PutsOf(m: Minter, p: Minted, ordered: seq<Span>, puts: seq<(string, string)>, k: nat) {
    && k + |puts| == |ordered|
    && forall j | 0 <= j < |puts| :: PutAt(m, p, ordered[|ordered| - 1 - j], puts[j])
  }

  lemma AssemblyStarts(m: Minter, text: string, ordered: seq<Span>, p: Minted)
    requires InText(text, ordered, 0)
    ensures Assembling(m, text, ordered, |ordered|, |text|, Join(Reverse([])))
    ensures MintAll(m, p, ordered) == MintAll(m, p, ordered[..|ordered|])
    ensures PutsOf(m, p, ordered, [], |ordered|)
  {
    assert Reverse<string>([]) == [] && Join([]) == "";
    hide Join, Reverse, MintAll, Replaced, InText;
    assert text[..|text|] == text && ordered[..|ordered|] == ordered;
    var whole := Replaced(text, ordered, TokenOf(m), 0);
    assert whole + "" == whole;
  }

  lemma AssembleStep(m: Minter, text: string, ordered: seq<Span>, k: nat, cursor: nat, out: string)
    requires k < |ordered| && Assembling(m, text, ordered, k + 1, cursor, out)
    ensures var s := ordered[k];
            && s.start <= s.end <= cursor <= |text|
            && Assembling(m, text, ordered, k, s.start, SpanToken(m, s) + (text[s.end..cursor] + out))
  {
    hide InText, Replaced, SpanToken;
    var s, f := ordered[k], TokenOf(m);
    var head, spans := text[..cursor], ordered[..k + 1];
    ReplacedLast(head, spans, f, 0);
    assert spans[..k] == ordered[..k] && head[..s.start] == text[..s.start] && head[s.end..] == text[s.end..cursor];
    var rest := Replaced(text[..s.start], ordered[..k], f, 0);
    assert rest + f(s) + text[s.end..cursor] + out == rest + (f(s) + (text[s.end..cursor] + out));
  }

  lemma MintStep(m: Minter, p: Minted, ordered: seq<Span>, k: nat)
    requires k < |ordered|
    ensures MintAll(m, p, ordered[..k + 1])
            == match MintOne(m, p, ordered[k].entityType, ordered[k].text)
               case None => None
               case Some(q) => MintAll(m, q, ordered[..k])
  {
    hide MintOne;
    assert ordered[..k + 1][..k] == ordered[..k];
  }

  lemma PutStep(m: Minter, p: Minted, ordered: seq<Span>, puts: seq<(string, string)>, k: nat)
    requires k < |ordered| && PutsOf(m, p, ordered, puts, k + 1)
    requires MintOne(m, p, ordered[k].entityType, ordered[k].text).Some?
    ensures var q := MintOne(m, p, ordered[k].entityType, ordered[k].text).value;
            var token := SpanToken(m, ordered[k]);
            && token in q
            && PutsOf(m, q, ordered, puts + [(token, q[token].original)], k)
  {
    hide MintOne, TokenFor;
    MintOneGrows(m, p, ordered[k].entityType, ordered[k].text);
    var q := MintOne(m, p, ordered[k].entityType, ordered[k].text).value;
    var token := SpanToken(m, ordered[k]);
    var grown := puts + [(token, q[token].original)];
    forall j | 0 <= j < |grown|
      ensures PutAt(m, q, ordered[|ordered| - 1 - j], grown[j])
    {
      assert j < |puts| ==> PutAt(m, p, ordered[|ordered| - 1 - j], puts[j]);
    }
  }

  lemma MintNothing(m: Minter, p: Minted, ordered: seq<Span>)
    ensures MintAll(m, p, ordered[..0]) == Some(p)
  {
  }

  lemma MintOneGrows(m: Minter, p: Minted, entityType: string, value: string)
    requires MintOne(m, p, entityType, value).Some?
    ensures var q := MintOne(m, p, entityType, value).value;
            TokenFor(m, entityType, value) in q && forall t | t in p :: t in q && q[t] == p[t]
  {
    hide TokenText, TagOf;
  }

  /** Mints right to left, assembles once, and hands every pair to the vault. */
  method Transform(m: Minter, text: string, spans: seq<Span>, provenance: TokenProvenance)
    returns (r: Result<string, TransformError>, puts: seq<(string, string)>)
    requires AllOk(spans) && forall s | s in spans :: CutFrom(s, text)
    requires Consistent(provenance.byToken, m.canonicalize)
    modifies provenance
    ensures var ordered := Greedy(Ranked(spans));
            && InText(text, ordered, 0)
            && (r.Ok? <==> MintAll(m, old(provenance.byToken), ordered).Some?)
            && (r.Ok? ==>
                  && r.value == Replaced(text, ordered, TokenOf(m), 0)
                  && Some(provenance.byToken) == MintAll(m, old(provenance.byToken), ordered)
                  && PutsOf(m, provenance.byToken, ordered, puts, 0))
  {
    hide MintOne, MintAll, TokenFor, Replaced, InText, Ranked, Greedy, Chained, Join, Reverse, AllOk, CutFrom, PutsOf, Assembling;
    puts := [];
    var ordered := ResolveConflicts(spans);
    GreedyInText(text, spans);
    var fragments: seq<string> := [];
    var cursor := |text|;
    var k := |ordered|;
    AssemblyStarts(m, text, ordered, provenance.byToken);
    while k > 0
      invariant 0 <= k <= |ordered| && cursor == CursorAt(text, ordered, k)
      invariant Consistent(provenance.byToken, m.canonicalize)
      invariant Assembling(m, text, ordered, k, cursor, Join(Reverse(fragments)))
      invariant MintAll(m, old(provenance.byToken), ordered) == MintAll(m, provenance.byToken, ordered[..k])
      invariant PutsOf(m, provenance.byToken, ordered, puts, k)
    {
      k := k - 1;
      var span := ordered[k];
      MintStep(m, provenance.byToken, ordered, k);
      AssembleStep(m, text, ordered, k, cursor, Join(Reverse(fragments)));
      ghost var before := provenance.byToken;
      var surrogate := Mint(m, span.entityType, span.text, provenance);
      if surrogate.None? {
        return Err(TokenCollision), puts;
      }
      MintOneKeeps(m, before, span.entityType, span.text);
      PutStep(m, before, ordered, puts, k);
      assert surrogate.value.token == SpanToken(m, span);
      ReversePair(fragments, text[span.end..cursor], surrogate.value.token);
      puts := puts + [(surrogate.value.token, surrogate.value.original)];
      fragments := fragments + [text[span.end..cursor], surrogate.value.token];
      cursor := span.start;
    }
    AssemblyEnds(m, text, ordered, cursor, fragments);
    MintNothing(m, provenance.byToken, ordered);
    fragments := fragments + [text[..cursor]];
    return Ok(Join(Reverse(fragments))), puts;
  }

  lemma AssemblyEnds(m: Minter, text: string, ordered: seq<Span>, cursor: nat, fragments: seq<string>)
    requires Assembling(m, text, ordered, 0, cursor, Join(Reverse(fragments)))
    ensures cursor <= |text|
    ensures Join(Reverse(fragments + [text[..cursor]])) == Replaced(text, ordered, TokenOf(m), 0)
  {
    hide Join, Reverse;
    ReverseSnoc(fragments, text[..cursor]);
    assert Replaced(text[..cursor], ordered[..0], TokenOf(m), 0) == text[..cursor][0..] == text[..cursor];
  }

  // ---------- Round trip ----------

  /** What restoration puts back for a span: the spelling this request recorded for its canonical value. */
  function Representative(m: Minter, p: Minted): Span -> string {
    (s: Span) => if SpanToken(m, s) in p then p[SpanToken(m, s)].original else s.text
  }

  /** The vault confirms every token of this request, under whatever spelling it was last refreshed with. */
  ghost predicate Confirmed(m: Minter, p: Minted, auth: Authority) {
    && auth.minted == p && auth.canonicalize == m.canonicalize
    && forall t | t in p :: auth.vault(t).Found? && m.canonicalize(auth.vault(t).value) == p[t].canonical
  }

  lemma ConfirmedMinted(m: Minter, p: Minted, auth: Authority)
    requires Confirmed(m, p, auth)
    ensures auth.minted == p
  {
  }

  /** Between angle brackets, as every minted token stands whatever its entity type. */
  predicate Bracketed(t: string) { |t| >= 2 && t[0] == '<' && t[|t| - 1] == '>' }

  /** A closing bracket and what follows it meet without a match across the seam. */
  lemma SeamAfterToken(token: string, rest: string)
    requires Bracketed(token)
    ensures Seam(token, rest)
  {
    hide IsToken;
    forall i, j | 0 <= i < |token| < j <= |token| + |rest|
      ensures !IsToken((token + rest)[i..j])
    {
      var t := (token + rest)[i..j];
      var close := |token| - 1 - i;
      assert t[close] == token[|token| - 1];
      NotAToken(t, close);
    }
  }

  lemma NotAToken(t: string, close: nat)
    requires close < |t| - 1 && t[close] == '>'
    ensures !IsToken(t)
  {
    hide IsToken;
    if IsToken(t) {
      TokenBrackets(t, close);
    }
  }

  /** Restoring gap, token, rest is restoring each, whether or not the token is one the pattern recognises. */
  lemma RestoredPieces(gap: string, token: string, rest: string, auth: Authority)
    requires Bracketed(token)
    ensures Restored(gap + (token + rest), auth) == Restored(gap, auth) + (Restored(token, auth) + Restored(rest, auth))
  {
    hide IsToken, Lex, Render, TallyOf, Tally.Plus, Seam, Restored, NoOpenEnd;
    SeamAtBracket(gap, token + rest);
    RestoredSplit(gap, token + rest, auth);
    SeamAfterToken(token, rest);
    RestoredSplit(token, rest, auth);
  }

  /** The gaps around the spans, restored; the spans, as their representatives. */
  function RoundTripText(text: string, spans: seq<Span>, f: Span -> string, cursor: nat, auth: Authority): string
    requires cursor <= |text| && InText(text, spans, cursor)
    decreases |spans|
  {
    if spans == [] then Restored(text[cursor..], auth)
    else Restored(text[cursor..spans[0].start], auth)
         + (f(spans[0]) + RoundTripText(text, spans[1..], f, spans[0].end, auth))
  }

  /** The entity types of these spans fit the token grammar. */
  predicate TypesFit(m: Minter, spans: seq<Span>) { forall s | s in spans :: Fits(m, s.entityType) }

  predicate Fits(m: Minter, entityType: string) {
    IsEntityName(m.upper(entityType)) && |m.upper(entityType)| <= ENTITY_WIDTH
  }

  /** What comes back for a span: its token, restored on its own. */
  function ReturnedAs(m: Minter, auth: Authority): Span -> string { (s: Span) => Restored(SpanToken(m, s), auth) }

  lemma SpanTokenBracketed(m: Minter, s: Span)
    ensures Bracketed(SpanToken(m, s))
  {
    hide TagOf;
  }

  lemma NothingRestores(auth: Authority)
    ensures Restores("", auth, "", NOTHING, [])
  {
  }

  lemma TokenAlone(t: string, auth: Authority)
    requires IsToken(t)
    ensures Restored(t, auth) == auth.Rendering(t)
  {
    hide IsToken, Lex, Render, TallyOf, RefusedOf, Authority.Rendering, Authority.Judge, TallyOne, Tally.Plus;
    NothingRestores(auth);
    TokenPiece(t, "", auth, "", NOTHING, []);
    assert t + "" == t && auth.Rendering(t) + "" == auth.Rendering(t);
  }

  /** A token of the grammar comes back as the spelling on record. */
  lemma ReturnsFit(m: Minter, p: Minted, auth: Authority, s: Span)
    requires Confirmed(m, p, auth) && SpanToken(m, s) in p && Fits(m, s.entityType)
    ensures ReturnedAs(m, auth)(s) == Representative(m, p)(s)
  {
    hide TokenFor, IsEntityName, IsToken, Restored;
    MintedIsToken(m, s.entityType, s.text);
    TokenAlone(SpanToken(m, s), auth);
  }

  /** No token of the request begins with another one. */
  ghost predicate PrefixFree(p: Minted) {
    forall t, t' | t in p && t' in p && t <= t' :: t == t'
  }

  /** Anything else keeps at least its opening bracket. */
  lemma ReturnsUnfit(m: Minter, p: Minted, auth: Authority, s: Span)
    requires Confirmed(m, p, auth) && SpanToken(m, s) in p && !Fits(m, s.entityType) && PrefixFree(p)
    ensures ReturnedAs(m, auth)(s) != "" && ReturnedAs(m, auth)(s)[0] == '<'
  {
    hide TokenFor, IsEntityName;
    MintedIsToken(m, s.entityType, s.text);
    var t := SpanToken(m, s);
    SpanTokenBracketed(m, s);
    hide IsToken, TokenPrefix;
    var n := if TokenPrefix(t) > 0 then TokenPrefix(t) else 1;
    LexStep(t);
    ConsPiece(t[..n], Lex(t[n..]), auth);
    assert t[..n] <= t && (t[..n] in p ==> t[..n] == t);
    assert auth.Rendering(t[..n]) == t[..n];
  }

  /** Entity types without a closing bracket cannot make one token begin with another. */
  lemma PlainTypesPrefixFree(p: Minted)
    requires forall t | t in p :: Bracketed(t) && forall k | 0 <= k < |t| - 1 :: t[k] != '>'
    ensures PrefixFree(p)
  {
    forall t, t' | t in p && t' in p && t <= t'
      ensures t == t'
    {
      assert t'[|t| - 1] == t[|t| - 1];
    }
  }

  /** Restoring a transformed text: the token of every span and every gap is restored on its own. */
  lemma {:induction false} RoundTrip(m: Minter, auth: Authority, text: string, spans: seq<Span>, cursor: nat)
    requires cursor <= |text| && InText(text, spans, cursor)
    ensures Restored(Replaced(text, spans, TokenOf(m), cursor), auth)
            == RoundTripText(text, spans, ReturnedAs(m, auth), cursor, auth)
    decreases |spans|
  {
    hide SpanToken, Restored;
    if spans != [] {
      var s := spans[0];
      SpanTokenBracketed(m, s);
      RoundTrip(m, auth, text, spans[1..], s.end);
      RestoredPieces(text[cursor..s.start], SpanToken(m, s), Replaced(text, spans[1..], TokenOf(m), s.end), auth);
    }
  }

  /** No token of this request is matched in `gap`. */
  ghost predicate FreeOf(gap: string, minted: Minted) {
    forall t | t in Lex(gap) :: t !in minted
  }

  /** A text without any of this request's tokens is left exactly as it is. */
  lemma {:induction false} FreeStands(gap: string, auth: Authority)
    requires FreeOf(gap, auth.minted)
    ensures Restored(gap, auth) == gap
    decreases |gap|
  {
    hide IsToken, TokenPrefix;
    if gap != "" {
      var n := if TokenPrefix(gap) > 0 then TokenPrefix(gap) else 1;
      LexStep(gap);
      ConsPiece(gap[..n], Lex(gap[n..]), auth);
      assert gap[..n] in Lex(gap);
      FreeStands(gap[n..], auth);
      assert auth.Rendering(gap[..n]) == gap[..n];
    }
  }

  /** Nothing on record is one character or comes back with an opening bracket in front. */
  ghost predicate Tellable(auth: Authority) {
    forall t | t in auth.minted ::
      |t| > 1 && (IsToken(t) ==> auth.Rendering(t) != "" && auth.Rendering(t)[0] != '<')
  }

  /** A text with one of this request's tokens in it changes, and nothing that follows can hide that. */
  lemma {:induction false} QuotedChanges(gap: string, auth: Authority, after: string, rest: string)
    requires !FreeOf(gap, auth.minted) && Tellable(auth)
    ensures Restored(gap, auth) + after != gap + rest
    decreases |gap|
  {
    hide IsToken, TokenPrefix, Authority.Rendering, Tellable;
    var n := if TokenPrefix(gap) > 0 then TokenPrefix(gap) else 1;
    LexStep(gap);
    var piece, tail := gap[..n], gap[n..];
    ConsPiece(piece, Lex(tail), auth);
    hide Lex, Render;
    assert gap == piece + tail;
    Associate(auth.Rendering(piece), Restored(tail, auth), after);
    Associate(piece, tail, rest);
    if piece in auth.minted {
      MintedTells(piece, auth);
      FirstDiffers(auth.Rendering(piece), Restored(tail, auth) + after, piece, tail + rest);
    } else {
      PlainStays(piece, auth);
      QuotedChanges(tail, auth, after, rest);
      SameTail(piece, Restored(tail, auth) + after, tail + rest);
    }
  }

  lemma MintedTells(piece: string, auth: Authority)
    requires piece in auth.minted && Tellable(auth) && (|piece| <= 1 || IsToken(piece))
    ensures piece != "" && auth.Rendering(piece) != "" && auth.Rendering(piece)[0] != piece[0]
  {
    hide Authority.Rendering;
  }

  lemma FirstDiffers(a: string, after: string, b: string, rest: string)
    requires a != "" && b != "" && a[0] != b[0]
    ensures a + after != b + rest
  {
    assert (a + after)[0] == a[0] && (b + rest)[0] == b[0];
  }

  lemma PlainStays(piece: string, auth: Authority)
    requires piece !in auth.minted
    ensures auth.Rendering(piece) == piece
  {
    hide IsToken;
  }

  /** None of this request's tokens occurs in what was left alone. */
  ghost predicate GapsClean(text: string, spans: seq<Span>, cursor: nat, minted: Minted)
    requires cursor <= |text| && InText(text, spans, cursor)
    decreases |spans|
  {
    if spans == [] then FreeOf(text[cursor..], minted)
    else FreeOf(text[cursor..spans[0].start], minted) && GapsClean(text, spans[1..], spans[0].end, minted)
  }

  /** What stands for a span is its text, or differs from it in the first character. */
  predicate Told(f: Span -> string, s: Span) {
    f(s) == s.text || (f(s) != "" && s.text != "" && f(s)[0] != s.text[0])
  }

  lemma {:induction false} ExactPieces(text: string, spans: seq<Span>, f: Span -> string, cursor: nat, auth: Authority)
    requires cursor <= |text| && InText(text, spans, cursor) && GapsClean(text, spans, cursor, auth.minted)
    requires forall s | s in spans :: CutFrom(s, text) && f(s) == s.text
    ensures RoundTripText(text, spans, f, cursor, auth) == text[cursor..]
    decreases |spans|
  {
    hide Restored, FreeOf;
    if spans == [] {
      FreeStands(text[cursor..], auth);
    } else {
      var s := spans[0];
      assert s in spans;
      FreeStands(text[cursor..s.start], auth);
      ExactPieces(text, spans[1..], f, s.end, auth);
      assert text[cursor..] == text[cursor..s.start] + (text[s.start..s.end] + text[s.end..]);
    }
  }

  /** Otherwise the first piece that changed shows. */
  lemma {:induction false} ExactOnly(text: string, spans: seq<Span>, f: Span -> string, cursor: nat, auth: Authority)
    requires cursor <= |text| && InText(text, spans, cursor) && Tellable(auth)
    requires forall s | s in spans :: CutFrom(s, text) && Told(f, s)
    requires RoundTripText(text, spans, f, cursor, auth) == text[cursor..]
    ensures GapsClean(text, spans, cursor, auth.minted)
    ensures forall s | s in spans :: f(s) == s.text
    decreases |spans|
  {
    hide Restored, FreeOf, Tellable;
    if spans == [] {
      var last := text[cursor..];
      assert Restored(last, auth) + "" == Restored(last, auth) && last + "" == last;
      if !FreeOf(last, auth.minted) {
        QuotedChanges(last, auth, "", "");
      }
    } else {
      var s, tail := spans[0], spans[1..];
      assert s in spans;
      var gap, after := text[cursor..s.start], RoundTripText(text, tail, f, s.end, auth);
      assert text[cursor..] == gap + (s.text + text[s.end..]);
      if !FreeOf(gap, auth.minted) {
        QuotedChanges(gap, auth, f(s) + after, s.text + text[s.end..]);
      }
      FreeStands(gap, auth);
      SameTail(gap, f(s) + after, s.text + text[s.end..]);
      FirstTells(f(s), after, s.text, text[s.end..]);
      SameTail(s.text, after, text[s.end..]);
      ExactOnly(text, tail, f, s.end, auth);
      assert spans == [s] + tail;
    }
  }

  lemma SameTail(head: string, a: string, b: string)
    ensures head + a == head + b <==> a == b
  {
    if head + a == head + b {
      assert (head + a)[|head|..] == a && (head + b)[|head|..] == b;
    }
  }

  lemma FirstTells(a: string, after: string, b: string, rest: string)
    requires a + after == b + rest && (a == b || (a != "" && b != "" && a[0] != b[0]))
    ensures a == b
  {
    if a != b {
      FirstDiffers(a, after, b, rest);
    }
  }
}
