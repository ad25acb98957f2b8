/** Restoring only the tokens this request minted and the vault confirms. */
module Restoration {
  import opened Text
  import opened TokenGrammar
  import opened Tokens

  /** What the vault answers for one token of the calling tenant and conversation. */
  datatype Lookup = Found(value: string) | Absent | ForeignRecord | MissingKey

  datatype Reason = NotMinted | Unknown | CrossTenant | KeyUnavailable

  datatype Verdict = Restore(value: string) | Refuse(reason: Reason)

  /** Everything a restoration consults: this request's mints, the scoped vault and the canonical form. */
  datatype Authority = Authority(
    minted: map<string, SurrogateToken>,
    vault: string -> Lookup,
    canonicalize: string -> string
  ) {
    function Judge(token: string): Verdict {
      if token !in minted then Refuse(NotMinted)
      else
        match vault(token)
        case ForeignRecord => Refuse(CrossTenant)
        case MissingKey => Refuse(KeyUnavailable)
        case Absent => Refuse(Unknown)
        case Found(value) =>
          if canonicalize(value) != minted[token].canonical then Refuse(Unknown)
          else Restore(minted[token].original)
    }

    /** What replaces one piece of text. */
    function Rendering(piece: string): string {
      if IsToken(piece) && Judge(piece).Restore? then Judge(piece).value else piece
    }
  }

  // ---------- The text as pieces: single characters and whole tokens ----------

  function Lex(s: string): (pieces: seq<string>)
    ensures Join(pieces) == s
    decreases |s|
  {
    if s == "" then []
    else
      var n := if TokenPrefix(s) > 0 then TokenPrefix(s) else 1;
      [s[..n]] + Lex(s[n..])
  }

  function Render(pieces: seq<string>, auth: Authority): string {
    if pieces == [] then "" else auth.Rendering(pieces[0]) + Render(pieces[1..], auth)
  }

  /** One-shot restoration of a whole text. */
  function Restored(s: string, auth: Authority): string { Render(Lex(s), auth) }

  lemma {:induction false} RenderAppend(a: seq<string>, b: seq<string>, auth: Authority)
    ensures Render(a + b, auth) == Render(a, auth) + Render(b, auth)
  {
    if a == [] {
      assert a + b == b;
    } else {
      assert (a + b)[1..] == a[1..] + b;
      RenderAppend(a[1..], b, auth);
    }
  }

  // ---------- Counters ----------

  datatype Tally = Tally(
    restored: nat,
    unknown: nat,
    notMinted: nat,
    crossTenant: nat,
    keyUnavailable: nat,
    tokens: multiset<string>
  ) {
    function Plus(other: Tally): Tally {
      Tally(restored + other.restored, unknown + other.unknown, notMinted + other.notMinted,
            crossTenant + other.crossTenant, keyUnavailable + other.keyUnavailable,
            tokens + other.tokens)
    }
  }

  const NOTHING: Tally := Tally(0, 0, 0, 0, 0, multiset{})

  /** One refusal, counted under its reason. */
  function RefusalOf(token: string, reason: Reason): Tally {
    match reason
    case NotMinted => NOTHING.(notMinted := 1, tokens := multiset{token})
    case Unknown => NOTHING.(unknown := 1, tokens := multiset{token})
    case CrossTenant => NOTHING.(crossTenant := 1, tokens := multiset{token})
    case KeyUnavailable => NOTHING.(keyUnavailable := 1, tokens := multiset{token})
  }

  function TallyOne(piece: string, auth: Authority): Tally {
    if !IsToken(piece) then NOTHING
    else
      match auth.Judge(piece)
      case Restore(_) => NOTHING.(restored := 1)
      case Refuse(reason) => RefusalOf(piece, reason)
  }

  function TallyOf(pieces: seq<string>, auth: Authority): Tally {
    if pieces == [] then NOTHING else TallyOne(pieces[0], auth).Plus(TallyOf(pieces[1..], auth))
  }

  /** The refused tokens of a text, last first: the order the right-to-left pass lists them in. */
  function RefusedOf(pieces: seq<string>, auth: Authority): seq<string> {
    if pieces == [] then []
    else RefusedOf(pieces[1..], auth) +
         if IsToken(pieces[0]) && auth.Judge(pieces[0]).Refuse? then [pieces[0]] else []
  }

  lemma PlusLaws(x: Tally, y: Tally, z: Tally)
    ensures x.Plus(y).Plus(z) == x.Plus(y.Plus(z))
    ensures x.Plus(y) == y.Plus(x)
    ensures NOTHING.Plus(x) == x == x.Plus(NOTHING)
  {
  }

  lemma {:induction false} TallyAppend(a: seq<string>, b: seq<string>, auth: Authority)
    ensures TallyOf(a + b, auth) == TallyOf(a, auth).Plus(TallyOf(b, auth))
  {
    hide TallyOne, Tally.Plus;
    PlusLaws(TallyOf(b, auth), NOTHING, NOTHING);
    if a == [] {
      assert a + b == b;
    } else {
      assert (a + b)[1..] == a[1..] + b;
      TallyAppend(a[1..], b, auth);
      PlusLaws(TallyOne(a[0], auth), TallyOf(a[1..], auth), TallyOf(b, auth));
    }
  }

  /** Every token of the text is counted once: restored, or refused for exactly one reason. */
  lemma {:induction false} TallyBalances(pieces: seq<string>, auth: Authority)
    ensures var t := TallyOf(pieces, auth);
            && t.tokens == multiset(RefusedOf(pieces, auth))
            && |t.tokens| == t.unknown + t.notMinted + t.crossTenant + t.keyUnavailable
  {
    if pieces != [] {
      TallyBalances(pieces[1..], auth);
      OneBalances(pieces[0], auth);
      hide TallyOne;
    }
  }

  lemma OneBalances(piece: string, auth: Authority)
    ensures var t := TallyOne(piece, auth);
            && t.tokens == multiset(if IsToken(piece) && auth.Judge(piece).Refuse? then [piece] else [])
            && |t.tokens| == t.unknown + t.notMinted + t.crossTenant + t.keyUnavailable
  {
    hide IsToken, Authority.Judge;
  }

  // ---------- The same, by what the vault answers ----------

  /** A token of this request whose record was written under the same canonical form. */
  predicate Vouched(token: string, auth: Authority) {
    && token in auth.minted
    && var answer := auth.vault(token);
    && answer.Found? && auth.canonicalize(answer.value) == auth.minted[token].canonical
  }

  /** How many of the matched tokens meet a condition. */
  function Occurrences(pieces: seq<string>, meets: string -> bool): nat {
    if pieces == [] then 0 else (if IsToken(pieces[0]) && meets(pieces[0]) then 1 else 0) + Occurrences(pieces[1..], meets)
  }

  function MintedElsewhere(auth: Authority): string -> bool { token => token !in auth.minted }

  /** Minted here, and answered in just this way. */
  function Answered(auth: Authority, answer: Lookup): string -> bool {
    token => token in auth.minted && auth.vault(token) == answer
  }

  /** Minted here, but unknown to the vault or on record under another canonical form. */
  function Disowned(auth: Authority): string -> bool {
    token => token in auth.minted && (auth.vault(token) == Absent || (auth.vault(token).Found? && !Vouched(token, auth)))
  }

  function VouchedFor(auth: Authority): string -> bool { token => Vouched(token, auth) }

  /** Every counter counts the tokens with one kind of answer. */
  ghost predicate CountedByAnswer(pieces: seq<string>, auth: Authority, t: Tally) {
    && t.notMinted == Occurrences(pieces, MintedElsewhere(auth))
    && t.crossTenant == Occurrences(pieces, Answered(auth, ForeignRecord))
    && t.keyUnavailable == Occurrences(pieces, Answered(auth, MissingKey))
    && t.unknown == Occurrences(pieces, Disowned(auth))
    && t.restored == Occurrences(pieces, VouchedFor(auth))
  }

  /** What a client reads for one piece: vouched-for tokens give the spelling this request minted them from. */
  function ReadsAs(piece: string, auth: Authority): string {
    if IsToken(piece) && Vouched(piece, auth) then auth.minted[piece].original else piece
  }

  /** Every vouched-for token, and nothing else, is replaced. */
  ghost predicate RenderedByAnswer(pieces: seq<string>, auth: Authority, out: string) {
    exists shown: seq<string> ::
      out == Join(shown) && |shown| == |pieces| && forall k | 0 <= k < |pieces| :: shown[k] == ReadsAs(pieces[k], auth)
  }

  lemma OneAnswered(piece: string, auth: Authority)
    ensures auth.Rendering(piece) == ReadsAs(piece, auth)
    ensures CountedByAnswer([piece], auth, TallyOne(piece, auth))
  {
    hide IsToken;
    forall meets: string -> bool
      ensures Occurrences([piece], meets) == if IsToken(piece) && meets(piece) then 1 else 0
    {
      assert [piece][1..] == [];
    }
  }

  lemma CountsAdd(pieces: seq<string>, meets: string -> bool)
    requires pieces != []
    ensures Occurrences(pieces, meets) == Occurrences([pieces[0]], meets) + Occurrences(pieces[1..], meets)
  {
    hide IsToken;
    assert [pieces[0]][1..] == [];
  }

  lemma AllCountsAdd(pieces: seq<string>, auth: Authority, one: Tally, rest: Tally)
    requires pieces != [] && CountedByAnswer([pieces[0]], auth, one) && CountedByAnswer(pieces[1..], auth, rest)
    ensures CountedByAnswer(pieces, auth, one.Plus(rest))
  {
    hide Occurrences, MintedElsewhere, Answered, Disowned, VouchedFor;
    CountsAdd(pieces, MintedElsewhere(auth));
    CountsAdd(pieces, Answered(auth, ForeignRecord));
    CountsAdd(pieces, Answered(auth, MissingKey));
    CountsAdd(pieces, Disowned(auth));
    CountsAdd(pieces, VouchedFor(auth));
  }

  lemma {:induction false} PiecesByAnswer(pieces: seq<string>, auth: Authority)
    ensures CountedByAnswer(pieces, auth, TallyOf(pieces, auth))
    ensures RenderedByAnswer(pieces, auth, Render(pieces, auth))
  {
    hide IsToken, TallyOne, Authority.Rendering, ReadsAs, CountedByAnswer, Tally.Plus;
    if pieces == [] {
      NothingCounted(auth);
      var shown: seq<string> := [];
      assert Render(pieces, auth) == Join(shown);
    } else {
      OneAnswered(pieces[0], auth);
      PiecesByAnswer(pieces[1..], auth);
      AllCountsAdd(pieces, auth, TallyOne(pieces[0], auth), TallyOf(pieces[1..], auth));
      var rest: seq<string> :|
        && Render(pieces[1..], auth) == Join(rest) && |rest| == |pieces[1..]|
        && forall k | 0 <= k < |pieces[1..]| :: rest[k] == ReadsAs(pieces[1..][k], auth);
      var shown := [auth.Rendering(pieces[0])] + rest;
      assert shown[1..] == rest;
      assert Render(pieces, auth) == Join(shown);
    }
  }

  /** The refused tokens are the matched ones that were not vouched for, each as often as it occurs. */
  ghost predicate RefusedByAnswer(pieces: seq<string>, auth: Authority, refused: multiset<string>) {
    forall token: string :: refused[token] == if IsToken(token) && !Vouched(token, auth) then multiset(pieces)[token] else 0
  }

  lemma OneRefused(piece: string, auth: Authority)
    ensures RefusedByAnswer([piece], auth, TallyOne(piece, auth).tokens)
  {
    hide IsToken;
  }

  lemma {:induction false} Refusals(pieces: seq<string>, auth: Authority)
    ensures RefusedByAnswer(pieces, auth, TallyOf(pieces, auth).tokens)
  {
    hide IsToken, TallyOne, Vouched;
    if pieces != [] {
      OneRefused(pieces[0], auth);
      Refusals(pieces[1..], auth);
      assert pieces == [pieces[0]] + pieces[1..];
    }
  }

  lemma NothingCounted(auth: Authority)
    ensures CountedByAnswer([], auth, NOTHING)
  {
  }

  /** The restoration of a text, told by the vault's answers alone. */
  ghost predicate ByAnswer(s: string, auth: Authority, out: string, counts: Tally) {
    && CountedByAnswer(Lex(s), auth, counts) && RefusedByAnswer(Lex(s), auth, counts.tokens)
    && RenderedByAnswer(Lex(s), auth, out)
  }

  lemma RestoredByAnswer(s: string, auth: Authority)
    ensures ByAnswer(s, auth, Restored(s, auth), TallyOf(Lex(s), auth))
  {
    PiecesByAnswer(Lex(s), auth);
    Refusals(Lex(s), auth);
    hide CountedByAnswer, RenderedByAnswer, RefusedByAnswer;
  }

  // ---------- Matches by position, as the pattern's iterator lists them ----------

  datatype Match = Match(start: nat, end: nat)

  function FindIter(text: string, from: nat): (matches: seq<Match>)
    requires from <= |text|
    ensures forall m | m in matches :: from <= m.start < m.end <= |text| && IsToken(text[m.start..m.end])
    decreases |text| - from
  {
    if from == |text| then []
    else
      var n := TokenPrefix(text[from..]);
      if n > 0 then
        assert text[from..][..n] == text[from..from + n];
        [Match(from, from + n)] + FindIter(text, from + n)
      else FindIter(text, from + 1)
  }

  /** What one-shot restoration says about `s`: its output, its counters, its refusals. */
  ghost predicate Restores(s: string, auth: Authority, out: string, counts: Tally, refused: seq<string>) {
    out == Restored(s, auth) && counts == TallyOf(Lex(s), auth) && refused == RefusedOf(Lex(s), auth)
  }

  lemma LexStep(s: string)
    requires s != ""
    ensures var n := if TokenPrefix(s) > 0 then TokenPrefix(s) else 1;
            Lex(s) == [s[..n]] + Lex(s[n..])
  {
    hide IsToken, TokenPrefix, Join;
  }

  lemma ShortIsPlain(piece: string, auth: Authority)
    requires |piece| < 39
    ensures !IsToken(piece) && auth.Rendering(piece) == piece && TallyOne(piece, auth) == NOTHING
  {
  }

  lemma ConsPiece(piece: string, rest: seq<string>, auth: Authority)
    ensures Render([piece] + rest, auth) == auth.Rendering(piece) + Render(rest, auth)
    ensures TallyOf([piece] + rest, auth) == TallyOne(piece, auth).Plus(TallyOf(rest, auth))
    ensures RefusedOf([piece] + rest, auth)
            == RefusedOf(rest, auth)
               + (if IsToken(piece) && auth.Judge(piece).Refuse? then [piece] else [])
  {
    assert ([piece] + rest)[1..] == rest;
    hide IsToken, Authority.Judge, Authority.Rendering, TallyOne, Tally.Plus;
  }

  /** A position where no token starts contributes its character, unchanged and uncounted. */
  lemma PlainPiece(c: char, rest: string, auth: Authority, out: string, counts: Tally, refused: seq<string>)
    requires TokenPrefix([c] + rest) == 0
    requires Restores(rest, auth, out, counts, refused)
    ensures Restores([c] + rest, auth, [c] + out, counts, refused)
  {
    hide IsToken, TokenPrefix, Lex, Render, TallyOf, RefusedOf, Authority.Judge, Authority.Rendering, TallyOne;
    var s := [c] + rest;
    LexStep(s);
    assert s[..1] == [c] && s[1..] == rest;
    ShortIsPlain([c], auth);
    ConsPiece([c], Lex(rest), auth);
    PlusLaws(counts, NOTHING, NOTHING);
  }

  /** A position where a token starts contributes its rendering and one count. */
  lemma TokenPiece(token: string, rest: string, auth: Authority, out: string, counts: Tally, refused: seq<string>)
    requires IsToken(token)
    requires Restores(rest, auth, out, counts, refused)
    ensures Restores(token + rest, auth, auth.Rendering(token) + out, TallyOne(token, auth).Plus(counts),
                     refused + (if auth.Judge(token).Refuse? then [token] else []))
  {
    var s := token + rest;
    assert s[..|token|] == token && s[|token|..] == rest;
    assert |token| > 0;
    hide IsToken, TokenPrefix, Lex, Render, TallyOf, RefusedOf, Authority.Judge, Authority.Rendering, TallyOne, Tally.Plus;
    TokenPrefixUnique(s, |token|);
    LexStep(s);
    ConsPiece(token, Lex(rest), auth);
  }

  function FirstStart(text: string, from: nat): (first: nat)
    requires from <= |text|
    ensures from <= first <= |text|
  {
    if FindIter(text, from) == [] then |text| else FindIter(text, from)[0].start
  }

  /** Up to the first match the text is copied; the list of matches resumes at that match's end. */
  lemma {:induction false} FirstMatch(text: string, from: nat, auth: Authority, out: string, counts: Tally, refused: seq<string>)
    requires from <= |text|
    requires Restores(text[FirstStart(text, from)..], auth, out, counts, refused)
    ensures Restores(text[from..], auth, text[from..FirstStart(text, from)] + out, counts, refused)
    decreases |text| - from
  {
    hide IsToken, TokenPrefix, Restores;
    var first := FirstStart(text, from);
    if from == |text| || TokenPrefix(text[from..]) > 0 {
      assert text[from..first] + out == out;
    } else {
      FirstMatch(text, from + 1, auth, out, counts, refused);
      hide FindIter, FirstStart;
      assert text[from..] == [text[from]] + text[from + 1..];
      PlainPiece(text[from], text[from + 1..], auth, text[from + 1..first] + out, counts, refused);
      assert text[from..first] == [text[from]] + text[from + 1..first];
      assert text[from..first] + out == [text[from]] + (text[from + 1..first] + out);
    }
  }

  lemma {:induction false} IterResumes(text: string, from: nat)
    requires from <= |text| && FindIter(text, from) != []
    ensures FindIter(text, FindIter(text, from)[0].end) == FindIter(text, from)[1..]
    decreases |text| - from
  {
    hide IsToken, TokenPrefix;
    if TokenPrefix(text[from..]) == 0 {
      IterResumes(text, from + 1);
    }
  }

  lemma {:induction false} IterSuffix(text: string, from: nat, k: nat)
    requires from <= |text| && k < |FindIter(text, from)|
    ensures FindIter(text, FindIter(text, from)[k].end) == FindIter(text, from)[k + 1..]
    decreases k
  {
    hide IsToken, TokenPrefix, FindIter;
    var matches := FindIter(text, from);
    IterResumes(text, from);
    if k > 0 {
      assert matches[0] in matches;
      var rest := matches[1..];
      IterSuffix(text, matches[0].end, k - 1);
      assert rest[k - 1] == matches[k] && rest[k..] == matches[k + 1..];
    }
  }

  lemma TokenAscii(t: string)
    requires IsToken(t)
    ensures Utf8Length(t) == |t|
  {
    forall k | 0 <= k < |t|
      ensures t[k] as int < 0x80
    {
      var body, middle, tag := t[1..|t| - 37], t[|t| - 37..|t| - 33], t[|t| - 33..|t| - 1];
      if 1 <= k < |t| - 37 { assert t[k] == body[k - 1]; }
      if |t| - 37 <= k < |t| - 33 { assert t[k] == middle[k - (|t| - 37)]; }
      if |t| - 33 <= k < |t| - 1 { assert t[k] == tag[k - (|t| - 33)]; }
    }
    AsciiLength(t);
  }

  // ---------- The engine ----------

  class RestorationOutcome {
    var text: string
    var restored: nat
    var refusedUnknown: nat
    var refusedNotMinted: nat
    var refusedCrossTenant: nat
    var refusedKeyUnavailable: nat
    var refusedTokens: seq<string>

    constructor (text: string)
      ensures this.text == text && Counts() == NOTHING && refusedTokens == []
    {
      this.text := text;
      restored, refusedUnknown, refusedNotMinted := 0, 0, 0;
      refusedCrossTenant, refusedKeyUnavailable := 0, 0;
      refusedTokens := [];
    }

    /** The outcome of a tool call whose tokens were all restored. */
    constructor AllRestored(text: string, restored: nat)
      ensures this.text == text && Counts() == NOTHING.(restored := restored) && refusedTokens == []
    {
      this.text := text;
      this.restored := restored;
      refusedUnknown, refusedNotMinted := 0, 0;
      refusedCrossTenant, refusedKeyUnavailable := 0, 0;
      refusedTokens := [];
    }

    ghost function Counts(): Tally
      reads this
    {
      Tally(restored, refusedUnknown, refusedNotMinted, refusedCrossTenant, refusedKeyUnavailable,
            multiset(refusedTokens))
    }

    method Refuse(token: string, reason: Reason)
      modifies this
      ensures text == old(text)
      ensures Counts() == RefusalOf(token, reason).Plus(old(Counts()))
      ensures refusedTokens == old(refusedTokens) + [token]
    {
      refusedTokens := refusedTokens + [token];
      assert multiset(refusedTokens) == multiset{token} + multiset(old(refusedTokens));
      match reason {
        case NotMinted => refusedNotMinted := refusedNotMinted + 1;
        case Unknown => refusedUnknown := refusedUnknown + 1;
        case CrossTenant => refusedCrossTenant := refusedCrossTenant + 1;
        case KeyUnavailable => refusedKeyUnavailable := refusedKeyUnavailable + 1;
      }
    }

    /** Accumulates another field's outcome; the text stays this outcome's own. */
    method Merge(other: RestorationOutcome)
      modifies this
      ensures text == old(text)
      ensures Counts() == old(Counts()).Plus(old(other.Counts()))
      ensures refusedTokens == old(refusedTokens) + old(other.refusedTokens)
    {
      restored := restored + other.restored;
      refusedUnknown := refusedUnknown + other.refusedUnknown;
      refusedNotMinted := refusedNotMinted + other.refusedNotMinted;
      refusedCrossTenant := refusedCrossTenant + other.refusedCrossTenant;
      refusedKeyUnavailable := refusedKeyUnavailable + other.refusedKeyUnavailable;
      refusedTokens := refusedTokens + other.refusedTokens;
    }
  }

  datatype RestorationError = NegativeBudget | OutputTooLarge

  /** One matched token: restore it, or count the one reason it is refused for. */
  method Account(outcome: RestorationOutcome, auth: Authority, token: string) returns (replacement: string)
    requires IsToken(token)
    modifies outcome
    ensures outcome.text == old(outcome.text)
    ensures replacement == auth.Rendering(token)
    ensures outcome.Counts() == TallyOne(token, auth).Plus(old(outcome.Counts()))
    ensures outcome.refusedTokens
            == old(outcome.refusedTokens) + (if auth.Judge(token).Refuse? then [token] else [])
  {
    hide IsToken, Authority.Judge;
    var verdict := auth.Judge(token);
    if verdict.Restore? {
      replacement := verdict.value;
      outcome.restored := outcome.restored + 1;
    } else {
      replacement := token;
      outcome.Refuse(token, verdict.reason);
    }
  }

  /** Right-to-left lookup and refusal, one assembly, and a byte count projected without building the text. */
  method RestoreText(auth: Authority, text: string, budget: int)
    returns (r: Result<RestorationOutcome, RestorationError>)
    ensures r == Err(NegativeBudget) <==> budget < 0
    ensures r == Err(OutputTooLarge) <==> 0 <= budget < Utf8Length(Restored(text, auth))
    ensures r.Ok? ==>
              && fresh(r.value)
              && r.value.text == Restored(text, auth)
              && r.value.Counts() == TallyOf(Lex(text), auth)
              && r.value.refusedTokens == RefusedOf(Lex(text), auth)
    ensures r.Ok? ==> ByAnswer(text, auth, r.value.text, r.value.Counts())
  {
    RestoredByAnswer(text, auth);
    hide ByAnswer;
    hide IsToken, FindIter, Reverse, Join, Utf8Length, Authority.Judge, Authority.Rendering;
    hide TallyOne, Tally.Plus, TallyOf, RefusedOf, Lex, Restored, Progress;
    if budget < 0 {
      return Err(NegativeBudget);
    }
    var outcome := new RestorationOutcome(text);
    var matches := FindIter(text, 0);
    if matches == [] {
      NoMatches(text, auth);
      if Utf8Length(text) > budget {
        return Err(OutputTooLarge);
      }
      return Ok(outcome);
    }
    var fragments: seq<string> := [];
    var cursor := |text|;
    var projected: int := Utf8Length(text);
    var k := |matches|;
    Begin(text, auth);
    while k > 0
      invariant 0 <= k <= |matches| && cursor == StartOf(text, matches, k)
      invariant Progress(text, cursor, auth, fragments, projected, outcome.Counts(), outcome.refusedTokens)
      invariant outcome.text == text
    {
      k := k - 1;
      var m := matches[k];
      Advance(text, k, cursor, auth, fragments, projected, outcome.Counts(), outcome.refusedTokens);
      var replacement := Account(outcome, auth, text[m.start..m.end]);
      projected := projected + Utf8Length(replacement) - (m.end - m.start);
      fragments := fragments + [text[m.end..cursor], replacement];
      cursor := m.start;
    }
    assert cursor == FirstStart(text, 0);
    Finish(text, cursor, auth, fragments, projected, outcome.Counts(), outcome.refusedTokens);
    fragments := fragments + [text[..cursor]];
    if projected > budget {
      return Err(OutputTooLarge);
    }
    fragments := Reverse(fragments);
    outcome.text := Join(fragments);
    return Ok(outcome);
  }

  /** From `cursor` on, the fragments (last first) and the counters are exactly the restoration of the rest. */
  ghost predicate Progress(text: string, cursor: nat, auth: Authority, fragments: seq<string>, projected: int,
                           counts: Tally, refused: seq<string>) {
    && cursor <= |text|
    && var out := Join(Reverse(fragments));
    && Restores(text[cursor..], auth, out, counts, refused)
    && projected == Utf8Length(text) - Utf8Length(text[cursor..]) + Utf8Length(out)
  }

  lemma Begin(text: string, auth: Authority)
    ensures Progress(text, |text|, auth, [], Utf8Length(text), NOTHING, [])
  {
    assert text[|text|..] == "";
  }

  lemma NoMatches(text: string, auth: Authority)
    requires FindIter(text, 0) == []
    ensures Restores(text, auth, text, NOTHING, [])
  {
    assert text[|text|..] == "";
    assert Restores("", auth, "", NOTHING, []);
    hide *;
    assert FirstStart(text, 0) == |text| by { NoFirst(text); }
    FirstMatch(text, 0, auth, "", NOTHING, []);
    assert text[0..] == text && text[0..|text|] + "" == text;
  }

  lemma NoFirst(text: string)
    requires FindIter(text, 0) == []
    ensures FirstStart(text, 0) == |text|
  {
  }

  lemma Advance(text: string, k: nat, cursor: nat, auth: Authority, fragments: seq<string>, projected: int,
                counts: Tally, refused: seq<string>)
    requires k < |FindIter(text, 0)| && cursor == StartOf(text, FindIter(text, 0), k + 1)
    requires Progress(text, cursor, auth, fragments, projected, counts, refused)
    ensures var m := FindIter(text, 0)[k];
            && m.start < m.end <= cursor
            && var token := text[m.start..m.end];
            && IsToken(token)
            && Progress(text, m.start, auth, fragments + [text[m.end..cursor], auth.Rendering(token)],
                        projected + Utf8Length(auth.Rendering(token)) - (m.end - m.start),
                        TallyOne(token, auth).Plus(counts),
                        refused + (if auth.Judge(token).Refuse? then [token] else []))
  {
    var out := Join(Reverse(fragments));
    hide IsToken, FindIter, Reverse, Join, Utf8Length, Authority.Judge, Authority.Rendering;
    hide TallyOne, Tally.Plus, TallyOf, RefusedOf, Lex, Restored, Restores, FirstStart;
    MatchShape(text, k);
    var m := FindIter(text, 0)[k];
    var token, gap := text[m.start..m.end], text[m.end..cursor];
    MatchStep(text, m, cursor, auth, out, counts, refused);
    ReversePair(fragments, gap, auth.Rendering(token));
    TokenAscii(token);
    assert text[m.start..] == token + gap + text[cursor..];
    ByteStep(auth.Rendering(token), token, gap, out, text[cursor..]);
  }

  lemma Finish(text: string, cursor: nat, auth: Authority, fragments: seq<string>, projected: int,
               counts: Tally, refused: seq<string>)
    requires cursor == FirstStart(text, 0)
    requires Progress(text, cursor, auth, fragments, projected, counts, refused)
    ensures var out := Join(Reverse(fragments + [text[..cursor]]));
            Restores(text, auth, out, counts, refused) && projected == Utf8Length(out)
  {
    var out := Join(Reverse(fragments));
    hide FindIter, Reverse, Join, Utf8Length, Restores, FirstStart;
    var head := text[..cursor];
    FirstMatch(text, 0, auth, out, counts, refused);
    assert head == text[0..cursor] && text[0..] == text && text == head + text[cursor..];
    ReverseSnoc(fragments, head);
    Utf8LengthAppend(head, text[cursor..]);
    Utf8LengthAppend(head, out);
  }

  function StartOf(text: string, matches: seq<Match>, k: nat): nat
    requires k <= |matches|
  {
    if k == |matches| then |text| else matches[k].start
  }

  lemma ReverseSnoc(fragments: seq<string>, last: string)
    ensures Join(Reverse(fragments + [last])) == last + Join(Reverse(fragments))
  {
    ReverseAppend(fragments, [last]);
    assert Reverse([last]) == Reverse<string>([]) + [last];
    assert ([last] + Reverse(fragments))[1..] == Reverse(fragments);
  }

  lemma ReversePair(fragments: seq<string>, gap: string, replacement: string)
    ensures Join(Reverse(fragments + [gap, replacement])) == replacement + (gap + Join(Reverse(fragments)))
  {
    ReverseSnoc(fragments, gap);
    ReverseSnoc(fragments + [gap], replacement);
    assert fragments + [gap] + [replacement] == fragments + [gap, replacement];
  }

  /** Match `k` splits the text from its start into token, gap, and the text from the next match on. */
  lemma MatchShape(text: string, k: nat)
    requires k < |FindIter(text, 0)|
    ensures var m := FindIter(text, 0)[k];
            && m.start < m.end <= |text|
            && IsToken(text[m.start..m.end])
            && FirstStart(text, m.end) == StartOf(text, FindIter(text, 0), k + 1)
  {
    hide IsToken, TokenPrefix;
    assert FindIter(text, 0)[k] in FindIter(text, 0);
    hide FindIter;
    IterSuffix(text, 0, k);
  }

  /** Passing match `k` leftwards: its rendering, the untouched gap, and what was already assembled. */
  lemma MatchStep(text: string, m: Match, cursor: nat, auth: Authority, out: string, counts: Tally, refused: seq<string>)
    requires m.start < m.end <= |text| && IsToken(text[m.start..m.end])
    requires cursor == FirstStart(text, m.end)
    requires Restores(text[cursor..], auth, out, counts, refused)
    ensures var token, gap := text[m.start..m.end], text[m.end..cursor];
            Restores(text[m.start..], auth, auth.Rendering(token) + (gap + out), TallyOne(token, auth).Plus(counts),
                     refused + (if auth.Judge(token).Refuse? then [token] else []))
  {
    hide *;
    var token := text[m.start..m.end];
    FirstMatch(text, m.end, auth, out, counts, refused);
    TokenPiece(token, text[m.end..], auth, text[m.end..cursor] + out, counts, refused);
    assert text[m.start..] == token + text[m.end..];
  }

  /** The projected byte count moves by the replacement's bytes less the token's. */
  lemma ByteStep(shown: string, token: string, gap: string, out: string, rest: string)
    ensures Utf8Length(shown + (gap + out)) - Utf8Length(token + gap + rest)
            == Utf8Length(shown) - Utf8Length(token) + Utf8Length(out) - Utf8Length(rest)
  {
    hide *;
    Utf8LengthAppend(shown, gap + out);
    Utf8LengthAppend(gap, out);
    Utf8LengthAppend(token + gap, rest);
    Utf8LengthAppend(token, gap);
  }
}
