/** Rewriting every inspected text of a request with one shared provenance, and the spelling check that makes it exact. */
module AgentPreparation {
  import opened Text
  import opened TokenGrammar
  import opened Tokens
  import opened Restoration
  import opened Conflicts
  import opened Transformation

  /** One inspected text with its spans in order. */
  datatype Located = Located(text: string, spans: seq<Span>) {
    ghost predicate Ok() {
      AllOk(spans) && Chained(spans) && Nonempty(spans) && forall s | s in spans :: CutFrom(s, text)
    }
  }

  function AllSpans(locations: seq<Located>): seq<Span> {
    if locations == [] then [] else locations[0].spans + AllSpans(locations[1..])
  }

  lemma {:induction false} InAllSpans(locations: seq<Located>, i: nat, s: Span)
    requires i < |locations| && s in locations[i].spans
    ensures s in AllSpans(locations)
  {
    if i > 0 {
      InAllSpans(locations[1..], i - 1, s);
    }
  }

  // ---------- One spelling per value ----------

  /** Spans of one entity type and one canonical value are spelled alike. */
  ghost predicate OneSpelling(spans: seq<Span>, canonicalize: string -> string) {
    forall s, t | s in spans && t in spans && s.entityType == t.entityType && canonicalize(s.text) == canonicalize(t.text) ::
      s.text == t.text
  }

  /** The check that runs before a request with tools is transformed. */
  method CheckSpellings(spans: seq<Span>, canonicalize: string -> string) returns (ok: bool)
    ensures ok <==> OneSpelling(spans, canonicalize)
  {
    var originals: map<(string, string), string> := map[];
    var k := 0;
    while k < |spans|
      invariant 0 <= k <= |spans|
      invariant forall s | s in spans[..k] ::
                  (s.entityType, canonicalize(s.text)) in originals && originals[(s.entityType, canonicalize(s.text))] == s.text
      invariant forall id | id in originals ::
                  exists s :: s in spans[..k] && id == (s.entityType, canonicalize(s.text)) && originals[id] == s.text
    {
      var span := spans[k];
      var identity := (span.entityType, canonicalize(span.text));
      assert spans[..k + 1] == spans[..k] + [span];
      if identity in originals {
        if originals[identity] != span.text {
          return false;
        }
      } else {
        originals := originals[identity := span.text];
      }
      k := k + 1;
    }
    assert spans[..k] == spans;
    return true;
  }

  // ---------- The rewrite loop ----------

  function MintLocations(m: Minter, p: Minted, locations: seq<Located>): Option<Minted>
    decreases |locations|
  {
    if locations == [] then Some(p)
    else
      match MintAll(m, p, locations[0].spans)
      case None => None
      case Some(q) => MintLocations(m, q, locations[1..])
  }

  /** Transforms every location in turn; one collision refuses the request. */
  method RewriteLocations(m: Minter, locations: seq<Located>, provenance: TokenProvenance)
    returns (r: Result<seq<string>, TransformError>)
    requires forall l | l in locations :: l.Ok()
    requires provenance.byToken == map[]
    modifies provenance
    ensures r.Ok? <==> MintLocations(m, map[], locations).Some?
    ensures r.Ok? ==>
              && Some(provenance.byToken) == MintLocations(m, map[], locations)
              && |r.value| == |locations|
              && forall i | 0 <= i < |locations| ::
                   InText(locations[i].text, locations[i].spans, 0) &&
                   r.value[i] == Replaced(locations[i].text, locations[i].spans, TokenOf(m), 0)
  {
    hide MintAll, Replaced, InText, Located.Ok, Ranked, Greedy, SpanToken;
    var outbound: seq<string> := [];
    var i := 0;
    assert locations[0..] == locations;
    while i < |locations|
      invariant 0 <= i <= |locations| && |outbound| == i
      invariant Consistent(provenance.byToken, m.canonicalize)
      invariant MintLocations(m, map[], locations) == MintLocations(m, provenance.byToken, locations[i..])
      invariant forall j | 0 <= j < i ::
                  InText(locations[j].text, locations[j].spans, 0) &&
                  outbound[j] == Replaced(locations[j].text, locations[j].spans, TokenOf(m), 0)
    {
      var location := locations[i];
      LocatedOk(location);
      assert locations[i..][0] == location && locations[i..][1..] == locations[i + 1..];
      ghost var before := provenance.byToken;
      var text, puts := Transform(m, location.text, location.spans, provenance);
      if text.Err? {
        return Err(text.error);
      }
      MintAllKeeps(m, before, location.spans);
      outbound := outbound + [text.value];
      i := i + 1;
    }
    return Ok(outbound);
  }

  lemma LocatedOk(l: Located)
    requires l.Ok()
    ensures AllOk(l.spans) && (forall s | s in l.spans :: CutFrom(s, l.text))
    ensures Greedy(Ranked(l.spans)) == l.spans && InText(l.text, l.spans, 0)
  {
    hide Greedy, Ranked, AllOk, Chained, Nonempty, CutFrom, InText;
    ResolvedStays(l.spans);
    GreedyInText(l.text, l.spans);
  }

  // ---------- Exact round trip for the whole request ----------

  lemma {:induction false} MintLocationsKeeps(m: Minter, p: Minted, locations: seq<Located>)
    requires Consistent(p, m.canonicalize) && MintLocations(m, p, locations).Some?
    ensures var q := MintLocations(m, p, locations).value;
            && Consistent(q, m.canonicalize)
            && p.Keys <= q.Keys && (forall t | t in p :: q[t] == p[t])
            && (forall s | s in AllSpans(locations) ::
                  SpanToken(m, s) in q && q[SpanToken(m, s)].canonical == m.canonicalize(s.text))
            && (forall t | t in q && t !in p :: Recorded(m, q, AllSpans(locations), t))
    decreases |locations|
  {
    hide MintAll, SpanToken, Consistent;
    if locations != [] {
      var spans, rest := locations[0].spans, locations[1..];
      MintAllKeeps(m, p, spans);
      var mid := MintAll(m, p, spans).value;
      MintLocationsKeeps(m, mid, rest);
      var q := MintLocations(m, mid, rest).value;
      forall t | t in q && t !in p
        ensures Recorded(m, q, AllSpans(locations), t)
      {
        if t in mid {
          assert Recorded(m, q, spans, t);
        } else {
          assert Recorded(m, q, AllSpans(rest), t);
        }
      }
    }
  }

  /** The spelling on record for `t` is that of some span. */
  ghost predicate Recorded(m: Minter, q: Minted, spans: seq<Span>, t: string) {
    t in q && exists s :: s in spans && SpanToken(m, s) == t && q[t].original == s.text
  }

  lemma TokenTextInjective(e: string, tag: string, e': string, tag': string)
    requires |tag| == |tag'| && TokenText(e, tag) == TokenText(e', tag')
    ensures e == e'
  {
    var t := TokenText(e, tag);
    assert t[1..|t| - |tag| - 5] == e;
    assert TokenText(e', tag')[1..|t| - |tag| - 5] == e';
  }

  /** With one spelling per value, every span's representative is its own text. */
  lemma OwnSpelling(m: Minter, q: Minted, locations: seq<Located>, s: Span)
    requires MintLocations(m, map[], locations) == Some(q)
    requires OneSpelling(AllSpans(locations), m.canonicalize)
    requires forall t | t in AllSpans(locations) :: m.upper(t.entityType) == t.entityType
    requires s in AllSpans(locations)
    ensures SpanToken(m, s) in q && Representative(m, q)(s) == s.text
  {
    hide MintLocations, TagOf, TokenText;
    var p: Minted := map[];
    assert Consistent(p, m.canonicalize);
    MintLocationsKeeps(m, p, locations);
    var t := SpanToken(m, s);
    assert Recorded(m, q, AllSpans(locations), t);
    var other :| other in AllSpans(locations) && SpanToken(m, other) == t && q[t].original == other.text;
    TokenTextInjective(m.upper(s.entityType), TagOf(m, m.upper(s.entityType), m.canonicalize(s.text)),
                       m.upper(other.entityType), TagOf(m, m.upper(other.entityType), m.canonicalize(other.text)));
    assert s.entityType == other.entityType;
    assert q[t].canonical == m.canonicalize(s.text) == m.canonicalize(other.text);
  }

  /** No recorded value is empty or starts with an opening bracket. */
  ghost predicate PlainValues(q: Minted) {
    forall t | t in q :: q[t].original != "" && q[t].original[0] != '<'
  }

  /** A request that passes the spelling check gets a text back byte for byte, whichever concurrent spelling last
      refreshed the vault, if its entity types fit the token grammar and its gaps quote none of the request's tokens;
      and, where values cannot be mistaken for tokens, only then. */
  lemma RequestRoundTrip(m: Minter, q: Minted, locations: seq<Located>, auth: Authority, i: nat)
    requires forall l | l in locations :: l.Ok()
    requires MintLocations(m, map[], locations) == Some(q) && Confirmed(m, q, auth)
    requires OneSpelling(AllSpans(locations), m.canonicalize)
    requires forall t | t in AllSpans(locations) :: m.upper(t.entityType) == t.entityType
    requires i < |locations|
    ensures InText(locations[i].text, locations[i].spans, 0)
    ensures var l := locations[i];
            var exact := Restored(Replaced(l.text, l.spans, TokenOf(m), 0), auth) == l.text;
            var clean := TypesFit(m, l.spans) && GapsClean(l.text, l.spans, 0, q);
            && (clean ==> exact)
            && (PlainValues(q) && PrefixFree(q) ==> (exact <==> clean))
  {
    hide MintLocations, SpanToken, Confirmed, Restored, Replaced, GapsClean, InText, OneSpelling, Representative, ReturnedAs;
    hide AllSpans, Chained, Nonempty, AllOk, CutFrom, Fits, PlainValues, PrefixFree, RoundTripText, Told, Tellable;
    var l, f := locations[i], ReturnedAs(m, auth);
    assert l in locations && l.Ok();
    LocatedOk(l);
    forall s | s in l.spans
      ensures SpanToken(m, s) in q && Representative(m, q)(s) == s.text
      ensures Fits(m, s.entityType) ==> f(s) == s.text
    {
      InAllSpans(locations, i, s);
      OwnSpelling(m, q, locations, s);
      if Fits(m, s.entityType) {
        ReturnsFit(m, q, auth, s);
      }
    }
    RoundTrip(m, auth, l.text, l.spans, 0);
    ConfirmedMinted(m, q, auth);
    assert l.text[0..] == l.text;
    if TypesFit(m, l.spans) && GapsClean(l.text, l.spans, 0, q) {
      ExactPieces(l.text, l.spans, f, 0, auth);
    }
    if PlainValues(q) && PrefixFree(q) {
      forall s | s in l.spans
        ensures Told(f, s) && (f(s) == s.text ==> Fits(m, s.entityType))
      {
        ReturnsOther(m, q, auth, s);
      }
      ConfirmedTellable(m, q, auth, locations);
      if RoundTripText(l.text, l.spans, f, 0, auth) == l.text {
        ExactOnly(l.text, l.spans, f, 0, auth);
      }
    }
  }

  /** A span's token comes back as its own text, or shows by its bracket that it did not. */
  lemma ReturnsOther(m: Minter, q: Minted, auth: Authority, s: Span)
    requires Confirmed(m, q, auth) && PlainValues(q) && PrefixFree(q)
    requires SpanToken(m, s) in q && Representative(m, q)(s) == s.text
    ensures Told(ReturnedAs(m, auth), s)
    ensures ReturnedAs(m, auth)(s) == s.text <==> Fits(m, s.entityType)
  {
    hide Confirmed, PrefixFree, Fits, SpanToken, Restored, ReturnedAs;
    assert s.text == q[SpanToken(m, s)].original;
    if Fits(m, s.entityType) {
      ReturnsFit(m, q, auth, s);
    } else {
      ReturnsUnfit(m, q, auth, s);
    }
  }

  lemma ConfirmedTellable(m: Minter, q: Minted, auth: Authority, locations: seq<Located>)
    requires MintLocations(m, map[], locations) == Some(q) && Confirmed(m, q, auth) && PlainValues(q)
    ensures Tellable(auth)
  {
    hide MintLocations, TokenFor, IsToken;
    var p: Minted := map[];
    assert Consistent(p, m.canonicalize);
    MintLocationsKeeps(m, p, locations);
    forall t | t in auth.minted
      ensures |t| > 1 && (IsToken(t) ==> auth.Rendering(t) != "" && auth.Rendering(t)[0] != '<')
    {
      assert Recorded(m, q, AllSpans(locations), t);
      var s :| s in AllSpans(locations) && SpanToken(m, s) == t;
      SpanTokenBracketed(m, s);
    }
  }

  // ---------- Without the check ----------

  lemma SameToken(m: Minter, s: Span, t: Span)
    requires s.entityType == t.entityType && m.canonicalize(s.text) == m.canonicalize(t.text)
    ensures SpanToken(m, s) == SpanToken(m, t)
  {
  }

  /** Every span is on record under its own spelling exactly when the spelling check passes. */
  lemma SpellingExactly(m: Minter, q: Minted, locations: seq<Located>)
    requires MintLocations(m, map[], locations) == Some(q)
    requires forall t | t in AllSpans(locations) :: m.upper(t.entityType) == t.entityType
    ensures (forall s | s in AllSpans(locations) :: Representative(m, q)(s) == s.text)
            <==> OneSpelling(AllSpans(locations), m.canonicalize)
  {
    hide MintLocations, SpanToken;
    if OneSpelling(AllSpans(locations), m.canonicalize) {
      forall s | s in AllSpans(locations)
        ensures Representative(m, q)(s) == s.text
      {
        OwnSpelling(m, q, locations, s);
      }
    }
    if forall s | s in AllSpans(locations) :: Representative(m, q)(s) == s.text {
      var p: Minted := map[];
      assert Consistent(p, m.canonicalize);
      MintLocationsKeeps(m, p, locations);
      forall s, t | s in AllSpans(locations) && t in AllSpans(locations)
                    && s.entityType == t.entityType && m.canonicalize(s.text) == m.canonicalize(t.text)
        ensures s.text == t.text
      {
        SameToken(m, s, t);
        assert Representative(m, q)(s) == s.text && Representative(m, q)(t) == t.text;
      }
    }
  }

  /** Two spans and the three gaps around them. */
  lemma TwoGaps(text: string, s: Span, t: Span, f: Span -> string, auth: Authority)
    ensures InText(text, [s, t], 0) <==> s.start <= s.end <= t.start <= t.end <= |text|
    ensures InText(text, [s, t], 0) ==>
              && RoundTripText(text, [s, t], f, 0, auth)
                 == Restored(text[..s.start], auth)
                    + (f(s) + (Restored(text[s.end..t.start], auth) + (f(t) + Restored(text[t.end..], auth))))
              && (GapsClean(text, [s, t], 0, auth.minted) <==>
                    && FreeOf(text[..s.start], auth.minted) && FreeOf(text[s.end..t.start], auth.minted)
                    && FreeOf(text[t.end..], auth.minted))
  {
    hide Restored, FreeOf;
    assert [s, t][1..] == [t] && [t][1..] == [];
    assert InText(text, [t], s.end) <==> s.end <= t.start <= t.end <= |text| by {
      assert InText(text, [], t.end) <==> t.end <= |text|;
    }
    if InText(text, [s, t], 0) {
      assert text[0..s.start] == text[..s.start];
      assert RoundTripText(text, [], f, t.end, auth) == Restored(text[t.end..], auth);
      assert RoundTripText(text, [t], f, s.end, auth)
             == Restored(text[s.end..t.start], auth) + (f(t) + Restored(text[t.end..], auth));
      assert GapsClean(text, [], t.end, auth.minted) <==> FreeOf(text[t.end..], auth.minted);
      assert GapsClean(text, [t], s.end, auth.minted)
             <==> FreeOf(text[s.end..t.start], auth.minted) && FreeOf(text[t.end..], auth.minted);
    }
  }

  /** Two spellings of one value: the later one takes the place of the earlier one. */
  lemma SecondSpellingWins(m: Minter, text: string, s: Span, t: Span, auth: Authority)
    requires InText(text, [s, t], 0) && CutFrom(s, text) && CutFrom(t, text)
    requires s.entityType == t.entityType && m.canonicalize(s.text) == m.canonicalize(t.text)
    requires MintAll(m, map[], [s, t]) == Some(auth.minted) && Confirmed(m, auth.minted, auth) && TypesFit(m, [s, t])
    requires GapsClean(text, [s, t], 0, auth.minted)
    ensures Restored(Replaced(text, [s, t], TokenOf(m), 0), auth) == text[..s.start] + (t.text + text[s.end..])
    ensures Restored(Replaced(text, [s, t], TokenOf(m), 0), auth) == text <==> s.text == t.text
  {
    hide Restored, Confirmed, Fits, SpanToken, FreeOf, Replaced, GapsClean, InText, MintAll, RoundTripText, Representative, ReturnedAs;
    var f := ReturnedAs(m, auth);
    LaterOnRecord(m, auth.minted, s, t);
    ReturnsFit(m, auth.minted, auth, s) by { assert s in [s, t]; }
    ReturnsFit(m, auth.minted, auth, t) by { assert t in [s, t]; }
    TwoGaps(text, s, t, f, auth);
    RoundTrip(m, auth, text, [s, t], 0);
    FreeStands(text[..s.start], auth);
    FreeStands(text[s.end..t.start], auth);
    FreeStands(text[t.end..], auth);
    Pieces(text, s, t);
    SameMiddle(text[..s.start], s.text, t.text, text[s.end..]);
  }

  lemma Pieces(text: string, s: Span, t: Span)
    requires s.start <= s.end <= t.start <= t.end <= |text| && CutFrom(s, text) && CutFrom(t, text)
    ensures text[s.end..] == text[s.end..t.start] + (t.text + text[t.end..])
    ensures text == text[..s.start] + (s.text + text[s.end..])
  {
  }

  lemma SameMiddle(before: string, a: string, b: string, after: string)
    ensures before + (a + after) == before + (b + after) <==> a == b
  {
    var x, y := before + (a + after), before + (b + after);
    if x == y {
      assert |a| == |b|;
      assert a == x[|before|..|before| + |a|] && b == y[|before|..|before| + |b|];
    }
  }

  lemma LaterOnRecord(m: Minter, q: Minted, s: Span, t: Span)
    requires s.entityType == t.entityType && m.canonicalize(s.text) == m.canonicalize(t.text)
    requires MintAll(m, map[], [s, t]) == Some(q)
    ensures SpanToken(m, s) == SpanToken(m, t) && q.Keys == {SpanToken(m, t)}
    ensures Representative(m, q)(s) == Representative(m, q)(t) == t.text
  {
    hide TokenText, TagOf;
    SameToken(m, s, t);
    assert [s, t][..1] == [s] && [s][..0] == [];
    var mid := MintOne(m, map[], t.entityType, t.text).value;
    assert MintAll(m, mid, [s]) == MintOne(m, mid, s.entityType, s.text);
  }

  function Ann(): Span { Span(0, 3, "PERSON", "Ann", 1.0, "ner") }

  function Shouted(): Span { Span(4, 7, "PERSON", "ANN", 1.0, "ner") }

  /** A text that does not come back as it was: two spellings of one name, in a request without the check. */
  lemma TwoSpellings(m: Minter, auth: Authority)
    requires m.upper("PERSON") == "PERSON" && m.canonicalize("Ann") == m.canonicalize("ANN")
    requires MintAll(m, map[], [Ann(), Shouted()]) == Some(auth.minted) && Confirmed(m, auth.minted, auth)
    ensures Located("Ann ANN", [Ann(), Shouted()]).Ok() && InText("Ann ANN", [Ann(), Shouted()], 0)
    ensures Restored(Replaced("Ann ANN", [Ann(), Shouted()], TokenOf(m), 0), auth) == "ANN ANN" != "Ann ANN"
  {
    hide Restored, Confirmed, SpanToken, Replaced, GapsClean, InText, MintAll, RoundTripText, Representative, FreeOf;
    var text, s, t := "Ann ANN", Ann(), Shouted();
    AnnText();
    TwoGaps(text, s, t, Representative(m, auth.minted), auth);
    LaterOnRecord(m, auth.minted, s, t);
    LongToken(m, t);
    ShortFree("", auth.minted);
    ShortFree(" ", auth.minted);
    SecondSpellingWins(m, text, s, t, auth);
  }

  lemma AnnText()
    ensures var text := "Ann ANN";
            && |text| == 7 && text[..0] == "" && text[3..4] == " " && text[7..] == ""
            && CutFrom(Ann(), text) && CutFrom(Shouted(), text)
            && text[..0] + ("ANN" + text[3..]) == "ANN ANN" != text
  {
    var text := "Ann ANN";
    assert text[0..3] == "Ann" && text[4..7] == "ANN" && text[..0] + ("ANN" + text[3..]) == "ANN ANN";
    assert "ANN ANN"[1] != text[1];
  }

  lemma ShortFree(gap: string, minted: Minted)
    requires |gap| <= 1 && forall t | t in minted :: |t| > 1
    ensures FreeOf(gap, minted)
  {
    hide IsToken, TokenPrefix;
    assert Lex("") == [];
    if gap != "" {
      LexStep(gap);
      assert gap[..1] == gap && gap[1..] == "";
    }
  }

  lemma LongToken(m: Minter, s: Span)
    ensures |SpanToken(m, s)| > 1
  {
    hide TagOf;
  }

  // ---------- Entity types outside the grammar, and quoted tokens ----------

  /** Where no entity type contains a closing bracket, no token of the request begins with another. */
  lemma TypesPrefixFree(m: Minter, q: Minted, locations: seq<Located>)
    requires MintLocations(m, map[], locations) == Some(q)
    requires forall s | s in AllSpans(locations) :: '>' !in m.upper(s.entityType)
    ensures PrefixFree(q)
  {
    hide MintLocations, TagOf;
    var p: Minted := map[];
    assert Consistent(p, m.canonicalize);
    MintLocationsKeeps(m, p, locations);
    forall t | t in q
      ensures Bracketed(t) && forall k | 0 <= k < |t| - 1 :: t[k] != '>'
    {
      assert Recorded(m, q, AllSpans(locations), t);
      var s :| s in AllSpans(locations) && SpanToken(m, s) == t;
      SpanTokenBracketed(m, s);
      var upper := m.upper(s.entityType);
      OneClosing(upper, TagOf(m, upper, m.canonicalize(s.text)));
    }
    PlainTypesPrefixFree(q);
  }

  lemma OneClosing(entity: string, tag: string)
    requires '>' !in entity && AllHex(tag)
    ensures var t := TokenText(entity, tag); forall k | 0 <= k < |t| - 1 :: t[k] != '>'
  {
    var t := TokenText(entity, tag);
    forall k | 0 <= k < |t| - 1
      ensures t[k] != '>'
    {
      if 1 <= k <= |entity| {
        assert t[k] == entity[k - 1];
      } else if |entity| + 5 <= k {
        assert t[k] == tag[k - |entity| - 5];
      }
    }
  }

  /** Where no minted token is one of the grammar, restoration touches nothing. */
  lemma {:induction false} NoneMatched(text: string, minted: Minted)
    requires forall t | t in minted :: |t| > 1 && !IsToken(t)
    ensures FreeOf(text, minted)
    decreases |text|
  {
    hide IsToken, TokenPrefix;
    if text != "" {
      var n := if TokenPrefix(text) > 0 then TokenPrefix(text) else 1;
      LexStep(text);
      NoneMatched(text[n..], minted);
    }
  }

  lemma OneGap(text: string, s: Span, f: Span -> string, auth: Authority)
    ensures InText(text, [s], 0) <==> s.start <= s.end <= |text|
    ensures InText(text, [s], 0) ==>
              && RoundTripText(text, [s], f, 0, auth) == Restored(text[..s.start], auth) + (f(s) + Restored(text[s.end..], auth))
              && (GapsClean(text, [s], 0, auth.minted) <==>
                    FreeOf(text[..s.start], auth.minted) && FreeOf(text[s.end..], auth.minted))
  {
    hide Restored, FreeOf;
    assert [s][1..] == [];
    if InText(text, [s], 0) {
      assert text[0..s.start] == text[..s.start];
      assert RoundTripText(text, [], f, s.end, auth) == Restored(text[s.end..], auth);
      assert GapsClean(text, [], s.end, auth.minted) <==> FreeOf(text[s.end..], auth.minted);
    }
  }

  lemma OnlyRecord(m: Minter, q: Minted, s: Span)
    requires MintAll(m, map[], [s]) == Some(q)
    ensures q.Keys == {SpanToken(m, s)} && Representative(m, q)(s) == s.text
  {
    hide TokenText, TagOf;
    assert [s][..0] == [];
    assert MintAll(m, map[], [s]) == MintOne(m, map[], s.entityType, s.text);
  }

  /** A single span in clean surroundings comes back exactly when its entity type fits the token grammar. */
  lemma OneSpanExactly(m: Minter, text: string, s: Span, auth: Authority)
    requires InText(text, [s], 0) && CutFrom(s, text) && s.text != SpanToken(m, s)
    requires MintAll(m, map[], [s]) == Some(auth.minted) && Confirmed(m, auth.minted, auth)
    requires GapsClean(text, [s], 0, auth.minted)
    ensures Restored(Replaced(text, [s], TokenOf(m), 0), auth) == text <==> Fits(m, s.entityType)
    ensures !Fits(m, s.entityType) ==>
              Restored(Replaced(text, [s], TokenOf(m), 0), auth) == text[..s.start] + (SpanToken(m, s) + text[s.end..])
  {
    hide Restored, Confirmed, Fits, SpanToken, FreeOf, Replaced, GapsClean, InText, MintAll, RoundTripText, Representative, IsToken;
    var f := ReturnedAs(m, auth);
    OnlyRecord(m, auth.minted, s);
    OneGap(text, s, f, auth);
    RoundTrip(m, auth, text, [s], 0);
    FreeStands(text[..s.start], auth);
    FreeStands(text[s.end..], auth);
    assert text == text[..s.start] + (s.text + text[s.end..]);
    if Fits(m, s.entityType) {
      ReturnsFit(m, auth.minted, auth, s);
    } else {
      UnfitStands(m, s, auth);
      SameMiddle(text[..s.start], s.text, SpanToken(m, s), text[s.end..]);
    }
  }

  lemma UnfitStands(m: Minter, s: Span, auth: Authority)
    requires !Fits(m, s.entityType) && auth.minted.Keys == {SpanToken(m, s)}
    ensures ReturnedAs(m, auth)(s) == SpanToken(m, s)
  {
    hide Restored, TokenFor, FreeOf, IsToken;
    MintedIsToken(m, s.entityType, s.text);
    SpanTokenBracketed(m, s);
    NoneMatched(SpanToken(m, s), auth.minted);
    FreeStands(SpanToken(m, s), auth);
  }

  function OrderId(): Span { Span(0, 8, "ORDER-ID", "ORD-1234", 0.95, "custom_regex:order-id") }

  /** A text that does not come back: its pattern's entity type has a dash in it. */
  lemma OrderIdLost(m: Minter, auth: Authority)
    requires m.upper("ORDER-ID") == "ORDER-ID"
    requires MintAll(m, map[], [OrderId()]) == Some(auth.minted) && Confirmed(m, auth.minted, auth)
    ensures Located("ORD-1234", [OrderId()]).Ok() && InText("ORD-1234", [OrderId()], 0)
    ensures Restored(Replaced("ORD-1234", [OrderId()], TokenOf(m), 0), auth) == SpanToken(m, OrderId()) != "ORD-1234"
  {
    hide Restored, Confirmed, TokenFor, FreeOf, Replaced, GapsClean, InText, MintAll, RoundTripText, IsToken;
    var text, s := "ORD-1234", OrderId();
    OnlyRecord(m, auth.minted, s);
    SpanTokenBracketed(m, s);
    OneGap(text, s, ReturnedAs(m, auth), auth);
    assert text[0..8] == text && text[..0] == "" && text[8..] == "";
    ShortFree("", auth.minted);
    assert !IsEntityChar("ORDER-ID"[5]);
    OneSpanExactly(m, text, s, auth);
    assert "" + (SpanToken(m, s) + "") == SpanToken(m, s);
  }

  function Quoting(m: Minter): string { "Ann " + SpanToken(m, Ann()) }

  /** A text that quotes its own token: the quotation comes back as the name. */
  lemma QuotedToken(m: Minter, auth: Authority)
    requires m.upper("PERSON") == "PERSON"
    requires MintAll(m, map[], [Ann()]) == Some(auth.minted) && Confirmed(m, auth.minted, auth)
    ensures Located(Quoting(m), [Ann()]).Ok() && InText(Quoting(m), [Ann()], 0)
    ensures Restored(Replaced(Quoting(m), [Ann()], TokenOf(m), 0), auth) == "Ann Ann" != Quoting(m)
  {
    hide Restored, Confirmed, TokenFor, FreeOf, Replaced, GapsClean, InText, MintAll, RoundTripText, IsToken;
    var text, s := Quoting(m), Ann();
    var t := SpanToken(m, s);
    OnlyRecord(m, auth.minted, s);
    SpanTokenBracketed(m, s);
    QuotingText(m);
    OneGap(text, s, ReturnedAs(m, auth), auth);
    RoundTrip(m, auth, text, [s], 0);
    assert Fits(m, "PERSON");
    ReturnsFit(m, auth.minted, auth, s);
    RestoredPieces(" ", t, "", auth);
    ShortFree("", auth.minted);
    ShortFree(" ", auth.minted);
    FreeStands("", auth);
    FreeStands(" ", auth);
    assert " " + (t + "") == " " + t;
    assert "" + ("Ann" + (" " + ("Ann" + ""))) == "Ann Ann";
  }

  lemma QuotingText(m: Minter)
    ensures var text := Quoting(m);
            && |text| >= 4 && text[..0] == "" && text[0..3] == "Ann" && text[3..] == " " + SpanToken(m, Ann())
            && text != "Ann Ann"
  {
    hide TokenFor;
    SpanTokenBracketed(m, Ann());
    var text := Quoting(m);
    assert text[4] == '<' && "Ann Ann"[4] == 'A';
    LongToken(m, Ann());
  }
}
