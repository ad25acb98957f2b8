/** An order of edits that runs into the decoder's size limit, and another one that does not. */
module JsonLimits {
  import opened Text
  import opened Tokens
  import opened Json
  import opened JsonPaths
  import opened JsonLocations
  import opened JsonRewriting

  // ---------- The compact JSON of an object of two plain strings ----------

  /** Characters that JSON writes as they are. */
  predicate Plain(s: string) { forall k | 0 <= k < |s| :: ' ' <= s[k] && s[k] != '"' && s[k] != '\\' }

  function Pair(a: string, b: string): Json { Obj([Member("a", Str(a)), Member("b", Str(b))]) }

  predicate IsPair(v: Json) {
    && v.Obj? && |v.members| == 2 && v.members[0].key == "a" && v.members[1].key == "b"
    && v.members[0].value.Str? && v.members[1].value.Str?
    && Plain(v.members[0].value.text) && Plain(v.members[1].value.text)
  }

  function PairText(a: string, b: string): string { "{\"a\":\"" + a + "\",\"b\":\"" + b + "\"}" }

  function TextOf(v: Json): string
    requires IsPair(v)
  {
    PairText(v.members[0].value.text, v.members[1].value.text)
  }

  lemma PairIs(v: Json)
    requires IsPair(v)
    ensures v == Pair(v.members[0].value.text, v.members[1].value.text)
  {
    assert v.members == [v.members[0], v.members[1]];
  }

  lemma UpToQuote(a: string, x: string, b: string, y: string)
    requires Plain(a) && Plain(b) && a + "\"" + x == b + "\"" + y
    ensures a == b && x == y
  {
    var s, t := a + "\"" + x, b + "\"" + y;
    assert s[|a|] == '"' && t[|b|] == '"';
    assert (forall k | 0 <= k < |a| :: s[k] == a[k]) && (forall k | 0 <= k < |b| :: t[k] == b[k]);
    assert |a| == |b|;
    assert a == s[..|a|] && b == t[..|b|];
    assert x == s[|a| + 1..] && y == t[|b| + 1..];
  }

  function SecondPart(b: string): string { ",\"b\":\"" + b + "\"}" }

  lemma PairTextInjective(a: string, b: string, c: string, d: string)
    requires Plain(a) && Plain(b) && Plain(c) && Plain(d) && PairText(a, b) == PairText(c, d)
    ensures a == c && b == d
  {
    hide Plain, PairText, SecondPart;
    AfterFirst(a, b);
    AfterFirst(c, d);
    UpToQuote(a, SecondPart(b), c, SecondPart(d));
    AfterSecond(b);
    AfterSecond(d);
    UpToQuote(b, "}", d, "}");
  }

  lemma AfterFirst(a: string, b: string)
    ensures |PairText(a, b)| >= 6 && PairText(a, b)[6..] == a + "\"" + SecondPart(b)
  {
    assert PairText(a, b) == "{\"a\":\"" + (a + "\"" + SecondPart(b));
  }

  lemma AfterSecond(b: string)
    ensures |SecondPart(b)| >= 6 && SecondPart(b)[6..] == b + "\"" + "}"
  {
  }

  // ---------- The decoder refuses by length ----------

  predicate Within(v: Json, limit: nat) { IsPair(v) && Utf8Length(TextOf(v)) <= limit }

  ghost function Decoded(s: string, limit: nat): Option<Json> {
    if exists v: Json :: Within(v, limit) && TextOf(v) == s then
      var v: Json :| Within(v, limit) && TextOf(v) == s;
      Some(v)
    else None
  }

  /** The serializer and decoder of a tool whose arguments are two plain strings. */
  ghost function Limited(limit: nat): Codec {
    Codec(s => Decoded(s, limit), v => if IsPair(v) then TextOf(v) else "null", v => Within(v, limit), _ => "")
  }

  lemma LimitedLawful(limit: nat)
    ensures Lawful(Limited(limit))
  {
    hide Plain, PairText, Utf8Length;
    forall v: Json
      ensures ReadsBack(Limited(limit), v)
    {
      if IsPair(v) {
        PairIs(v);
        forall w: Json | Within(w, limit) && TextOf(w) == TextOf(v)
          ensures w == v
        {
          PairIs(w);
          PairTextInjective(v.members[0].value.text, v.members[1].value.text, w.members[0].value.text, w.members[1].value.text);
        }
      } else {
        forall w: Json | IsPair(w)
          ensures TextOf(w) != "null"
        {
          TextOpens(w);
        }
      }
    }
  }

  lemma TextOpens(v: Json)
    requires IsPair(v)
    ensures TextOf(v) != "null"
  {
    assert TextOf(v)[0] == '{' && "null"[0] == 'n';
  }

  // ---------- Two edits at the limit ----------

  const ARGUMENTS: Path := [Key("arguments")]

  function Fill(n: nat): (s: string)
    ensures |s| == n && Plain(s) && forall k | 0 <= k < n :: s[k] == 'p'
  {
    seq(n, _ => 'p')
  }

  lemma PairBytes(n: nat, b: string)
    requires b == "" || b == "q"
    ensures Utf8Length(PairText(Fill(n), b)) == 15 + n + |b|
  {
    AsciiLength(PairText(Fill(n), b));
  }

  /** A field whose text is just as long as the decoder allows. */
  function Held(limit: nat): Json
    requires limit >= 16
  {
    Pair(Fill(limit - 16), "q")
  }

  function Fields(limit: nat): map<Path, Json>
    requires limit >= 16
  {
    map[ARGUMENTS := Held(limit)]
  }

  function Payload(limit: nat): Json
    requires limit >= 16
  {
    Obj([Member("arguments", Str(PairText(Fill(limit - 16), "q")))])
  }

  function First(limit: nat): Location
    requires limit >= 16
  {
    Location(ARGUMENTS, Fill(limit - 16), false, Some([Key("a")]))
  }

  function Second(): Location { Location(ARGUMENTS, "q", false, Some([Key("b")])) }

  /** The first text grows by one character, the second one loses its only one. */
  function Choice(limit: nat): Location -> string
    requires limit >= 16
  {
    (l: Location) => if l.within == Some([Key("a")]) then Fill(limit - 15) else ""
  }

  lemma Trees(limit: nat)
    requires limit >= 16
    ensures Within(Held(limit), limit)
    ensures !Within(Pair(Fill(limit - 15), "q"), limit)
    ensures Within(Pair(Fill(limit - 16), ""), limit)
  {
    assert Plain("q") && Plain("");
    PairBytes(limit - 16, "q");
    PairBytes(limit - 15, "q");
    PairBytes(limit - 16, "");
    hide Plain, PairText, Utf8Length;
  }

  /** Under any size limit, 4 MiB for one: shortening the field first succeeds; the other order fails at the tree in
      between. */
  lemma OrderCanFail(limit: nat)
    requires limit >= 16
    ensures Lawful(Limited(limit)) && Encoded(Limited(limit), Fields(limit), Payload(limit))
    ensures Content(Fields(limit), Payload(limit), First(limit)) && Content(Fields(limit), Payload(limit), Second())
    ensures AllFit(Limited(limit), Fields(limit), [Second(), First(limit)], Choice(limit))
    ensures !AllFit(Limited(limit), Fields(limit), [First(limit), Second()], Choice(limit))
  {
    LimitedLawful(limit);
    HeldContent(limit);
    hide AllFit, Lookup, Rewrite, WellKeyed, Lawful, Encoded, Content, Within;
    var codec, fields, f := Limited(limit), Fields(limit), Choice(limit);
    var a, b := First(limit), Second();
    assert fields[ARGUMENTS] == Held(limit);
    Distinct(limit);
    PairFits(codec, fields, a, b, f);
    PairFits(codec, fields, b, a, f);
    PairRewritten(Fill(limit - 16), "q", map[]);
    PairRewritten(Fill(limit - 16), "q", map[[Key("a")] := Fill(limit - 15)]);
    PairRewritten(Fill(limit - 16), "q", map[[Key("b")] := ""]);
    Trees(limit);
  }

  lemma Distinct(limit: nat)
    requires limit >= 16
    ensures [Key("a")] != [Key("b")] && Fill(limit - 15) != Fill(limit - 16)
  {
    assert Key("a").key[0] != Key("b").key[0];
    assert |Fill(limit - 15)| != |Fill(limit - 16)|;
  }

  lemma Keyed(a: string, b: string, text: string)
    ensures WellKeyed(Pair(a, b)) && WellKeyed(Obj([Member("arguments", Str(text))]))
    ensures DistinctKeys(Pair(a, b).members)
  {
    assert "a"[0] != "b"[0];
    var pair, outer := Pair(a, b).members, [Member("arguments", Str(text))];
    assert forall k | 0 <= k < 2 :: pair[k].value.Str?;
    assert outer[0].value.Str?;
  }

  lemma HeldContent(limit: nat)
    requires limit >= 16
    ensures Encoded(Limited(limit), Fields(limit), Payload(limit))
    ensures Content(Fields(limit), Payload(limit), First(limit)) && Content(Fields(limit), Payload(limit), Second())
  {
    hide PairText, Decoded;
    var tree, payload := Held(limit), Payload(limit);
    Distinct(limit);
    Keyed(Fill(limit - 16), "q", PairText(Fill(limit - 16), "q"));
    assert IsPair(tree) by { assert Plain("q"); }
    assert Find(payload.members, "arguments") == 0 && Find(tree.members, "a") == 0;
    assert Find(tree.members, "b") == 1 by { FindIs(tree.members, 1); }
    assert Lookup(payload, ARGUMENTS) == Some(Str(TextOf(tree))) by {
      assert ARGUMENTS[1..] == [] && ChildAt(payload, Key("arguments")) == 0;
    }
    assert Lookup(tree, [Key("a")]) == Some(Str(Fill(limit - 16))) by { assert [Key("a")][1..] == []; }
    assert Lookup(tree, [Key("b")]) == Some(Str("q")) by { assert [Key("b")][1..] == []; }
  }

  lemma PairRewritten(a: string, b: string, edits: map<Path, string>)
    ensures var pa, pb := [Key("a")], [Key("b")];
            Rewrite(Pair(a, b), [], edits) == Pair(if pa in edits then edits[pa] else a, if pb in edits then edits[pb] else b)
  {
    var pa, pb := [Key("a")], [Key("b")];
    assert [] + pa == pa && [] + pb == pb;
    RewriteChildren(Pair(a, b), [], edits);
    var r := Rewrite(Pair(a, b), [], edits);
    assert r.Obj? && r.members == [r.members[0], r.members[1]];
  }
}
