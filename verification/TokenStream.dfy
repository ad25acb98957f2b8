/** Restoring prose delta by delta, holding back only what could still become a token. */
module TokenStream {
  import opened Text
  import opened TokenGrammar
  import opened Tokens
  import opened Restoration

  // ---------- Cutting a text without cutting a token ----------

  /** No token of `a + b` starts in `a` and ends in `b`. */
  ghost predicate Seam(a: string, b: string) {
    forall i, j | 0 <= i < |a| < j <= |a| + |b| :: !IsToken((a + b)[i..j])
  }

  /** No nonempty end of `a` could still grow into a token. */
  ghost predicate NoOpenEnd(a: string) {
    forall i | 0 <= i < |a| :: !PossiblePrefix(a[i..])
  }

  lemma SeamAtBracket(a: string, b: string)
    requires b == "" || b[0] == '<' || NoOpenEnd(a)
    ensures Seam(a, b)
  {
    hide IsToken, PossiblePrefix;
    forall i, j | 0 <= i < |a| < j <= |a| + |b|
      ensures !IsToken((a + b)[i..j])
    {
      var t := (a + b)[i..j];
      if IsToken(t) {
        assert t[|a| - i] == b[0];
        TokenBrackets(t, |a| - i);
        assert a[i..] == t[..|a| - i];
        assert a[i..] < t;
        PossiblePrefixExact(a[i..]);
      }
    }
  }

  lemma {:induction false} LexSplit(a: string, b: string)
    requires Seam(a, b)
    ensures Lex(a + b) == Lex(a) + Lex(b)
    decreases |a|
  {
    hide IsToken, TokenPrefix, Lex, Join;
    if a == "" {
      assert a + b == b && Lex("") == [] by { LexEmpty(); }
    } else {
      var n := TokenPrefix(a + b);
      PrefixBeforeSeam(a, b);
      var m := if n > 0 then n else 1;
      LexStep(a + b);
      LexStep(a);
      assert (a + b)[..m] == a[..m] && (a + b)[m..] == a[m..] + b;
      SeamTail(a, b, m);
      LexSplit(a[m..], b);
      assert [a[..m]] + (Lex(a[m..]) + Lex(b)) == ([a[..m]] + Lex(a[m..])) + Lex(b);
    }
  }

  lemma LexEmpty()
    ensures Lex("") == [] && Join([]) == ""
  {
  }

  lemma PrefixBeforeSeam(a: string, b: string)
    requires a != "" && Seam(a, b)
    ensures TokenPrefix(a) == TokenPrefix(a + b) <= |a|
  {
    hide IsToken, TokenPrefix;
    var n := TokenPrefix(a + b);
    assert (a + b)[0..n] == (a + b)[..n];
    if n > 0 {
      assert a[..n] == (a + b)[..n];
      TokenPrefixUnique(a, n);
    } else {
      var k := TokenPrefix(a);
      assert (a + b)[..k] == a[..k];
    }
  }

  lemma SeamTail(a: string, b: string, m: nat)
    requires m <= |a| && Seam(a, b)
    ensures Seam(a[m..], b)
  {
    hide IsToken;
    forall i, j | 0 <= i < |a[m..]| < j <= |a[m..]| + |b|
      ensures !IsToken((a[m..] + b)[i..j])
    {
      assert (a[m..] + b)[i..j] == (a + b)[m + i..m + j];
    }
  }

  // ---------- One text block ----------

  /** What one block has received, released, and still holds; `counts` is its share of the counters. */
  datatype Buffer = Buffer(raw: string, text: string, suffix: string, closed: bool, counts: Tally) {
    /** The part of the received text that has been restored and released. */
    function Settled(): string
      requires |suffix| <= |raw|
    {
      raw[..|raw| - |suffix|]
    }

    /** The part of suffix and delta that this step settles; the rest is held. */
    function Released(delta: string, final: bool): (start: nat)
      ensures start <= |suffix + delta|
    {
      if final then |suffix + delta| else HoldFrom(suffix + delta)
    }

    /** What one delta adds to the counters. */
    function Share(delta: string, final: bool, auth: Authority): Tally {
      TallyOf(Lex((suffix + delta)[..Released(delta, final)]), auth)
    }

    /** One delta: the block afterwards and the text released for it. */
    function Feed(delta: string, final: bool, auth: Authority): (Buffer, string) {
      var combined := suffix + delta;
      var start := Released(delta, final);
      var out := Restored(combined[..start], auth);
      (Buffer(raw + delta, text + out, combined[start..], final, counts.Plus(Share(delta, final, auth))), out)
    }
  }

  const OPENED: Buffer := Buffer("", "", "", false, NOTHING)

  /** Index of the last `c` at or after `low`, or -1: Python's rfind. */
  function RFind(s: string, c: char, low: nat): (i: int)
    requires low <= |s|
    ensures -1 <= i < |s|
    ensures i >= 0 ==> i >= low && s[i] == c
    ensures forall k | low <= k < |s| && k > i :: s[k] != c
    decreases |s| - low
  {
    if low == |s| then -1
    else
      var later := RFind(s, c, low + 1);
      if later >= 0 then later else if s[low] == c then low else -1
  }

  /** Where the held suffix starts; the length of the text when nothing is held. */
  function HoldFrom(combined: string): (start: nat)
    ensures start <= |combined|
    ensures start < |combined| ==> combined[start] == '<'
  {
    var low := if |combined| > MAX_TOKEN_LENGTH then |combined| - MAX_TOKEN_LENGTH else 0;
    var start := RFind(combined, '<', low);
    if start >= 0 && PossiblePrefix(combined[start..]) then start else |combined|
  }

  /** What every block keeps, whatever the deltas were. */
  ghost predicate Faithful(b: Buffer, auth: Authority) {
    && |b.suffix| <= |b.raw|
    && b.raw == b.Settled() + b.suffix
    && b.text == Restored(b.Settled(), auth)
    && b.counts == TallyOf(Lex(b.Settled()), auth)
    && (if b.closed then b.suffix == ""
        else if b.suffix == "" then NoOpenEnd(b.raw)
        else b.suffix[0] == '<' && PossiblePrefix(b.suffix))
  }

  lemma OpenedFaithful(auth: Authority)
    ensures Faithful(OPENED, auth)
  {
    LexEmpty();
  }

  /** The held suffix is a proper token prefix, so it is always shorter than the longest token. */
  lemma HoldIsBounded(b: Buffer, auth: Authority)
    requires Faithful(b, auth)
    ensures |b.suffix| < MAX_TOKEN_LENGTH
    ensures b.suffix != "" ==> exists t :: IsToken(t) && b.suffix < t
  {
    hide IsToken, PossiblePrefix, Lex, TallyOf, Restored;
    if b.suffix != "" {
      HeldSuffixBounded(b.suffix);
      PossiblePrefixExact(b.suffix);
    }
  }

  lemma HoldIs(combined: string, i: nat)
    requires i < |combined| && PossiblePrefix(combined[i..])
    ensures HoldFrom(combined) == i
  {
    hide PossiblePrefix;
    var value := combined[i..];
    HeldSuffixBounded(value);
    assert forall k | i < k < |combined| :: combined[k] == value[k - i];
  }

  /** When nothing is held, nothing at the end could still become a token. */
  lemma NothingHeld(combined: string)
    requires HoldFrom(combined) == |combined|
    ensures NoOpenEnd(combined)
  {
    hide PossiblePrefix, HoldFrom;
    forall i | 0 <= i < |combined|
      ensures !PossiblePrefix(combined[i..])
    {
      if PossiblePrefix(combined[i..]) {
        HoldIs(combined, i);
      }
    }
  }

  lemma NoOpenEndAppend(a: string, b: string)
    requires NoOpenEnd(b)
    requires (b != "" && b[0] == '<') || NoOpenEnd(a)
    ensures NoOpenEnd(a + b)
  {
    hide PossiblePrefix;
    forall i | 0 <= i < |a + b|
      ensures !PossiblePrefix((a + b)[i..])
    {
      var value := (a + b)[i..];
      if i >= |a| {
        assert value == b[i - |a|..];
      } else if b != "" && b[0] == '<' {
        assert value[|a| - i] == b[0];
        InteriorBracket(value, |a| - i);
      } else {
        assert value[..|a| - i] == a[i..];
        PossiblePrefixClosed(value, |a| - i);
      }
    }
  }

  lemma RestoredSplit(a: string, b: string, auth: Authority)
    requires Seam(a, b)
    ensures Restored(a + b, auth) == Restored(a, auth) + Restored(b, auth)
    ensures TallyOf(Lex(a + b), auth) == TallyOf(Lex(a), auth).Plus(TallyOf(Lex(b), auth))
  {
    LexSplit(a, b);
    hide Lex, Render, TallyOf, Seam, Tally.Plus;
    RenderAppend(Lex(a), Lex(b), auth);
    TallyAppend(Lex(a), Lex(b), auth);
  }

  lemma FeedKeeps(b: Buffer, delta: string, final: bool, auth: Authority)
    requires Faithful(b, auth) && !b.closed
    ensures var (after, out) := b.Feed(delta, final, auth);
            && Faithful(after, auth)
            && after.raw == b.raw + delta && after.text == b.text + out && after.closed == final
  {
    hide IsToken, PossiblePrefix, Lex, TallyOf, Restored, HoldFrom, NoOpenEnd, Tally.Plus, Seam;
    var combined := b.suffix + delta;
    var start := if final then |combined| else HoldFrom(combined);
    var settled, head, rest := b.Settled(), combined[..start], combined[start..];
    var (after, _) := b.Feed(delta, final, auth);
    FeedShape(b.raw, settled, b.suffix, delta, start);
    assert after.Settled() == settled + head;
    assert b.suffix == "" ==> settled == b.raw;
    SeamAtBracket(settled, head);
    RestoredSplit(settled, head, auth);
    if !final {
      FeedEnd(settled, b.suffix, delta);
    }
  }

  lemma FeedShape(raw: string, settled: string, suffix: string, delta: string, start: nat)
    requires raw == settled + suffix && start <= |suffix + delta|
    ensures var combined := suffix + delta;
            && raw + delta == settled + combined
            && raw + delta == (settled + combined[..start]) + combined[start..]
            && (raw + delta)[..|raw + delta| - |combined[start..]|] == settled + combined[..start]
  {
    var combined := suffix + delta;
    assert combined == combined[..start] + combined[start..];
    assert raw + delta == (settled + combined[..start]) + combined[start..];
  }

  lemma FeedEnd(settled: string, suffix: string, delta: string)
    requires if suffix == "" then NoOpenEnd(settled) else suffix[0] == '<'
    ensures var combined := suffix + delta;
            if HoldFrom(combined) == |combined| then combined == "" || NoOpenEnd(settled + combined)
            else PossiblePrefix(combined[HoldFrom(combined)..])
  {
    hide PossiblePrefix, NoOpenEnd;
    var combined := suffix + delta;
    if HoldFrom(combined) == |combined| && combined != "" {
      NothingHeld(combined);
      NoOpenEndAppend(settled, combined);
    }
  }

  /** Feeding a list of deltas to a fresh block and then closing it. */
  function FeedAll(b: Buffer, deltas: seq<string>, auth: Authority): (Buffer, seq<string>)
    decreases |deltas|
  {
    if deltas == [] then
      var (closed, out) := b.Feed("", true, auth);
      (closed, [out])
    else
      var (next, out) := b.Feed(deltas[0], false, auth);
      var (closed, outs) := FeedAll(next, deltas[1..], auth);
      (closed, [out] + outs)
  }

  /** Any way of cutting a text into deltas releases exactly the one-shot restoration, counted alike. */
  lemma ChunkIndependence(deltas: seq<string>, auth: Authority)
    ensures var (closed, outs) := FeedAll(OPENED, deltas, auth);
            && Join(outs) == Restored(Join(deltas), auth)
            && closed.counts == TallyOf(Lex(Join(deltas)), auth)
  {
    hide FeedAll, Restored, TallyOf, Lex, Faithful;
    OpenedFaithful(auth);
    FeedAllFaithful(OPENED, deltas, auth);
    var (_, outs) := FeedAll(OPENED, deltas, auth);
    assert "" + Join(outs) == Join(outs) && "" + Join(deltas) == Join(deltas);
  }

  lemma {:induction false} FeedAllFaithful(b: Buffer, deltas: seq<string>, auth: Authority)
    requires Faithful(b, auth) && !b.closed
    ensures var (closed, outs) := FeedAll(b, deltas, auth);
            && b.text + Join(outs) == Restored(b.raw + Join(deltas), auth)
            && closed.counts == TallyOf(Lex(b.raw + Join(deltas)), auth)
    decreases |deltas|
  {
    hide Buffer.Feed, Restored, TallyOf, Lex, Faithful;
    if deltas == [] {
      FeedKeeps(b, "", true, auth);
      var (after, out) := b.Feed("", true, auth);
      ClosedMeans(after, auth);
      assert [out][1..] == [];
      assert b.raw + "" == b.raw && b.text + (out + "") == b.text + out;
    } else {
      FeedKeeps(b, deltas[0], false, auth);
      var (next, out) := b.Feed(deltas[0], false, auth);
      FeedAllFaithful(next, deltas[1..], auth);
      var (_, outs) := FeedAll(next, deltas[1..], auth);
      assert ([out] + outs)[1..] == outs;
      assert b.raw + (deltas[0] + Join(deltas[1..])) == next.raw + Join(deltas[1..]);
      assert b.text + (out + Join(outs)) == next.text + Join(outs);
    }
  }

  /** A closed block has released the restoration of everything it received. */
  lemma ClosedMeans(b: Buffer, auth: Authority)
    requires Faithful(b, auth) && b.closed
    ensures b.text == Restored(b.raw, auth) && b.counts == TallyOf(Lex(b.raw), auth)
  {
    assert b.Settled() == b.raw;
  }

  // ---------- The object that does it ----------

  datatype FeedError = Closed | ProviderOutputTooLarge

  /** One independent text block; no token fragment leaves this object. */
  class IncrementalRestorer {
    const auth: Authority
    const outcome: RestorationOutcome
    const maxOutputBytes: nat
    var suffix: string
    var raw: seq<string>
    var text: seq<string>
    var rawBytes: nat
    var textBytes: nat
    var closed: bool
    ghost var contributed: Tally

    ghost function State(): Buffer
      reads this
    {
      Buffer(Join(raw), Join(text), suffix, closed, contributed)
    }

    ghost predicate Valid()
      reads this
    {
      && Faithful(State(), auth)
      && rawBytes == Utf8Length(Join(raw)) <= maxOutputBytes
      && textBytes == Utf8Length(Join(text)) <= maxOutputBytes
    }

    constructor (auth: Authority, outcome: RestorationOutcome, maxOutputBytes: nat)
      ensures Valid() && State() == OPENED
      ensures this.auth == auth && this.outcome == outcome && this.maxOutputBytes == maxOutputBytes
    {
      this.auth := auth;
      this.outcome := outcome;
      this.maxOutputBytes := maxOutputBytes;
      suffix, raw, text := "", [], [];
      rawBytes, textBytes := 0, 0;
      closed := false;
      contributed := NOTHING;
      OpenedFaithful(auth);
    }

    /** Feeds one delta; the outcome shared with other blocks gains exactly this delta's counts. */
    method Feed(delta: string, final: bool) returns (r: Result<string, FeedError>)
      requires Valid()
      modifies this, outcome
      ensures r == Err(Closed) <==> old(closed)
      ensures var (after, out) := old(State()).Feed(delta, final, auth);
              && (r == Err(ProviderOutputTooLarge) <==>
                    !old(closed) && (Utf8Length(after.raw) > maxOutputBytes || Utf8Length(after.text) > maxOutputBytes))
              && (r.Ok? ==>
                    && r.value == out
                    && Valid() && State() == after
                    && outcome.Counts() == old(outcome.Counts()).Plus(old(State()).Share(delta, final, auth)))
    {
      hide IsToken, Faithful, Restored, TallyOf, Lex, HoldFrom, Tally.Plus, Join, Utf8Length, Collect;
      if closed {
        return Err(Closed);
      }
      FeedKeeps(State(), delta, final, auth);
      ghost var (after, out) := State().Feed(delta, final, auth);
      Utf8LengthAppend(Join(raw), delta);
      rawBytes := rawBytes + Utf8Length(delta);
      raw := Collect(raw, delta);
      if rawBytes > maxOutputBytes {
        return Err(ProviderOutputTooLarge);
      }
      var combined := suffix + delta;
      suffix := "";
      if !final {
        var start := HoldFrom(combined);
        suffix := combined[start..];
        combined := combined[..start];
      } else {
        assert combined[..|combined|] == combined && combined[|combined|..] == "";
      }
      assert out == Restored(combined, auth) && after.text == Join(text) + out;
      r := Release(combined);
      closed := final;
    }

    /** Restores a settled piece within what is left of the block's budget. */
    method Release(settled: string) returns (r: Result<string, FeedError>)
      requires textBytes == Utf8Length(Join(text)) <= maxOutputBytes
      modifies this`text, this`textBytes, this`contributed, outcome
      ensures var out := Restored(settled, auth);
              if Utf8Length(old(Join(text)) + out) > maxOutputBytes then r == Err(ProviderOutputTooLarge)
              else
                && r == Ok(out)
                && Join(text) == old(Join(text)) + out
                && textBytes == Utf8Length(Join(text)) <= maxOutputBytes
                && contributed == old(contributed).Plus(TallyOf(Lex(settled), auth))
                && outcome.Counts() == old(outcome.Counts()).Plus(TallyOf(Lex(settled), auth))
    {
      hide IsToken, Restored, TallyOf, Lex, Tally.Plus, Join, Utf8Length, Collect, ByAnswer, RestorationOutcome.Counts;
      Utf8LengthAppend(Join(text), Restored(settled, auth));
      var result := RestoreText(auth, settled, maxOutputBytes - textBytes);
      if result.Err? {
        assert result.error == NegativeBudget || result.error == OutputTooLarge;
        return Err(ProviderOutputTooLarge);
      }
      outcome.Merge(result.value);
      textBytes := textBytes + Utf8Length(result.value.text);
      text := Collect(text, result.value.text);
      contributed := contributed.Plus(TallyOf(Lex(settled), auth));
      return Ok(result.value.text);
    }
  }

  /** A whole text in one delta, and its end: what it releases is its restoration. */
  lemma WholeText(text: string, auth: Authority)
    ensures var (one, first) := OPENED.Feed(text, false, auth);
            var (two, last) := one.Feed("", true, auth);
            && !one.closed && two.closed
            && one.raw == text == two.raw && two.text == Restored(text, auth)
            && Utf8Length(one.text) == Utf8Length(first) <= Utf8Length(two.text)
            && Utf8Length(first) + Utf8Length(last) == Utf8Length(Restored(text, auth))
  {
    hide Buffer.Feed, Faithful, Restored, Utf8Length;
    OpenedFaithful(auth);
    FeedKeeps(OPENED, text, false, auth);
    var (one, first) := OPENED.Feed(text, false, auth);
    FeedKeeps(one, "", true, auth);
    var (two, last) := one.Feed("", true, auth);
    ClosedMeans(two, auth);
    assert "" + text == text && text + "" == text && "" + first == first;
    Utf8LengthAppend(one.text, last);
  }
}
