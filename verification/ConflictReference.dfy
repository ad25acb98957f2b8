/** The resolution written the obvious way: scan everything kept so far for an overlap, sort at the end. */
module ConflictReference {
  import opened Conflicts

  ghost predicate Overlapped(kept: seq<Span>, c: Span) {
    exists i :: 0 <= i < |kept| && kept[i].Overlaps(c)
  }

  /** Kept spans in the order of their rank. */
  ghost function Scan(ranked: seq<Span>): seq<Span> {
    if ranked == [] then []
    else
      var kept, c := Scan(ranked[..|ranked| - 1]), ranked[|ranked| - 1];
      if Overlapped(kept, c) then kept else kept + [c]
  }

  predicate Earlier(a: Span, b: Span) { a.start < b.start || (a.start == b.start && a.end < b.end) }

  function InsertByPlace(placed: seq<Span>, s: Span): (r: seq<Span>)
    ensures multiset(r) == multiset(placed) + multiset{s}
  {
    if placed == [] then [s]
    else if Earlier(s, placed[0]) then [s] + placed
    else
      assert placed == [placed[0]] + placed[1..];
      [placed[0]] + InsertByPlace(placed[1..], s)
  }

  /** The stable sort by start, then by end. */
  function ByPlace(spans: seq<Span>): (r: seq<Span>)
    ensures multiset(r) == multiset(spans)
  {
    if spans == [] then []
    else
      assert spans == spans[..|spans| - 1] + [spans[|spans| - 1]];
      InsertByPlace(ByPlace(spans[..|spans| - 1]), spans[|spans| - 1])
  }

  // ---------- Why the two agree ----------

  lemma {:induction false} InsertSame(kept: seq<Span>, c: Span)
    requires forall k | k in kept && k.start == c.start :: k.end <= c.end
    ensures InsertByPlace(kept, c) == InsertAt(kept, CountLe(kept, c.start), c)
  {
    hide InsertAt;
    if kept == [] {
      InsertFirst(kept, c);
    } else {
      assert kept[0] in kept;
      if Earlier(c, kept[0]) {
        InsertFirst(kept, c);
      } else {
        forall k | k in kept[1..]
          ensures k in kept
        {
        }
        InsertSame(kept[1..], c);
        InsertLater(kept, CountLe(kept[1..], c.start), c);
      }
    }
  }

  lemma InsertFirst(kept: seq<Span>, c: Span)
    ensures InsertAt(kept, 0, c) == [c] + kept
  {
  }

  lemma InsertLater(kept: seq<Span>, i: nat, c: Span)
    requires kept != [] && i < |kept|
    ensures InsertAt(kept, i + 1, c) == [kept[0]] + InsertAt(kept[1..], i, c)
  {
  }

  /** An empty span at the start of a nonempty one: kept out by the neighbour test, though it does not overlap. */
  predicate Stub(k: Span, c: Span) { c.start == c.end == k.start && k.start < k.end }

  lemma SameBlocked(a: seq<Span>, b: seq<Span>, c: Span)
    requires multiset(a) == multiset(b)
    requires forall k | k in b :: !Stub(k, c)
    ensures Overlapped(a, c) <==> Blocked(b, c)
  {
    if Overlapped(a, c) {
      var i :| 0 <= i < |a| && a[i].Overlaps(c);
      assert a[i] in multiset(b);
      var j :| 0 <= j < |b| && b[j] == a[i];
      assert Blocks(b[j], c);
    }
    if Blocked(b, c) {
      var j :| 0 <= j < |b| && Blocks(b[j], c);
      assert b[j] in b && !Stub(b[j], c);
      assert b[j] in multiset(a);
      var i :| 0 <= i < |a| && a[i] == b[j];
      assert a[i].Overlaps(c);
    }
  }

  /** A span that nothing kept overlaps shares its start with empty kept spans at most. */
  lemma SharedStart(kept: seq<Span>, c: Span)
    requires (forall k | k in kept :: k.Ok()) && c.Ok() && !Blocked(kept, c)
    ensures forall k | k in kept && k.start == c.start :: k.end <= c.end
  {
    forall k | k in kept && k.start == c.start
      ensures k.end <= c.end
    {
      var i :| 0 <= i < |kept| && kept[i] == k;
      assert !Blocks(kept[i], c);
    }
  }

  /** No empty span stands at the start of a kept span that outranks it. */
  ghost predicate StubFree(ranked: seq<Span>) {
    forall k, c | k in Greedy(ranked) && c in ranked && Stub(k, c) :: Before(c, k)
  }

  lemma {:induction false} SameKept(ranked: seq<Span>, n: nat)
    requires AllOk(ranked) && InOrder(ranked) && StubFree(ranked) && n <= |ranked|
    ensures Greedy(ranked[..n]) == ByPlace(Scan(ranked[..n]))
  {
    hide Greedy, Scan, ByPlace, StubFree, InOrder, AllOk;
    if n == 0 {
      assert ranked[..0] == [];
      NoneAtAll();
    } else {
      SameKept(ranked, n - 1);
      SameStep(ranked, n - 1);
    }
  }

  lemma NoneAtAll()
    ensures Greedy([]) == [] == ByPlace(Scan([]))
  {
  }

  lemma SameStep(ranked: seq<Span>, n: nat)
    requires AllOk(ranked) && InOrder(ranked) && StubFree(ranked) && n < |ranked|
    requires Greedy(ranked[..n]) == ByPlace(Scan(ranked[..n]))
    ensures Greedy(ranked[..n + 1]) == ByPlace(Scan(ranked[..n + 1]))
  {
    hide Greedy, Scan, ByPlace, StubFree, InOrder, Stub, Blocked, Overlapped, CountLe, InsertAt, InsertByPlace, Span.Ok, Chained;
    var before, c := ranked[..n], ranked[n];
    var kept, scanned := Greedy(before), Scan(before);
    GreedyStep(ranked, n);
    ScanStep(ranked, n);
    KeptBefore(ranked, n);
    assert multiset(kept) == multiset(scanned);
    SameBlocked(scanned, kept, c);
    if !Blocked(kept, c) {
      KeptOk(before);
      SharedStart(kept, c);
      InsertSame(kept, c);
      Snoc(scanned, c);
    }
  }

  lemma ScanStep(ranked: seq<Span>, n: nat)
    requires n < |ranked|
    ensures Scan(ranked[..n + 1])
            == if Overlapped(Scan(ranked[..n]), ranked[n]) then Scan(ranked[..n]) else Scan(ranked[..n]) + [ranked[n]]
  {
    hide Overlapped;
    assert ranked[..n + 1][..n] == ranked[..n];
  }

  lemma KeptOk(ranked: seq<Span>)
    requires AllOk(ranked)
    ensures forall k | k in Greedy(ranked) :: k.Ok()
  {
    hide Greedy, Span.Ok;
    GreedyChained(ranked);
  }

  lemma Snoc(kept: seq<Span>, c: Span)
    ensures ByPlace(kept + [c]) == InsertByPlace(ByPlace(kept), c)
  {
    assert (kept + [c])[..|kept + [c]| - 1] == kept;
  }

  lemma KeptBefore(ranked: seq<Span>, n: nat)
    requires n < |ranked| && InOrder(ranked) && StubFree(ranked)
    ensures forall k | k in Greedy(ranked[..n]) :: !Stub(k, ranked[n])
  {
    hide Accounted, Before, Stub, Greedy;
    var c := ranked[n];
    GreedyMeaning(ranked[..n]);
    forall k | k in Greedy(ranked[..n])
      ensures !Stub(k, c)
    {
      assert ranked == ranked[..n] + ranked[n..];
      KeptStays(ranked[..n], ranked[n..], k);
      assert k in multiset(Greedy(ranked[..n]));
      assert k in multiset(ranked[..n]);
      var i :| 0 <= i < n && ranked[..n][i] == k;
      assert ranked[i] == k && !Before(ranked[n], ranked[i]);
      assert c in ranked;
    }
  }

  // ---------- And why they differ otherwise ----------

  /** What a kept span blocks from a higher rank is never kept. */
  lemma {:induction false} NeverKept(ranked: seq<Span>, k: Span, c: Span)
    requires InOrder(ranked) && k in Greedy(ranked) && Before(k, c) && Blocks(k, c)
    ensures c !in Greedy(ranked)
    decreases |ranked|
  {
    hide Before, Blocks, Greedy, CountLe, InsertAt;
    if c in Greedy(ranked) {
      NoneKept();
      var n := |ranked| - 1;
      var before, last := ranked[..n], ranked[n];
      assert InOrder(before);
      GreedyStepIn(ranked, k);
      GreedyStepIn(ranked, c);
      RankOrder(k, c, k);
      if c in Greedy(before) {
        if k in Greedy(before) {
          NeverKept(before, k, c);
        } else {
          KeptFrom(before, c);
          assert false;
        }
      } else {
        var kept := Greedy(before);
        var i :| 0 <= i < |kept| && kept[i] == k;
        assert Blocked(kept, c);
        assert ranked[..n + 1] == ranked;
        GreedyStep(ranked, n);
        assert false;
      }
    }
  }

  lemma KeptFrom(ranked: seq<Span>, k: Span)
    requires k in Greedy(ranked)
    ensures k in ranked
  {
    hide Greedy, Accounted;
    GreedyMeaning(ranked);
    assert k in multiset(Greedy(ranked));
    assert k in multiset(ranked);
  }

  ghost predicate Reached(ranked: seq<Span>, c: Span) {
    c in Scan(ranked) || exists k :: k in Scan(ranked) && k.Overlaps(c)
  }

  lemma {:induction false} ScanReaches(ranked: seq<Span>, c: Span)
    requires c in ranked
    ensures Reached(ranked, c)
  {
    var n := |ranked| - 1;
    assert ranked == ranked[..n] + [ranked[n]];
    if c in ranked[..n] {
      ScanReaches(ranked[..n], c);
    }
  }

  lemma StubKeptApart(ranked: seq<Span>, k: Span, c: Span)
    requires AllOk(ranked) && InOrder(ranked)
    requires k in Greedy(ranked) && c in ranked && Stub(k, c) && !Before(c, k)
    ensures Greedy(ranked) != ByPlace(Scan(ranked))
  {
    hide Greedy, Scan, Chained, ByPlace, Accounted;
    if Greedy(ranked) == ByPlace(Scan(ranked)) {
      var kept := Greedy(ranked);
      assert k.Length() > c.Length();
      StubRank(k, c);
      NeverKept(ranked, k, c);
      ScanReaches(ranked, c);
      assert forall s :: s in kept <==> s in multiset(kept);
      assert forall s :: s in Scan(ranked) <==> s in multiset(Scan(ranked));
      var l :| l in Scan(ranked) && l.Overlaps(c);
      GreedyChained(ranked);
      ChainedStart(kept, k, l);
    }
  }

  lemma StubRank(k: Span, c: Span)
    requires !Before(c, k) && k.Length() > c.Length()
    ensures Before(k, c)
  {
  }

  /** Inside a kept span no other kept one starts. */
  lemma ChainedStart(kept: seq<Span>, k: Span, l: Span)
    requires Chained(kept) && k in kept && l in kept && k.start < k.end
    ensures !(l.start < k.start < l.end)
  {
    hide Span.Ok;
    var i :| 0 <= i < |kept| && kept[i] == k;
    var j :| 0 <= j < |kept| && kept[j] == l;
    assert i < j ==> k.start <= l.start;
    assert j < i ==> l.end <= k.start;
  }

  /** The resolution is the obvious one, span for span, exactly when no empty span stands at the start of a kept span
      that outranks it. */
  lemma ResolutionIsScan(spans: seq<Span>)
    requires AllOk(spans)
    ensures Greedy(Ranked(spans)) == ByPlace(Scan(Ranked(spans))) <==> StubFree(Ranked(spans))
  {
    hide Greedy, Ranked, Scan, ByPlace, InOrder, Before;
    var ranked := Ranked(spans);
    RankedOk(spans);
    RankedInOrder(spans);
    if StubFree(ranked) {
      SameKept(ranked, |ranked|);
      assert ranked[..|ranked|] == ranked;
    } else {
      var k, c :| k in Greedy(ranked) && c in ranked && Stub(k, c) && !Before(c, k);
      StubKeptApart(ranked, k, c);
    }
  }

  /** Detectors emit nonempty spans only, so for them it always is. */
  lemma NonemptyStubFree(spans: seq<Span>)
    requires Nonempty(spans)
    ensures StubFree(Ranked(spans))
  {
    hide Greedy, Ranked, Before;
    forall c | c in Ranked(spans)
      ensures c.start < c.end
    {
      assert c in multiset(Ranked(spans));
      assert c in multiset(spans);
    }
  }

  /** An empty span that the neighbour test drops and the scan for overlaps keeps. */
  lemma StubDropped()
    ensures var k, c := Span(2, 5, "A", "cde", 0.9, "d"), Span(2, 2, "A", "", 0.5, "d");
            && AllOk([k, c]) && Greedy(Ranked([k, c])) == [k] && ByPlace(Scan(Ranked([k, c]))) != [k]
  {
    hide Greedy, Scan, ByPlace, Ranked;
    var k, c := Span(2, 5, "A", "cde", 0.9, "d"), Span(2, 2, "A", "", 0.5, "d");
    RankedPair(k, c);
    GreedyPair(k, c);
    assert k in [k] && c in [k, c];
    assert !StubFree([k, c]);
    ResolutionIsScan([k, c]);
  }

  /** Among these spans no empty one stands at the start of one that outranks it. */
  ghost predicate NoStubs(spans: seq<Span>) {
    forall k, c | k in spans && c in spans && Stub(k, c) :: Before(c, k)
  }

  ghost predicate AmongThem(part: seq<Span>, spans: seq<Span>) { forall s | s in part :: s in spans }

  /** The two resolutions agree on everything that can be made of these spans exactly when none stands so. */
  lemma EveryPartIsScan(spans: seq<Span>)
    requires AllOk(spans)
    ensures (forall part | AmongThem(part, spans) :: Greedy(Ranked(part)) == ByPlace(Scan(Ranked(part)))) <==> NoStubs(spans)
  {
    hide Greedy, Ranked, Scan, ByPlace, Before, StubFree, Stub, Span.Ok;
    if NoStubs(spans) {
      forall part | AmongThem(part, spans)
        ensures Greedy(Ranked(part)) == ByPlace(Scan(Ranked(part)))
      {
        PartStubFree(part, spans);
        ResolutionIsScan(part);
      }
    }
    if !NoStubs(spans) {
      var k, c :| k in spans && c in spans && Stub(k, c) && !Before(c, k);
      StubPair(k, c);
      assert AmongThem([k, c], spans);
    }
  }

  lemma PartStubFree(part: seq<Span>, spans: seq<Span>)
    requires AllOk(spans) && NoStubs(spans) && AmongThem(part, spans)
    ensures AllOk(part) && StubFree(Ranked(part))
  {
    hide Greedy, Ranked, Before, Stub, Span.Ok;
    forall i | 0 <= i < |part|
      ensures part[i].Ok()
    {
      assert part[i] in part;
    }
    forall s | s in Ranked(part)
      ensures s in spans
    {
      assert s in multiset(Ranked(part));
      assert s in part;
    }
    forall k | k in Greedy(Ranked(part))
      ensures k in Ranked(part)
    {
      KeptFrom(Ranked(part), k);
    }
  }

  lemma StubPair(k: Span, c: Span)
    requires k.Ok() && c.Ok() && Stub(k, c) && !Before(c, k)
    ensures Greedy(Ranked([k, c])) != ByPlace(Scan(Ranked([k, c])))
  {
    hide Greedy, Scan, ByPlace, Ranked, Before;
    RankedPair(k, c);
    GreedyPair(k, c);
    assert k in [k] && c in [k, c];
    assert AllOk([k, c]);
    assert !StubFree([k, c]);
    ResolutionIsScan([k, c]);
  }
}
