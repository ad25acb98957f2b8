/** When spans that lie inside other spans are dropped, and when they survive instead of their containers. */
module Containers {
  import opened Conflicts

  predicate StrictlyInside(inner: Span, outer: Span) { Contains(outer, inner) && inner.Length() < outer.Length() }

  /** Nothing in the list strictly contains this span. */
  ghost predicate Maximal(s: Span, spans: seq<Span>) {
    forall t | t in spans :: !StrictlyInside(s, t)
  }

  /** No span survives inside a larger one that was detected too. */
  ghost predicate ContainersWin(spans: seq<Span>) {
    forall k | k in Greedy(Ranked(spans)) :: Maximal(k, spans)
  }

  ghost function Tops(ranked: seq<Span>, spans: seq<Span>): (r: seq<Span>)
    ensures forall s :: s in r <==> s in ranked && Maximal(s, spans)
  {
    if ranked == [] then []
    else
      var rest, s := Tops(ranked[..|ranked| - 1], spans), ranked[|ranked| - 1];
      assert forall t :: t in ranked <==> t in ranked[..|ranked| - 1] || t == s;
      if Maximal(s, spans) then rest + [s] else rest
  }

  // ---------- The greedy, span by span ----------

  /** The ranked list has the same spans, and the greedy keeps disjoint ones of them. */
  lemma KeptFacts(spans: seq<Span>)
    requires AllOk(spans) && Nonempty(spans)
    ensures var ranked := Ranked(spans);
            && InOrder(ranked) && AllOk(ranked) && Nonempty(ranked)
            && (forall s :: s in ranked <==> s in spans)
            && (forall k | k in Greedy(ranked) :: k in ranked)
            && (forall i | 0 <= i < |ranked| :: Accounted(ranked, i, Greedy(ranked)))
  {
    hide Greedy, Ranked, InOrder, Accounted, Chained;
    var ranked := Ranked(spans);
    RankedInOrder(spans);
    RankedOk(spans);
    GreedyMeaning(ranked);
    forall s
      ensures s in ranked <==> s in spans
    {
      assert s in ranked <==> s in multiset(ranked);
    }
    assert Nonempty(ranked) by {
      forall i | 0 <= i < |ranked|
        ensures ranked[i].start < ranked[i].end
      {
        assert ranked[i] in spans;
      }
    }
    forall k | k in Greedy(ranked)
      ensures k in ranked
    {
      assert k in multiset(Greedy(ranked));
      assert k in multiset(ranked);
    }
  }

  lemma KeptApart(spans: seq<Span>, k: Span, l: Span)
    requires AllOk(spans) && Nonempty(spans)
    requires k in Greedy(Ranked(spans)) && l in Greedy(Ranked(spans)) && k != l
    ensures !k.Overlaps(l)
  {
    hide Greedy, Ranked, Accounted, InOrder;
    var kept := Greedy(Ranked(spans));
    KeptFacts(spans);
    GreedyChained(Ranked(spans));
    assert Nonempty(kept) by {
      forall i | 0 <= i < |kept|
        ensures kept[i].start < kept[i].end
      {
        assert kept[i] in kept;
      }
    }
    ChainApart(kept);
    var i :| 0 <= i < |kept| && kept[i] == k;
    var j :| 0 <= j < |kept| && kept[j] == l;
    assert !Blocks(kept[i], kept[j]);
  }

  /** A span that was dropped overlaps a kept one that does not rank below it. */
  lemma Dropped(spans: seq<Span>, s: Span) returns (k: Span)
    requires AllOk(spans) && Nonempty(spans)
    requires s in spans && s !in Greedy(Ranked(spans))
    ensures k in Greedy(Ranked(spans)) && k in spans && k.Overlaps(s) && !Before(s, k)
  {
    hide Greedy, Ranked, Before;
    var ranked := Ranked(spans);
    KeptFacts(spans);
    var i :| 0 <= i < |ranked| && ranked[i] == s;
    assert Accounted(ranked, i, Greedy(ranked));
    var j :| 0 <= j < i && ranked[j] in Greedy(ranked) && Blocks(ranked[j], ranked[i]);
    k := ranked[j];
    assert k.Ok() && s.start < s.end;
  }

  // ---------- One container and one span inside it ----------

  /** A span inside one that scores no lower is kept only if something else, apart from it, took out the container. */
  lemma InnerKept(spans: seq<Span>, outer: Span, inner: Span)
    requires AllOk(spans) && Nonempty(spans) && outer in spans && inner in spans
    requires StrictlyInside(inner, outer) && outer.score >= inner.score
    requires inner in Greedy(Ranked(spans))
    ensures outer !in Greedy(Ranked(spans))
    ensures exists k :: k in Greedy(Ranked(spans)) && k.Overlaps(outer) && !Before(outer, k) && !k.Overlaps(inner)
  {
    hide Greedy, Ranked;
    if outer in Greedy(Ranked(spans)) {
      KeptApart(spans, outer, inner);
      assert false;
    }
    var k := Dropped(spans, outer);
    assert Before(outer, inner);
    KeptApart(spans, k, inner);
  }

  /** Three spans: the middle one scores no lower than the one inside it, and still loses to the first. */
  lemma ContainerLost()
    ensures var third, outer, inner :=
              Span(0, 4, "A", "abcd", 0.9, "d"), Span(2, 10, "A", "cdefghij", 0.5, "d"), Span(6, 9, "A", "ghi", 0.5, "d");
            && StrictlyInside(inner, outer) && outer.score >= inner.score
            && inner in Greedy(Ranked([third, outer, inner])) && outer !in Greedy(Ranked([third, outer, inner]))
  {
    hide Greedy, Ranked;
    var third, outer, inner :=
      Span(0, 4, "A", "abcd", 0.9, "d"), Span(2, 10, "A", "cdefghij", 0.5, "d"), Span(6, 9, "A", "ghi", 0.5, "d");
    var spans := [third, outer, inner];
    KeptFacts(spans);
    if third !in Greedy(Ranked(spans)) {
      var k := Dropped(spans, third);
      assert false;
    }
    if outer in Greedy(Ranked(spans)) {
      KeptApart(spans, third, outer);
      assert false;
    }
    if inner !in Greedy(Ranked(spans)) {
      var k := Dropped(spans, inner);
      assert false;
    }
  }

  // ---------- Exactly when containers win ----------

  lemma {:induction false} TopsSplit(a: seq<Span>, b: seq<Span>, spans: seq<Span>)
    ensures Tops(a + b, spans) == Tops(a, spans) + Tops(b, spans)
    decreases |b|
  {
    hide Maximal;
    if b == [] {
      assert a + b == a;
    } else {
      var n := |b| - 1;
      assert (a + b)[..|a + b| - 1] == a + b[..n];
      TopsSplit(a, b[..n], spans);
    }
  }

  /** A span that is not maximal is overlapped by one that wins among the maximal ones and ranks higher. */
  ghost predicate Outranked(s: Span, spans: seq<Span>) {
    exists k :: k in Greedy(Tops(Ranked(spans), spans)) && k.Overlaps(s) && Before(k, s)
  }

  ghost function Next(kept: seq<Span>, c: Span): seq<Span> {
    if Blocked(kept, c) then kept else InsertAt(kept, CountLe(kept, c.start), c)
  }

  /** One more span, in the whole list and among the maximal ones. */
  lemma TopStep(ranked: seq<Span>, spans: seq<Span>, n: nat)
    requires n < |ranked|
    ensures Greedy(ranked[..n + 1]) == Next(Greedy(ranked[..n]), ranked[n])
    ensures Greedy(Tops(ranked[..n + 1], spans))
            == if Maximal(ranked[n], spans) then Next(Greedy(Tops(ranked[..n], spans)), ranked[n])
               else Greedy(Tops(ranked[..n], spans))
  {
    hide Maximal, Blocked, CountLe, InsertAt, Greedy;
    GreedyStep(ranked, n);
    var s, tops := ranked[n], Tops(ranked[..n], spans);
    assert ranked[..n + 1][..n] == ranked[..n];
    if Maximal(s, spans) {
      assert (tops + [s])[..|tops|] == tops && (tops + [s])[..|tops| + 1] == tops + [s];
      GreedyStep(tops + [s], |tops|);
    }
  }

  /** Dropping what is not maximal beforehand makes no difference, as far as it has been looked at. */
  lemma {:induction false} SameAmongTops(spans: seq<Span>, n: nat)
    requires AllOk(spans) && Nonempty(spans) && n <= |Ranked(spans)|
    requires forall s | s in spans && !Maximal(s, spans) :: Outranked(s, spans)
    ensures Greedy(Ranked(spans)[..n]) == Greedy(Tops(Ranked(spans)[..n], spans))
  {
    hide Ranked, Maximal, Outranked, InOrder, Accounted, Greedy, Tops, Blocked, AllOk, Nonempty;
    var ranked := Ranked(spans);
    if n == 0 {
      assert Tops(ranked[..0], spans) == ranked[..0] by { NoTops(ranked[..0], spans); }
    } else {
      SameAmongTops(spans, n - 1);
      TopStep(ranked, spans, n - 1);
      if !Maximal(ranked[n - 1], spans) {
        KeptFacts(spans);
        OutrankedBlocks(spans, n - 1);
      }
    }
  }

  lemma NoTops(none: seq<Span>, spans: seq<Span>)
    requires none == []
    ensures Tops(none, spans) == none
  {
  }

  lemma OutrankedBlocks(spans: seq<Span>, n: nat)
    requires AllOk(spans) && Nonempty(spans) && n < |Ranked(spans)|
    requires Outranked(Ranked(spans)[n], spans)
    ensures Ranked(spans)[n] in spans
    ensures Blocked(Greedy(Tops(Ranked(spans)[..n], spans)), Ranked(spans)[n])
  {
    hide Ranked, Greedy, Maximal, Before, CountLe, Accounted, Tops, AllOk, Nonempty, Span.Overlaps;
    var ranked := Ranked(spans);
    KeptFacts(spans);
    var s, before, after := ranked[n], ranked[..n], ranked[n..];
    assert ranked == before + after;
    TopsSplit(before, after, spans);
    var k :| k in Greedy(Tops(ranked, spans)) && k.Overlaps(s) && Before(k, s);
    KeptEarlier(Tops(before, spans), Tops(after, spans), k);
    if k in after {
      var j :| 0 <= j < |after| && after[j] == k;
      assert after[j] == ranked[n + j];
      RankOrder(s, s, s);
      assert false;
    }
    var kept := Greedy(Tops(before, spans));
    var i :| 0 <= i < |kept| && kept[i] == k;
    assert Blocks(kept[i], s);
  }

  /** If only maximal spans survive, the others play no part. */
  lemma {:induction false} OnlyTops(spans: seq<Span>, n: nat)
    requires AllOk(spans) && Nonempty(spans) && n <= |Ranked(spans)| && ContainersWin(spans)
    ensures Greedy(Ranked(spans)[..n]) == Greedy(Tops(Ranked(spans)[..n], spans))
  {
    hide Ranked, Maximal, ContainersWin, Greedy, Tops, Blocked, CountLe, InsertAt, AllOk, Nonempty;
    var ranked := Ranked(spans);
    if n == 0 {
      assert Tops(ranked[..0], spans) == ranked[..0] by { NoTops(ranked[..0], spans); }
    } else {
      OnlyTops(spans, n - 1);
      TopStep(ranked, spans, n - 1);
      if !Blocked(Greedy(ranked[..n - 1]), ranked[n - 1]) {
        TakenStays(ranked, n - 1);
        WinnersMaximal(spans, ranked[n - 1]);
      }
    }
  }

  lemma WinnersMaximal(spans: seq<Span>, k: Span)
    requires ContainersWin(spans) && k in Greedy(Ranked(spans))
    ensures Maximal(k, spans)
  {
  }

  lemma TakenStays(ranked: seq<Span>, n: nat)
    requires n < |ranked| && !Blocked(Greedy(ranked[..n]), ranked[n])
    ensures ranked[n] in Greedy(ranked)
  {
    hide Greedy, Blocked, CountLe;
    GreedyStep(ranked, n);
    assert ranked[n] in multiset(Greedy(ranked[..n + 1]));
    assert ranked == ranked[..n + 1] + ranked[n + 1..];
    KeptStays(ranked[..n + 1], ranked[n + 1..], ranked[n]);
  }

  /** Containers win exactly when every span inside another is outranked by a winner among the maximal spans. */
  lemma ContainersWinExactly(spans: seq<Span>)
    requires AllOk(spans) && Nonempty(spans)
    ensures ContainersWin(spans) <==> forall s | s in spans && !Maximal(s, spans) :: Outranked(s, spans)
  {
    hide Ranked, Greedy, Outranked, Maximal, Tops, AllOk, Nonempty;
    var ranked := Ranked(spans);
    assert ranked[..|ranked|] == ranked;
    if ContainersWin(spans) {
      OnlyTops(spans, |ranked|);
      forall s | s in spans && !Maximal(s, spans)
        ensures Outranked(s, spans)
      {
        WinnerOutranks(spans, s);
      }
    }
    if forall s | s in spans && !Maximal(s, spans) :: Outranked(s, spans) {
      SameAmongTops(spans, |ranked|);
      TopsKeepTops(ranked, spans);
    }
  }

  lemma WinnerOutranks(spans: seq<Span>, s: Span)
    requires AllOk(spans) && Nonempty(spans) && ContainersWin(spans)
    requires Greedy(Ranked(spans)) == Greedy(Tops(Ranked(spans), spans))
    requires s in spans && !Maximal(s, spans)
    ensures Outranked(s, spans)
  {
    hide Ranked, Greedy, Maximal, Tops, Before;
    var k := Dropped(spans, s);
    TopRanksAbove(spans, k, s);
    assert k in Greedy(Tops(Ranked(spans), spans)) && k.Overlaps(s) && Before(k, s);
  }

  lemma TopsKeepTops(ranked: seq<Span>, spans: seq<Span>)
    ensures forall k | k in Greedy(Tops(ranked, spans)) :: Maximal(k, spans)
  {
    hide Maximal, Greedy, Accounted;
    var tops := Tops(ranked, spans);
    GreedyMeaning(tops);
    forall k | k in Greedy(tops)
      ensures Maximal(k, spans)
    {
      assert k in multiset(Greedy(tops));
      assert k in multiset(tops);
    }
  }

  lemma SameRange(spans: seq<Span>, k: Span, s: Span)
    requires k.start == s.start && k.end == s.end
    ensures Maximal(k, spans) <==> Maximal(s, spans)
  {
    forall t | t in spans
      ensures StrictlyInside(k, t) <==> StrictlyInside(s, t)
    {
    }
  }

  lemma TopRanksAbove(spans: seq<Span>, k: Span, s: Span)
    requires Maximal(k, spans) && !Maximal(s, spans) && !Before(s, k)
    ensures Before(k, s)
  {
    hide Maximal;
    if Tied(k, s) {
      TiedAlike(k, s);
      SameRange(spans, k, s);
    }
  }

  // ---------- Nested detections ----------

  /** Any two spans are disjoint or one contains the other. */
  ghost predicate Nested(spans: seq<Span>) {
    forall s, t | s in spans && t in spans && s.Overlaps(t) :: Contains(s, t) || Contains(t, s)
  }

  /** Some maximal span around `s` scores at least as high. */
  ghost predicate Topped(s: Span, spans: seq<Span>) {
    exists t :: t in spans && Maximal(t, spans) && Contains(t, s) && t.score >= s.score
  }

  lemma {:induction false} ToppedDropped(spans: seq<Span>, i: nat)
    requires AllOk(spans) && Nonempty(spans) && Nested(spans) && i < |Ranked(spans)|
    requires forall s | s in spans :: Topped(s, spans)
    requires Ranked(spans)[i] in Greedy(Ranked(spans))
    ensures Maximal(Ranked(spans)[i], spans)
    decreases i
  {
    hide Ranked, Greedy, Before, Maximal, Nested, AllOk, Nonempty, Span.Overlaps, Contains, Topped;
    var ranked := Ranked(spans);
    var s := ranked[i];
    InList(spans, i);
    if !Maximal(s, spans) {
      var t := TopOf(spans, s);
      var j := ContainerBefore(spans, t, i);
      if t in Greedy(ranked) {
        WithinItself(t);
        ContainedApart(spans, t, t, s);
      } else {
        var m := BlockedBy(spans, j);
        ToppedDropped(spans, m);
        MaximalContains(spans, ranked[m], t);
        ContainedApart(spans, ranked[m], t, s);
      }
    }
  }

  lemma InList(spans: seq<Span>, i: nat)
    requires AllOk(spans) && Nonempty(spans) && i < |Ranked(spans)|
    ensures Ranked(spans)[i] in spans
  {
    hide Ranked, Greedy;
    KeptFacts(spans);
  }

  lemma TopOf(spans: seq<Span>, s: Span) returns (t: Span)
    requires Topped(s, spans)
    ensures t in spans && Maximal(t, spans) && Contains(t, s) && t.score >= s.score
  {
    hide Maximal, Contains;
    t :| t in spans && Maximal(t, spans) && Contains(t, s) && t.score >= s.score;
  }

  lemma WithinItself(t: Span)
    ensures Contains(t, t)
  {
  }

  lemma ContainerBefore(spans: seq<Span>, t: Span, i: nat) returns (j: nat)
    requires AllOk(spans) && Nonempty(spans) && i < |Ranked(spans)|
    requires t in spans && Maximal(t, spans) && !Maximal(Ranked(spans)[i], spans)
    requires Contains(t, Ranked(spans)[i]) && t.score >= Ranked(spans)[i].score
    ensures j < i && Ranked(spans)[j] == t && Before(t, Ranked(spans)[i])
  {
    hide Ranked, Greedy, Before, Maximal, Accounted;
    var ranked := Ranked(spans);
    KeptFacts(spans);
    LargerRanksAbove(spans, t, ranked[i]);
    j :| 0 <= j < |ranked| && ranked[j] == t;
    RankOrder(t, ranked[i], t);
  }

  /** The span that blocked a dropped one stands before it in the ranking. */
  lemma BlockedBy(spans: seq<Span>, j: nat) returns (m: nat)
    requires AllOk(spans) && Nonempty(spans) && j < |Ranked(spans)|
    requires Ranked(spans)[j] !in Greedy(Ranked(spans))
    ensures m < j && Ranked(spans)[m] in Greedy(Ranked(spans))
    ensures Ranked(spans)[m].Overlaps(Ranked(spans)[j]) && !Before(Ranked(spans)[j], Ranked(spans)[m])
    ensures Ranked(spans)[m] in spans
  {
    hide Ranked, Greedy, Before;
    var ranked := Ranked(spans);
    KeptFacts(spans);
    assert Accounted(ranked, j, Greedy(ranked));
    m :| 0 <= m < j && ranked[m] in Greedy(ranked) && Blocks(ranked[m], ranked[j]);
    assert ranked[j].start < ranked[j].end;
  }

  /** Two kept spans, one around the other, are one span. */
  lemma ContainedApart(spans: seq<Span>, k: Span, t: Span, s: Span)
    requires AllOk(spans) && Nonempty(spans) && s in spans
    requires k in Greedy(Ranked(spans)) && s in Greedy(Ranked(spans))
    requires Contains(k, t) && Contains(t, s)
    ensures k == s
  {
    hide Ranked, Greedy;
    if k != s {
      KeptApart(spans, k, s);
    }
  }

  lemma MaximalContains(spans: seq<Span>, k: Span, s: Span)
    requires AllOk(spans) && k in spans && s in spans && Nested(spans) && k.Overlaps(s) && Maximal(k, spans)
    ensures Contains(k, s)
  {
    assert k.Ok() && s.Ok() && !StrictlyInside(k, s);
  }

  lemma LargerRanksAbove(spans: seq<Span>, t: Span, s: Span)
    requires t in spans && Maximal(t, spans) && !Maximal(s, spans) && Contains(t, s) && t.score >= s.score
    requires t.Ok() && s.Ok()
    ensures Before(t, s) && t != s
  {
    hide Maximal;
    if t.Length() <= s.Length() {
      SameRange(spans, t, s);
    }
  }

  datatype Range = Range(start: nat, end: nat)

  ghost function Ranges(spans: seq<Span>): set<Range> { set s | s in spans :: Range(s.start, s.end) }

  ghost function TopRanges(spans: seq<Span>): set<Range> {
    set s | s in spans && Maximal(s, spans) :: Range(s.start, s.end)
  }

  /** Of nested detections exactly the outermost ranges survive, if and only if around every detection some outermost
      one scores at least as high. */
  lemma NestedExactly(spans: seq<Span>)
    requires AllOk(spans) && Nonempty(spans) && Nested(spans)
    ensures Ranges(Greedy(Ranked(spans))) == TopRanges(spans) <==> forall s | s in spans :: Topped(s, spans)
  {
    hide Ranked, Greedy, Topped, Nested, AllOk, Nonempty;
    if Ranges(Greedy(Ranked(spans))) == TopRanges(spans) {
      forall s | s in spans
        ensures Topped(s, spans)
      {
        SurvivorTops(spans, s);
      }
    }
    if forall s | s in spans :: Topped(s, spans) {
      ToppedSurvive(spans);
    }
  }

  lemma SurvivorTops(spans: seq<Span>, s: Span)
    requires AllOk(spans) && Nonempty(spans) && Nested(spans) && s in spans
    requires Ranges(Greedy(Ranked(spans))) == TopRanges(spans)
    ensures Topped(s, spans)
  {
    hide Ranked, Greedy, Before, Maximal, Ranges, TopRanges;
    if s in Greedy(Ranked(spans)) {
      KeptTop(spans, s);
      assert Contains(s, s) && s.score >= s.score;
    } else {
      var k := Dropped(spans, s);
      KeptTop(spans, k);
      MaximalContains(spans, k, s);
      NotBelow(k, s);
    }
  }

  lemma ToppedSurvive(spans: seq<Span>)
    requires AllOk(spans) && Nonempty(spans) && Nested(spans)
    requires forall s | s in spans :: Topped(s, spans)
    ensures Ranges(Greedy(Ranked(spans))) == TopRanges(spans)
  {
    hide Ranked, Greedy, Before, Maximal, Topped, Nested, AllOk, Nonempty, Accounted, InOrder;
    var ranked := Ranked(spans);
    var kept := Greedy(ranked);
    KeptFacts(spans);
    forall k | k in kept
      ensures Maximal(k, spans)
    {
      var i :| 0 <= i < |ranked| && ranked[i] == k;
      ToppedDropped(spans, i);
    }
    forall s | s in spans && Maximal(s, spans)
      ensures Range(s.start, s.end) in Ranges(kept)
    {
      if s !in kept {
        var k := Dropped(spans, s);
        MaximalContains(spans, k, s);
        MaximalContains(spans, s, k);
        assert Range(k.start, k.end) in Ranges(kept);
      }
    }
  }

  lemma KeptTop(spans: seq<Span>, k: Span)
    requires k in Greedy(Ranked(spans)) && Ranges(Greedy(Ranked(spans))) == TopRanges(spans)
    ensures Maximal(k, spans)
  {
    hide Ranked, Greedy, Maximal;
    assert Range(k.start, k.end) in TopRanges(spans);
    var t :| t in spans && Maximal(t, spans) && Range(t.start, t.end) == Range(k.start, k.end);
    SameRange(spans, t, k);
  }

  lemma NotBelow(k: Span, s: Span)
    requires !Before(s, k)
    ensures k.score >= s.score
  {
  }
}
