/** Exactly when the order in which detections arrive decides what is kept. */
module DetectionOrder {
  import opened Conflicts
  import opened Containers

  /** No kept span ranks level with a different one. */
  ghost predicate KeptAlone(spans: seq<Span>) {
    forall k, t | k in Greedy(Ranked(spans)) && t in spans && Tied(k, t) :: t == k
  }

  // ---------- Of level spans the first one reported leads ----------

  predicate Leads(ranked: seq<Span>, t: Span, i: nat) {
    i < |ranked| && ranked[i] == t && forall j | 0 <= j < i :: Before(ranked[j], t)
  }

  lemma {:induction false} InsertLeads(ranked: seq<Span>, t: Span, i: nat, s: Span) returns (k: nat)
    requires Leads(ranked, t, i)
    ensures Leads(InsertRanked(ranked, s), t, k)
    decreases |ranked|
  {
    hide Before;
    if Before(s, ranked[0]) {
      k := i + 1;
      RankOrder(s, ranked[0], t);
    } else if i == 0 {
      k := 0;
    } else {
      k := InsertLeads(ranked[1..], t, i - 1, s);
      var rest := InsertRanked(ranked[1..], s);
      k := k + 1;
      assert InsertRanked(ranked, s) == [ranked[0]] + rest;
    }
  }

  lemma {:induction false} FirstLeads(t: Span, rest: seq<Span>) returns (k: nat)
    ensures Leads(Ranked([t] + rest), t, k)
    decreases |rest|
  {
    hide Before, InsertRanked, Ranked;
    if rest == [] {
      assert [t] + rest == [t];
      OneRanked(t);
      k := 0;
    } else {
      var before, last := rest[..|rest| - 1], rest[|rest| - 1];
      assert [t] + rest == ([t] + before) + [last];
      k := FirstLeads(t, before);
      RankedSnoc([t] + before, last);
      hide Leads;
      k := InsertLeads(Ranked([t] + before), t, k, last);
    }
  }

  lemma RankedSnoc(spans: seq<Span>, last: Span)
    ensures Ranked(spans + [last]) == InsertRanked(Ranked(spans), last)
  {
    hide InsertRanked;
    assert (spans + [last])[..|spans|] == spans && (spans + [last])[|spans|] == last;
  }

  lemma OneRanked(t: Span)
    ensures InsertRanked([], t) == [t] && Ranked([t]) == [t]
  {
    assert [t][..0] == [];
  }

  /** A span that follows a level one in the ranking is not kept. */
  lemma LedIsDropped(spans: seq<Span>, t: Span, i: nat, k: Span)
    requires AllOk(spans) && Nonempty(spans) && Leads(Ranked(spans), t, i) && Tied(k, t) && k != t
    ensures k !in Greedy(Ranked(spans))
  {
    hide Ranked, Greedy, Before;
    var ranked := Ranked(spans);
    KeptFacts(spans);
    TiedAlike(k, t);
    if k in Greedy(ranked) {
      if t in Greedy(ranked) {
        KeptApart(spans, t, k);
      } else {
        var m := BlockedBy(spans, i);
        KeptApart(spans, ranked[m], k);
      }
    }
  }

  lemma SomeOtherOrder(spans: seq<Span>, k: Span, t: Span)
    requires AllOk(spans) && Nonempty(spans)
    requires k in Greedy(Ranked(spans)) && t in spans && Tied(k, t) && k != t
    ensures exists other: seq<Span> :: multiset(other) == multiset(spans) && Greedy(Ranked(other)) != Greedy(Ranked(spans))
  {
    hide Ranked, Greedy, Tied, Leads;
    var i :| 0 <= i < |spans| && spans[i] == t;
    var rest := spans[..i] + spans[i + 1..];
    MovedFirst(spans, i);
    SameOk(spans, [t] + rest);
    var j := FirstLeads(t, rest);
    LedIsDropped([t] + rest, t, j, k);
  }

  lemma MovedFirst(spans: seq<Span>, i: nat)
    requires i < |spans|
    ensures multiset([spans[i]] + (spans[..i] + spans[i + 1..])) == multiset(spans)
  {
    assert spans == spans[..i] + ([spans[i]] + spans[i + 1..]);
  }

  lemma SameOk(a: seq<Span>, b: seq<Span>)
    requires multiset(a) == multiset(b) && AllOk(a) && Nonempty(a)
    ensures AllOk(b) && Nonempty(b)
  {
    hide Span.Ok;
    forall i | 0 <= i < |b|
      ensures b[i].Ok() && b[i].start < b[i].end
    {
      assert b[i] in multiset(a);
      var j :| 0 <= j < |a| && a[j] == b[i];
    }
  }

  // ---------- Otherwise every order keeps the same ----------

  lemma {:induction false} KeptBoth(a: seq<Span>, b: seq<Span>, i: nat)
    requires multiset(a) == multiset(b) && AllOk(a) && Nonempty(a) && AllOk(b) && Nonempty(b) && KeptAlone(a)
    requires i < |Ranked(a)| && Ranked(a)[i] in Greedy(Ranked(a))
    ensures Ranked(a)[i] in Greedy(Ranked(b))
    decreases i
  {
    hide Ranked, Greedy, Before, KeptAlone, AllOk, Nonempty, Span.Overlaps;
    var k := Ranked(a)[i];
    if k !in Greedy(Ranked(b)) {
      InList(a, i);
      assert k in multiset(a);
      var l := Dropped(b, k);
      assert l in multiset(b);
      Outranks(a, k, l);
      if l in Greedy(Ranked(a)) {
        KeptApart(a, l, k);
      } else {
        var j := PlaceBefore(a, l, i);
        var m := BlockedBy(a, j);
        KeptBoth(a, b, m);
        if Ranked(a)[m] != l {
          KeptApart(b, Ranked(a)[m], l);
        }
      }
    }
  }

  lemma Outranks(a: seq<Span>, k: Span, l: Span)
    requires KeptAlone(a) && k in Greedy(Ranked(a)) && l in a && l != k && !Before(k, l)
    ensures Before(l, k)
  {
    hide Ranked, Greedy, Before;
    assert Tied(k, l) ==> l == k;
  }

  lemma PlaceBefore(a: seq<Span>, l: Span, i: nat) returns (j: nat)
    requires AllOk(a) && Nonempty(a) && l in a && i < |Ranked(a)| && Before(l, Ranked(a)[i])
    ensures j < i && Ranked(a)[j] == l
  {
    hide Ranked, Greedy, Before;
    KeptFacts(a);
    var ranked := Ranked(a);
    j :| 0 <= j < |ranked| && ranked[j] == l;
    RankOrder(l, l, l);
  }

  lemma SameKept(a: seq<Span>, b: seq<Span>)
    requires multiset(a) == multiset(b) && AllOk(a) && Nonempty(a) && KeptAlone(a)
    ensures Greedy(Ranked(a)) == Greedy(Ranked(b))
  {
    hide Ranked, Greedy, Before, KeptAlone, AllOk, Nonempty, Span.Overlaps, Accounted, InOrder, Chained, Apart;
    SameOk(a, b);
    var ka, kb := Greedy(Ranked(a)), Greedy(Ranked(b));
    forall k
      ensures k in ka <==> k in kb
    {
      if k in ka {
        KeptPlaced(a, b, k);
      }
      if k in kb && k !in ka {
        KeptIn(b, k);
        assert k in multiset(a);
        var l := Dropped(a, k);
        KeptPlaced(a, b, l);
        KeptApart(b, l, k);
      }
    }
    KeptShape(a);
    KeptShape(b);
    SameElements(ka, kb);
    ChainUnique(ka, kb);
  }

  lemma KeptPlaced(a: seq<Span>, b: seq<Span>, k: Span)
    requires multiset(a) == multiset(b) && AllOk(a) && Nonempty(a) && AllOk(b) && Nonempty(b) && KeptAlone(a)
    requires k in Greedy(Ranked(a))
    ensures k in Greedy(Ranked(b))
  {
    hide Ranked, Greedy, Before, KeptAlone, Accounted, InOrder;
    KeptFacts(a);
    var i :| 0 <= i < |Ranked(a)| && Ranked(a)[i] == k;
    KeptBoth(a, b, i);
  }

  lemma KeptIn(b: seq<Span>, k: Span)
    requires AllOk(b) && Nonempty(b) && k in Greedy(Ranked(b))
    ensures k in b
  {
    hide Ranked, Greedy, Accounted, InOrder;
    KeptFacts(b);
  }

  lemma KeptShape(a: seq<Span>)
    requires AllOk(a) && Nonempty(a)
    ensures var kept := Greedy(Ranked(a)); Chained(kept) && Nonempty(kept) && Apart(kept)
  {
    hide Ranked, Greedy, Accounted, InOrder;
    KeptFacts(a);
    GreedyChained(Ranked(a));
    var kept := Greedy(Ranked(a));
    forall i | 0 <= i < |kept|
      ensures kept[i].start < kept[i].end
    {
      assert kept[i] in kept;
    }
    ChainApart(kept);
  }

  lemma SameElements(a: seq<Span>, b: seq<Span>)
    requires Apart(a) && Nonempty(a) && Apart(b) && Nonempty(b)
    requires forall s :: s in a <==> s in b
    ensures multiset(a) == multiset(b)
  {
    hide Apart, Nonempty;
    forall s
      ensures multiset(a)[s] == multiset(b)[s]
    {
      OnceEach(a, s);
      OnceEach(b, s);
      assert s in multiset(a) <==> s in a;
      assert s in multiset(b) <==> s in b;
    }
  }

  /** Whatever order nonempty detections arrive in, the result is the same, exactly when no kept span ranks level with a
      different one. */
  lemma OrderExactly(spans: seq<Span>)
    requires AllOk(spans) && Nonempty(spans)
    ensures (forall other | multiset(other) == multiset(spans) :: Greedy(Ranked(other)) == Greedy(Ranked(spans)))
            <==> KeptAlone(spans)
  {
    hide Ranked, Greedy, Tied;
    if KeptAlone(spans) {
      forall other | multiset(other) == multiset(spans)
        ensures Greedy(Ranked(other)) == Greedy(Ranked(spans))
      {
        SameKept(spans, other);
      }
    } else {
      var k, t :| k in Greedy(Ranked(spans)) && t in spans && Tied(k, t) && t != k;
      SomeOtherOrder(spans, k, t);
    }
  }
}
