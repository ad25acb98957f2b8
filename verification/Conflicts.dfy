/** Detected spans and the greedy that keeps a non-overlapping, ordered subset of them. */
module Conflicts {

  datatype Span = Span(start: nat, end: nat, entityType: string, text: string, score: real, detector: string) {
    predicate Ok() { start <= end && |text| == end - start }

    function Length(): int { end - start }

    predicate Overlaps(other: Span) { !(end <= other.start || other.end <= start) }
  }

  // ---------- Ranking ----------

  predicate TextBefore(a: string, b: string) {
    if b == "" then false
    else if a == "" then true
    else if a[0] != b[0] then a[0] < b[0]
    else TextBefore(a[1..], b[1..])
  }

  /** Higher score, then longer, then earlier, then by entity type and detector name. */
  predicate Before(a: Span, b: Span) {
    if a.score != b.score then a.score > b.score
    else if a.Length() != b.Length() then a.Length() > b.Length()
    else if a.start != b.start then a.start < b.start
    else if a.entityType != b.entityType then TextBefore(a.entityType, b.entityType)
    else TextBefore(a.detector, b.detector)
  }

  lemma {:induction false} TextOrder(a: string, b: string, c: string)
    ensures !TextBefore(a, a)
    ensures TextBefore(a, b) && TextBefore(b, c) ==> TextBefore(a, c)
    ensures a == b || TextBefore(a, b) || TextBefore(b, a)
    ensures !(TextBefore(a, b) && TextBefore(b, a))
    decreases |a| + |b| + |c|
  {
    if a != "" && b != "" && c != "" {
      TextOrder(a[1..], b[1..], c[1..]);
      assert a == [a[0]] + a[1..] && b == [b[0]] + b[1..];
    } else if a != "" && b != "" {
      TextOrder(a[1..], b[1..], "");
      assert a == [a[0]] + a[1..] && b == [b[0]] + b[1..];
    } else if a != "" {
      TextOrder(a[1..], "", "");
    }
  }

  lemma RankOrder(a: Span, b: Span, c: Span)
    ensures !Before(a, a)
    ensures Before(a, b) && Before(b, c) ==> Before(a, c)
    ensures !Before(b, a) && !Before(c, b) ==> !Before(c, a)
    ensures !(Before(a, b) && Before(b, a))
  {
    TextOrder(a.entityType, b.entityType, c.entityType);
    TextOrder(a.detector, b.detector, c.detector);
    TextOrder(c.entityType, a.entityType, b.entityType);
    TextOrder(c.detector, a.detector, b.detector);
    hide TextBefore;
  }

  /** Inserting after everything that does not rank below: the stable sort Python's sorted performs. */
  function InsertRanked(ranked: seq<Span>, s: Span): (r: seq<Span>)
    ensures multiset(r) == multiset(ranked) + multiset{s}
  {
    if ranked == [] then [s]
    else if Before(s, ranked[0]) then
      [s] + ranked
    else
      assert ranked == [ranked[0]] + ranked[1..];
      [ranked[0]] + InsertRanked(ranked[1..], s)
  }

  function Ranked(spans: seq<Span>): (r: seq<Span>)
    ensures multiset(r) == multiset(spans)
  {
    if spans == [] then []
    else
      var last := |spans| - 1;
      assert spans == spans[..last] + [spans[last]];
      InsertRanked(Ranked(spans[..last]), spans[last])
  }

  ghost predicate InOrder(ranked: seq<Span>) {
    forall i, j | 0 <= i < j < |ranked| :: !Before(ranked[j], ranked[i])
  }

  lemma {:induction false} InsertKeepsOrder(ranked: seq<Span>, s: Span)
    requires InOrder(ranked)
    ensures InOrder(InsertRanked(ranked, s))
  {
    hide Before;
    if ranked != [] {
      if Before(s, ranked[0]) {
        forall j | 0 <= j < |ranked|
          ensures !Before(ranked[j], s)
        {
          RankOrder(s, ranked[0], ranked[j]);
          RankOrder(ranked[j], s, ranked[0]);
        }
      } else {
        var rest := InsertRanked(ranked[1..], s);
        InsertKeepsOrder(ranked[1..], s);
        forall j | 0 <= j < |rest|
          ensures !Before(rest[j], ranked[0])
        {
          assert rest[j] in multiset(rest);
          assert rest[j] == s || rest[j] in ranked[1..];
        }
      }
    }
  }

  lemma {:induction false} RankedInOrder(spans: seq<Span>)
    ensures InOrder(Ranked(spans))
  {
    hide InOrder, InsertRanked;
    if spans == [] {
      assert InOrder([]) by { EmptyInOrder(); }
    } else {
      RankedInOrder(spans[..|spans| - 1]);
      InsertKeepsOrder(Ranked(spans[..|spans| - 1]), spans[|spans| - 1]);
    }
  }

  lemma EmptyInOrder()
    ensures InOrder([])
  {
  }

  // ---------- The reference greedy: scan everything kept so far ----------

  /** What keeps `c` out once `k` is kept: an overlap, or an empty span at the start of a nonempty one. */
  predicate Blocks(k: Span, c: Span) {
    k.Overlaps(c) || (c.start == c.end == k.start && k.start < k.end)
  }

  /** For nonempty spans, which is all that detectors emit, blocking is overlapping. */
  lemma BlocksIsOverlap(k: Span, c: Span)
    requires k.Ok() && c.Ok()
    ensures c.start < c.end ==> (Blocks(k, c) <==> k.Overlaps(c))
    ensures (Blocks(k, c) <==> k.Overlaps(c)) <==> !(c.start == c.end == k.start && k.start < k.end)
  {
  }

  ghost predicate Blocked(kept: seq<Span>, c: Span) {
    exists i :: 0 <= i < |kept| && Blocks(kept[i], c)
  }

  /** Kept spans in text order, each ending before the next one starts. */
  ghost predicate Chained(kept: seq<Span>) {
    && (forall i | 0 <= i < |kept| :: kept[i].Ok())
    && (forall i, j | 0 <= i < j < |kept| :: kept[i].start <= kept[j].start && kept[i].end <= kept[j].start)
  }

  /** Number of leading kept spans that start at or before `x`. */
  function CountLe(kept: seq<Span>, x: int): (n: nat)
    ensures n <= |kept|
    ensures forall i | 0 <= i < n :: kept[i].start <= x
    ensures n < |kept| ==> kept[n].start > x
  {
    if kept == [] || kept[0].start > x then 0 else 1 + CountLe(kept[1..], x)
  }

  function InsertAt(kept: seq<Span>, i: nat, s: Span): (r: seq<Span>)
    requires i <= |kept|
    ensures |r| == |kept| + 1
    ensures forall j | 0 <= j < |r| :: r[j] == if j < i then kept[j] else if j == i then s else kept[j - 1]
    ensures multiset(r) == multiset(kept) + multiset{s}
  {
    assert kept == kept[..i] + kept[i..];
    kept[..i] + [s] + kept[i..]
  }

  ghost function Greedy(ranked: seq<Span>): seq<Span> {
    if ranked == [] then []
    else
      var kept, c := Greedy(ranked[..|ranked| - 1]), ranked[|ranked| - 1];
      if Blocked(kept, c) then kept else InsertAt(kept, CountLe(kept, c.start), c)
  }

  ghost predicate AllOk(spans: seq<Span>) { forall i | 0 <= i < |spans| :: spans[i].Ok() }

  // ---------- Why two neighbours suffice ----------

  predicate NeighbourBlocks(kept: seq<Span>, c: Span, position: nat)
    requires position <= |kept|
  {
    || (position > 0 && kept[position - 1].end > c.start)
    || (position < |kept| && kept[position].start < c.end)
  }

  /** The kept spans are ordered by start and by end, so the two neighbours decide for all of them. */
  lemma NeighboursDecide(kept: seq<Span>, c: Span)
    requires Chained(kept) && c.Ok()
    ensures NeighbourBlocks(kept, c, CountLe(kept, c.start)) <==> Blocked(kept, c)
  {
    var position := CountLe(kept, c.start);
    hide CountLe;
    if position > 0 && kept[position - 1].end > c.start {
      assert Blocks(kept[position - 1], c);
    }
    if position < |kept| && kept[position].start < c.end {
      assert Blocks(kept[position], c);
    }
    if !NeighbourBlocks(kept, c, position) {
      forall i | 0 <= i < |kept|
        ensures !Blocks(kept[i], c)
      {
        if i < position {
          assert i < position - 1 ==> kept[i].end <= kept[position - 1].start;
        } else {
          assert i > position ==> kept[position].start <= kept[i].start;
        }
      }
    }
  }

  lemma InsertKeepsChain(kept: seq<Span>, c: Span)
    requires Chained(kept) && c.Ok() && !Blocked(kept, c)
    ensures Chained(InsertAt(kept, CountLe(kept, c.start), c))
  {
    hide Blocked, InsertAt, Span.Ok;
    NeighboursDecide(kept, c);
    var position := CountLe(kept, c.start);
    forall i | 0 <= i < position
      ensures kept[i].start <= c.start && kept[i].end <= c.start
    {
      assert i < position - 1 ==> kept[i].end <= kept[position - 1].start;
    }
    forall i | position <= i < |kept|
      ensures c.start <= kept[i].start && c.end <= kept[i].start
    {
      assert position < i ==> kept[position].start <= kept[i].start;
    }
    hide CountLe;
    ChainAt(kept, c, position);
  }

  lemma ChainAt(kept: seq<Span>, c: Span, position: nat)
    requires Chained(kept) && c.Ok() && position <= |kept|
    requires forall i | 0 <= i < position :: kept[i].start <= c.start && kept[i].end <= c.start
    requires forall i | position <= i < |kept| :: c.start <= kept[i].start && c.end <= kept[i].start
    ensures Chained(InsertAt(kept, position, c))
  {
    hide Span.Ok;
    var r := InsertAt(kept, position, c);
    hide InsertAt;
    forall i, j | 0 <= i < j < |r|
      ensures r[i].start <= r[j].start && r[i].end <= r[j].start
    {
      var a, b := if i < position then i else i - 1, if j < position then j else j - 1;
      assert i != position && j != position ==> r[i] == kept[a] && r[j] == kept[b] && 0 <= a < b < |kept|;
    }
  }

  lemma {:induction false} GreedyChained(ranked: seq<Span>)
    requires AllOk(ranked)
    ensures Chained(Greedy(ranked))
  {
    if ranked != [] {
      hide Chained, Blocked, CountLe, InsertAt;
      var before, c := ranked[..|ranked| - 1], ranked[|ranked| - 1];
      GreedyChained(before);
      if !Blocked(Greedy(before), c) {
        InsertKeepsChain(Greedy(before), c);
      }
    }
  }

  // ---------- The loop with the binary search ----------

  /** bisect_right on the kept starts. */
  method BisectRight(starts: seq<int>, x: int) returns (position: nat)
    requires forall i, j | 0 <= i < j < |starts| :: starts[i] <= starts[j]
    ensures position <= |starts|
    ensures forall i | 0 <= i < position :: starts[i] <= x
    ensures forall i | position <= i < |starts| :: starts[i] > x
  {
    var lo, hi := 0, |starts|;
    while lo < hi
      invariant 0 <= lo <= hi <= |starts|
      invariant forall i | 0 <= i < lo :: starts[i] <= x
      invariant forall i | hi <= i < |starts| :: starts[i] > x
    {
      var mid := (lo + hi) / 2;
      if x < starts[mid] {
        hi := mid;
      } else {
        lo := mid + 1;
      }
    }
    position := lo;
  }

  lemma CountLeIs(kept: seq<Span>, x: int, position: nat)
    requires position <= |kept|
    requires forall i | 0 <= i < position :: kept[i].start <= x
    requires position < |kept| ==> kept[position].start > x
    ensures CountLe(kept, x) == position
  {
    if position > 0 {
      CountLeIs(kept[1..], x, position - 1);
    }
  }

  /** Each candidate is checked against two neighbours only; the result is the quadratic greedy's. */
  method ResolveConflicts(spans: seq<Span>) returns (kept: seq<Span>)
    requires AllOk(spans)
    ensures kept == Greedy(Ranked(spans))
    ensures Chained(kept)
  {
    hide Ranked, Greedy, Blocked, Chained, CountLe, InsertAt, Span.Ok;
    kept := [];
    if spans == [] {
      NoneKept();
      return;
    }
    var ranked := Ranked(spans);
    RankedOk(spans);
    NoneKept();
    var starts: seq<int> := [];
    var n := 0;
    assert ranked[..0] == [];
    while n < |ranked|
      invariant 0 <= n <= |ranked|
      invariant kept == Greedy(ranked[..n]) && Chained(kept)
      invariant starts == Starts(kept)
    {
      var span := ranked[n];
      ChainSorted(kept);
      var position := BisectRight(starts, span.start);
      CountLeIs(kept, span.start, position);
      NeighboursDecide(kept, span);
      GreedyStep(ranked, n);
      n := n + 1;
      if position > 0 && kept[position - 1].end > span.start {
        continue;
      }
      if position < |kept| && kept[position].start < span.end {
        continue;
      }
      InsertKeepsChain(kept, span);
      StartsInsert(kept, position, span);
      kept := InsertAt(kept, position, span);
      starts := starts[..position] + [span.start as int] + starts[position..];
    }
    assert ranked[..n] == ranked;
  }

  function Starts(kept: seq<Span>): (starts: seq<int>)
    ensures |starts| == |kept| && forall i | 0 <= i < |kept| :: starts[i] == kept[i].start
  {
    seq(|kept|, i requires 0 <= i < |kept| => kept[i].start)
  }

  lemma StartsInsert(kept: seq<Span>, i: nat, s: Span)
    requires i <= |kept|
    ensures Starts(InsertAt(kept, i, s)) == Starts(kept)[..i] + [s.start as int] + Starts(kept)[i..]
  {
  }

  lemma NoneKept()
    ensures Greedy([]) == [] && Chained([]) && Ranked([]) == []
  {
  }

  lemma ChainSorted(kept: seq<Span>)
    requires Chained(kept)
    ensures forall i, j | 0 <= i < j < |kept| :: kept[i].start <= kept[j].start
  {
  }

  lemma RankedOk(spans: seq<Span>)
    requires AllOk(spans)
    ensures AllOk(Ranked(spans)) && |Ranked(spans)| == |spans|
  {
    hide Ranked;
    var ranked := Ranked(spans);
    assert |multiset(ranked)| == |multiset(spans)|;
    forall i | 0 <= i < |ranked|
      ensures ranked[i].Ok()
    {
      assert ranked[i] in multiset(spans);
    }
  }

  lemma GreedyStep(ranked: seq<Span>, n: nat)
    requires n < |ranked|
    ensures var kept, c := Greedy(ranked[..n]), ranked[n];
            Greedy(ranked[..n + 1]) == if Blocked(kept, c) then kept else InsertAt(kept, CountLe(kept, c.start), c)
  {
    hide Blocked, InsertAt, CountLe;
    assert ranked[..n + 1][..n] == ranked[..n];
  }

  // ---------- What the greedy promises ----------

  ghost predicate Accounted(ranked: seq<Span>, i: nat, kept: seq<Span>)
    requires i < |ranked|
  {
    ranked[i] in kept || exists j :: 0 <= j < i && ranked[j] in kept && Blocks(ranked[j], ranked[i])
  }

  /** Kept spans come from the input; every other span is blocked by a kept one ranked no lower. */
  lemma {:induction false} GreedyMeaning(ranked: seq<Span>)
    ensures multiset(Greedy(ranked)) <= multiset(ranked)
    ensures forall i | 0 <= i < |ranked| :: Accounted(ranked, i, Greedy(ranked))
  {
    if ranked != [] {
      hide CountLe, Blocks, Accounted, Blocked;
      var n := |ranked| - 1;
      var before, c := ranked[..n], ranked[n];
      assert ranked == before + [c];
      GreedyMeaning(before);
      var kept, now := Greedy(before), Greedy(ranked);
      forall s | s in kept
        ensures s in now
      {
        assert s in multiset(now);
      }
      forall i | 0 <= i < |ranked|
        ensures Accounted(ranked, i, now)
      {
        if i < n {
          StillAccounted(ranked, n, i, kept, now);
        } else {
          LastAccounted(ranked, kept, now);
        }
      }
    }
  }

  lemma StillAccounted(ranked: seq<Span>, n: nat, i: nat, kept: seq<Span>, now: seq<Span>)
    requires i < n <= |ranked| && Accounted(ranked[..n], i, kept)
    requires forall s | s in kept :: s in now
    ensures Accounted(ranked, i, now)
  {
    hide Blocks;
    if ranked[i] !in kept {
      var j :| 0 <= j < i && ranked[..n][j] in kept && Blocks(ranked[..n][j], ranked[..n][i]);
      assert ranked[j] in now && Blocks(ranked[j], ranked[i]);
    }
  }

  lemma LastAccounted(ranked: seq<Span>, kept: seq<Span>, now: seq<Span>)
    requires ranked != [] && multiset(kept) <= multiset(ranked[..|ranked| - 1])
    requires forall s | s in kept :: s in now
    requires ranked[|ranked| - 1] in now || Blocked(kept, ranked[|ranked| - 1])
    ensures Accounted(ranked, |ranked| - 1, now)
  {
    hide Blocks;
    var n := |ranked| - 1;
    if ranked[n] !in now {
      var m :| 0 <= m < |kept| && Blocks(kept[m], ranked[n]);
      assert kept[m] in multiset(ranked[..n]);
      var j :| 0 <= j < n && ranked[..n][j] == kept[m];
      assert ranked[j] in now && Blocks(ranked[j], ranked[n]);
    }
  }

  lemma {:induction false} KeptEarlier(a: seq<Span>, b: seq<Span>, k: Span)
    requires k in Greedy(a + b)
    ensures k in Greedy(a) || k in b
    decreases |b|
  {
    hide Greedy;
    if b == [] {
      assert a + b == a;
    } else {
      var n := |b| - 1;
      assert (a + b)[..|a + b| - 1] == a + b[..n] && (a + b)[|a + b| - 1] == b[n];
      GreedyStepIn(a + b, k);
      if k != b[n] {
        KeptEarlier(a, b[..n], k);
      }
    }
  }

  lemma GreedyStepIn(ranked: seq<Span>, k: Span)
    requires ranked != []
    ensures k in Greedy(ranked[..|ranked| - 1]) ==> k in Greedy(ranked)
    ensures k in Greedy(ranked) ==> k in Greedy(ranked[..|ranked| - 1]) || k == ranked[|ranked| - 1]
  {
    hide Blocked, CountLe;
    var kept, c := Greedy(ranked[..|ranked| - 1]), ranked[|ranked| - 1];
    assert k in Greedy(ranked) <==> k in multiset(Greedy(ranked));
    assert k in kept <==> k in multiset(kept);
  }

  lemma {:induction false} KeptStays(a: seq<Span>, b: seq<Span>, k: Span)
    requires k in Greedy(a)
    ensures k in Greedy(a + b)
    decreases |b|
  {
    hide Greedy;
    if b == [] {
      assert a + b == a;
    } else {
      var n := |b| - 1;
      assert (a + b)[..|a + b| - 1] == a + b[..n];
      KeptStays(a, b[..n], k);
      GreedyStepIn(a + b, k);
    }
  }

  // ---------- Order of detection does not matter ----------

  predicate Tied(a: Span, b: Span) { !Before(a, b) && !Before(b, a) }

  /** Spans that rank alike are the same span. */
  ghost predicate RankDecides(spans: seq<Span>) {
    forall s, t | s in spans && t in spans && Tied(s, t) :: s == t
  }

  lemma TiedAlike(a: Span, b: Span)
    requires Tied(a, b)
    ensures a.score == b.score && a.start == b.start && a.Length() == b.Length()
    ensures a.entityType == b.entityType && a.detector == b.detector
  {
    TextOrder(a.entityType, b.entityType, "");
    TextOrder(a.detector, b.detector, "");
    hide TextBefore;
  }

  lemma FirstRanked(a: seq<Span>, b: seq<Span>)
    requires multiset(a) == multiset(b) && InOrder(a) && InOrder(b) && a != [] && b != []
    requires RankDecides(a)
    ensures a[0] == b[0]
  {
    hide Before;
    assert a[0] in multiset(b) && b[0] in multiset(a);
    var i :| 0 <= i < |b| && b[i] == a[0];
    var j :| 0 <= j < |a| && a[j] == b[0];
    RankOrder(a[0], a[0], a[0]);
    assert Tied(a[0], b[0]);
  }

  lemma DropFirst(a: seq<Span>)
    requires a != []
    ensures multiset(a[1..]) == multiset(a) - multiset{a[0]}
    ensures InOrder(a) ==> InOrder(a[1..])
  {
    hide Before;
    assert a == [a[0]] + a[1..];
  }

  /** Two rankings of the same spans are the same ranking. */
  lemma {:induction false} RankingUnique(a: seq<Span>, b: seq<Span>)
    requires multiset(a) == multiset(b) && InOrder(a) && InOrder(b)
    requires RankDecides(a)
    ensures a == b
  {
    hide InOrder, Tied;
    assert |a| == |multiset(a)| == |multiset(b)| == |b|;
    if a != [] {
      FirstRanked(a, b);
      DropFirst(a);
      DropFirst(b);
      RankingUnique(a[1..], b[1..]);
      assert a == [a[0]] + a[1..] && b == [b[0]] + b[1..];
    }
  }

  /** Detectors may report in any order, as long as the ranking leaves no two different spans level. */
  lemma OrderIrrelevant(a: seq<Span>, b: seq<Span>)
    requires multiset(a) == multiset(b) && RankDecides(a)
    ensures Greedy(Ranked(a)) == Greedy(Ranked(b))
  {
    hide Ranked, Greedy, InOrder, Tied;
    RankedInOrder(a);
    RankedInOrder(b);
    forall s | s in Ranked(a)
      ensures s in a
    {
      assert s in multiset(Ranked(a));
    }
    RankingUnique(Ranked(a), Ranked(b));
  }

  predicate CutFrom(s: Span, source: string) {
    s.start <= s.end <= |source| && s.text == source[s.start..s.end]
  }

  /** A span is in order when it could be cut from some text. */
  lemma OkExactly(s: Span)
    ensures s.Ok() <==> exists source :: CutFrom(s, source)
  {
    if s.Ok() {
      var source := seq(s.start, _ => '.') + s.text;
      assert source[s.start..s.end] == s.text;
      assert CutFrom(s, source);
    }
  }

  /** Each detector reads one text, which may differ from what another one reads: the ranking decides, since the
      detector's name is part of it. */
  lemma DetectedDecides(spans: seq<Span>, textFor: string -> string)
    requires forall s | s in spans :: CutFrom(s, textFor(s.detector))
    ensures RankDecides(spans)
  {
    forall s, t | s in spans && t in spans && Tied(s, t)
      ensures s == t
    {
      TiedAlike(s, t);
    }
  }

  /** The detections of a pair of level spans depend on the order of the two exactly when the spans differ. */
  lemma LevelPair(s: Span, t: Span)
    requires s.Ok() && t.Ok() && s.start < s.end && t.start < t.end
    ensures Greedy(Ranked([s, t])) == Greedy(Ranked([t, s])) <==> (Tied(s, t) ==> s == t)
  {
    hide Ranked, Greedy;
    RankedPair(s, t);
    RankedPair(t, s);
    if Tied(s, t) {
      TiedAlike(s, t);
      GreedyPair(s, t);
      GreedyPair(t, s);
      assert [s][0] == s && [t][0] == t;
    } else {
      RankOrder(s, t, s);
    }
  }

  // ---------- Nothing is lost when nothing overlaps ----------

  ghost predicate Apart(spans: seq<Span>) {
    forall i, j | 0 <= i < |spans| && 0 <= j < |spans| && i != j :: !Blocks(spans[i], spans[j])
  }

  lemma NotBlocked(kept: seq<Span>, before: seq<Span>, c: Span)
    requires multiset(kept) == multiset(before)
    requires forall i | 0 <= i < |before| :: !Blocks(before[i], c)
    ensures !Blocked(kept, c)
  {
    hide Blocks;
    forall m | 0 <= m < |kept|
      ensures !Blocks(kept[m], c)
    {
      assert kept[m] in multiset(before);
    }
  }

  lemma {:induction false} GreedyKeepsAll(ranked: seq<Span>)
    requires Apart(ranked)
    ensures multiset(Greedy(ranked)) == multiset(ranked)
  {
    hide Blocks, CountLe, Blocked;
    if ranked != [] {
      var n := |ranked| - 1;
      var before := ranked[..n];
      assert ranked == before + [ranked[n]];
      assert forall i | 0 <= i < n :: !Blocks(before[i], ranked[n]);
      GreedyKeepsAll(before);
      NotBlocked(Greedy(before), before, ranked[n]);
    }
  }

  ghost predicate Nonempty(spans: seq<Span>) {
    forall i | 0 <= i < |spans| :: spans[i].start < spans[i].end
  }

  lemma ChainApart(kept: seq<Span>)
    requires Chained(kept) && Nonempty(kept)
    ensures Apart(kept)
  {
    forall i, j | 0 <= i < |kept| && 0 <= j < |kept| && i != j
      ensures !Blocks(kept[i], kept[j])
    {
      if i < j {
        assert kept[i].end <= kept[j].start;
      } else {
        assert kept[j].end <= kept[i].start;
      }
    }
  }

  lemma {:induction false} OnceEach(kept: seq<Span>, s: Span)
    requires Apart(kept) && Nonempty(kept)
    ensures multiset(kept)[s] <= 1
  {
    if kept != [] {
      var rest := kept[1..];
      assert kept == [kept[0]] + rest;
      hide Blocks;
      forall i, j | 0 <= i < |rest| && 0 <= j < |rest| && i != j
        ensures !Blocks(rest[i], rest[j])
      {
        assert !Blocks(kept[i + 1], kept[j + 1]);
      }
      OnceEach(rest, s);
      if s == kept[0] {
        forall i | 0 <= i < |rest|
          ensures rest[i] != s
        {
          assert !Blocks(kept[0], kept[i + 1]);
          BlocksItself(kept[0]);
        }
        assert s !in rest;
      }
    }
  }

  lemma BlocksItself(s: Span)
    ensures s.start < s.end ==> Blocks(s, s)
  {
  }

  lemma TwiceCounts(spans: seq<Span>, i: nat, j: nat)
    requires i < j < |spans| && spans[i] == spans[j]
    ensures multiset(spans)[spans[i]] >= 2
  {
    assert spans == spans[..j] + spans[j..];
    assert spans[..j][i] == spans[i] && spans[j..][0] == spans[i];
    assert spans[i] in multiset(spans[..j]) && spans[i] in multiset(spans[j..]);
  }

  lemma ApartPermuted(a: seq<Span>, b: seq<Span>)
    requires multiset(a) == multiset(b) && Apart(a) && Nonempty(a)
    ensures Apart(b)
  {
    forall i, j | 0 <= i < |b| && 0 <= j < |b| && i != j
      ensures !Blocks(b[i], b[j])
    {
      hide Blocks, Nonempty;
      OnceEach(a, b[i]);
      if b[i] == b[j] {
        TwiceCounts(b, if i < j then i else j, if i < j then j else i);
      } else {
        assert b[i] in multiset(a) && b[j] in multiset(a);
        var m :| 0 <= m < |a| && a[m] == b[i];
        var n :| 0 <= n < |a| && a[n] == b[j];
        assert m != n && !Blocks(a[m], a[n]);
      }
    }
  }

  /** There is one way to put disjoint nonempty spans in text order. */
  lemma {:induction false} ChainUnique(a: seq<Span>, b: seq<Span>)
    requires multiset(a) == multiset(b) && Chained(a) && Chained(b) && Nonempty(a)
    ensures a == b
  {
    hide Chained, Nonempty;
    assert |a| == |multiset(a)| == |multiset(b)| == |b|;
    if a != [] {
      FirstInChain(a, b);
      ChainTail(a);
      ChainTail(b);
      DropFirst(a);
      DropFirst(b);
      ChainUnique(a[1..], b[1..]);
      assert a == [a[0]] + a[1..] && b == [b[0]] + b[1..];
    }
  }

  lemma ChainTail(a: seq<Span>)
    requires a != [] && Chained(a)
    ensures Chained(a[1..]) && (Nonempty(a) ==> Nonempty(a[1..]))
  {
    hide Span.Ok;
  }

  lemma FirstInChain(a: seq<Span>, b: seq<Span>)
    requires multiset(a) == multiset(b) && Chained(a) && Chained(b) && Nonempty(a) && a != [] && b != []
    ensures a[0] == b[0]
  {
    assert a[0] in multiset(b) && b[0] in multiset(a);
    var i :| 0 <= i < |b| && b[i] == a[0];
    var j :| 0 <= j < |a| && a[j] == b[0];
    hide Span.Ok;
    var b0, bi, a0, aj := b[0], b[i], a[0], a[j];
    assert i == 0 || b0.end <= bi.start;
    assert j == 0 || a0.end <= aj.start;
  }

  /** Resolving spans that are already in order and apart changes nothing, so resolving twice is resolving once. */
  lemma ResolvedStays(kept: seq<Span>)
    requires Chained(kept) && Nonempty(kept)
    ensures Greedy(Ranked(kept)) == kept
  {
    hide Ranked, Greedy, Chained, Apart, Nonempty;
    ChainApart(kept);
    ApartPermuted(kept, Ranked(kept));
    GreedyKeepsAll(Ranked(kept));
    RankedOk(kept) by { ChainOk(kept); }
    GreedyChained(Ranked(kept));
    ChainUnique(kept, Greedy(Ranked(kept)));
  }

  lemma ChainOk(kept: seq<Span>)
    requires Chained(kept)
    ensures AllOk(kept)
  {
  }

  // ---------- Containment is not the rule ----------

  predicate Contains(outer: Span, inner: Span) { outer.start <= inner.start && inner.end <= outer.end }

  /** Of a span and one inside it, the outer one survives exactly when it does not score lower: containment by itself
      decides nothing. */
  lemma ContainerKept(outer: Span, inner: Span)
    requires outer.Ok() && inner.Ok() && Contains(outer, inner)
    requires inner.start < inner.end && outer.Length() > inner.Length()
    ensures Greedy(Ranked([outer, inner])) == if outer.score >= inner.score then [outer] else [inner]
  {
    hide TextBefore, Ranked, Greedy;
    RankedPair(outer, inner);
    if outer.score >= inner.score {
      GreedyPair(outer, inner);
    } else {
      GreedyPair(inner, outer);
    }
  }

  lemma RankedPair(a: Span, b: Span)
    ensures Ranked([a, b]) == if Before(b, a) then [b, a] else [a, b]
  {
    hide Before;
    var pair := [a, b];
    assert pair[..1] == [a] && [a][..0] == [] && [a][1..] == [];
    assert Ranked([]) == [] && Ranked([a]) == InsertRanked([], a) == [a];
    assert InsertRanked([], b) == [b];
  }

  lemma GreedyPair(first: Span, second: Span)
    requires Blocks(first, second)
    ensures Greedy([first, second]) == [first]
  {
    var pair := [first, second];
    assert pair[..1] == [first] && [first][..0] == [];
    assert !Blocked([], first);
    assert Greedy([]) == [] && Greedy([first]) == [first];
    assert Blocked([first], second) by {
      assert Blocks([first][0], second);
    }
  }

  // ---------- Ties ----------

  /** Alphabetical order of texts: at the first difference, or because one continues the other. */
  ghost predicate Alphabetical(a: string, b: string) {
    || (|a| < |b| && a == b[..|a|])
    || exists n :: 0 <= n < |a| && n < |b| && a[..n] == b[..n] && a[n] < b[n]
  }

  lemma {:induction false} TextExactly(a: string, b: string)
    ensures TextBefore(a, b) <==> Alphabetical(a, b)
    decreases |a|
  {
    if a != "" && b != "" && a[0] == b[0] {
      TextExactly(a[1..], b[1..]);
      assert a == [a[0]] + a[1..] && b == [b[0]] + b[1..];
      if Alphabetical(a[1..], b[1..]) {
        LongerHead(a, b);
      } else if Alphabetical(a, b) {
        ShorterHead(a, b);
      }
    } else if a != "" && b != "" {
      assert a[..0] == b[..0];
      assert Alphabetical(a, b) ==> a[0] < b[0] by {
        if n :| 0 < n < |a| && n < |b| && a[..n] == b[..n] && a[n] < b[n] {
          assert a[..n][0] == b[..n][0];
        }
      }
    }
  }

  lemma LongerHead(a: string, b: string)
    requires a != "" && b != "" && a[0] == b[0] && Alphabetical(a[1..], b[1..])
    ensures Alphabetical(a, b)
  {
    if n :| 0 <= n < |a[1..]| && n < |b[1..]| && a[1..][..n] == b[1..][..n] && a[1..][n] < b[1..][n] {
      assert a[..n + 1] == [a[0]] + a[1..][..n] && b[..n + 1] == [b[0]] + b[1..][..n];
      assert a[n + 1] < b[n + 1];
    } else {
      assert b[..|a|] == [b[0]] + b[1..][..|a| - 1];
    }
  }

  lemma ShorterHead(a: string, b: string)
    requires a != "" && b != "" && a[0] == b[0] && Alphabetical(a, b)
    ensures Alphabetical(a[1..], b[1..])
  {
    if n :| 0 <= n < |a| && n < |b| && a[..n] == b[..n] && a[n] < b[n] {
      assert n > 0;
      assert a[1..][..n - 1] == a[..n][1..] && b[1..][..n - 1] == b[..n][1..];
      assert a[1..][n - 1] < b[1..][n - 1];
    } else {
      assert b[1..][..|a| - 1] == b[..|a|][1..];
    }
  }

  /** Of two overlapping spans the better scored is kept, then the longer, then the earlier, then the one whose entity
      type and last whose detector comes first in the alphabet. */
  lemma PairKept(a: Span, b: Span, first: seq<Span>)
    requires a.Ok() && b.Ok() && a.start < a.end && b.start < b.end && a.Overlaps(b)
    requires first == [a, b] || first == [b, a]
    ensures (|| a.score > b.score
             || (a.score == b.score && a.end - a.start > b.end - b.start)
             || (a.score == b.score && a.end - a.start == b.end - b.start && a.start < b.start)
             || (a.score == b.score && a.start == b.start && a.end == b.end && Alphabetical(a.entityType, b.entityType))
             || (a.score == b.score && a.start == b.start && a.end == b.end && a.entityType == b.entityType
                 && Alphabetical(a.detector, b.detector)))
            ==> Greedy(Ranked(first)) == [a]
  {
    TextExactly(a.entityType, b.entityType);
    TextExactly(a.detector, b.detector);
    TextOrder(a.entityType, b.entityType, a.entityType);
    RankOrder(a, b, a);
    hide TextBefore, Ranked, Greedy, Alphabetical;
    RankedPair(a, b);
    RankedPair(b, a);
    if Before(a, b) {
      GreedyPair(a, b);
    }
  }
}
