/** From detections over the view to disjoint spans of the original text. */
module Preparation {
  import opened Tokens
  import opened Conflicts
  import opened DetectionView

  datatype DetectionError = UnmappableSpan | RoundTripFailed

  /** The span of the original that a mapped view span becomes. */
  function MappedSpan(v: View, s: Span): Span
    requires |v.origins| == |v.text| && MapSpan(v, s.start, s.end).Ok?
  {
    var r := MapSpan(v, s.start, s.end).value;
    Span(r.start, r.end, s.entityType, v.original[r.start..r.end], s.score, s.detector)
  }

  /** The spans the mapping accepts: in range, and covering whole clusters. */
  predicate Accepts(v: View, s: Span)
    requires |v.origins| == |v.text|
  {
    s.start < s.end <= |v.text| && Aligned(v, s.start, s.end)
  }

  lemma AcceptsExactly(u: Unicode, o: string, s: Span)
    requires Lawful(u)
    ensures var v := ViewOf(u, o);
            Accepts(v, s) <==> MapSpan(v, s.start, s.end).Ok? && VerifyRoundTrip(u, v, s.start, s.end)
  {
    hide Lawful, ViewOf, VerifyRoundTrip, Aligned;
    var v := ViewOf(u, o);
    if s.start < s.end <= |v.text| {
      MapsToEnds(u, o, s.start, s.end);
      RoundTripExactly(u, o, s.start, s.end);
    }
  }

  ghost predicate MappedFrom(mapped: seq<Span>, v: View, viewSpans: seq<Span>)
    requires |v.origins| == |v.text|
  {
    && |mapped| == |viewSpans|
    && forall k | 0 <= k < |mapped| ::
         MapSpan(v, viewSpans[k].start, viewSpans[k].end).Ok? && mapped[k] == MappedSpan(v, viewSpans[k])
  }

  /** What a view span becomes in the original: the same finding, over all that its characters came from. */
  ghost predicate FoundAt(found: Span, v: View, s: Span, o: string)
    requires |v.origins| == |v.text|
  {
    && found.entityType == s.entityType && found.score == s.score && found.detector == s.detector
    && s.start < s.end <= |v.text|
    && found.start == v.origins[s.start].start && found.end == v.origins[s.end - 1].end
    && found.start < found.end <= |o| && found.text == o[found.start..found.end]
  }

  ghost predicate AllFound(found: seq<Span>, v: View, viewSpans: seq<Span>, o: string)
    requires |v.origins| == |v.text|
  {
    |found| == |viewSpans| && forall k | 0 <= k < |found| :: FoundAt(found[k], v, viewSpans[k], o)
  }

  lemma MappedFound(u: Unicode, o: string, v: View, viewSpans: seq<Span>, mapped: seq<Span>)
    requires Lawful(u) && v == ViewOf(u, o) && MappedFrom(mapped, v, viewSpans)
    requires forall s | s in viewSpans :: Accepts(v, s)
    ensures AllFound(mapped, v, viewSpans, o)
  {
    MappedOk(u, o, v, viewSpans, mapped);
    OriginalKept(u, o);
    hide Lawful, ViewOf, MapSpan, Aligned;
    forall k | 0 <= k < |mapped|
      ensures FoundAt(mapped[k], v, viewSpans[k], o)
    {
      assert viewSpans[k] in viewSpans;
      MapsToEnds(u, o, viewSpans[k].start, viewSpans[k].end);
    }
  }

  /** Found spans are cut from the original, as replacing them requires. */
  lemma FoundCut(found: seq<Span>, v: View, viewSpans: seq<Span>, o: string)
    requires |v.origins| == |v.text| && AllFound(found, v, viewSpans, o)
    ensures forall s | s in found :: CutFrom(s, o)
  {
    forall s | s in found
      ensures CutFrom(s, o)
    {
      var k :| 0 <= k < |found| && found[k] == s;
      assert FoundAt(found[k], v, viewSpans[k], o);
    }
  }

  /** Maps every span or refuses the request, then resolves once more in the original. */
  method MapToOriginal(u: Unicode, o: string, v: View, viewSpans: seq<Span>)
    returns (r: Result<seq<Span>, DetectionError>, ghost mapped: seq<Span>)
    requires Lawful(u) && v == ViewOf(u, o)
    ensures r.Ok? <==> forall s | s in viewSpans :: Accepts(v, s)
    ensures r.Ok? ==> AllFound(mapped, v, viewSpans, o) && r.value == Greedy(Ranked(mapped)) && Chained(r.value)
    ensures r.Ok? && Chained(viewSpans) ==> r.value == mapped
  {
    hide Lawful, ViewOf, VerifyRoundTrip, Greedy, Ranked, Chained, Accepts, MapSpan;
    mapped := [];
    var spans: seq<Span> := [];
    var k := 0;
    while k < |viewSpans|
      invariant 0 <= k <= |viewSpans| && mapped == spans
      invariant MappedFrom(mapped, v, viewSpans[..k])
      invariant forall s | s in viewSpans[..k] :: Accepts(v, s)
    {
      var span := viewSpans[k];
      AcceptsExactly(u, o, span);
      var at := MapSpan(v, span.start, span.end);
      if at.Err? {
        return Err(UnmappableSpan), [];
      }
      if !VerifyRoundTrip(u, v, span.start, span.end) {
        return Err(RoundTripFailed), [];
      }
      spans := spans + [MappedSpan(v, span)];
      mapped := spans;
      assert viewSpans[..k + 1] == viewSpans[..k] + [span];
      k := k + 1;
    }
    assert viewSpans[..k] == viewSpans;
    MappedOk(u, o, v, viewSpans, mapped);
    MappedFound(u, o, v, viewSpans, mapped);
    hide AllFound;
    var kept := ResolveConflicts(spans);
    if Chained(viewSpans) {
      MappedStays(u, o, v, viewSpans, mapped);
    }
    return Ok(kept), mapped;
  }

  lemma MappedOk(u: Unicode, o: string, v: View, viewSpans: seq<Span>, mapped: seq<Span>)
    requires v == ViewOf(u, o) && MappedFrom(mapped, v, viewSpans)
    ensures AllOk(mapped) && Nonempty(mapped)
  {
    hide ViewOf;
    forall k | 0 <= k < |mapped|
      ensures mapped[k].Ok() && mapped[k].start < mapped[k].end
    {
      assert mapped[k] == MappedSpan(v, viewSpans[k]);
    }
  }

  /** Ranges only move forward, and an aligned end is where they do. */
  lemma {:induction false} RangesForward(origins: seq<Range>, a: nat, b: nat)
    requires Steps(origins) && a <= b < |origins|
    ensures origins[a] == origins[b] || origins[a].end <= origins[b].start
    decreases b - a
  {
    if a < b {
      RangesForward(origins, a, b - 1);
    }
  }

  lemma SpansForward(u: Unicode, o: string, v: View, a: Span, b: Span)
    requires Lawful(u) && v == ViewOf(u, o) && Accepts(v, a) && Accepts(v, b) && a.end <= b.start
    requires MapSpan(v, a.start, a.end).Ok? && MapSpan(v, b.start, b.end).Ok?
    ensures MappedSpan(v, a).end <= MappedSpan(v, b).start && MappedSpan(v, a).start <= MappedSpan(v, b).start
  {
    hide Lawful, ViewOf, MapSpan, Steps;
    MapsToEnds(u, o, a.start, a.end);
    MapsToEnds(u, o, b.start, b.end);
    RangesForward(v.origins, a.end, b.start);
    StepApart(v.origins, a.end, b.start);
    RangesForward(v.origins, a.start, b.start);
    RangeOrder(v.origins, a.start, b.start);
  }

  lemma StepApart(origins: seq<Range>, j: nat, b: nat)
    requires Steps(origins) && 0 < j <= b < |origins| && origins[j - 1] != origins[j]
    ensures origins[j - 1].end <= origins[b].start
  {
    RangesForward(origins, j, b);
  }

  lemma RangeOrder(origins: seq<Range>, a: nat, b: nat)
    requires Steps(origins) && a < |origins| && b < |origins|
    requires origins[a] == origins[b] || origins[a].end <= origins[b].start
    ensures origins[a].start <= origins[b].start
  {
  }

  /** Mapping a conflict-free list keeps it in order and apart, so the second resolution drops nothing. */
  lemma MappedStays(u: Unicode, o: string, v: View, viewSpans: seq<Span>, mapped: seq<Span>)
    requires Lawful(u) && v == ViewOf(u, o) && MappedFrom(mapped, v, viewSpans)
    requires (forall s | s in viewSpans :: Accepts(v, s)) && Chained(viewSpans)
    ensures Chained(mapped) && Greedy(Ranked(mapped)) == mapped
  {
    hide Lawful, ViewOf, Greedy, Ranked, Accepts, MapSpan;
    MappedOk(u, o, v, viewSpans, mapped);
    forall i, j | 0 <= i < j < |mapped|
      ensures mapped[i].start <= mapped[j].start && mapped[i].end <= mapped[j].start
    {
      assert mapped[i] == MappedSpan(v, viewSpans[i]) && mapped[j] == MappedSpan(v, viewSpans[j]);
      SpansForward(u, o, v, viewSpans[i], viewSpans[j]);
    }
    hide Span.Ok, MappedFrom;
    ResolvedStays(mapped);
  }

  /** Inspecting one text: nothing a detector found and resolution kept is lost on the way back. */
  method InspectText(u: Unicode, content: string, detected: seq<Span>)
    returns (r: Result<seq<Span>, DetectionError>, ghost viewSpans: seq<Span>)
    requires Lawful(u) && AllOk(detected)
    ensures viewSpans == Greedy(Ranked(detected))
    ensures r.Ok? <==> forall s | s in viewSpans :: Accepts(ViewOf(u, content), s)
    ensures r.Ok? ==> AllFound(r.value, ViewOf(u, content), viewSpans, content) && Chained(r.value)
    ensures r.Ok? ==> forall s | s in r.value :: CutFrom(s, content)
  {
    hide Lawful, ViewOf, Greedy, Ranked, Chained, Accepts, MapSpan, AllFound, AllOk;
    var view := BuildDetectionView(u, content);
    var resolved := ResolveConflicts(detected);
    viewSpans := resolved;
    ghost var mapped;
    r, mapped := MapToOriginal(u, content, view, resolved);
    if r.Ok? {
      FoundCut(r.value, view, resolved, content);
    }
  }
}
