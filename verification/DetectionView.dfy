/** The normalised text that detectors scan, and the reversible map back to the original. */
module DetectionView {
  import opened Text
  import opened Tokens

  /** The character database as functions: what is dropped, what attaches to the left, compatibility form, skeleton. */
  datatype Unicode = Unicode(
    ignorable: char -> bool,
    combining: char -> bool,
    nfkc: string -> string,
    fold: char -> char
  )

  /** The two facts about the real tables that the view relies on. */
  ghost predicate Lawful(u: Unicode) {
    && (forall s: string :: s != "" ==> u.nfkc(s) != "")
    && (forall c: char :: c as int < 128 ==> !u.combining(c))
  }

  datatype Range = Range(start: nat, end: nat)

  /** `folded` is the confusable skeleton of `text`; both share `origins`. */
  datatype View = View(original: string, text: string, folded: string, origins: seq<Range>)

  function Fold(u: Unicode, s: string): (r: string)
    ensures |r| == |s| && forall k | 0 <= k < |r| :: r[k] == u.fold(s[k])
  {
    seq(|s|, k requires 0 <= k < |s| => u.fold(s[k]))
  }

  // ---------- The view, pass by pass ----------

  /** Positions in [i, e) that survive the first pass. */
  function Kept(u: Unicode, o: string, i: nat, e: nat): (ps: seq<nat>)
    requires i <= e <= |o|
    ensures Within(ps, o)
    ensures forall k | 0 <= k < |ps| :: i <= ps[k] < e
    decreases e - i
  {
    if i == e then []
    else if u.ignorable(o[i]) then Kept(u, o, i + 1, e)
    else [i] + Kept(u, o, i + 1, e)
  }

  ghost predicate Rising(ps: seq<nat>) { forall j, k | 0 <= j < k < |ps| :: ps[j] < ps[k] }

  lemma {:induction false} KeptRises(u: Unicode, o: string, i: nat, e: nat)
    requires i <= e <= |o|
    ensures Rising(Kept(u, o, i, e))
    decreases e - i
  {
    if i < e {
      KeptRises(u, o, i + 1, e);
    }
  }

  predicate Within(ps: seq<nat>, o: string) { forall k | 0 <= k < |ps| :: ps[k] < |o| }

  function Chars(o: string, ps: seq<nat>): (t: string)
    requires Within(ps, o)
    ensures |t| == |ps| && forall k | 0 <= k < |t| :: t[k] == o[ps[k]]
  {
    seq(|ps|, k requires 0 <= k < |ps| => o[ps[k]])
  }

  /** Where the `q`th kept character's range starts: dropped characters belong to the next kept one. */
  function Offset(o: string, ps: seq<nat>, q: nat): nat
    requires q <= |ps|
  {
    if q == 0 then 0 else if q == |ps| then |o| else ps[q - 1] + 1
  }

  /** First index at or after `e` that does not combine: the end of a cluster begun before `e`. */
  function ClusterEnd(u: Unicode, t: string, e: nat): (end: nat)
    requires e <= |t|
    ensures e <= end <= |t|
    ensures forall k | e <= k < end :: u.combining(t[k])
    ensures end < |t| ==> !u.combining(t[end])
    decreases |t| - e
  {
    if e < |t| && u.combining(t[e]) then ClusterEnd(u, t, e + 1) else e
  }

  function Repeat(r: Range, n: nat): (rs: seq<Range>)
    ensures |rs| == n && forall k | 0 <= k < n :: rs[k] == r
  {
    seq(n, _ => r)
  }

  datatype Emitted = Emitted(text: string, origins: seq<Range>) {
    function Then(rest: Emitted): Emitted { Emitted(text + rest.text, origins + rest.origins) }
  }

  /** What the cluster of kept characters [q, e) contributes. */
  function Cluster(u: Unicode, o: string, ps: seq<nat>, q: nat, e: nat): (r: Emitted)
    requires q < e <= |ps| && Within(ps, o)
    ensures |r.text| == |r.origins|
  {
    var normalized := u.nfkc(Chars(o, ps)[q..e]);
    Emitted(normalized, Repeat(Range(Offset(o, ps, q), Offset(o, ps, e)), |normalized|))
  }

  function Emit(u: Unicode, o: string, ps: seq<nat>, q: nat): (r: Emitted)
    requires q <= |ps| && Within(ps, o)
    ensures |r.text| == |r.origins|
    decreases |ps| - q
  {
    if q == |ps| then Emitted("", [])
    else
      var e := ClusterEnd(u, Chars(o, ps), q + 1);
      Cluster(u, o, ps, q, e).Then(Emit(u, o, ps, e))
  }

  function ViewOf(u: Unicode, original: string): (v: View)
    ensures |v.text| == |v.folded| == |v.origins|
  {
    var emitted := Emit(u, original, Kept(u, original, 0, |original|), 0);
    View(original, emitted.text, Fold(u, emitted.text), emitted.origins)
  }

  // ---------- The passes as the code runs them ----------

  /** Characters on which all three passes are the identity. */
  predicate IdentityAscii(u: Unicode, c: char) {
    c as int < 128 && !u.ignorable(c) && u.fold(c) == c && u.nfkc([c]) == [c]
  }

  function IdentityOrigins(n: nat): (rs: seq<Range>)
    ensures |rs| == n && forall k | 0 <= k < n :: rs[k] == Range(k, k + 1)
  {
    seq(n, k requires 0 <= k < n => Range(k, k + 1))
  }

  lemma {:induction false} KeptStep(u: Unicode, o: string, i: nat)
    requires i < |o|
    ensures Kept(u, o, 0, i + 1) == Kept(u, o, 0, i) + (if u.ignorable(o[i]) then [] else [i])
  {
    KeptSplit(u, o, 0, i, i + 1);
    assert Kept(u, o, i + 1, i + 1) == [];
  }

  lemma {:induction false} KeptSplit(u: Unicode, o: string, i: nat, m: nat, e: nat)
    requires i <= m <= e <= |o|
    ensures Kept(u, o, i, e) == Kept(u, o, i, m) + Kept(u, o, m, e)
    decreases m - i
  {
    if i < m {
      KeptSplit(u, o, i + 1, m, e);
    }
  }

  /** One past the last kept position: where the next range starts. */
  function Next(ps: seq<nat>): nat { if ps == [] then 0 else ps[|ps| - 1] + 1 }

  /** The ranges of kept characters, before trailing ignorables are attached. */
  function Ranges(ps: seq<nat>): (rs: seq<Range>)
    ensures |rs| == |ps|
    ensures forall k | 0 <= k < |ps| :: rs[k] == Range(if k == 0 then 0 else ps[k - 1] + 1, ps[k] + 1)
  {
    seq(|ps|, k requires 0 <= k < |ps| => Range(if k == 0 then 0 else ps[k - 1] + 1, ps[k] + 1))
  }

  lemma KeepOne(o: string, ps: seq<nat>, i: nat)
    requires Within(ps, o) && i < |o|
    ensures Within(ps + [i], o)
    ensures Chars(o, ps + [i]) == Chars(o, ps) + [o[i]]
    ensures Ranges(ps + [i]) == Ranges(ps) + [Range(Next(ps), i + 1)]
  {
    KeepChar(o, ps, i);
    KeepRange(ps, i);
  }

  lemma KeepRange(ps: seq<nat>, i: nat)
    ensures Ranges(ps + [i]) == Ranges(ps) + [Range(Next(ps), i + 1)]
  {
    var grown, rs := ps + [i], Ranges(ps + [i]);
    assert forall k | 0 <= k < |ps| :: grown[k] == ps[k];
    forall k | 0 <= k < |ps|
      ensures rs[k] == Ranges(ps)[k]
    {
      assert grown[k] == ps[k] && (k > 0 ==> grown[k - 1] == ps[k - 1]);
    }
    assert rs == Ranges(ps) + [rs[|ps|]];
  }

  lemma KeepChar(o: string, ps: seq<nat>, i: nat)
    requires Within(ps, o) && i < |o|
    ensures Within(ps + [i], o)
    ensures Chars(o, ps + [i]) == Chars(o, ps) + [o[i]]
  {
    var grown := ps + [i];
    forall k | 0 <= k < |grown|
      ensures grown[k] < |o|
    {
    }
  }

  /** Pass 1: drop ignorables; a dropped run is absorbed by the next kept character, a trailing one by the last. */
  method StripIgnorables(u: Unicode, original: string) returns (stripped: string, strippedOrigin: seq<Range>)
    ensures var ps := Kept(u, original, 0, |original|);
            && stripped == Chars(original, ps)
            && |strippedOrigin| == |ps|
            && forall k | 0 <= k < |ps| :: strippedOrigin[k] == Range(Offset(original, ps, k), Offset(original, ps, k + 1))
  {
    hide Kept, Chars, Ranges;
    stripped, strippedOrigin := "", [];
    var pendingStart: Option<nat> := None;
    var index := 0;
    ghost var ps: seq<nat> := [];
    KeepNone(u, original);
    while index < |original|
      invariant 0 <= index <= |original|
      invariant ps == Kept(u, original, 0, index) && stripped == Chars(original, ps)
      invariant strippedOrigin == Ranges(ps)
      invariant Next(ps) == if pendingStart.Some? then pendingStart.value else index
    {
      KeptStep(u, original, index);
      var ch := original[index];
      if u.ignorable(ch) {
        if pendingStart.None? {
          pendingStart := Some(index);
        }
      } else {
        KeepOne(original, ps, index);
        var start := if pendingStart.Some? then pendingStart.value else index;
        pendingStart := None;
        stripped := stripped + [ch];
        strippedOrigin := strippedOrigin + [Range(start, index + 1)];
        ps := ps + [index];
      }
      index := index + 1;
    }
    if pendingStart.Some? && strippedOrigin != [] {
      var last := |strippedOrigin| - 1;
      strippedOrigin := strippedOrigin[last := Range(strippedOrigin[last].start, |original|)];
    }
  }

  lemma KeepNone(u: Unicode, o: string)
    ensures Kept(u, o, 0, 0) == [] && Ranges([]) == [] && Within([], o) && Chars(o, []) == ""
  {
  }

  /** Passes 2 and 3: compatibility form per cluster, every output character mapped to its cluster's range. */
  method NormalizeClusters(u: Unicode, original: string, stripped: string, strippedOrigin: seq<Range>, ghost ps: seq<nat>)
    returns (viewChars: string, origins: seq<Range>)
    requires Within(ps, original) && stripped == Chars(original, ps) && |strippedOrigin| == |ps|
    requires forall k | 0 <= k < |ps| :: strippedOrigin[k] == Range(Offset(original, ps, k), Offset(original, ps, k + 1))
    ensures Emit(u, original, ps, 0) == Emitted(viewChars, origins)
  {
    hide Emit, Chars, Within, ClusterEnd, Repeat, Emitted.Then;
    viewChars, origins := "", [];
    var clusterStart := 0;
    ThenNothing(Emit(u, original, ps, 0));
    while clusterStart < |stripped|
      invariant 0 <= clusterStart <= |stripped|
      invariant Emit(u, original, ps, 0) == Emitted(viewChars, origins).Then(Emit(u, original, ps, clusterStart))
    {
      var clusterEnd := NextCluster(u, stripped, clusterStart);
      EmitStep(u, original, ps, clusterStart);
      var normalized := u.nfkc(stripped[clusterStart..clusterEnd]);
      var origin := Range(strippedOrigin[clusterStart].start, strippedOrigin[clusterEnd - 1].end);
      var more := Repeat(origin, |normalized|);
      assert normalized == u.nfkc(Chars(original, ps)[clusterStart..clusterEnd]);
      assert strippedOrigin[clusterStart] == Range(Offset(original, ps, clusterStart), Offset(original, ps, clusterStart + 1));
      assert Cluster(u, original, ps, clusterStart, clusterEnd) == Emitted(normalized, more);
      ThenAssoc(Emitted(viewChars, origins), Emitted(normalized, more), Emit(u, original, ps, clusterEnd));
      ThenIs(Emitted(viewChars, origins), Emitted(normalized, more));
      viewChars := viewChars + normalized;
      origins := origins + more;
      clusterStart := clusterEnd;
    }
    EmitEnd(u, original, ps);
    ThenNothing(Emitted(viewChars, origins));
  }

  method NextCluster(u: Unicode, t: string, start: nat) returns (end: nat)
    requires start < |t|
    ensures end == ClusterEnd(u, t, start + 1)
  {
    end := start + 1;
    while end < |t| && u.combining(t[end])
      invariant start < end <= |t|
      invariant ClusterEnd(u, t, start + 1) == ClusterEnd(u, t, end)
    {
      end := end + 1;
    }
  }

  /** Builds the view and its offset map; plain ASCII takes the shortcut. */
  method BuildDetectionView(u: Unicode, original: string) returns (v: View)
    requires Lawful(u)
    ensures v == ViewOf(u, original)
  {
    hide Kept, Emit, Offset, Chars, Lawful;
    if original == "" {
      KeepNone(u, "");
      NothingToView(u, "");
      return View("", "", "", []);
    }
    if forall c | c in original :: IdentityAscii(u, c) {
      FastPath(u, original);
      return View(original, original, original, IdentityOrigins(|original|));
    }
    var stripped, strippedOrigin := StripIgnorables(u, original);
    ghost var ps := Kept(u, original, 0, |original|);
    if stripped == "" {
      NothingToView(u, original);
      return View(original, "", "", []);
    }
    var viewChars, origins := NormalizeClusters(u, original, stripped, strippedOrigin, ps);
    return View(original, viewChars, Fold(u, viewChars), origins);
  }

  /** A text of dropped characters only has an empty view: the one exception to coverage. */
  lemma NothingToView(u: Unicode, o: string)
    requires Kept(u, o, 0, |o|) == []
    ensures ViewOf(u, o) == View(o, "", "", [])
  {
  }

  lemma ThenIs(a: Emitted, b: Emitted)
    ensures a.Then(b) == Emitted(a.text + b.text, a.origins + b.origins)
  {
  }

  lemma ThenAssoc(a: Emitted, b: Emitted, c: Emitted)
    ensures a.Then(b).Then(c) == a.Then(b.Then(c))
  {
    assert (a.text + b.text) + c.text == a.text + (b.text + c.text);
    assert (a.origins + b.origins) + c.origins == a.origins + (b.origins + c.origins);
  }

  lemma ThenNothing(a: Emitted)
    ensures a.Then(Emitted("", [])) == a && Emitted("", []).Then(a) == a
  {
  }

  lemma EmitStep(u: Unicode, o: string, ps: seq<nat>, q: nat)
    requires q < |ps| && Within(ps, o)
    ensures var e := ClusterEnd(u, Chars(o, ps), q + 1);
            Emit(u, o, ps, q) == Cluster(u, o, ps, q, e).Then(Emit(u, o, ps, e))
  {
  }

  lemma EmitEnd(u: Unicode, o: string, ps: seq<nat>)
    requires Within(ps, o)
    ensures Emit(u, o, ps, |ps|) == Emitted("", [])
  {
  }

  lemma {:induction false} KeptAll(u: Unicode, o: string, i: nat)
    requires i <= |o| && forall k | 0 <= k < |o| :: !u.ignorable(o[k])
    ensures |Kept(u, o, i, |o|)| == |o| - i
    ensures forall k | 0 <= k < |o| - i :: Kept(u, o, i, |o|)[k] == i + k
    decreases |o| - i
  {
    if i < |o| {
      KeptAll(u, o, i + 1);
    }
  }

  lemma IdentityCluster(u: Unicode, o: string, ps: seq<nat>, q: nat)
    requires Lawful(u) && |ps| == |o| && q < |o|
    requires forall k | 0 <= k < |o| :: ps[k] == k && IdentityAscii(u, o[k])
    ensures Within(ps, o) && ClusterEnd(u, Chars(o, ps), q + 1) == q + 1
    ensures Cluster(u, o, ps, q, q + 1) == Emitted([o[q]], [Range(q, q + 1)])
  {
    hide ClusterEnd, Lawful, Chars, IdentityAscii;
    IdentityNext(u, o, ps, q);
    StandsAlone(u, o[q]);
    IdentityOffsets(o, ps, q);
    OneCluster(u, o, ps, q);
  }

  lemma OneCluster(u: Unicode, o: string, ps: seq<nat>, q: nat)
    requires Within(ps, o) && q < |ps| && q < |o| && Chars(o, ps)[q..q + 1] == [o[q]] && u.nfkc([o[q]]) == [o[q]]
    requires Offset(o, ps, q) == q && Offset(o, ps, q + 1) == q + 1
    ensures Cluster(u, o, ps, q, q + 1) == Emitted([o[q]], [Range(q, q + 1)])
  {
    hide Offset, Within, Chars;
    assert Repeat(Range(q, q + 1), 1) == [Range(q, q + 1)];
  }

  lemma IdentityNext(u: Unicode, o: string, ps: seq<nat>, q: nat)
    requires Lawful(u) && |ps| == |o| && q < |o|
    requires forall k | 0 <= k < |o| :: ps[k] == k && IdentityAscii(u, o[k])
    ensures Within(ps, o) && ClusterEnd(u, Chars(o, ps), q + 1) == q + 1 && Chars(o, ps)[q..q + 1] == [o[q]]
  {
    if q + 1 < |o| {
      assert IdentityAscii(u, o[q + 1]) && ps[q + 1] == q + 1;
    }
  }

  lemma StandsAlone(u: Unicode, c: char)
    requires IdentityAscii(u, c)
    ensures u.nfkc([c]) == [c]
  {
  }

  lemma IdentityOffsets(o: string, ps: seq<nat>, q: nat)
    requires |ps| == |o| && q < |o| && forall k | 0 <= k < |o| :: ps[k] == k
    ensures Offset(o, ps, q) == q && Offset(o, ps, q + 1) == q + 1
  {
  }

  lemma {:induction false} EmitIdentity(u: Unicode, o: string, ps: seq<nat>, q: nat)
    requires Lawful(u) && |ps| == |o| && q <= |o|
    requires forall k | 0 <= k < |o| :: ps[k] == k && IdentityAscii(u, o[k])
    ensures Within(ps, o) && Emit(u, o, ps, q) == Emitted(o[q..], IdentityOrigins(|o|)[q..])
    decreases |o| - q
  {
    hide Emit, Lawful, IdentityAscii, Cluster, Chars, ClusterEnd;
    if q < |o| {
      IdentityCluster(u, o, ps, q);
      EmitStep(u, o, ps, q);
      EmitIdentity(u, o, ps, q + 1);
      assert o[q..] == [o[q]] + o[q + 1..];
      var rs := IdentityOrigins(|o|);
      assert rs[q..] == [Range(q, q + 1)] + rs[q + 1..];
    } else {
      EmitEnd(u, o, ps);
    }
  }

  /** The shortcut is a shortcut through the work, not around it. */
  lemma FastPath(u: Unicode, o: string)
    requires Lawful(u) && forall c | c in o :: IdentityAscii(u, c)
    ensures ViewOf(u, o) == View(o, o, o, IdentityOrigins(|o|))
  {
    hide Emit, Kept;
    assert forall k | 0 <= k < |o| :: IdentityAscii(u, o[k]);
    KeptAll(u, o, 0);
    EmitIdentity(u, o, Kept(u, o, 0, |o|), 0);
    assert o[0..] == o && IdentityOrigins(|o|)[0..] == IdentityOrigins(|o|);
    assert Fold(u, o) == o;
  }

  // ---------- Mapping back ----------

  datatype MappingError = OutsideView | OutsideOriginal

  /** Maximum of the ends of a nonempty stretch of origins, as the mapping loop computes it. */
  function MaxEnd(origins: seq<Range>): (m: nat)
    requires origins != []
    ensures exists k :: 0 <= k < |origins| && m == origins[k].end
    ensures forall k | 0 <= k < |origins| :: origins[k].end <= m
  {
    if |origins| == 1 then origins[0].end
    else
      var rest := MaxEnd(origins[1..]);
      if origins[0].end > rest then origins[0].end else rest
  }

  function MapSpan(v: View, start: int, end: int): Result<Range, MappingError>
    requires |v.origins| == |v.text|
  {
    if !(0 <= start < end <= |v.text|) then Err(OutsideView)
    else
      var from, to := v.origins[start].start, MaxEnd(v.origins[start..end]);
      if !(0 <= from < to <= |v.original|) then Err(OutsideOriginal) else Ok(Range(from, to))
  }

  /** Does viewing the mapped original text again reproduce what was matched? */
  function VerifyRoundTrip(u: Unicode, v: View, start: int, end: int): bool
    requires |v.origins| == |v.text| == |v.folded|
  {
    var mapped := MapSpan(v, start, end);
    mapped.Ok? &&
    ViewOf(u, v.original[mapped.value.start..mapped.value.end]).folded == v.folded[start..end]
  }

  // ---------- Clusters in order: the emission cut at cluster boundaries ----------

  /** `e` is reached from `q` by whole clusters. */
  predicate Reaches(u: Unicode, t: string, q: nat, e: nat)
    requires q <= |t|
    decreases |t| - q
  {
    q == e || (q < |t| && Reaches(u, t, ClusterEnd(u, t, q + 1), e))
  }

  lemma {:induction false} ReachesUp(u: Unicode, t: string, q: nat, e: nat)
    requires q <= |t| && Reaches(u, t, q, e)
    ensures q <= e <= |t|
    decreases |t| - q
  {
    if q != e {
      ReachesUp(u, t, ClusterEnd(u, t, q + 1), e);
    }
  }

  /** The clusters from `q` up to the boundary `e`. */
  function EmitUntil(u: Unicode, o: string, ps: seq<nat>, q: nat, e: nat): (r: Emitted)
    requires q <= |ps| && Within(ps, o) && Reaches(u, Chars(o, ps), q, e)
    ensures |r.text| == |r.origins|
    decreases |ps| - q
  {
    if q == e then Emitted("", [])
    else
      var next := ClusterEnd(u, Chars(o, ps), q + 1);
      Cluster(u, o, ps, q, next).Then(EmitUntil(u, o, ps, next, e))
  }

  lemma {:induction false} EmitSplits(u: Unicode, o: string, ps: seq<nat>, q: nat, e: nat)
    requires q <= |ps| && Within(ps, o) && Reaches(u, Chars(o, ps), q, e)
    ensures q <= e <= |ps|
    ensures Emit(u, o, ps, q) == EmitUntil(u, o, ps, q, e).Then(Emit(u, o, ps, e))
    decreases |ps| - q
  {
    hide Chars, Cluster, Emit, Within, Emitted.Then;
    ReachesUp(u, Chars(o, ps), q, e);
    if q == e {
      ThenNothing(Emit(u, o, ps, q));
    } else {
      var next := ClusterEnd(u, Chars(o, ps), q + 1);
      EmitStep(u, o, ps, q);
      EmitSplits(u, o, ps, next, e);
      ThenAssoc(Cluster(u, o, ps, q, next), EmitUntil(u, o, ps, next, e), Emit(u, o, ps, e));
    }
  }

  // ---------- Coverage: the ranges tile the original ----------

  /** Consecutive ranges are the same tile or adjacent tiles. */
  ghost predicate Steps(origins: seq<Range>) {
    && (forall k | 0 <= k < |origins| :: origins[k].start < origins[k].end)
    && (forall k | 0 < k < |origins| :: origins[k] == origins[k - 1] || origins[k].start == origins[k - 1].end)
  }

  /** From `from` to `to` without a gap or an overlap. */
  ghost predicate Tiles(origins: seq<Range>, from: nat, to: nat) {
    && Steps(origins)
    && (origins == [] ==> from == to)
    && (origins != [] ==> origins[0].start == from && origins[|origins| - 1].end == to)
  }

  lemma TilesJoin(a: seq<Range>, b: seq<Range>, from: nat, mid: nat, to: nat)
    requires Tiles(a, from, mid) && Tiles(b, mid, to)
    ensures Tiles(a + b, from, to)
  {
    if a == [] {
      assert a + b == b;
    } else if b == [] {
      assert a + b == a;
    }
  }

  lemma OffsetsRise(o: string, ps: seq<nat>, q: nat, e: nat)
    requires q < e <= |ps| && Within(ps, o) && Rising(ps)
    ensures Offset(o, ps, q) < Offset(o, ps, e) <= |o|
  {
    assert ps[e - 1] < |o|;
    assert q == 0 || ps[q - 1] < ps[e - 1];
  }

  lemma ClusterTiles(u: Unicode, o: string, ps: seq<nat>, q: nat, e: nat)
    requires Lawful(u) && q < e <= |ps| && Within(ps, o) && Rising(ps)
    ensures Cluster(u, o, ps, q, e).text != ""
    ensures Tiles(Cluster(u, o, ps, q, e).origins, Offset(o, ps, q), Offset(o, ps, e))
  {
    OffsetsRise(o, ps, q, e);
    assert Chars(o, ps)[q..e] != "";
  }

  lemma {:induction false} UntilTiles(u: Unicode, o: string, ps: seq<nat>, q: nat, e: nat)
    requires Lawful(u) && q <= |ps| && Within(ps, o) && Rising(ps)
    requires Reaches(u, Chars(o, ps), q, e)
    ensures q <= e <= |ps|
    ensures Tiles(EmitUntil(u, o, ps, q, e).origins, Offset(o, ps, q), Offset(o, ps, e))
    decreases |ps| - q
  {
    hide Chars, Cluster, Tiles, Offset, Lawful;
    ReachesUp(u, Chars(o, ps), q, e);
    if q == e {
      NoTiles(Offset(o, ps, q));
    } else {
      var next := ClusterEnd(u, Chars(o, ps), q + 1);
      ClusterTiles(u, o, ps, q, next);
      UntilTiles(u, o, ps, next, e);
      TilesJoin(Cluster(u, o, ps, q, next).origins, EmitUntil(u, o, ps, next, e).origins,
                Offset(o, ps, q), Offset(o, ps, next), Offset(o, ps, e));
    }
  }

  lemma NoTiles(at: nat)
    ensures Tiles([], at, at)
  {
  }

  lemma {:induction false} ReachesEnd(u: Unicode, t: string, q: nat)
    requires q <= |t|
    ensures Reaches(u, t, q, |t|)
    decreases |t| - q
  {
    if q < |t| {
      ReachesEnd(u, t, ClusterEnd(u, t, q + 1));
    }
  }

  /** Every index of the original is covered by exactly one distinct range, in order; only an all-ignorable text has none. */
  lemma ViewTiles(u: Unicode, o: string)
    requires Lawful(u)
    ensures var v := ViewOf(u, o);
            if Kept(u, o, 0, |o|) == [] then v.origins == [] else Tiles(v.origins, 0, |o|)
    ensures ViewOf(u, o).text == "" <==> Kept(u, o, 0, |o|) == []
  {
    hide Kept, Chars, Tiles, Lawful;
    var ps := Kept(u, o, 0, |o|);
    KeptRises(u, o, 0, |o|);
    ReachesEnd(u, Chars(o, ps), 0);
    UntilTiles(u, o, ps, 0, |ps|);
    EmitSplits(u, o, ps, 0, |ps|);
    EmitEnd(u, o, ps);
    ThenNothing(EmitUntil(u, o, ps, 0, |ps|));
    if ps != [] {
      OffsetsRise(o, ps, 0, |ps|);
      NonemptyTiles(ViewOf(u, o).origins, 0, |o|);
    }
  }

  lemma NonemptyTiles(origins: seq<Range>, from: nat, to: nat)
    requires Tiles(origins, from, to) && from < to
    ensures origins != []
  {
  }

  // ---------- Locality: viewing a stretch of whole clusters gives their part of the view ----------

  function Shift(ps: seq<nat>, base: nat): (r: seq<nat>)
    requires forall k | 0 <= k < |ps| :: ps[k] >= base
    ensures |r| == |ps| && forall k | 0 <= k < |r| :: r[k] == ps[k] - base
  {
    seq(|ps|, k requires 0 <= k < |ps| => ps[k] - base)
  }

  lemma {:induction false} KeptShift(u: Unicode, o: string, s: nat, e: nat, i: nat)
    requires s <= e <= |o| && i <= e - s
    ensures var there, here := Kept(u, o, s + i, e), Kept(u, o[s..e], i, e - s);
            |here| == |there| && forall k | 0 <= k < |here| :: here[k] == there[k] - s
    decreases e - s - i
  {
    hide Within;
    if s + i < e {
      KeptShift(u, o, s, e, i + 1);
      assert o[s..e][i] == o[s + i];
    }
  }

  lemma ConcatAt(a: seq<nat>, b: seq<nat>, k: nat)
    requires k < |a| + |b|
    ensures (a + b)[k] == if k < |a| then a[k] else b[k - |a|]
  {
  }

  lemma KeptBefore(u: Unicode, o: string, q: nat)
    requires q <= |Kept(u, o, 0, |o|)|
    ensures var ps := Kept(u, o, 0, |o|);
            var m := Offset(o, ps, q);
            && m <= |o|
            && Kept(u, o, 0, m) == ps[..q] && Kept(u, o, m, |o|) == ps[q..]
  {
    var ps := Kept(u, o, 0, |o|);
    var m := Offset(o, ps, q);
    KeptRises(u, o, 0, |o|);
    KeptSplit(u, o, 0, m, |o|);
    var head, tail := Kept(u, o, 0, m), Kept(u, o, m, |o|);
    hide Kept;
    assert ps == head + tail;
    if 0 < q < |ps| {
      ConcatAt(head, tail, q - 1);
      ConcatAt(head, tail, q);
    }
    assert |head| == q;
  }

  lemma KeptBetween(u: Unicode, o: string, q: nat, e: nat)
    requires q <= e <= |Kept(u, o, 0, |o|)|
    ensures var ps := Kept(u, o, 0, |o|);
            && Offset(o, ps, q) <= Offset(o, ps, e) <= |o|
            && Kept(u, o, Offset(o, ps, q), Offset(o, ps, e)) == ps[q..e]
  {
    var ps := Kept(u, o, 0, |o|);
    KeptRises(u, o, 0, |o|);
    if q < e {
      OffsetsRise(o, ps, q, e);
    }
    hide Kept, Offset, Within;
    KeptBefore(u, o, q);
    KeptBefore(u, o, e);
    var m, n := Offset(o, ps, q), Offset(o, ps, e);
    KeptSplit(u, o, m, n, |o|);
    MiddlePart(ps, Kept(u, o, m, n), q, e);
  }

  lemma MiddlePart(ps: seq<nat>, mid: seq<nat>, q: nat, e: nat)
    requires q <= e <= |ps| && ps[q..] == mid + ps[e..]
    ensures mid == ps[q..e]
  {
    assert |mid| == e - q;
    assert ps[q..e] == ps[q..][..e - q];
  }

  lemma StretchPositions(u: Unicode, o: string, q: nat, e: nat)
    requires q <= e <= |Kept(u, o, 0, |o|)|
    ensures var ps := Kept(u, o, 0, |o|);
            var m, n := Offset(o, ps, q), Offset(o, ps, e);
            && m <= n <= |o|
            && (forall k | 0 <= k < e - q :: m <= ps[q..e][k] < n)
            && Kept(u, o[m..n], 0, n - m) == Shift(ps[q..e], m)
  {
    var ps := Kept(u, o, 0, |o|);
    var m, n := Offset(o, ps, q), Offset(o, ps, e);
    KeptBetween(u, o, q, e);
    hide Offset, Shift, Within;
    KeptShifted(u, o, m, n);
    assert Kept(u, o, m, n) == ps[q..e];
  }

  lemma KeptShifted(u: Unicode, o: string, m: nat, n: nat)
    requires m <= n <= |o|
    ensures Kept(u, o[m..n], 0, n - m) == Shift(Kept(u, o, m, n), m)
  {
    hide Kept, Within;
    KeptShift(u, o, m, n, 0);
  }

  /** A stretch of whole clusters, viewed alone, keeps exactly its characters. */
  lemma StretchKept(u: Unicode, o: string, q: nat, e: nat)
    requires q <= e <= |Kept(u, o, 0, |o|)|
    ensures var ps := Kept(u, o, 0, |o|);
            var m, n := Offset(o, ps, q), Offset(o, ps, e);
            && m <= n <= |o|
            && |Kept(u, o[m..n], 0, n - m)| == e - q
            && Chars(o[m..n], Kept(u, o[m..n], 0, n - m)) == Chars(o, ps)[q..e]
  {
    hide Kept, Chars, Shift, Within, Offset;
    StretchPositions(u, o, q, e);
    var ps := Kept(u, o, 0, |o|);
    CharsShift(o, ps[q..e], Offset(o, ps, q), Offset(o, ps, e));
    CharsSlice(o, ps, q, e);
  }

  lemma CharsShift(o: string, ps: seq<nat>, m: nat, n: nat)
    requires m <= n <= |o| && forall k | 0 <= k < |ps| :: m <= ps[k] < n
    ensures Within(Shift(ps, m), o[m..n]) && Chars(o[m..n], Shift(ps, m)) == Chars(o, ps)
  {
  }

  lemma CharsSlice(o: string, ps: seq<nat>, q: nat, e: nat)
    requires q <= e <= |ps| && Within(ps, o)
    ensures Chars(o, ps[q..e]) == Chars(o, ps)[q..e]
  {
  }

  lemma {:induction false} ClusterEndIs(u: Unicode, t: string, e: nat, end: nat)
    requires e <= end <= |t| && forall k | e <= k < end :: u.combining(t[k])
    requires end < |t| ==> !u.combining(t[end])
    ensures ClusterEnd(u, t, e) == end
    decreases |t| - e
  {
    if e < end {
      ClusterEndIs(u, t, e + 1, end);
    }
  }

  /** Cutting at a boundary does not move the cluster ends before it. */
  lemma ClusterEndLocal(u: Unicode, t: string, q: nat, e: nat, j: nat)
    requires q + j < e <= |t| && ClusterEnd(u, t, q + j + 1) <= e
    ensures ClusterEnd(u, t[q..e], j + 1) == ClusterEnd(u, t, q + j + 1) - q
  {
    var end := ClusterEnd(u, t, q + j + 1);
    assert forall k | j + 1 <= k < end - q :: t[q..e][k] == t[q + k];
    ClusterEndIs(u, t[q..e], j + 1, end - q);
  }

  /** The view of the stretch is the part of the view that its clusters emitted. */
  lemma {:induction false} EmitLocal(u: Unicode, o: string, ps: seq<nat>, sub: string, subPs: seq<nat>, q: nat, e: nat, j: nat)
    requires Within(ps, o) && Within(subPs, sub) && q + j <= e <= |ps| && |subPs| == e - q
    requires Chars(sub, subPs) == Chars(o, ps)[q..e] && Reaches(u, Chars(o, ps), q + j, e)
    ensures Emit(u, sub, subPs, j).text == EmitUntil(u, o, ps, q + j, e).text
    decreases e - q - j
  {
    hide Within, Chars, Emit, ClusterEnd;
    var t := Chars(o, ps);
    if q + j == e {
      EmitEnd(u, sub, subPs);
    } else {
      var next := ClusterEnd(u, t, q + j + 1);
      ReachesUp(u, t, next, e);
      ClusterEndLocal(u, t, q, e, j);
      EmitStep(u, sub, subPs, j);
      EmitLocal(u, o, ps, sub, subPs, q, e, next - q);
      assert t[q..e][j..next - q] == t[q + j..next];
    }
  }

  lemma StretchView(u: Unicode, o: string, q: nat, e: nat)
    requires q <= e <= |Kept(u, o, 0, |o|)| && Reaches(u, Chars(o, Kept(u, o, 0, |o|)), q, e)
    ensures var ps := Kept(u, o, 0, |o|);
            var m, n := Offset(o, ps, q), Offset(o, ps, e);
            && m <= n <= |o|
            && ViewOf(u, o[m..n]).text == EmitUntil(u, o, ps, q, e).text
  {
    hide Kept, Chars, Emit, EmitUntil, Offset, Reaches, Within, Fold;
    var ps := Kept(u, o, 0, |o|);
    StretchKept(u, o, q, e);
    var m, n := Offset(o, ps, q), Offset(o, ps, e);
    EmitLocal(u, o, ps, o[m..n], Kept(u, o[m..n], 0, n - m), q, e, 0);
  }

  // ---------- Which cluster a view index belongs to ----------

  /** View index `i` of the emission from `q` lies in the cluster [c, n), which starts at index `base`. */
  ghost predicate LiesIn(u: Unicode, o: string, ps: seq<nat>, q: nat, i: nat, c: nat, base: nat)
    requires Within(ps, o) && q <= |ps|
  {
    && Reaches(u, Chars(o, ps), q, c) && c < |ps|
    && base == |EmitUntil(u, o, ps, q, c).text|
    && base <= i < base + |Cluster(u, o, ps, c, ClusterEnd(u, Chars(o, ps), c + 1)).text|
  }

  lemma {:induction false} Locate(u: Unicode, o: string, ps: seq<nat>, q: nat, i: nat) returns (c: nat, base: nat)
    requires Within(ps, o) && q <= |ps| && i < |Emit(u, o, ps, q).text|
    ensures LiesIn(u, o, ps, q, i, c, base)
    decreases |ps| - q
  {
    hide Within, Chars, ClusterEnd, Cluster;
    var t := Chars(o, ps);
    var next := ClusterEnd(u, t, q + 1);
    var first := Cluster(u, o, ps, q, next);
    if i < |first.text| {
      c, base := q, 0;
    } else {
      c, base := Locate(u, o, ps, next, i - |first.text|);
      ReachesUp(u, t, next, c);
      base := base + |first.text|;
    }
  }

  // ---------- When the round trip succeeds ----------

  /** The span starts and ends where the origin range changes: it covers whole clusters. */
  predicate Aligned(v: View, i: nat, j: nat)
    requires i < j <= |v.text| == |v.origins|
  {
    && (i == 0 || v.origins[i - 1] != v.origins[i])
    && (j == |v.text| || v.origins[j - 1] != v.origins[j])
  }

  lemma {:induction false} UntilStep(u: Unicode, o: string, ps: seq<nat>, q: nat, c: nat)
    requires Within(ps, o) && q <= |ps| && c < |ps| && Reaches(u, Chars(o, ps), q, c)
    ensures var n := ClusterEnd(u, Chars(o, ps), c + 1);
            && Reaches(u, Chars(o, ps), q, n)
            && EmitUntil(u, o, ps, q, n) == EmitUntil(u, o, ps, q, c).Then(Cluster(u, o, ps, c, n))
    decreases |ps| - q
  {
    hide Within, Chars, ClusterEnd, Cluster, Emitted.Then;
    var t := Chars(o, ps);
    var n := ClusterEnd(u, t, c + 1);
    if q == c {
      ThenNothing(Cluster(u, o, ps, c, n));
    } else {
      var next := ClusterEnd(u, t, q + 1);
      UntilStep(u, o, ps, next, c);
      ReachesUp(u, t, next, n);
      ThenAssoc(Cluster(u, o, ps, q, next), EmitUntil(u, o, ps, next, c), Cluster(u, o, ps, c, n));
    }
  }

  /** A view span and the whole clusters it touches: they start at view index `from` and end before `to`. */
  ghost predicate Touches(u: Unicode, o: string, ps: seq<nat>, i: nat, j: nat, c: nat, n: nat, before: Emitted,
                          stretch: Emitted, after: Emitted)
    requires Within(ps, o)
  {
    var from, to := |before.text|, |before.text| + |stretch.text|;
    && c < n <= |ps| && Reaches(u, Chars(o, ps), 0, c) && Reaches(u, Chars(o, ps), c, n)
    && before == EmitUntil(u, o, ps, 0, c) && stretch == EmitUntil(u, o, ps, c, n) && after == Emit(u, o, ps, n)
    && Emit(u, o, ps, 0) == before.Then(stretch.Then(after))
    && from <= i < j <= to
    && |stretch.origins| == |stretch.text|
    && (forall k | 0 <= k <= i - from :: stretch.origins[k] == stretch.origins[i - from])
    && stretch.origins[i - from].start == Offset(o, ps, c)
    && (forall k | j - 1 - from <= k < |stretch.text| :: stretch.origins[k] == stretch.origins[j - 1 - from])
    && stretch.origins[j - 1 - from].end == Offset(o, ps, n)
  }

  lemma FindClusters(u: Unicode, o: string, ps: seq<nat>, i: nat, j: nat)
    returns (c: nat, n: nat, before: Emitted, stretch: Emitted, after: Emitted)
    requires Within(ps, o) && i < j <= |Emit(u, o, ps, 0).text|
    ensures Touches(u, o, ps, i, j, c, n, before, stretch, after)
  {
    hide Within, Chars, ClusterEnd, Emit, EmitUntil, Offset, Cluster, Reaches;
    var t := Chars(o, ps);
    var from;
    c, from := Locate(u, o, ps, 0, i);
    EmitSplits(u, o, ps, 0, c);
    before := EmitUntil(u, o, ps, 0, c);
    var last, inner := Locate(u, o, ps, c, j - 1 - from);
    n := ClusterEnd(u, t, last + 1);
    UntilStep(u, o, ps, c, last);
    stretch := EmitUntil(u, o, ps, c, n);
    EmitSplits(u, o, ps, c, n);
    after := Emit(u, o, ps, n);
    var final := Cluster(u, o, ps, last, n);
    FirstCluster(u, o, ps, c, last, n);
    ClusterRange(u, o, ps, c, ClusterEnd(u, t, c + 1));
    ClusterRange(u, o, ps, last, n);
    assert forall k | inner <= k < |stretch.text| :: stretch.origins[k] == final.origins[k - inner];
  }

  lemma ClusterRange(u: Unicode, o: string, ps: seq<nat>, q: nat, e: nat)
    requires q < e <= |ps| && Within(ps, o)
    ensures forall k | 0 <= k < |Cluster(u, o, ps, q, e).text| ::
              Cluster(u, o, ps, q, e).origins[k] == Range(Offset(o, ps, q), Offset(o, ps, e))
  {
  }

  lemma FirstCluster(u: Unicode, o: string, ps: seq<nat>, c: nat, last: nat, n: nat)
    requires Within(ps, o) && c < |ps| && last < |ps| && Reaches(u, Chars(o, ps), c, last)
    requires n == ClusterEnd(u, Chars(o, ps), last + 1) && Reaches(u, Chars(o, ps), c, n)
    ensures c < n <= |ps|
    ensures var first := Cluster(u, o, ps, c, ClusterEnd(u, Chars(o, ps), c + 1));
            && |first.origins| <= |EmitUntil(u, o, ps, c, n).origins|
            && forall k | 0 <= k < |first.origins| :: EmitUntil(u, o, ps, c, n).origins[k] == first.origins[k]
  {
    hide Within, Chars, Cluster;
    ReachesUp(u, Chars(o, ps), c, last);
  }

  /** The mapping reads the first range's start and the last range's end. */
  lemma {:induction false} MaxEndIsLast(origins: seq<Range>)
    requires Steps(origins) && origins != []
    ensures MaxEnd(origins) == origins[|origins| - 1].end && origins[0].start < MaxEnd(origins)
    ensures origins[0].end <= MaxEnd(origins)
  {
    if |origins| > 1 {
      var rest := origins[1..];
      assert forall k | 0 < k < |rest| :: rest[k - 1] == origins[k] && rest[k] == origins[k + 1];
      MaxEndIsLast(rest);
      assert rest[0] == origins[1];
    }
  }

  lemma StepsSlice(origins: seq<Range>, i: nat, j: nat)
    requires Steps(origins) && i <= j <= |origins|
    ensures Steps(origins[i..j])
  {
    var slice := origins[i..j];
    forall k | 0 < k < |slice|
      ensures slice[k] == slice[k - 1] || slice[k].start == slice[k - 1].end
    {
      assert slice[k] == origins[i + k] && slice[k - 1] == origins[i + k - 1];
    }
  }

  lemma EndsWithin(origins: seq<Range>, k: nat, to: nat)
    requires Tiles(origins, 0, to) && k < |origins|
    ensures origins[k].end <= to
  {
    hide MaxEnd;
    MaxEndIsLast(origins);
  }

  lemma MaxEndSlice(origins: seq<Range>, i: nat, j: nat)
    requires Steps(origins) && i < j <= |origins|
    ensures MaxEnd(origins[i..j]) == origins[j - 1].end > origins[i].start
  {
    StepsSlice(origins, i, j);
    hide Steps, MaxEnd;
    SliceEnds(origins, i, j);
    MaxEndIsLast(origins[i..j]);
  }

  lemma MapTiled(v: View, i: nat, j: nat)
    requires |v.text| == |v.origins| && i < j <= |v.text| && Tiles(v.origins, 0, |v.original|)
    ensures MapSpan(v, i, j) == Ok(Range(v.origins[i].start, v.origins[j - 1].end))
  {
    EndsWithin(v.origins, j - 1, |v.original|);
    hide Steps, MaxEnd;
    MaxEndSlice(v.origins, i, j);
  }

  lemma SliceEnds(origins: seq<Range>, i: nat, j: nat)
    requires i < j <= |origins|
    ensures origins[i..j] != [] && origins[i..j][0] == origins[i]
    ensures origins[i..j][|origins[i..j]| - 1] == origins[j - 1]
  {
  }

  /** Mapping an in-range span never fails and gives the first range's start and the last range's end. */
  lemma MapsToEnds(u: Unicode, o: string, i: nat, j: nat)
    requires Lawful(u) && i < j <= |ViewOf(u, o).text|
    ensures var v := ViewOf(u, o);
            && MapSpan(v, i, j) == Ok(Range(v.origins[i].start, v.origins[j - 1].end))
            && Steps(v.origins)
  {
    hide Kept, Emit, Lawful, Steps, MapSpan, ViewOf;
    ViewTiles(u, o);
    OriginalKept(u, o);
    MapTiled(ViewOf(u, o), i, j);
  }

  lemma OriginalKept(u: Unicode, o: string)
    ensures ViewOf(u, o).original == o
  {
  }

  /** What the view looks like around the clusters a span touches. */
  lemma AroundClusters(u: Unicode, o: string, ps: seq<nat>, i: nat, j: nat, c: nat, n: nat, before: Emitted,
                       stretch: Emitted, after: Emitted)
    requires Lawful(u) && Within(ps, o) && Rising(ps)
    requires Touches(u, o, ps, i, j, c, n, before, stretch, after)
    ensures |before.text| == |before.origins| && |stretch.text| == |stretch.origins| && |after.text| == |after.origins|
    ensures Tiles(before.origins, 0, Offset(o, ps, c))
    ensures Tiles(after.origins, Offset(o, ps, n), |o|)
  {
    hide Chars, Lawful, Emit, EmitUntil, Cluster, Tiles, ClusterEnd, Reaches;
    UntilTiles(u, o, ps, 0, c);
    ReachesEnd(u, Chars(o, ps), n);
    UntilTiles(u, o, ps, n, |ps|);
    EmitSplits(u, o, ps, n, |ps|);
    EmitEnd(u, o, ps);
    ThenNothing(EmitUntil(u, o, ps, n, |ps|));
    OffsetBounds(o, ps);
  }

  lemma OffsetBounds(o: string, ps: seq<nat>)
    requires Within(ps, o)
    ensures Offset(o, ps, 0) == 0
    ensures ps != [] ==> Offset(o, ps, |ps|) == |o|
  {
  }

  /** Alignment read off the pieces: the span is exactly the stretch. */
  lemma AlignedPieces(v: View, i: nat, j: nat, before: Emitted, stretch: Emitted, after: Emitted, left: nat, right: nat, size: nat)
    requires |before.text| == |before.origins| && |stretch.text| == |stretch.origins| && |after.text| == |after.origins|
    requires v.origins == before.origins + (stretch.origins + after.origins)
    requires |v.text| == |v.origins| && Steps(v.origins)
    requires var from, to := |before.text|, |before.text| + |stretch.text|;
             && from <= i < j <= to
             && (forall k | 0 <= k <= i - from :: stretch.origins[k] == stretch.origins[i - from])
             && stretch.origins[i - from].start == left
             && (forall k | j - 1 - from <= k < |stretch.text| :: stretch.origins[k] == stretch.origins[j - 1 - from])
             && stretch.origins[j - 1 - from].end == right
    requires Tiles(before.origins, 0, left) && Tiles(after.origins, right, size)
    ensures Aligned(v, i, j) <==> i == |before.text| && j == |before.text| + |stretch.text|
  {
    var from, to := |before.text|, |before.text| + |stretch.text|;
    hide Steps;
    StartAligned(v.origins, i, before.origins, stretch.origins + after.origins, left);
    EndAligned(v.origins, j, before.origins, stretch.origins, after.origins, right);
  }

  lemma StartAligned(origins: seq<Range>, i: nat, before: seq<Range>, rest: seq<Range>, left: nat)
    requires origins == before + rest && Steps(origins) && |before| <= i < |origins|
    requires forall k | 0 <= k <= i - |before| :: rest[k] == rest[i - |before|]
    requires rest[i - |before|].start == left && Tiles(before, 0, left)
    ensures (i == 0 || origins[i - 1] != origins[i]) <==> i == |before|
  {
    assert origins[i] == rest[i - |before|];
    if i > |before| {
      assert origins[i - 1] == rest[i - 1 - |before|];
    } else if i > 0 {
      assert origins[i - 1] == before[|before| - 1];
    }
  }

  lemma EndAligned(origins: seq<Range>, j: nat, before: seq<Range>, stretch: seq<Range>, after: seq<Range>, right: nat)
    requires origins == before + (stretch + after) && Steps(origins) && |before| < j <= |before| + |stretch|
    requires forall k | j - 1 - |before| <= k < |stretch| :: stretch[k] == stretch[j - 1 - |before|]
    requires stretch[j - 1 - |before|].end == right
    requires after != [] ==> after[0].start == right
    ensures (j == |origins| || origins[j - 1] != origins[j]) <==> j == |before| + |stretch| 
  {
    assert origins[j - 1] == stretch[j - 1 - |before|];
    if j < |before| + |stretch| {
      assert origins[j] == stretch[j - |before|];
    } else if j < |origins| {
      assert origins[j] == after[0];
    }
  }

  lemma FoldSame(u: Unicode, a: string, b: string, from: nat, i: nat, j: nat)
    requires from <= i <= j <= from + |a| <= |b| && b[from..from + |a|] == a
    ensures Fold(u, a) == Fold(u, b)[i..j] <==> i == from && j == from + |a|
  {
    if i == from && j == from + |a| {
      forall k | 0 <= k < |a|
        ensures Fold(u, a)[k] == Fold(u, b)[i..j][k]
      {
        assert b[from..from + |a|][k] == b[from + k];
      }
    }
  }

  /** The round-trip check accepts exactly the spans that cover whole clusters. */
  lemma RoundTripExactly(u: Unicode, o: string, i: nat, j: nat)
    requires Lawful(u) && i < j <= |ViewOf(u, o).text|
    ensures VerifyRoundTrip(u, ViewOf(u, o), i, j) <==> Aligned(ViewOf(u, o), i, j)
  {
    hide Kept, Chars, Lawful, Emit, EmitUntil, MapSpan, Fold, Tiles, Steps, Offset, Aligned, Reaches, Within;
    var v := ViewOf(u, o);
    var ps := Kept(u, o, 0, |o|);
    var c, n, before, stretch, after := FindClusters(u, o, ps, i, j);
    KeptRises(u, o, 0, |o|);
    AroundClusters(u, o, ps, i, j, c, n, before, stretch, after);
    MapsToEnds(u, o, i, j);
    var from := |before.text|;
    assert v.text == before.text + (stretch.text + after.text);
    assert v.origins == before.origins + (stretch.origins + after.origins);
    AlignedPieces(v, i, j, before, stretch, after, Offset(o, ps, c), Offset(o, ps, n), |o|);
    assert v.origins[i] == stretch.origins[i - from] && v.origins[j - 1] == stretch.origins[j - 1 - from];
    StretchView(u, o, c, n);
    assert v.text[from..from + |stretch.text|] == stretch.text;
    FoldSame(u, stretch.text, v.text, from, i, j);
  }
}
