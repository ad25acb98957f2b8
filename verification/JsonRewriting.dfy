/** Editing locations one by one, in any order, is one tree map over the content leaves. */
module JsonRewriting {
  import opened Tokens
  import opened Json
  import opened JsonPaths
  import opened JsonLocations

  datatype Place = Place(path: Path, within: Option<Path>)

  type Edits = map<Place, string>

  function PlaceOf(l: Location): Place { Place(l.path, l.within) }

  // ---------- The tree map ----------

  /** The edits inside the JSON encoded at `p`. */
  function Inner(edits: Edits, p: Path): map<Path, string> {
    map e | e in edits.Keys && e.path == p && e.within.Some? :: e.within.value := edits[e]
  }

  function Touched(fields: map<Path, Json>, edits: Edits): set<Path> {
    fields.Keys + set e | e in edits.Keys && e.within.None? :: e.path
  }

  /** Every encoded field re-serialized from its edited tree, every plain leaf with its edit. */
  function Outer(codec: Codec, fields: map<Path, Json>, edits: Edits): map<Path, string> {
    map p | p in Touched(fields, edits) ::
      if p in fields then codec.encode(Rewrite(fields[p], [], Inner(edits, p))) else edits[Place(p, None)]
  }

  function TreeMap(codec: Codec, fields: map<Path, Json>, payload: Json, edits: Edits): Json {
    Rewrite(payload, [], Outer(codec, fields, edits))
  }

  /** The payload as the parsers leave it: every encoded field in its compact spelling. */
  ghost predicate Encoded(codec: Codec, fields: map<Path, Json>, payload: Json) {
    && WellKeyed(payload)
    && (forall p | p in fields :: WellKeyed(fields[p]))
    && forall p, text | p in fields && Lookup(payload, p) == Some(Str(text)) :: text == codec.encode(fields[p])
  }

  /** A place where text may change: a string leaf of the payload, or one inside an encoded field. */
  ghost predicate TextAt(fields: map<Path, Json>, payload: Json, place: Place, text: string) {
    match place.within
    case None => place.path !in fields && Lookup(payload, place.path) == Some(Str(text))
    case Some(at) =>
      && place.path in fields && Lookup(payload, place.path).Some? && Lookup(payload, place.path).value.Str?
      && Lookup(fields[place.path], at) == Some(Str(text))
  }

  lemma NoEdits(codec: Codec, fields: map<Path, Json>, payload: Json)
    requires Encoded(codec, fields, payload)
    ensures TreeMap(codec, fields, payload, map[]) == payload
  {
    var outer := Outer(codec, fields, map[]);
    forall p, text | Lookup(payload, p) == Some(Str(text)) && [] + p in outer
      ensures outer[[] + p] == text
    {
      assert [] + p == p;
      assert Inner(map[], p) == map[];
      RewriteNothing(fields[p], [], map[]);
    }
    RewriteNothing(payload, [], outer);
  }

  /** The outer edits, place by place. */
  lemma OuterIs(codec: Codec, fields: map<Path, Json>, edits: Edits, p: Path)
    ensures p in Outer(codec, fields, edits) <==> p in fields || Place(p, None) in edits
    ensures p in fields ==> Outer(codec, fields, edits)[p] == codec.encode(Rewrite(fields[p], [], Inner(edits, p)))
    ensures p !in fields && Place(p, None) in edits ==> Outer(codec, fields, edits)[p] == edits[Place(p, None)]
  {
    hide Inner, Rewrite;
    if Place(p, None) in edits {
      assert Place(p, None) in edits.Keys && p in Touched(fields, edits);
    }
  }

  lemma InnerElsewhere(edits: Edits, place: Place, text: string, p: Path)
    requires place.within.None? || place.path != p
    ensures Inner(edits[place := text], p) == Inner(edits, p)
  {
  }

  lemma OuterPlain(codec: Codec, fields: map<Path, Json>, edits: Edits, place: Place, text: string)
    requires place.within.None? && place.path !in fields
    ensures Outer(codec, fields, edits[place := text]) == Outer(codec, fields, edits)[place.path := text]
  {
    hide Inner, Outer, Rewrite;
    var after := edits[place := text];
    var a, b := Outer(codec, fields, after), Outer(codec, fields, edits)[place.path := text];
    forall p
      ensures p in a <==> p in b
      ensures p in a && p in b ==> a[p] == b[p]
    {
      OuterIs(codec, fields, edits, p);
      OuterIs(codec, fields, after, p);
      InnerElsewhere(edits, place, text, p);
    }
  }

  lemma OuterWithin(codec: Codec, fields: map<Path, Json>, edits: Edits, place: Place, text: string)
    requires place.within.Some? && place.path in fields
    ensures Outer(codec, fields, edits[place := text])
            == Outer(codec, fields, edits)[place.path := codec.encode(
                 Rewrite(fields[place.path], [], Inner(edits, place.path)[place.within.value := text]))]
  {
    hide Inner, Outer, Rewrite;
    var after := edits[place := text];
    InnerAdds(edits, place, text);
    var a := Outer(codec, fields, after);
    var b := Outer(codec, fields, edits)[place.path := codec.encode(
               Rewrite(fields[place.path], [], Inner(edits, place.path)[place.within.value := text]))];
    forall p
      ensures p in a <==> p in b
      ensures p in a && p in b ==> a[p] == b[p]
    {
      OuterIs(codec, fields, edits, p);
      OuterIs(codec, fields, after, p);
      if p != place.path {
        InnerElsewhere(edits, place, text, p);
      }
    }
  }

  lemma InnerAdds(edits: Edits, place: Place, text: string)
    requires place.within.Some?
    ensures Inner(edits[place := text], place.path) == Inner(edits, place.path)[place.within.value := text]
  {
    var after := edits[place := text];
    var p := place.path;
    var a, b := Inner(after, p), Inner(edits, p)[place.within.value := text];
    forall at
      ensures at in a <==> at in b
      ensures at in a && at in b ==> a[at] == b[at]
    {
      var e := Place(p, Some(at));
      assert at in Inner(edits, p) <==> e in edits;
      assert at in a <==> e in after;
    }
  }

  // ---------- One edit ----------

  datatype RewriteError = StructuralLocation | Undecodable

  /** Replaces a text leaf in place; text inside encoded JSON is decoded, edited and serialized again. */
  method ReplaceLocation(codec: Codec, payload: Json, l: Location, text: string) returns (r: Result<Json, RewriteError>)
    requires !l.structural && text != l.text ==>
               && Lookup(payload, l.path).Some?
               && (l.within.Some? ==> Lookup(payload, l.path).value.Str?)
    ensures l.structural <==> r == Err(StructuralLocation)
    ensures !l.structural && text == l.text ==> r == Ok(payload)
    ensures !l.structural && text != l.text && l.within.None? ==> r == Ok(Put(payload, l.path, Str(text)))
    ensures !l.structural && text != l.text && l.within.Some? ==>
              var decoded := codec.decode(Lookup(payload, l.path).value.text);
              r == if decoded.None? then Err(Undecodable)
                   else Ok(Put(payload, l.path, Str(codec.encode(Put(decoded.value, l.within.value, Str(text))))))
  {
    if l.structural {
      return Err(StructuralLocation);
    }
    if text == l.text {
      return Ok(payload);
    }
    if l.within.None? {
      return Ok(Put(payload, l.path, Str(text)));
    }
    var decoded := codec.decode(Lookup(payload, l.path).value.text);
    if decoded.None? {
      return Err(Undecodable);
    }
    var edited := if l.within.value == [] then Str(text) else Put(decoded.value, l.within.value, Str(text));
    return Ok(Put(payload, l.path, Str(codec.encode(edited))));
  }

  /** Editing a plain leaf of a tree map is one more edit of the map. */
  lemma PlainEdit(codec: Codec, fields: map<Path, Json>, payload: Json, edits: Edits, place: Place, old_: string, text: string)
    requires Encoded(codec, fields, payload) && TextAt(fields, payload, place, old_) && place.within.None?
    ensures Put(TreeMap(codec, fields, payload, edits), place.path, Str(text))
            == TreeMap(codec, fields, payload, edits[place := text])
  {
    hide Outer, Rewrite, Put, Lookup, WellKeyed;
    OuterPlain(codec, fields, edits, place, text);
    PutIsEdit(payload, [], Outer(codec, fields, edits), place.path, text);
    assert [] + place.path == place.path;
  }

  /** What an encoded field holds after some edits. */
  lemma FieldHolds(codec: Codec, fields: map<Path, Json>, payload: Json, edits: Edits, p: Path)
    requires p in fields && Lookup(payload, p).Some? && Lookup(payload, p).value.Str?
    ensures Lookup(TreeMap(codec, fields, payload, edits), p)
            == Some(Str(codec.encode(Rewrite(fields[p], [], Inner(edits, p)))))
  {
    hide Lookup, Inner;
    var outer := Outer(codec, fields, edits);
    RewriteAt(payload, [], outer, p);
    assert [] + p == p;
    assert p in outer;
  }

  lemma EncodedEdit(codec: Codec, fields: map<Path, Json>, payload: Json, edits: Edits, place: Place, old_: string, text: string)
    requires Encoded(codec, fields, payload) && TextAt(fields, payload, place, old_) && place.within.Some?
    requires Lawful(codec)
    ensures Lookup(TreeMap(codec, fields, payload, edits), place.path).Some?
    ensures Lookup(TreeMap(codec, fields, payload, edits), place.path).value.Str?
    ensures var now := Rewrite(fields[place.path], [], Inner(edits, place.path));
            var decoded := codec.decode(Lookup(TreeMap(codec, fields, payload, edits), place.path).value.text);
            && decoded == (if codec.fits(now) then Some(now) else None)
            && (codec.fits(now) ==>
                  Put(TreeMap(codec, fields, payload, edits), place.path,
                      Str(codec.encode(Put(now, place.within.value, Str(text)))))
                  == TreeMap(codec, fields, payload, edits[place := text]))
  {
    hide Outer, Rewrite, Put, Lookup, WellKeyed, Inner, TreeMap;
    var p, at := place.path, place.within.value;
    var now := Rewrite(fields[p], [], Inner(edits, p));
    FieldHolds(codec, fields, payload, edits, p);
    assert ReadsBack(codec, now);
    OuterWithin(codec, fields, edits, place, text);
    PutIsEdit(fields[p], [], Inner(edits, p), at, text);
    assert [] + at == at && [] + p == p;
    var put := Put(now, at, Str(text));
    PutIsEdit(payload, [], Outer(codec, fields, edits), p, codec.encode(put));
    TreeMapIs(codec, fields, payload, edits);
    TreeMapIs(codec, fields, payload, edits[place := text]);
  }

  lemma TreeMapIs(codec: Codec, fields: map<Path, Json>, payload: Json, edits: Edits)
    ensures TreeMap(codec, fields, payload, edits) == Rewrite(payload, [], Outer(codec, fields, edits))
  {
  }

  /** An edit that repeats what is there is no edit. */
  lemma SameEdit(codec: Codec, fields: map<Path, Json>, payload: Json, edits: Edits, place: Place, text: string)
    requires Encoded(codec, fields, payload) && TextAt(fields, payload, place, text)
    requires place in edits ==> edits[place] == text
    ensures TreeMap(codec, fields, payload, edits[place := text]) == TreeMap(codec, fields, payload, edits)
  {
    if place in edits {
      assert edits[place := text] == edits;
    } else if place.within.None? {
      hide Rewrite, Lookup, WellKeyed, Outer;
      OuterPlain(codec, fields, edits, place, text);
      OuterIs(codec, fields, edits, place.path);
      SameLeaf(payload, Outer(codec, fields, edits), place.path, text);
    } else {
      SameWithin(codec, fields, payload, edits, place, text);
    }
  }

  /** A leaf that has no edit may be given its own text. */
  lemma SameLeaf(v: Json, edits: map<Path, string>, path: Path, text: string)
    requires WellKeyed(v) && Lookup(v, path) == Some(Str(text)) && path !in edits
    ensures Rewrite(v, [], edits[path := text]) == Rewrite(v, [], edits)
  {
    hide Rewrite, Lookup, WellKeyed, Put;
    assert [] + path == path;
    PutIsEdit(v, [], edits, path, text);
    RewriteAt(v, [], edits, path);
    StrStays(text, path, edits);
    PutSame(Rewrite(v, [], edits), path, Str(text));
  }

  lemma SameWithin(codec: Codec, fields: map<Path, Json>, payload: Json, edits: Edits, place: Place, text: string)
    requires Encoded(codec, fields, payload) && TextAt(fields, payload, place, text)
    requires place.within.Some? && place !in edits
    ensures TreeMap(codec, fields, payload, edits[place := text]) == TreeMap(codec, fields, payload, edits)
  {
    hide Rewrite, Lookup, WellKeyed, Outer, Inner;
    var p, at := place.path, place.within.value;
    NotInner(edits, place);
    OuterWithin(codec, fields, edits, place, text);
    SameLeaf(fields[p], Inner(edits, p), at, text);
    OuterIs(codec, fields, edits, p);
    var outer := Outer(codec, fields, edits);
    assert outer[p := outer[p]] == outer;
  }

  lemma NotInner(edits: Edits, place: Place)
    requires place.within.Some? && place !in edits
    ensures place.within.value !in Inner(edits, place.path)
  {
  }

  lemma StrStays(text: string, base: Path, edits: map<Path, string>)
    ensures Rewrite(Str(text), base, edits) == if base in edits then Str(edits[base]) else Str(text)
  {
  }

  /** Putting back what is there changes nothing. */
  lemma {:induction false} PutSame(v: Json, path: Path, x: Json)
    requires Lookup(v, path) == Some(x)
    ensures Put(v, path, x) == v
    decreases |path|
  {
    if path != [] {
      var k := ChildAt(v, path[0]);
      PutSame(Child(v, k), path[1..], x);
      hide Lookup;
      SameChildren(Put(v, path, x), v);
    }
  }

  // ---------- All edits ----------

  /** A content location of this payload, with the text found there. */
  ghost predicate Content(fields: map<Path, Json>, payload: Json, l: Location) {
    !l.structural && TextAt(fields, payload, PlaceOf(l), l.text)
  }

  /** Every listed location that may change is a text that is really there, and every string leaf is listed. */
  lemma ListedContent(c: Classes, codec: Codec, payload: Json, l: Location)
    requires WellKeyed(payload) && FieldsWellKeyed(c)
    ensures l in Listing(c, codec, payload) && !l.structural <==>
            && Content(c.fields, payload, l)
            && l.path !in c.structural
            && (l.within.None? ==> l.path in c.content)
  {
    ListingExact(c, codec, payload, l);
    hide Lookup, WellKeyed, Listing;
  }

  /** Two content locations of one place are the same location. */
  lemma OneText(fields: map<Path, Json>, payload: Json, a: Location, b: Location)
    requires Content(fields, payload, a) && Content(fields, payload, b) && PlaceOf(a) == PlaceOf(b)
    ensures a == b
  {
  }

  /** The edits that the listed locations make, a later one on top of an earlier one. */
  function Chosen(order: seq<Location>, f: Location -> string): Edits {
    if order == [] then map[]
    else
      var last := order[|order| - 1];
      Chosen(order[..|order| - 1], f)[PlaceOf(last) := f(last)]
  }

  /** The `i`-th edit changes nothing, or is plain, or finds a tree that the decoder's limits let through: that of its
      field under the edits made before it. */
  predicate StepFits(codec: Codec, fields: map<Path, Json>, order: seq<Location>, f: Location -> string, i: nat)
    requires i < |order|
  {
    var l := order[i];
    f(l) != l.text && l.within.Some? && l.path in fields ==>
      codec.fits(Rewrite(fields[l.path], [], Inner(Chosen(order[..i], f), l.path)))
  }

  ghost predicate AllFit(codec: Codec, fields: map<Path, Json>, order: seq<Location>, f: Location -> string) {
    forall i | 0 <= i < |order| :: StepFits(codec, fields, order, f, i)
  }

  /** Rewrites the locations of a payload one after the other. */
  method RewriteAll(codec: Codec, fields: map<Path, Json>, payload: Json, order: seq<Location>, f: Location -> string)
    returns (r: Result<Json, RewriteError>)
    requires Lawful(codec) && Encoded(codec, fields, payload)
    requires forall l | l in order :: Content(fields, payload, l)
    ensures r.Ok? <==> AllFit(codec, fields, order, f)
    ensures r.Ok? ==> r.value == TreeMap(codec, fields, payload, Chosen(order, f))
    ensures r.Err? ==> r.error == Undecodable
  {
    hide TreeMap, Rewrite, Lookup, WellKeyed, Put, Inner, Outer;
    var out := payload;
    NoEdits(codec, fields, payload);
    var i := 0;
    assert order[..0] == [];
    while i < |order|
      invariant 0 <= i <= |order|
      invariant out == TreeMap(codec, fields, payload, Chosen(order[..i], f))
      invariant forall j | 0 <= j < i :: StepFits(codec, fields, order, f, j)
    {
      var l := order[i];
      assert l in order;
      var place := PlaceOf(l);
      ghost var edits := Chosen(order[..i], f);
      ChosenStep(order, f, i);
      ChosenFrom(fields, payload, order, f, i);
      TextThere(codec, fields, payload, edits, l);
      if f(l) == l.text {
        SameEdit(codec, fields, payload, edits, place, l.text);
      } else if l.within.None? {
        PlainEdit(codec, fields, payload, edits, place, l.text, f(l));
      } else {
        EncodedEdit(codec, fields, payload, edits, place, l.text, f(l));
      }
      var next := ReplaceLocation(codec, out, l, f(l));
      if next.Err? {
        assert !StepFits(codec, fields, order, f, i);
        return Err(next.error);
      }
      out := next.value;
      i := i + 1;
    }
    assert order[..i] == order;
    return Ok(out);
  }

  lemma ChosenStep(order: seq<Location>, f: Location -> string, i: nat)
    requires i < |order|
    ensures Chosen(order[..i + 1], f) == Chosen(order[..i], f)[PlaceOf(order[i]) := f(order[i])]
  {
    assert order[..i + 1][..i] == order[..i];
  }

  /** These edits put exactly what `f` chooses at exactly the places listed. */
  ghost predicate ChosenBy(order: seq<Location>, f: Location -> string, edits: Edits) {
    && (forall l | l in order :: PlaceOf(l) in edits && edits[PlaceOf(l)] == f(l))
    && forall e | e in edits :: exists l :: l in order && PlaceOf(l) == e
  }

  lemma {:induction false} ChosenExact(fields: map<Path, Json>, payload: Json, order: seq<Location>, f: Location -> string)
    requires forall l | l in order :: Content(fields, payload, l)
    ensures ChosenBy(order, f, Chosen(order, f))
    decreases |order|
  {
    hide Content;
    if order != [] {
      var before, last := order[..|order| - 1], order[|order| - 1];
      var edits := Chosen(before, f);
      ChosenExact(fields, payload, before, f);
      assert order == before + [last];
      forall l | l in order
        ensures PlaceOf(l) in Chosen(order, f) && Chosen(order, f)[PlaceOf(l)] == f(l)
      {
        if PlaceOf(l) == PlaceOf(last) {
          OneText(fields, payload, l, last);
        }
      }
      forall e | e in Chosen(order, f)
        ensures exists l :: l in order && PlaceOf(l) == e
      {
        if e in edits {
          var l :| l in before && PlaceOf(l) == e;
          assert l in order;
        } else {
          assert last in order;
        }
      }
    }
  }

  /** A place met again is given the same text again. */
  lemma ChosenFrom(fields: map<Path, Json>, payload: Json, order: seq<Location>, f: Location -> string, i: nat)
    requires i < |order| && forall l | l in order :: Content(fields, payload, l)
    ensures var edits, l := Chosen(order[..i], f), order[i]; PlaceOf(l) in edits ==> edits[PlaceOf(l)] == f(l)
  {
    hide Content, Chosen;
    var edits, last := Chosen(order[..i], f), order[i];
    ChosenExact(fields, payload, order[..i], f);
    if PlaceOf(last) in edits {
      var l :| l in order[..i] && PlaceOf(l) == PlaceOf(last);
      assert l in order && last in order;
      OneText(fields, payload, l, last);
    }
  }

  lemma TextThere(codec: Codec, fields: map<Path, Json>, payload: Json, edits: Edits, l: Location)
    requires Encoded(codec, fields, payload) && Content(fields, payload, l)
    ensures Lookup(TreeMap(codec, fields, payload, edits), l.path).Some?
    ensures Lookup(TreeMap(codec, fields, payload, edits), l.path).value.Str?
  {
    hide Lookup, Outer;
    RewriteAt(payload, [], Outer(codec, fields, edits), l.path);
    assert [] + l.path == l.path;
  }

  /** Which locations are edited decides the edits, in whatever order and however often: two orders that both succeed
      give the same payload. */
  lemma OrderIrrelevant(fields: map<Path, Json>, payload: Json, a: seq<Location>, b: seq<Location>, f: Location -> string)
    requires forall l | l in a :: Content(fields, payload, l)
    requires forall l :: l in a <==> l in b
    ensures Chosen(a, f) == Chosen(b, f)
  {
    hide Content, Chosen;
    var x, y := Chosen(a, f), Chosen(b, f);
    ChosenExact(fields, payload, a, f);
    ChosenExact(fields, payload, b, f);
    forall e
      ensures e in x <==> e in y
      ensures e in x && e in y ==> x[e] == y[e]
    {
      if e in x {
        var l :| l in a && PlaceOf(l) == e;
      }
      if e in y {
        var l :| l in b && PlaceOf(l) == e;
      }
    }
  }

  /** Two changes in one encoded field succeed in one order exactly if the decoder lets the field through as it was and
      with the first change made. */
  lemma PairFits(codec: Codec, fields: map<Path, Json>, x: Location, y: Location, f: Location -> string)
    requires x.path == y.path && x.path in fields && x.within.Some? && y.within.Some?
    requires f(x) != x.text && f(y) != y.text
    ensures AllFit(codec, fields, [x, y], f) <==>
            && codec.fits(Rewrite(fields[x.path], [], map[]))
            && codec.fits(Rewrite(fields[x.path], [], map[x.within.value := f(x)]))
  {
    hide Rewrite;
    var pair := [x, y];
    assert pair[..0] == [] && pair[..1] == [x] && [x][..0] == [];
    assert Chosen([x], f) == map[PlaceOf(x) := f(x)];
    assert Inner(map[], x.path) == map[];
    InnerAdds(map[], PlaceOf(x), f(x));
    assert Inner(map[PlaceOf(x) := f(x)], x.path) == map[x.within.value := f(x)];
    assert AllFit(codec, fields, pair, f) <==> StepFits(codec, fields, pair, f, 0) && StepFits(codec, fields, pair, f, 1);
  }

  // ---------- What a tree map leaves alone ----------

  /** Keys, shape, numbers and every string without an edit stay; an edited string holds its edit, and an encoded
      field decodes to its own tree under the edits made inside it. */
  lemma OnlyContentChanges(codec: Codec, fields: map<Path, Json>, payload: Json, edits: Edits, path: Path)
    requires Lawful(codec) && Encoded(codec, fields, payload)
    ensures var was, now := Lookup(payload, path), Lookup(TreeMap(codec, fields, payload, edits), path);
            && (was.Some? <==> now.Some?)
            && (was.Some? ==>
                  && SameKind(was.value, now.value)
                  && (was.value.Str? && path !in fields ==>
                        now.value.text == if Place(path, None) in edits then edits[Place(path, None)] else was.value.text)
                  && (was.value.Str? && path in fields ==>
                        var tree := Rewrite(fields[path], [], Inner(edits, path));
                        && codec.decode(now.value.text) == if codec.fits(tree) then Some(tree) else None))
  {
    hide Rewrite, Lookup, WellKeyed, Inner;
    var outer := Outer(codec, fields, edits);
    RewriteAt(payload, [], outer, path);
    assert [] + path == path;
    if Lookup(payload, path).Some? {
      var was := Lookup(payload, path).value;
      RewriteKind(was, path, outer);
      if was.Str? {
        StrStays(was.text, path, outer);
        if path in fields {
          assert ReadsBack(codec, Rewrite(fields[path], [], Inner(edits, path)));
        } else if Place(path, None) !in edits {
          OuterIs(codec, fields, edits, path);
        }
      }
    }
  }

  /** The same inside an encoded field. */
  lemma OnlyContentChangesWithin(tree: Json, edits: Edits, p: Path, at: Path)
    ensures var was, now := Lookup(tree, at), Lookup(Rewrite(tree, [], Inner(edits, p)), at);
            && (was.Some? <==> now.Some?)
            && (was.Some? ==>
                  && SameKind(was.value, now.value)
                  && (was.value.Str? ==>
                        now.value.text == if Place(p, Some(at)) in edits then edits[Place(p, Some(at))] else was.value.text))
  {
    var inner := Inner(edits, p);
    assert at in inner <==> Place(p, Some(at)) in edits;
    hide Rewrite, Lookup, Inner;
    RewriteAt(tree, [], inner, at);
    assert [] + at == at;
    if Lookup(tree, at).Some? {
      var was := Lookup(tree, at).value;
      RewriteKind(was, at, inner);
      if was.Str? {
        StrStays(was.text, at, inner);
      }
    }
  }

  /** The same kind of value: containers with the same keys in the same order, equal scalars, some string for a string. */
  ghost predicate SameKind(a: Json, b: Json) {
    && a.Arr? == b.Arr? && a.Obj? == b.Obj? && a.Str? == b.Str?
    && Width(a) == Width(b) && (forall k | 0 <= k < Width(a) :: StepTo(a, k) == StepTo(b, k))
    && (!a.Arr? && !a.Obj? && !a.Str? ==> a == b)
  }

  /** Told by the constructors: two strings, two lists of one length, two objects with the same keys in a row, or the same
      null, boolean or number. */
  lemma KindExactly(a: Json, b: Json)
    ensures SameKind(a, b) <==>
              || (a.Str? && b.Str?)
              || (a.Arr? && b.Arr? && |a.items| == |b.items|)
              || (a.Obj? && b.Obj? && |a.members| == |b.members| && forall k | 0 <= k < |a.members| :: a.members[k].key == b.members[k].key)
              || (a == b && (a.Null? || a.Bool? || a.Int? || a.Float?))
  {
    if a.Obj? && b.Obj? && |a.members| == |b.members| {
      forall k | 0 <= k < |a.members|
        ensures StepTo(a, k) == StepTo(b, k) <==> a.members[k].key == b.members[k].key
      {
      }
    }
  }

  lemma RewriteKind(v: Json, base: Path, edits: map<Path, string>)
    ensures SameKind(v, Rewrite(v, base, edits))
  {
    RewriteChildren(v, base, edits);
  }
}
