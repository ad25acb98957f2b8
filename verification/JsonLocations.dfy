/** Listing everything a payload says, and rewriting parts of it in place, also inside JSON-encoded strings. */
module JsonLocations {
  import opened Tokens
  import opened Json
  import opened JsonPaths

  /** `within` is the path inside the JSON encoded at `path`, when there is one. */
  datatype Location = Location(path: Path, text: string, structural: bool, within: Option<Path>)

  /** The strict decoder, the compact serializer, and what the decoder's limits let through. */
  datatype Codec = Codec(decode: string -> Option<Json>, encode: Json -> string, fits: Json -> bool, numeral: Json -> string)

  /** Decoding what was encoded gives it back, or is refused for its size. */
  ghost predicate Lawful(codec: Codec) {
    forall v: Json :: ReadsBack(codec, v)
  }

  predicate ReadsBack(codec: Codec, v: Json) {
    codec.decode(codec.encode(v)) == if codec.fits(v) then Some(v) else None
  }

  // ---------- Classifying and listing ----------

  datatype Classes = Classes(
    content: set<Path>,
    numeric: set<Path>,
    fields: map<Path, Json>,
    structural: set<Path>,
    controls: map<Path, set<Path>>
  )

  predicate Control(c: Classes, path: Path, within: Path) { path in c.controls && within in c.controls[path] }

  /** One spot of the JSON encoded at `path`. */
  function WithinOne(c: Classes, codec: Codec, path: Path, s: Spot): seq<Location> {
    match s
    case KeySpot(at, key) => [Location(path, key, true, Some(at))]
    case LeafSpot(at, value) =>
      if value.Str? then [Location(path, value.text, path in c.structural, Some(at))]
      else if Control(c, path, at) then []
      else [Location(path, codec.numeral(value), true, Some(at))]
  }

  function Within(c: Classes, codec: Codec, path: Path, spots: seq<Spot>): seq<Location> {
    if spots == [] then [] else WithinOne(c, codec, path, spots[0]) + Within(c, codec, path, spots[1..])
  }

  /** One spot of the payload itself; an encoded field stands for everything inside it. */
  function LocateOne(c: Classes, codec: Codec, s: Spot): seq<Location> {
    match s
    case KeySpot(path, key) => [Location(path, key, true, None)]
    case LeafSpot(path, value) =>
      if value.Str? then
        if path in c.fields then Within(c, codec, path, Walk(c.fields[path], []))
        else [Location(path, value.text, path !in c.content || path in c.structural, None)]
      else if path in c.numeric then [Location(path, codec.numeral(value), true, None)]
      else []
  }

  function Locate(c: Classes, codec: Codec, spots: seq<Spot>): seq<Location> {
    if spots == [] then [] else LocateOne(c, codec, spots[0]) + Locate(c, codec, spots[1..])
  }

  /** Every location of a payload. */
  function Listing(c: Classes, codec: Codec, payload: Json): seq<Location> { Locate(c, codec, Walk(payload, [])) }

  lemma {:induction false} LocateAppend(c: Classes, codec: Codec, a: seq<Spot>, b: seq<Spot>)
    ensures Locate(c, codec, a + b) == Locate(c, codec, a) + Locate(c, codec, b)
  {
    if a == [] {
      assert a + b == b;
    } else {
      assert (a + b)[1..] == a[1..] + b && (a + b)[0] == a[0];
      LocateAppend(c, codec, a[1..], b);
    }
  }

  lemma {:induction false} WithinAppend(c: Classes, codec: Codec, path: Path, a: seq<Spot>, b: seq<Spot>)
    ensures Within(c, codec, path, a + b) == Within(c, codec, path, a) + Within(c, codec, path, b)
  {
    if a == [] {
      assert a + b == b;
    } else {
      assert (a + b)[1..] == a[1..] + b && (a + b)[0] == a[0];
      WithinAppend(c, codec, path, a[1..], b);
    }
  }

  lemma {:induction false} InLocate(c: Classes, codec: Codec, spots: seq<Spot>, l: Location)
    ensures l in Locate(c, codec, spots) <==> exists s :: s in spots && l in LocateOne(c, codec, s)
  {
    if spots != [] {
      InLocate(c, codec, spots[1..], l);
      hide LocateOne;
      assert forall s :: s in spots <==> s == spots[0] || s in spots[1..];
    }
  }

  lemma {:induction false} InWithin(c: Classes, codec: Codec, path: Path, spots: seq<Spot>, l: Location)
    ensures l in Within(c, codec, path, spots) <==> exists s :: s in spots && l in WithinOne(c, codec, path, s)
  {
    if spots != [] {
      InWithin(c, codec, path, spots[1..], l);
      hide WithinOne;
      assert forall s :: s in spots <==> s == spots[0] || s in spots[1..];
    }
  }

  /** What a location must say about the payload: a key or leaf of it, or of the JSON encoded in one of its strings. */
  ghost predicate Says(c: Classes, codec: Codec, payload: Json, l: Location) {
    match l.within
    case None =>
      var here := Lookup(payload, l.path);
      || (here.Some? && l.path != [] && l.path[|l.path| - 1] == Key(l.text) && l.structural)
      || (here.Some? && here.value.Str? && l.path !in c.fields && l.text == here.value.text
          && l.structural == (l.path !in c.content || l.path in c.structural))
      || (here.Some? && (here.value.Int? || here.value.Float?) && l.path in c.numeric
          && l.text == codec.numeral(here.value) && l.structural)
    case Some(at) =>
      && Lookup(payload, l.path).Some? && Lookup(payload, l.path).value.Str? && l.path in c.fields
      && var here := Lookup(c.fields[l.path], at);
         || (here.Some? && at != [] && at[|at| - 1] == Key(l.text) && l.structural)
         || (here.Some? && here.value.Str? && l.text == here.value.text && l.structural == (l.path in c.structural))
         || (here.Some? && (here.value.Int? || here.value.Float?) && !(l.path in c.controls && at in c.controls[l.path])
             && l.text == codec.numeral(here.value) && l.structural)
  }

  predicate FieldsWellKeyed(c: Classes) { forall p | p in c.fields :: WellKeyed(c.fields[p]) }

  /** The listing is complete and honest: it contains exactly what there is to say. */
  lemma ListingExact(c: Classes, codec: Codec, payload: Json, l: Location)
    requires WellKeyed(payload) && FieldsWellKeyed(c)
    ensures l in Listing(c, codec, payload) <==> Says(c, codec, payload, l)
  {
    InLocate(c, codec, Walk(payload, []), l);
    if l.within.None? {
      PlainExact(c, codec, payload, l);
    } else {
      EncodedExact(c, codec, payload, l);
    }
  }

  predicate SpotIs(v: Json, s: Spot) {
    if s.KeySpot? then s.path != [] && s.path[|s.path| - 1] == Key(s.key) && Lookup(v, s.path).Some?
    else Lookup(v, s.path) == Some(s.value) && Leaf(s.value)
  }

  lemma SpotIn(v: Json, s: Spot)
    requires WellKeyed(v)
    ensures s in Walk(v, []) <==> SpotIs(v, s)
  {
    WalkExact(v, [], s);
    assert s.path[0..] == s.path;
  }

  lemma PlainExact(c: Classes, codec: Codec, payload: Json, l: Location)
    requires WellKeyed(payload) && l.within.None?
    ensures (exists s :: s in Walk(payload, []) && l in LocateOne(c, codec, s)) <==> Says(c, codec, payload, l)
  {
    hide Walk, Lookup, WellKeyed;
    forall s | s in Walk(payload, []) && l in LocateOne(c, codec, s)
      ensures Says(c, codec, payload, l)
    {
      SpotIn(payload, s);
      if s.LeafSpot? && s.value.Str? && s.path in c.fields {
        WithinIsWithin(c, codec, s.path, Walk(c.fields[s.path], []), l);
      }
    }
    if Says(c, codec, payload, l) {
      var here := Lookup(payload, l.path).value;
      var key, leaf := KeySpot(l.path, l.text), LeafSpot(l.path, here);
      SpotIn(payload, key);
      SpotIn(payload, leaf);
      assert l in LocateOne(c, codec, key) || l in LocateOne(c, codec, leaf);
    }
  }

  lemma {:induction false} WithinIsWithin(c: Classes, codec: Codec, path: Path, spots: seq<Spot>, l: Location)
    requires l in Within(c, codec, path, spots)
    ensures l.within.Some? && l.path == path
  {
    InWithin(c, codec, path, spots, l);
  }

  lemma EncodedExact(c: Classes, codec: Codec, payload: Json, l: Location)
    requires WellKeyed(payload) && FieldsWellKeyed(c) && l.within.Some?
    ensures (exists s :: s in Walk(payload, []) && l in LocateOne(c, codec, s)) <==> Says(c, codec, payload, l)
  {
    hide Walk, Lookup, WellKeyed, WithinOne, Within;
    forall s | s in Walk(payload, []) && l in LocateOne(c, codec, s)
      ensures Says(c, codec, payload, l)
    {
      SpotIn(payload, s);
      assert s.LeafSpot? && s.value.Str? && s.path in c.fields;
      WithinIsWithin(c, codec, s.path, Walk(c.fields[s.path], []), l);
      InField(c, codec, l);
    }
    if Says(c, codec, payload, l) {
      var leaf := LeafSpot(l.path, Lookup(payload, l.path).value);
      SpotIn(payload, leaf);
      InField(c, codec, l);
      assert l in LocateOne(c, codec, leaf);
    }
  }

  lemma InField(c: Classes, codec: Codec, l: Location)
    requires l.within.Some? && l.path in c.fields && WellKeyed(c.fields[l.path])
    ensures l in Within(c, codec, l.path, Walk(c.fields[l.path], [])) <==>
            var at := l.within.value;
            var here := Lookup(c.fields[l.path], at);
            || (here.Some? && at != [] && at[|at| - 1] == Key(l.text) && l.structural)
            || (here.Some? && here.value.Str? && l.text == here.value.text && l.structural == (l.path in c.structural))
            || (here.Some? && (here.value.Int? || here.value.Float?) && !(l.path in c.controls && at in c.controls[l.path])
                && l.text == codec.numeral(here.value) && l.structural)
  {
    hide Walk, Lookup, WellKeyed, Within;
    var d, at := c.fields[l.path], l.within.value;
    var spots := Walk(d, []);
    InWithin(c, codec, l.path, spots, l);
    forall s | s in spots && l in WithinOne(c, codec, l.path, s)
      ensures s.path == at
    {
    }
    var key := KeySpot(at, l.text);
    SpotIn(d, key);
    if Lookup(d, at).Some? {
      SpotIn(d, LeafSpot(at, Lookup(d, at).value));
    }
    forall s | s in spots && l in WithinOne(c, codec, l.path, s)
      ensures s == key || (Lookup(d, at).Some? && s == LeafSpot(at, Lookup(d, at).value))
    {
      SpotIn(d, s);
    }
  }

  // ---------- The builder ----------

  datatype Rejection = InvalidJson | InvalidArguments

  class LocationBuilder {
    const codec: Codec
    var contentPaths: set<Path>
    var numericPaths: set<Path>
    var jsonFields: map<Path, Json>
    var structuralJsonFields: set<Path>
    var jsonNumericControls: map<Path, set<Path>>

    function Classified(): Classes
      reads this
    {
      Classes(contentPaths, numericPaths, jsonFields, structuralJsonFields, jsonNumericControls)
    }

    constructor (codec: Codec)
      ensures this.codec == codec && Classified() == Classes({}, {}, map[], {}, map[])
    {
      this.codec := codec;
      contentPaths, numericPaths, structuralJsonFields := {}, {}, {};
      jsonFields, jsonNumericControls := map[], map[];
    }

    /** Accepts a string that encodes a JSON object; what goes on is its compact spelling. */
    method EncodedObject(value: string, path: Path, structural: bool, numericControls: set<Path>)
      returns (r: Result<string, Rejection>)
      modifies this`jsonFields, this`structuralJsonFields, this`jsonNumericControls
      ensures r.Ok? <==> codec.decode(value).Some? && codec.decode(value).value.Obj?
      ensures r.Err? ==> Classified() == old(Classified())
      ensures r.Ok? ==>
                && r.value == codec.encode(codec.decode(value).value)
                && jsonFields == old(jsonFields)[path := codec.decode(value).value]
                && structuralJsonFields == (if structural then old(structuralJsonFields) + {path} else old(structuralJsonFields))
                && jsonNumericControls
                   == (if numericControls != {} then old(jsonNumericControls)[path := numericControls] else old(jsonNumericControls))
    {
      var decoded := codec.decode(value);
      if decoded.None? {
        return Err(InvalidJson);
      }
      if !decoded.value.Obj? {
        return Err(InvalidArguments);
      }
      jsonFields := jsonFields[path := decoded.value];
      if structural {
        structuralJsonFields := structuralJsonFields + {path};
      }
      if numericControls != {} {
        jsonNumericControls := jsonNumericControls[path := numericControls];
      }
      return Ok(codec.encode(decoded.value));
    }

    /** Copies a JSON value and classifies its string and number leaves. */
    method JsonContent(value: Json, path: Path, structural: bool) returns (copy: Json)
      modifies this`contentPaths, this`numericPaths
      decreases value
      ensures copy == value
      ensures contentPaths == old(contentPaths) + (if structural then {} else TextPaths(Walk(value, path)))
      ensures numericPaths == old(numericPaths) + NumberPaths(Walk(value, path))
    {
      hide TextPaths, NumberPaths, Walk, WalkFrom, Child, StepTo;
      if value.Arr? || value.Obj? {
        var children: seq<Json> := [];
        var k := 0;
        WalkIs(value, path);
        while k < Width(value)
          invariant 0 <= k == |children| <= Width(value)
          invariant forall j | 0 <= j < k :: children[j] == Child(value, j)
          invariant contentPaths + (if structural then {} else TextPaths(WalkFrom(value, k, path)))
                    == old(contentPaths) + (if structural then {} else TextPaths(Walk(value, path)))
          invariant numericPaths + NumberPaths(WalkFrom(value, k, path)) == old(numericPaths) + NumberPaths(Walk(value, path))
        {
          PathsStep(value, k, path);
          var c := JsonContent(Child(value, k), path + [StepTo(value, k)], structural);
          children := children + [c];
          k := k + 1;
        }
        WalkEnd(value, path);
        copy := Rebuilt(value, children);
        SameChildren(copy, value);
      } else {
        copy := value;
        LeafPaths(value, path);
        if value.Str? && !structural {
          contentPaths := contentPaths + {path};
        } else if value.Int? || value.Float? {
          numericPaths := numericPaths + {path};
        }
      }
    }

    /** Lists every key, every string and every classified number. */
    method Finish(payload: Json) returns (locations: seq<Location>)
      ensures locations == Listing(Classified(), codec, payload)
    {
      locations := WalkInto(payload, [], None, []);
    }

    method WalkInto(value: Json, path: Path, within: Option<Path>, before: seq<Location>) returns (locations: seq<Location>)
      ensures locations == before + Said(Classified(), codec, path, within, value)
      decreases if within.None? then 1 else 0, value
    {
      hide Locate, Within;
      var c := Classified();
      locations := before;
      if value.Obj? || value.Arr? {
        var k := 0;
        while k < Width(value)
          invariant 0 <= k <= Width(value)
          invariant locations + SaidFrom(c, codec, path, within, value, k) == before + Said(c, codec, path, within, value)
        {
          SaidStep(c, codec, path, within, value, k);
          var step := StepTo(value, k);
          var target := if within.Some? then path else path + [step];
          var child := if within.Some? then Some(within.value + [step]) else None;
          if value.Obj? {
            locations := locations + [Location(target, value.members[k].key, true, child)];
          }
          locations := WalkInto(Child(value, k), target, child, locations);
          k := k + 1;
        }
        SaidNothing(c, codec, path, within, value);
      } else {
        SaidLeaf(c, codec, path, within, value);
        if value.Str? {
          if path in jsonFields && within.None? {
            locations := WalkInto(jsonFields[path], path, Some([]), locations);
          } else {
            var structural := (within.None? && path !in contentPaths) || path in structuralJsonFields;
            locations := locations + [Location(path, value.text, structural, within)];
          }
        } else if (value.Int? || value.Float?) && (within.Some? || path in numericPaths)
                  && !(within.Some? && Control(c, path, within.value)) {
          locations := locations + [Location(path, codec.numeral(value), true, within)];
        }
      }
    }
  }

  function TextPaths(spots: seq<Spot>): set<Path> { set s | s in spots && s.LeafSpot? && s.value.Str? :: s.path }

  function NumberPaths(spots: seq<Spot>): set<Path> { set s | s in spots && s.LeafSpot? && !s.value.Str? :: s.path }

  lemma PathsAppend(a: seq<Spot>, b: seq<Spot>)
    ensures TextPaths(a + b) == TextPaths(a) + TextPaths(b)
    ensures NumberPaths(a + b) == NumberPaths(a) + NumberPaths(b)
  {
  }

  lemma WalkEnd(value: Json, path: Path)
    ensures TextPaths(WalkFrom(value, Width(value), path)) == {} && NumberPaths(WalkFrom(value, Width(value), path)) == {}
  {
  }

  lemma PathsStep(value: Json, k: nat, path: Path)
    requires k < Width(value)
    ensures var below := Walk(Child(value, k), path + [StepTo(value, k)]);
            && TextPaths(WalkFrom(value, k, path)) == TextPaths(below) + TextPaths(WalkFrom(value, k + 1, path))
            && NumberPaths(WalkFrom(value, k, path)) == NumberPaths(below) + NumberPaths(WalkFrom(value, k + 1, path))
  {
    var at := path + [StepTo(value, k)];
    var key: seq<Spot> := if value.Obj? then [KeySpot(at, value.members[k].key)] else [];
    var below, rest := Walk(Child(value, k), at), WalkFrom(value, k + 1, path);
    assert WalkFrom(value, k, path) == key + below + rest;
    assert TextPaths(key) == {} && NumberPaths(key) == {};
    hide TextPaths, NumberPaths, Walk, WalkFrom;
    PathsAppend(key + below, rest);
    PathsAppend(key, below);
  }

  lemma LeafPaths(value: Json, path: Path)
    requires !value.Arr? && !value.Obj?
    ensures TextPaths(Walk(value, path)) == if value.Str? then {path} else {}
    ensures NumberPaths(Walk(value, path)) == if value.Int? || value.Float? then {path} else {}
  {
    if Leaf(value) {
      assert LeafSpot(path, value) in Walk(value, path);
    }
  }

  function Rebuilt(value: Json, children: seq<Json>): (r: Json)
    requires (value.Arr? || value.Obj?) && |children| == Width(value)
    ensures r.Arr? == value.Arr? && r.Obj? == value.Obj? && Width(r) == Width(value)
    ensures forall k | 0 <= k < Width(r) :: StepTo(r, k) == StepTo(value, k) && Child(r, k) == children[k]
  {
    if value.Arr? then Arr(children)
    else Obj(seq(|children|, k requires 0 <= k < |children| => Member(value.members[k].key, children[k])))
  }

  /** What the walk below one value lists, inside an encoded field or not. */
  function SaidBy(c: Classes, codec: Codec, path: Path, within: Option<Path>, spots: seq<Spot>): seq<Location> {
    if within.Some? then Within(c, codec, path, spots) else Locate(c, codec, spots)
  }

  function Said(c: Classes, codec: Codec, path: Path, within: Option<Path>, value: Json): seq<Location> {
    SaidBy(c, codec, path, within, Walk(value, if within.Some? then within.value else path))
  }

  function SaidFrom(c: Classes, codec: Codec, path: Path, within: Option<Path>, value: Json, k: nat): seq<Location>
    requires k <= Width(value)
  {
    SaidBy(c, codec, path, within, WalkFrom(value, k, if within.Some? then within.value else path))
  }

  lemma SaidAppend(c: Classes, codec: Codec, path: Path, within: Option<Path>, a: seq<Spot>, b: seq<Spot>)
    ensures SaidBy(c, codec, path, within, a + b) == SaidBy(c, codec, path, within, a) + SaidBy(c, codec, path, within, b)
  {
    LocateAppend(c, codec, a, b);
    WithinAppend(c, codec, path, a, b);
  }

  lemma SaidStep(c: Classes, codec: Codec, path: Path, within: Option<Path>, value: Json, k: nat)
    requires k < Width(value)
    ensures var step := StepTo(value, k);
            var target := if within.Some? then path else path + [step];
            var child := if within.Some? then Some(within.value + [step]) else None;
            SaidFrom(c, codec, path, within, value, k)
            == (if value.Obj? then [Location(target, value.members[k].key, true, child)] else [])
               + Said(c, codec, target, child, Child(value, k))
               + SaidFrom(c, codec, path, within, value, k + 1)
    ensures (value.Arr? || value.Obj?) ==>
              Said(c, codec, path, within, value) == SaidFrom(c, codec, path, within, value, 0)
  {
    var base := if within.Some? then within.value else path;
    var step := StepTo(value, k);
    var at := base + [step];
    var key: seq<Spot> := if value.Obj? then [KeySpot(at, value.members[k].key)] else [];
    var below, rest := Walk(Child(value, k), at), WalkFrom(value, k + 1, base);
    assert WalkFrom(value, k, base) == key + below + rest;
    if value.Obj? {
      SaidKey(c, codec, path, within, value, k);
    }
    assert SaidBy(c, codec, path, within, []) == [];
    hide Walk, WalkFrom, Locate, Within;
    SaidAppend(c, codec, path, within, key + below, rest);
    SaidAppend(c, codec, path, within, key, below);
  }

  lemma SaidKey(c: Classes, codec: Codec, path: Path, within: Option<Path>, value: Json, k: nat)
    requires k < Width(value) && value.Obj?
    ensures var base := if within.Some? then within.value else path;
            var at := base + [StepTo(value, k)];
            SaidBy(c, codec, path, within, [KeySpot(at, value.members[k].key)])
            == [Location(if within.Some? then path else at, value.members[k].key, true, if within.Some? then Some(at) else None)]
  {
    var at := (if within.Some? then within.value else path) + [StepTo(value, k)];
    SaidOne(c, codec, path, within, KeySpot(at, value.members[k].key));
  }

  lemma SaidOne(c: Classes, codec: Codec, path: Path, within: Option<Path>, s: Spot)
    ensures SaidBy(c, codec, path, within, [s])
            == if within.Some? then WithinOne(c, codec, path, s) else LocateOne(c, codec, s)
  {
    assert [s][1..] == [];
    assert Within(c, codec, path, []) == [] && Locate(c, codec, []) == [];
    hide WithinOne, LocateOne;
  }

  lemma SaidNothing(c: Classes, codec: Codec, path: Path, within: Option<Path>, value: Json)
    ensures SaidFrom(c, codec, path, within, value, Width(value)) == []
  {
  }

  lemma SaidLeaf(c: Classes, codec: Codec, path: Path, within: Option<Path>, value: Json)
    requires !value.Arr? && !value.Obj?
    ensures Said(c, codec, path, within, value)
            == if !Leaf(value) then []
               else if within.Some? then WithinOne(c, codec, path, LeafSpot(within.value, value))
               else LocateOne(c, codec, LeafSpot(path, value))
  {
    SaidOne(c, codec, path, within, LeafSpot(if within.Some? then within.value else path, value));
  }
}
