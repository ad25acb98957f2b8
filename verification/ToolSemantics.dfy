/** The matcher decides exactly what the schema declares, and never sees how a value is written. */
module ToolSemantics {
  import opened Tokens
  import opened Json
  import opened JsonValues
  import opened ToolSchema
  import opened ToolMatching

  predicate Sound(schema: Json) { Compiles(schema) && WellKeyed(schema) }

  /** If the schema has this keyword, the value satisfies it. */
  ghost predicate Held(schema: Json, key: string, x: Value)
    requires schema.Obj?
  {
    Has(schema.members, key) ==> Asserts(schema, Find(schema.members, key), x)
  }

  lemma AllHeld(schema: Json, x: Value)
    requires schema.Obj? && DistinctKeys(schema.members)
    ensures Satisfies(schema, x) <==> forall key :: Held(schema, key, x)
  {
    hide Asserts;
    if forall key :: Held(schema, key, x) {
      forall k | 0 <= k < |schema.members|
        ensures Asserts(schema, k, x)
      {
        FindIs(schema.members, k);
        assert Held(schema, schema.members[k].key, x);
      }
    }
  }

  /** What holding one keyword comes to, once for all keywords. */
  ghost predicate Declares(schema: Json, w: Keyword, a: Json, x: Value)
    requires schema.Obj?
  {
    if Size(w) then SizeAsserts(w, a, x)
    else if Bound(w) then BoundAsserts(w, a, x)
    else
      match w
      case Types => TypeAsserts(a, x)
      case Const => x == Denote(a)
      case Enum => EnumAsserts(a, x)
      case AllOf => AllAsserts(a, x)
      case AnyOf => AnyAsserts(a, x)
      case OneOf => OneAsserts(a, x)
      case Required => RequiredAsserts(a, x)
      case Properties => PropertiesAsserts(a, x)
      case Additional => AdditionalAsserts(schema, a, x)
      case Items => ItemsAsserts(a, x)
      case Unique => UniqueAsserts(a, x)
      case _ => true
  }

  lemma HeldIs(schema: Json, key: string, x: Value)
    requires schema.Obj?
    ensures Held(schema, key, x) <==> (Has(schema.members, key) ==> Declares(schema, KeywordOf(key), Under(schema, key), x))
  {
    hide KeywordOf, SizeAsserts, BoundAsserts, TypeAsserts, EnumAsserts, AllAsserts, AnyAsserts, OneAsserts, RequiredAsserts;
    hide PropertiesAsserts, AdditionalAsserts, ItemsAsserts, UniqueAsserts, Denote;
  }

  /** Everything about keyword `key` of a sound schema: its form, and its subschemas. */
  lemma KeywordAt(schema: Json, key: string)
    requires Sound(schema) && schema.Obj? && Has(schema.members, key)
    ensures KeywordOk(KeywordOf(key), Under(schema, key)) && WellKeyed(Under(schema, key))
    ensures var m := schema.members[Find(schema.members, key)];
            && m.key == key && m.value == Under(schema, key)
            && forall c | c in Direct(m) :: Compiles(c) && c < schema
  {
    hide KeywordOf, KeywordOk, Direct;
    var k := Find(schema.members, key);
    assert schema.members[k].key == key;
    InSubs(schema, k);
  }

  lemma {:induction false} InSubsFrom(schema: Json, j: nat, k: nat)
    requires schema.Obj? && j <= k < |schema.members|
    ensures forall c | c in Direct(schema.members[k]) :: c in SubsFrom(schema, j)
    decreases k - j
  {
    hide Direct;
    if j < k {
      InSubsFrom(schema, j + 1, k);
    }
  }

  lemma InSubs(schema: Json, k: nat)
    requires schema.Obj? && k < |schema.members|
    ensures forall c | c in Direct(schema.members[k]) :: c in Subs(schema)
  {
    hide Direct;
    InSubsFrom(schema, 0, k);
  }

  /** The subschema directly under `additionalProperties` or `items`. */
  lemma ChildAt(schema: Json, key: string)
    requires Sound(schema) && schema.Obj? && Has(schema.members, key)
    requires KeywordOf(key).Additional? || KeywordOf(key).Items?
    ensures Sound(Under(schema, key)) && Under(schema, key) < schema
  {
    hide KeywordOf, KeywordOk, Compiles, WellKeyed, Sound;
    KeywordAt(schema, key);
    assert Under(schema, key) in Direct(schema.members[Find(schema.members, key)]);
    SoundIs(Under(schema, key));
  }

  lemma SoundIs(schema: Json)
    ensures Sound(schema) <==> Compiles(schema) && WellKeyed(schema)
  {
  }

  /** The subschemas listed under a combiner. */
  lemma ListAt(schema: Json, key: string)
    requires Sound(schema) && schema.Obj? && Has(schema.members, key) && Combiner(KeywordOf(key))
    ensures Under(schema, key).Arr? && Listed(schema, key) == Under(schema, key).items
    ensures forall j | 0 <= j < |Listed(schema, key)| :: Sound(Listed(schema, key)[j]) && Listed(schema, key)[j] < schema
  {
    KeywordAt(schema, key);
    hide KeywordOf, Compiles, WellKeyed, Sound;
    ItemsSound(Under(schema, key));
    var all := Under(schema, key).items;
    forall j | 0 <= j < |all|
      ensures Sound(all[j])
    {
      assert all[j] in Direct(schema.members[Find(schema.members, key)]);
      SoundIs(all[j]);
    }
  }

  lemma ItemsSound(v: Json)
    requires WellKeyed(v)
    ensures v.Arr? ==> forall k | 0 <= k < |v.items| :: WellKeyed(v.items[k])
    ensures v.Arr? ==> Denote(v).VArray? && |Denote(v).items| == |v.items| && forall k | 0 <= k < |v.items| :: Denote(v).items[k] == Denote(v.items[k])
  {
  }

  lemma PropertyAt(schema: Json, name: string)
    requires Sound(schema) && schema.Obj? && OwnSchema(schema, name)
    ensures var own := Under(Under(schema, "properties"), name);
            Sound(own) && own < schema
  {
    NamesTrees();
    KeywordAt(schema, "properties");
    hide KeywordOf, Compiles, Sound, KeywordOk;
    var all := Under(schema, "properties");
    var j := Find(all.members, name);
    var direct := Direct(schema.members[Find(schema.members, "properties")]);
    assert direct[j] == all.members[j].value;
    assert direct[j] in direct;
    SoundIs(direct[j]);
  }

  /** The kind and the size of a value survive denotation. */
  lemma Sizes(v: Json)
    requires WellKeyed(v)
    ensures Denote(v).VString? == v.Str? && (v.Str? ==> Denote(v).text == v.text)
    ensures Denote(v).VArray? == v.Arr? && (v.Arr? ==> |Denote(v).items| == |v.items|)
    ensures Denote(v).VObject? == v.Obj? && (v.Obj? ==> |Denote(v).members| == |v.members|)
    ensures Denote(v).VNumber? == Numeric(v) && (Numeric(v) ==> Denote(v).number == NumberOf(v))
  {
    if v.Obj? {
      MembersOf(v);
      MemberCount(v.members);
      assert |Denote(v).members| == |Denote(v).members.Keys|;
    }
  }

  // ---------- Scalars: types, literals, sizes, bounds ----------

  lemma TypeIs(v: Json, kind: string)
    requires TypeName(kind)
    ensures IsType(v, kind) <==> HasType(Denote(v), kind)
  {
    if v.Int? {
      assert IsWhole(v.whole as real);
    }
  }

  lemma TypeHeld(schema: Json, v: Json)
    requires Sound(schema) && schema.Obj?
    ensures TypeOk(schema, v) <==> Held(schema, "type", Denote(v))
  {
    hide KeywordOf, Sound, Held, Denote, IsType, HasType;
    NamesTypes();
    HeldIs(schema, "type", Denote(v));
    if Has(schema.members, "type") {
      KeywordAt(schema, "type");
      var kinds := Kinds(Under(schema, "type"));
      hide Distinct;
      forall k | 0 <= k < |kinds|
        ensures IsType(v, KindText(kinds[k])) <==> HasType(Denote(v), KindText(kinds[k]))
      {
        TypeIs(v, KindText(kinds[k]));
      }
    }
  }

  lemma LiteralsHeld(schema: Json, v: Json)
    requires Sound(schema) && schema.Obj? && WellKeyed(v)
    ensures LiteralsOk(schema, v) <==> Held(schema, "const", Denote(v)) && Held(schema, "enum", Denote(v))
  {
    hide KeywordOf, Sound, Held, Denote, Equal, WellKeyed, LiteralOk;
    NamesTypes();
    HeldIs(schema, "const", Denote(v));
    HeldIs(schema, "enum", Denote(v));
    if Has(schema.members, "const") {
      KeywordAt(schema, "const");
      EqualExact(v, Under(schema, "const"));
    }
    if Has(schema.members, "enum") {
      EnumExact(schema, v);
    }
  }

  lemma EnumExact(schema: Json, v: Json)
    requires Sound(schema) && schema.Obj? && WellKeyed(v) && Has(schema.members, "enum")
    ensures Under(schema, "enum").Arr?
    ensures EnumAsserts(Under(schema, "enum"), Denote(v)) <==>
            exists k | 0 <= k < |Under(schema, "enum").items| :: Equal(v, Under(schema, "enum").items[k])
  {
    hide KeywordOf, Sound, Denote, Equal, WellKeyed, LiteralOk;
    NamesTypes();
    KeywordAt(schema, "enum");
    ItemsSound(Under(schema, "enum"));
    var all := Under(schema, "enum").items;
    forall k | 0 <= k < |all|
      ensures Equal(v, all[k]) <==> Denote(v) == Denote(all[k])
    {
      EqualExact(v, all[k]);
    }
  }

  lemma SizeHeld(schema: Json, key: string, x: Value)
    requires Sound(schema) && schema.Obj? && Size(KeywordOf(key))
    ensures var w := KeywordOf(key);
            var size := SizeOf(w, x);
            Held(schema, key, x) <==>
              (Has(schema.members, key) && size.Some? ==>
                 if w.MinLength? || w.MinItems? || w.MinProperties? then size.value >= SizeAt(schema, key)
                 else size.value <= SizeAt(schema, key))
  {
    hide KeywordOf, Sound, Held;
    HeldIs(schema, key, x);
    if Has(schema.members, key) {
      KeywordAt(schema, key);
    }
  }

  /** Both optional bounds of each kind of size. */
  lemma SizesHeld(schema: Json, v: Json)
    requires Sound(schema) && schema.Obj? && WellKeyed(v)
    ensures (v.Str? ==> SizeOk(schema, "minLength", "maxLength", |v.text|)) <==>
            Held(schema, "minLength", Denote(v)) && Held(schema, "maxLength", Denote(v))
    ensures (v.Arr? ==> SizeOk(schema, "minItems", "maxItems", |v.items|)) <==>
            Held(schema, "minItems", Denote(v)) && Held(schema, "maxItems", Denote(v))
    ensures (v.Obj? ==> SizeOk(schema, "minProperties", "maxProperties", |v.members|)) <==>
            Held(schema, "minProperties", Denote(v)) && Held(schema, "maxProperties", Denote(v))
  {
    hide Sound, WellKeyed, Denote, KeywordOf, Held, SizeAt;
    Sizes(v);
    NamesSizes();
    SizeHeld(schema, "minLength", Denote(v));
    SizeHeld(schema, "maxLength", Denote(v));
    SizeHeld(schema, "minItems", Denote(v));
    SizeHeld(schema, "maxItems", Denote(v));
    SizeHeld(schema, "minProperties", Denote(v));
    SizeHeld(schema, "maxProperties", Denote(v));
  }

  lemma BoundHeld(schema: Json, key: string, x: Value)
    requires Sound(schema) && schema.Obj? && Bound(KeywordOf(key))
    ensures var w := KeywordOf(key);
            Held(schema, key, x) <==>
              (Has(schema.members, key) && x.VNumber? ==>
                 if w.Minimum? then x.number >= BoundAt(schema, key)
                 else if w.Maximum? then x.number <= BoundAt(schema, key)
                 else if w.ExclusiveMinimum? then x.number > BoundAt(schema, key)
                 else x.number < BoundAt(schema, key))
  {
    hide KeywordOf, Sound, Held;
    HeldIs(schema, key, x);
    if Has(schema.members, key) {
      KeywordAt(schema, key);
    }
  }

  lemma NumbersHeld(schema: Json, v: Json)
    requires Sound(schema) && schema.Obj? && WellKeyed(v)
    ensures (Numeric(v) ==> NumberOk(schema, v)) <==>
            && Held(schema, "minimum", Denote(v)) && Held(schema, "maximum", Denote(v))
            && Held(schema, "exclusiveMinimum", Denote(v)) && Held(schema, "exclusiveMaximum", Denote(v))
  {
    hide Sound, WellKeyed, Denote, KeywordOf, Held, BoundAt;
    Sizes(v);
    NamesBounds();
    BoundHeld(schema, "minimum", Denote(v));
    BoundHeld(schema, "maximum", Denote(v));
    BoundHeld(schema, "exclusiveMinimum", Denote(v));
    BoundHeld(schema, "exclusiveMaximum", Denote(v));
  }

  // ---------- Combiners ----------

  /** How many of the schemas from the `k`th on the value satisfies. */
  ghost function Satisfied(all: seq<Json>, k: nat, x: Value): nat
    requires k <= |all|
    decreases |all| - k
  {
    if k == |all| then 0 else (if Satisfies(all[k], x) then 1 else 0) + Satisfied(all, k + 1, x)
  }

  lemma {:induction false} NoneSatisfied(all: seq<Json>, k: nat, x: Value)
    requires k <= |all|
    ensures Satisfied(all, k, x) == 0 <==> forall d | k <= d < |all| :: !Satisfies(all[d], x)
    decreases |all| - k
  {
    hide Satisfies;
    if k < |all| {
      NoneSatisfied(all, k + 1, x);
    }
  }

  /** Schema `c` is satisfied and, from the `k`th on, no other is. */
  ghost predicate OnlyFrom(all: seq<Json>, k: nat, c: nat, x: Value)
    requires c < |all|
  {
    Satisfies(all[c], x) && forall d | k <= d < |all| && d != c :: !Satisfies(all[d], x)
  }

  /** Counting one match is finding the only one. */
  lemma {:induction false} OneSatisfied(all: seq<Json>, k: nat, x: Value)
    requires k <= |all|
    ensures Satisfied(all, k, x) == 1 <==> exists c | k <= c < |all| :: OnlyFrom(all, k, c, x)
    decreases |all| - k
  {
    hide Satisfies;
    if k < |all| {
      OneSatisfied(all, k + 1, x);
      NoneSatisfied(all, k + 1, x);
      assert OnlyFrom(all, k, k, x) <==> Satisfies(all[k], x) && Satisfied(all, k + 1, x) == 0;
      forall c | k + 1 <= c < |all|
        ensures OnlyFrom(all, k, c, x) <==> !Satisfies(all[k], x) && OnlyFrom(all, k + 1, c, x)
      {
      }
      hide OnlyFrom, Satisfied;
      var n := k + 1;
      if exists c | n <= c < |all| :: OnlyFrom(all, n, c, x) {
        var c :| n <= c < |all| && OnlyFrom(all, n, c, x);
        assert OnlyFrom(all, k, c, x) <==> !Satisfies(all[k], x);
      }
    }
  }

  lemma {:induction false} MatchedCounts(schema: Json, key: string, k: nat, v: Json)
    requires schema.Obj? && k <= |Listed(schema, key)|
    requires ListedExact(schema, key, v)
    ensures Matched(schema, key, k, v) == Satisfied(Listed(schema, key), k, Denote(v))
    decreases |Listed(schema, key)| - k
  {
    hide Satisfies, Matches, Listed, Denote;
    if k < |Listed(schema, key)| {
      MatchedCounts(schema, key, k + 1, v);
    }
  }

  ghost predicate ListedExact(schema: Json, key: string, v: Json)
    requires schema.Obj?
  {
    forall j | 0 <= j < |Listed(schema, key)| :: Matches(Listed(schema, key)[j], v) <==> Satisfies(Listed(schema, key)[j], Denote(v))
  }

  lemma {:induction false} ListExact(schema: Json, key: string, v: Json)
    requires Sound(schema) && schema.Obj? && WellKeyed(v) && Has(schema.members, key) && Combiner(KeywordOf(key))
    ensures ListedExact(schema, key, v)
    decreases schema, 0
  {
    hide KeywordOf, Sound, WellKeyed, Matches, Satisfies, Denote, Listed;
    ListAt(schema, key);
    forall j | 0 <= j < |Listed(schema, key)|
      ensures Matches(Listed(schema, key)[j], v) <==> Satisfies(Listed(schema, key)[j], Denote(v))
    {
      MatchesExact(Listed(schema, key)[j], v);
    }
  }

  /** One combiner, for the value as the matcher and as the declaration see it. */
  lemma {:induction false} CombinerHeld(schema: Json, key: string, v: Json)
    requires Sound(schema) && schema.Obj? && WellKeyed(v) && Combiner(KeywordOf(key))
    ensures Has(schema.members, key) ==> Under(schema, key).Arr? && Listed(schema, key) == Under(schema, key).items
    ensures Has(schema.members, key) ==> ListedExact(schema, key, v)
    ensures Held(schema, key, Denote(v)) <==> (Has(schema.members, key) ==> Declares(schema, KeywordOf(key), Under(schema, key), Denote(v)))
    decreases schema, 1
  {
    hide KeywordOf, Sound, WellKeyed, Matches, Satisfies, Denote, Listed, Held, ListedExact, Declares;
    HeldIs(schema, key, Denote(v));
    if Has(schema.members, key) {
      ListAt(schema, key);
      ListExact(schema, key, v);
    }
  }

  lemma {:induction false} CombinersHeld(schema: Json, v: Json)
    requires Sound(schema) && schema.Obj? && WellKeyed(v)
    ensures CombinersOk(schema, v) <==>
            Held(schema, "allOf", Denote(v)) && Held(schema, "anyOf", Denote(v)) && Held(schema, "oneOf", Denote(v))
    decreases schema, 2
  {
    hide KeywordOf, Sound, WellKeyed, Matches, Satisfies, Denote, Listed, Held, Matched, AllAsserts, AnyAsserts, OneAsserts, ListedExact;
    NamesTrees();
    CombinerHeld(schema, "allOf", v);
    CombinerHeld(schema, "anyOf", v);
    CombinerHeld(schema, "oneOf", v);
    if Has(schema.members, "allOf") {
      AllExact(schema, v);
    }
    if Has(schema.members, "anyOf") {
      AnyExact(schema, v);
    }
    if Has(schema.members, "oneOf") {
      OneExact(schema, v);
    }
  }

  lemma AllExact(schema: Json, v: Json)
    requires schema.Obj? && Has(schema.members, "allOf") && ListedExact(schema, "allOf", v)
    requires Under(schema, "allOf").Arr? && Listed(schema, "allOf") == Under(schema, "allOf").items
    ensures AllAsserts(Under(schema, "allOf"), Denote(v)) <==>
            forall k | 0 <= k < |Listed(schema, "allOf")| :: Matches(Listed(schema, "allOf")[k], v)
  {
    hide Matches, Satisfies, Denote, Listed;
  }

  lemma AnyExact(schema: Json, v: Json)
    requires schema.Obj? && Has(schema.members, "anyOf") && ListedExact(schema, "anyOf", v)
    requires Under(schema, "anyOf").Arr? && Listed(schema, "anyOf") == Under(schema, "anyOf").items
    ensures AnyAsserts(Under(schema, "anyOf"), Denote(v)) <==>
            exists k | 0 <= k < |Listed(schema, "anyOf")| :: Matches(Listed(schema, "anyOf")[k], v)
  {
    hide Matches, Satisfies, Denote, Listed;
  }

  lemma OneIs(a: Json, x: Value)
    requires a.Arr?
    ensures OneAsserts(a, x) <==> exists c | 0 <= c < |a.items| :: OnlyFrom(a.items, 0, c, x)
  {
    forall c | 0 <= c < |a.items|
      ensures OnlyAt(a, c, x) <==> OnlyFrom(a.items, 0, c, x)
    {
      hide Satisfies;
    }
    hide OnlyAt, OnlyFrom, Satisfies;
  }

  lemma OneExact(schema: Json, v: Json)
    requires schema.Obj? && Has(schema.members, "oneOf") && ListedExact(schema, "oneOf", v)
    requires Under(schema, "oneOf").Arr? && Listed(schema, "oneOf") == Under(schema, "oneOf").items
    ensures OneAsserts(Under(schema, "oneOf"), Denote(v)) <==> Matched(schema, "oneOf", 0, v) == 1
  {
    hide Matches, Satisfies, Denote, Listed, Matched, ListedExact, OneAsserts, OnlyFrom;
    MatchedCounts(schema, "oneOf", 0, v);
    OneSatisfied(Listed(schema, "oneOf"), 0, Denote(v));
    OneIs(Under(schema, "oneOf"), Denote(v));
  }

  // ---------- Arrays ----------

  lemma {:induction false} ItemsHeld(schema: Json, v: Json)
    requires Sound(schema) && schema.Obj? && WellKeyed(v)
    ensures (v.Arr? && Has(schema.members, "items") ==> forall k | 0 <= k < |v.items| :: Matches(Under(schema, "items"), v.items[k])) <==>
            Held(schema, "items", Denote(v))
    decreases schema, 0
  {
    hide KeywordOf, Sound, WellKeyed, Matches, Satisfies, Denote, Held;
    NamesTrees();
    HeldIs(schema, "items", Denote(v));
    Sizes(v);
    ItemsSound(v);
    if Has(schema.members, "items") && v.Arr? {
      ChildAt(schema, "items");
      var child := Under(schema, "items");
      forall k | 0 <= k < |v.items|
        ensures Matches(child, v.items[k]) <==> Satisfies(child, Denote(v).items[k])
      {
        MatchesExact(child, v.items[k]);
      }
    }
  }

  lemma UniqueHeld(schema: Json, v: Json)
    requires Sound(schema) && schema.Obj? && WellKeyed(v)
    ensures (v.Arr? && Has(schema.members, "uniqueItems") && Under(schema, "uniqueItems") == Bool(true) ==>
               forall i, j | 0 <= j < i < |v.items| :: !Equal(v.items[i], v.items[j])) <==>
            Held(schema, "uniqueItems", Denote(v))
  {
    hide KeywordOf, Sound, WellKeyed, Equal, Denote, Held;
    NamesTrees();
    HeldIs(schema, "uniqueItems", Denote(v));
    Sizes(v);
    ItemsSound(v);
    if v.Arr? {
      forall i, j | 0 <= j < i < |v.items|
        ensures Equal(v.items[i], v.items[j]) <==> Denote(v).items[i] == Denote(v).items[j]
      {
        EqualExact(v.items[i], v.items[j]);
      }
    }
  }

  // ---------- Objects ----------

  lemma KeysAll(v: Json)
    requires v.Obj? && WellKeyed(v)
    ensures Denote(v).VObject? && forall name :: Has(v.members, name) <==> name in Denote(v).members
  {
    hide WellKeyed, Denote, Distinct;
    MembersOf(v);
    forall name
      ensures Has(v.members, name) <==> name in Denote(v).members
    {
      KeysHave(v.members, name);
    }
  }

  lemma RequiredHeld(schema: Json, v: Json)
    requires Sound(schema) && schema.Obj? && WellKeyed(v)
    ensures (v.Obj? ==> forall k | 0 <= k < |Listed(schema, "required")| :: Has(v.members, KindText(Listed(schema, "required")[k]))) <==>
            Held(schema, "required", Denote(v))
  {
    hide KeywordOf, Sound, WellKeyed, Denote, Held, Distinct;
    NamesTrees();
    HeldIs(schema, "required", Denote(v));
    Sizes(v);
    if Has(schema.members, "required") {
      KeywordAt(schema, "required");
      assert Listed(schema, "required") == Under(schema, "required").items;
      if v.Obj? {
        KeysAll(v);
      }
    }
  }

  /** Whether the matcher uses a schema of the property's own. */
  predicate OwnSchema(schema: Json, name: string)
    requires schema.Obj?
  {
    Has(schema.members, "properties") && Under(schema, "properties").Obj? && Has(Under(schema, "properties").members, name)
  }

  lemma NamedIs(schema: Json, name: string)
    requires schema.Obj? && DistinctKeys(schema.members)
    ensures Named(schema, name) <==> OwnSchema(schema, name)
  {
    hide KeywordOf;
    NamesTrees();
    if Named(schema, name) {
      var k :| 0 <= k < |schema.members| &&
        KeywordOf(schema.members[k].key).Properties? && schema.members[k].value.Obj? && Has(schema.members[k].value.members, name);
      NameBack(schema.members[k].key);
      FindIs(schema.members, k);
    }
    if OwnSchema(schema, name) {
      var k := Find(schema.members, "properties");
      assert schema.members[k].key == "properties" && Has(schema.members[k].value.members, name);
    }
  }

  /** What the schema asks of one property of the value. */
  ghost predicate PropertySatisfies(schema: Json, name: string, x: Value)
    requires schema.Obj?
  {
    var child := PropertySchema(schema, name);
    child.Some? ==> Satisfies(child.value, x)
  }

  /** One property, matched and declared. */
  lemma {:induction false} PropertyExact(schema: Json, name: string, v: Json)
    requires Sound(schema) && schema.Obj? && WellKeyed(v)
    ensures var child := PropertySchema(schema, name);
            (child.Some? ==> Matches(child.value, v)) <==> PropertySatisfies(schema, name, Denote(v))
    decreases schema, 0
  {
    hide KeywordOf, Sound, WellKeyed, Matches, Satisfies, Denote;
    NamesTrees();
    var child := PropertySchema(schema, name);
    if OwnSchema(schema, name) {
      PropertyAt(schema, name);
      MatchesExact(child.value, v);
    } else if Has(schema.members, "additionalProperties") {
      ChildAt(schema, "additionalProperties");
      MatchesExact(child.value, v);
    }
  }

  /** The properties with schemas of their own. */
  ghost predicate OwnSatisfied(schema: Json, x: Value)
    requires schema.Obj? && x.VObject?
  {
    forall name | name in x.members && OwnSchema(schema, name) :: Satisfies(Under(Under(schema, "properties"), name), x.members[name])
  }

  /** All other properties. */
  ghost predicate OthersSatisfied(schema: Json, x: Value)
    requires schema.Obj? && x.VObject?
  {
    Has(schema.members, "additionalProperties") ==>
      forall name | name in x.members && !OwnSchema(schema, name) :: Satisfies(Under(schema, "additionalProperties"), x.members[name])
  }

  lemma OwnHeld(schema: Json, x: Value)
    requires Sound(schema) && schema.Obj? && x.VObject?
    ensures Held(schema, "properties", x) <==> OwnSatisfied(schema, x)
  {
    hide KeywordOf, Sound, Satisfies, Held, PropertiesAsserts;
    NamesTrees();
    HeldIs(schema, "properties", x);
    if Has(schema.members, "properties") {
      KeywordAt(schema, "properties");
      OwnMean(schema, x);
    }
  }

  lemma OthersHeld(schema: Json, x: Value)
    requires Sound(schema) && schema.Obj? && x.VObject?
    ensures Held(schema, "additionalProperties", x) <==> OthersSatisfied(schema, x)
  {
    SoundKeys(schema);
    hide KeywordOf, Sound, Satisfies, Held, Named, OwnSchema, SizeAsserts, BoundAsserts;
    NamesTrees();
    HeldIs(schema, "additionalProperties", x);
    forall name
      ensures Named(schema, name) <==> OwnSchema(schema, name)
    {
      NamedIs(schema, name);
    }
  }

  /** The two property keywords together: every property satisfies its own schema, or else the one for the others. */
  lemma PropertiesMean(schema: Json, x: Value)
    requires Sound(schema) && schema.Obj? && x.VObject?
    ensures Held(schema, "properties", x) && Held(schema, "additionalProperties", x) <==>
            forall name | name in x.members :: PropertySatisfies(schema, name, x.members[name])
  {
    OwnHeld(schema, x);
    OthersHeld(schema, x);
    hide Sound, Satisfies, Held;
    forall name | name in x.members
      ensures PropertySatisfies(schema, name, x.members[name]) <==>
              && (OwnSchema(schema, name) ==> Satisfies(Under(Under(schema, "properties"), name), x.members[name]))
              && (!OwnSchema(schema, name) && Has(schema.members, "additionalProperties") ==>
                    Satisfies(Under(schema, "additionalProperties"), x.members[name]))
    {
    }
    hide PropertySatisfies, OwnSchema;
  }

  lemma SoundKeys(schema: Json)
    requires Sound(schema) && schema.Obj?
    ensures DistinctKeys(schema.members)
  {
  }

  lemma OwnMean(schema: Json, x: Value)
    requires Sound(schema) && schema.Obj? && x.VObject? && Has(schema.members, "properties") && Under(schema, "properties").Obj?
    ensures PropertiesAsserts(Under(schema, "properties"), x) <==>
            forall name | name in x.members && OwnSchema(schema, name) :: Satisfies(Under(Under(schema, "properties"), name), x.members[name])
  {
    hide KeywordOf, Satisfies, KeywordOk, Compiles;
    KeywordAt(schema, "properties");
    var own := Under(schema, "properties");
    assert DistinctKeys(own.members);
    forall p | 0 <= p < |own.members|
      ensures OwnSchema(schema, own.members[p].key) && Under(own, own.members[p].key) == own.members[p].value
    {
      FindIs(own.members, p);
    }
    forall name | OwnSchema(schema, name)
      ensures exists p | 0 <= p < |own.members| :: own.members[p].key == name
    {
      var p := Find(own.members, name);
      assert own.members[p].key == name;
    }
  }

  lemma {:induction false} PropertiesHeld(schema: Json, v: Json)
    requires Sound(schema) && schema.Obj? && WellKeyed(v)
    ensures (v.Obj? ==> PropertiesOk(schema, v)) <==>
            Held(schema, "properties", Denote(v)) && Held(schema, "additionalProperties", Denote(v))
    decreases schema, 1
  {
    hide KeywordOf, Sound, Held, Matches, Denote, PropertySatisfies, PropertySchema;
    Sizes(v);
    if v.Obj? {
      MembersOf(v);
      PropertiesMean(schema, Denote(v));
      forall k | 0 <= k < |v.members|
        ensures var child := PropertySchema(schema, v.members[k].key);
                (child.Some? ==> Matches(child.value, v.members[k].value))
                <==> PropertySatisfies(schema, v.members[k].key, Denote(v.members[k].value))
      {
        PropertyExact(schema, v.members[k].key, v.members[k].value);
      }
      EveryKey(v);
    } else {
      NotAnObject(schema, Denote(v));
    }
  }

  lemma EveryKey(v: Json)
    requires v.Obj?
    ensures forall name | name in Keys(v.members) :: exists k :: 0 <= k < |v.members| && v.members[k].key == name
  {
  }

  lemma NotAnObject(schema: Json, x: Value)
    requires schema.Obj? && !x.VObject?
    ensures Held(schema, "properties", x) && Held(schema, "additionalProperties", x)
  {
    hide KeywordOf, Held, Satisfies;
    NamesTrees();
    HeldIs(schema, "properties", x);
    HeldIs(schema, "additionalProperties", x);
  }

  // ---------- All keywords ----------

  /** Annotations and the dialect assert nothing. */
  lemma SilentHeld(schema: Json, key: string, x: Value)
    requires schema.Obj? && (KeywordOf(key).Annotation? || KeywordOf(key).Unsupported? || KeywordOf(key).Dialect?)
    ensures Held(schema, key, x)
  {
    hide KeywordOf, Held;
    HeldIs(schema, key, x);
  }

  ghost predicate HeldScalars(schema: Json, x: Value)
    requires schema.Obj?
  {
    && Held(schema, "type", x) && Held(schema, "const", x) && Held(schema, "enum", x)
    && Held(schema, "minLength", x) && Held(schema, "maxLength", x)
    && Held(schema, "minimum", x) && Held(schema, "maximum", x)
    && Held(schema, "exclusiveMinimum", x) && Held(schema, "exclusiveMaximum", x)
  }

  ghost predicate HeldTrees(schema: Json, x: Value)
    requires schema.Obj?
  {
    && Held(schema, "allOf", x) && Held(schema, "anyOf", x) && Held(schema, "oneOf", x)
    && Held(schema, "required", x) && Held(schema, "properties", x) && Held(schema, "additionalProperties", x)
    && Held(schema, "minProperties", x) && Held(schema, "maxProperties", x)
    && Held(schema, "minItems", x) && Held(schema, "maxItems", x)
    && Held(schema, "items", x) && Held(schema, "uniqueItems", x)
  }

  lemma HeldTogether(schema: Json, x: Value)
    requires schema.Obj? && DistinctKeys(schema.members)
    ensures Satisfies(schema, x) <==> HeldScalars(schema, x) && HeldTrees(schema, x)
  {
    hide Held, Satisfies, KeywordOf, NameOf;
    AllHeld(schema, x);
    if HeldScalars(schema, x) && HeldTrees(schema, x) {
      forall key
        ensures Held(schema, key, x)
      {
        NameBack(key);
        if KeywordOf(key).Annotation? || KeywordOf(key).Unsupported? || KeywordOf(key).Dialect? {
          SilentHeld(schema, key, x);
        } else {
          NamedHeld(schema, KeywordOf(key), x);
        }
      }
    }
  }

  lemma NamedHeld(schema: Json, w: Keyword, x: Value)
    requires schema.Obj? && HeldScalars(schema, x) && HeldTrees(schema, x)
    requires !w.Annotation? && !w.Unsupported? && !w.Dialect?
    ensures Held(schema, NameOf(w), x)
  {
    hide Held;
  }

  lemma MatchesScalars(schema: Json, v: Json)
    requires Sound(schema) && schema.Obj? && WellKeyed(v)
    ensures TypeOk(schema, v) && LiteralsOk(schema, v)
            && (v.Str? ==> SizeOk(schema, "minLength", "maxLength", |v.text|)) && (Numeric(v) ==> NumberOk(schema, v))
            <==> HeldScalars(schema, Denote(v))
  {
    hide Held, TypeOk, LiteralsOk, SizeOk, NumberOk, Denote, Sound, WellKeyed;
    TypeHeld(schema, v);
    LiteralsHeld(schema, v);
    SizesHeld(schema, v);
    NumbersHeld(schema, v);
  }

  lemma {:induction false} MatchesTrees(schema: Json, v: Json)
    requires Sound(schema) && schema.Obj? && WellKeyed(v)
    ensures CombinersOk(schema, v) && (v.Obj? ==> ObjectOk(schema, v)) && (v.Arr? ==> ArrayOk(schema, v))
            <==> HeldTrees(schema, Denote(v))
    decreases schema, 3
  {
    hide Held, CombinersOk, SizeOk, Denote, Sound, WellKeyed, Matches, Equal, PropertySchema, PropertiesOk, Listed;
    CombinersHeld(schema, v);
    SizesHeld(schema, v);
    ItemsHeld(schema, v);
    UniqueHeld(schema, v);
    RequiredHeld(schema, v);
    PropertiesHeld(schema, v);
  }

  /** The matcher is exact: it accepts a value when, and only when, the value satisfies everything the schema declares. */
  lemma {:induction false} MatchesExact(schema: Json, v: Json)
    requires Sound(schema) && WellKeyed(v)
    ensures Matches(schema, v) <==> Satisfies(schema, Denote(v))
    decreases schema, 4
  {
    if schema.Obj? {
      hide Satisfies, TypeOk, LiteralsOk, SizeOk, NumberOk, CombinersOk, ObjectOk, ArrayOk, Denote, Sound, HeldScalars, HeldTrees;
      SoundKeys(schema);
      HeldTogether(schema, Denote(v));
      MatchesScalars(schema, v);
      MatchesTrees(schema, v);
    } else {
      hide Denote;
    }
  }

  /** Two spellings of one value are accepted alike: member order and `1` against `1.0` make no difference. */
  lemma SpellingIrrelevant(schema: Json, a: Json, b: Json)
    requires Sound(schema) && WellKeyed(a) && WellKeyed(b) && Equal(a, b)
    ensures Matches(schema, a) <==> Matches(schema, b)
  {
    hide Sound, WellKeyed, Equal, Matches, Satisfies, Denote;
    EqualExact(a, b);
    MatchesExact(schema, a);
    MatchesExact(schema, b);
  }
}
