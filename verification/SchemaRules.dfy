/** The supported schema subset, keyword by keyword and place by place, apart from the walk that accepts it. */
module SchemaRules {
  import opened Tokens
  import opened Json
  import opened JsonValues
  import opened ToolSchema

  // ---------- One keyword ----------

  ghost predicate Annotates(name: string) {
    || name == "title" || name == "description" || name == "$comment" || name == "default"
    || name == "examples" || name == "readOnly" || name == "writeOnly" || name == "deprecated"
  }

  ghost predicate Counts(name: string) {
    || name == "minLength" || name == "maxLength" || name == "minItems" || name == "maxItems"
    || name == "minProperties" || name == "maxProperties"
  }

  ghost predicate Limits(name: string) {
    name == "minimum" || name == "maximum" || name == "exclusiveMinimum" || name == "exclusiveMaximum"
  }

  ghost predicate Combines(name: string) { name == "allOf" || name == "anyOf" || name == "oneOf" }

  ghost predicate OneSchema(name: string) { name == "additionalProperties" || name == "items" }

  ghost predicate Other(name: string) {
    || name == "$schema" || name == "type" || name == "properties" || name == "required"
    || name == "uniqueItems" || name == "enum" || name == "const"
  }

  ghost predicate Supported(name: string) {
    Annotates(name) || Counts(name) || Limits(name) || Combines(name) || OneSchema(name) || Other(name)
  }

  ghost predicate IsType(v: Json) {
    && v.Str?
    && (v.text == "null" || v.text == "boolean" || v.text == "object" || v.text == "array"
        || v.text == "number" || v.text == "integer" || v.text == "string")
  }

  ghost predicate NoneTwice(items: seq<Json>) { !exists i, j :: 0 <= i < j < |items| && items[i] == items[j] }

  ghost predicate SomeList(v: Json) { v.Arr? && 1 <= |v.items| <= 128 }

  /** Literals nest at most 16 deep and hold at most 128 things at each place. */
  predicate PlainLiteral(v: Json, depth: nat) { depth <= 16 && ChildCount(v) <= 128 }

  /** What the value of a supported keyword must be. */
  ghost predicate Rule(name: string, v: Json) {
    && Supported(name)
    && (name == "$schema" ==> v == Str("https://json-schema.org/draft/2020-12/schema"))
    && (name == "type" ==> IsType(v) || (v.Arr? && 1 <= |v.items| <= 7 && NoneTwice(v.items) && forall kind | kind in v.items :: IsType(kind)))
    && (name == "properties" ==> v.Obj? && |v.members| <= 128)
    && (name == "required" ==> v.Arr? && |v.items| <= 128 && NoneTwice(v.items) && forall item | item in v.items :: item.Str?)
    && (Combines(name) ==> SomeList(v))
    && (Counts(name) ==> v.Int? && 0 <= v.whole)
    && (Limits(name) ==> v.Int? || v.Float?)
    && (name == "uniqueItems" ==> v.Bool?)
    && (name == "enum" ==> SomeList(v) && forall literal | literal in v.items :: Throughout(literal, 0, PlainLiteral))
    && (name == "const" ==> Throughout(v, 0, PlainLiteral))
  }

  lemma NamesNotes()
    ensures KeywordOf("title").Annotation? && KeywordOf("description").Annotation? && KeywordOf("$comment").Annotation?
  {
  }

  lemma NamesSamples()
    ensures KeywordOf("default").Annotation? && KeywordOf("examples").Annotation? && KeywordOf("$schema").Dialect?
  {
  }

  lemma NamesFlags()
    ensures KeywordOf("readOnly").Annotation? && KeywordOf("writeOnly").Annotation? && KeywordOf("deprecated").Annotation?
  {
  }

  lemma AnnotatesExactly(name: string)
    ensures Annotates(name) <==> KeywordOf(name).Annotation?
  {
    if Annotates(name) {
      hide KeywordOf;
      NamesNotes();
      NamesSamples();
      NamesFlags();
    }
  }

  lemma CountsExactly(name: string)
    ensures Counts(name) <==> Size(KeywordOf(name))
    ensures Limits(name) <==> Bound(KeywordOf(name))
  {
    hide KeywordOf;
    NameBack(name);
    NamesSizes();
    NamesBounds();
  }

  lemma CombinesExactly(name: string)
    ensures Combines(name) <==> Combiner(KeywordOf(name))
    ensures OneSchema(name) <==> KeywordOf(name).Additional? || KeywordOf(name).Items?
  {
    hide KeywordOf;
    NameBack(name);
    NamesTrees();
  }

  lemma OthersExactly(name: string)
    ensures (name == "$schema" <==> KeywordOf(name).Dialect?) && (name == "type" <==> KeywordOf(name).Types?)
    ensures (name == "properties" <==> KeywordOf(name).Properties?) && (name == "required" <==> KeywordOf(name).Required?)
    ensures (name == "uniqueItems" <==> KeywordOf(name).Unique?) && (name == "enum" <==> KeywordOf(name).Enum?)
    ensures name == "const" <==> KeywordOf(name).Const?
  {
    hide KeywordOf;
    NameBack(name);
    NamesTypes();
    NamesTrees();
    NamesSamples();
  }

  lemma SupportedExactly(name: string)
    ensures Supported(name) <==> !KeywordOf(name).Unsupported?
  {
    AnnotatesExactly(name);
    CountsExactly(name);
    CombinesExactly(name);
    OthersExactly(name);
    hide KeywordOf, Annotates, Counts, Limits, Combines, OneSchema;
  }

  lemma {:induction false} LiteralExactly(v: Json, depth: nat)
    ensures LiteralOk(v, depth) <==> Throughout(v, depth, PlainLiteral)
    decreases v
  {
    hide Throughout;
    ThroughoutStep(v, depth, PlainLiteral);
    forall k | 0 <= k < ChildCount(v)
      ensures LiteralOk(ChildNumber(v, k), depth + 1) <==> Throughout(ChildNumber(v, k), depth + 1, PlainLiteral)
    {
      LiteralExactly(ChildNumber(v, k), depth + 1);
    }
    assert v.Arr? ==> forall k | 0 <= k < |v.items| :: v.items[k] == ChildNumber(v, k);
    assert v.Obj? ==> forall k | 0 <= k < |v.members| :: v.members[k].value == ChildNumber(v, k);
  }

  lemma KindsExactly(v: Json)
    ensures KindsOk(Kinds(v)) <==>
              IsType(v) || (v.Arr? && 1 <= |v.items| <= 7 && NoneTwice(v.items) && forall kind | kind in v.items :: IsType(kind))
  {
    assert !v.Arr? ==> Kinds(v)[0] == v;
    assert forall kind | kind in Kinds(v) :: exists k :: 0 <= k < |Kinds(v)| && Kinds(v)[k] == kind;
    assert forall k | 0 <= k < |Kinds(v)| :: Kinds(v)[k] in Kinds(v);
  }

  lemma EnumExactly(v: Json)
    ensures v.Arr? ==> ((forall k | 0 <= k < |v.items| :: LiteralOk(v.items[k], 0))
                        <==> forall literal | literal in v.items :: Throughout(literal, 0, PlainLiteral))
  {
    hide LiteralOk, Throughout;
    forall literal
      ensures LiteralOk(literal, 0) <==> Throughout(literal, 0, PlainLiteral)
    {
      LiteralExactly(literal, 0);
    }
  }

  lemma RequiredExactly(v: Json)
    ensures v.Arr? ==> (AllStrings(v.items) && Distinct(v.items) <==> NoneTwice(v.items) && forall item | item in v.items :: item.Str?)
  {
  }

  lemma RuleChecked(name: string, v: Json)
    requires Rule(name, v)
    ensures Field(name) && KeywordOk(KeywordOf(name), v)
  {
    SupportedExactly(name);
    CountsExactly(name);
    CombinesExactly(name);
    OthersExactly(name);
    KindsExactly(v);
    LiteralExactly(v, 0);
    EnumExactly(v);
    RequiredExactly(v);
    hide KeywordOf, Supported, Annotates, Counts, Limits, Combines, OneSchema, Other, Throughout, LiteralOk,
      KindsOk, Kinds, IsType, NoneTwice, Distinct, AllStrings;
  }

  lemma CheckedRule(name: string, v: Json)
    requires Field(name) && KeywordOk(KeywordOf(name), v)
    ensures Rule(name, v)
  {
    SupportedExactly(name);
    CountsExactly(name);
    CombinesExactly(name);
    OthersExactly(name);
    KindsExactly(v);
    LiteralExactly(v, 0);
    EnumExactly(v);
    RequiredExactly(v);
    hide KeywordOf, Supported, Annotates, Counts, Limits, Combines, OneSchema, Other, Throughout, LiteralOk,
      KindsOk, Kinds, IsType, NoneTwice, Distinct, AllStrings;
  }

  lemma RuleExactly(name: string, v: Json)
    ensures Rule(name, v) <==> Field(name) && KeywordOk(KeywordOf(name), v)
  {
    hide Rule, Field, KeywordOk, KeywordOf;
    if Rule(name, v) {
      RuleChecked(name, v);
    } else if Field(name) && KeywordOk(KeywordOf(name), v) {
      CheckedRule(name, v);
    }
  }

  // ---------- The whole schema ----------

  /** A schema directly inside another: a property's, a combined one, or the one for further properties or for items. */
  ghost predicate Part(schema: Json, c: Json) {
    schema.Obj? && exists m :: m in schema.members && PartOf(m, c)
  }

  ghost predicate PartOf(m: Member, c: Json) {
    || (OneSchema(m.key) && c == m.value)
    || (m.key == "properties" && m.value.Obj? && exists p :: p in m.value.members && p.value == c)
    || (Combines(m.key) && m.value.Arr? && c in m.value.items)
  }

  lemma PartOfExactly(m: Member, c: Json)
    ensures c in Direct(m) <==> PartOf(m, c)
  {
    CombinesExactly(m.key);
    OthersExactly(m.key);
    hide KeywordOf, Combines, OneSchema;
    if KeywordOf(m.key).Properties? && m.value.Obj? {
      var members := m.value.members;
      assert |Direct(m)| == |members| && forall k | 0 <= k < |members| :: Direct(m)[k] == members[k].value;
    }
  }

  lemma {:induction false} PartFrom(schema: Json, k: nat, c: Json)
    requires schema.Obj? && k <= |schema.members|
    ensures c in SubsFrom(schema, k) <==> exists j :: k <= j < |schema.members| && PartOf(schema.members[j], c)
    decreases |schema.members| - k
  {
    hide Direct, PartOf;
    if k < |schema.members| {
      PartOfExactly(schema.members[k], c);
      PartFrom(schema, k + 1, c);
    }
  }

  lemma PartExactly(schema: Json, c: Json)
    ensures c in Subs(schema) <==> Part(schema, c)
  {
    hide PartOf, SubsFrom;
    if schema.Obj? {
      PartFrom(schema, 0, c);
    }
  }

  /** Schemas one inside the other, from the whole one inwards. */
  ghost predicate Chain(s: seq<Json>, schema: Json) {
    |s| > 0 && s[0] == schema && forall k | 0 < k < |s| :: Part(s[k - 1], s[k])
  }

  ghost predicate WellFormed(schema: Json) {
    schema.Bool? || (schema.Obj? && forall m | m in schema.members :: Rule(m.key, m.value))
  }

  /** Every schema in the tree is well formed and none lies deeper than `d`. */
  ghost predicate Sound(schema: Json, d: int) {
    forall s | Chain(s, schema) :: |s| - 1 <= d && WellFormed(s[|s| - 1])
  }

  lemma ChainStep(s: seq<Json>, schema: Json)
    ensures |s| > 1 ==> (Chain(s, schema) <==> s[0] == schema && Part(schema, s[1]) && Chain(s[1..], s[1]))
    ensures |s| > 0 ==> forall c | Part(schema, c) && s[0] == c && Chain(s, c) :: Chain([schema] + s, schema)
  {
    hide Part;
    if |s| > 1 && s[0] == schema && Part(schema, s[1]) && Chain(s[1..], s[1]) {
      forall k | 0 < k < |s|
        ensures Part(s[k - 1], s[k])
      {
        assert k > 1 ==> s[k - 1] == s[1..][k - 2] && s[k] == s[1..][k - 1];
      }
    }
  }

  lemma SoundStep(schema: Json, d: int)
    ensures Sound(schema, d) <==> d >= 0 && WellFormed(schema) && forall c | Part(schema, c) :: Sound(c, d - 1)
  {
    hide Part, WellFormed;
    assert Chain([schema], schema);
    if Sound(schema, d) {
      forall c, s | Part(schema, c) && Chain(s, c)
        ensures |s| - 1 <= d - 1 && WellFormed(s[|s| - 1])
      {
        ChainStep(s, schema);
        var t := [schema] + s;
        assert t[|t| - 1] == s[|s| - 1];
      }
    }
    if d >= 0 && WellFormed(schema) && forall c | Part(schema, c) :: Sound(c, d - 1) {
      forall s | Chain(s, schema)
        ensures |s| - 1 <= d && WellFormed(s[|s| - 1])
      {
        ChainStep(s, schema);
        if |s| > 1 {
          assert s[1..][|s| - 2] == s[|s| - 1];
        }
      }
    }
  }

  lemma WellFormedExactly(schema: Json)
    ensures WellFormed(schema) <==>
              schema.Bool? || (schema.Obj? && forall k | 0 <= k < |schema.members| ::
                Field(schema.members[k].key) && KeywordOk(KeywordOf(schema.members[k].key), schema.members[k].value))
  {
    hide Rule, Field, KeywordOk, KeywordOf;
    if schema.Obj? {
      forall k | 0 <= k < |schema.members|
        ensures var m := schema.members[k]; Rule(m.key, m.value) <==> Field(m.key) && KeywordOk(KeywordOf(m.key), m.value)
      {
        RuleExactly(schema.members[k].key, schema.members[k].value);
      }
      assert forall m | m in schema.members :: exists k :: 0 <= k < |schema.members| && schema.members[k] == m;
    }
  }

  lemma {:induction false} SoundExactly(schema: Json, d: int)
    ensures Compiles(schema) && Within(schema, d) <==> Sound(schema, d)
    decreases schema
  {
    hide Sound, WellFormed, Part, Field, KeywordOk, KeywordOf, Subs;
    SoundStep(schema, d);
    WellFormedExactly(schema);
    forall c
      ensures c in Subs(schema) <==> Part(schema, c)
    {
      PartExactly(schema, c);
    }
    forall c | c in Subs(schema)
      ensures Compiles(c) && Within(c, d - 1) <==> Sound(c, d - 1)
    {
      SoundExactly(c, d - 1);
    }
    if schema.Bool? {
      BoolPlain(schema);
    }
  }

  lemma BoolPlain(schema: Json)
    requires schema.Bool?
    ensures Subs(schema) == []
  {
  }

  /** A tool's schema is accepted exactly when it holds at most 512 schemas, none nested more than 16 deep, and every one
      of them uses supported keywords only, each with a value its rule allows. */
  method CompileTool(schema: Json) returns (ok: bool)
    ensures ok <==> Nodes(schema) <= 512 && forall s | Chain(s, schema) :: |s| <= 17 && WellFormed(s[|s| - 1])
  {
    hide Compiles, Within, Nodes, Chain, WellFormed;
    var budget := new Budget();
    ok := CompileSchema(schema, 0, budget);
    SoundExactly(schema, 16);
  }
}
