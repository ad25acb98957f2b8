/** Compiling and matching the JSON schemas that executable tool calls are bound to. */
module ToolSchema {
  import opened Tokens
  import opened Json
  import opened JsonValues

  const MAX_DEPTH := 16
  const MAX_NODES := 512
  const MAX_COLLECTION := 128

  /** The supported keywords. */
  datatype Keyword =
    | Types | Const | Enum | AllOf | AnyOf | OneOf | Required | Properties | Additional | Items | Unique
    | MinLength | MaxLength | MinItems | MaxItems | MinProperties | MaxProperties
    | Minimum | Maximum | ExclusiveMinimum | ExclusiveMaximum | Dialect
    | Annotation | Unsupported

  function KeywordOf(key: string): Keyword {
    if key == "type" then Types
    else if key == "const" then Const
    else if key == "enum" then Enum
    else if key == "allOf" then AllOf
    else if key == "anyOf" then AnyOf
    else if key == "oneOf" then OneOf
    else if key == "required" then Required
    else if key == "properties" then Properties
    else if key == "additionalProperties" then Additional
    else if key == "items" then Items
    else if key == "uniqueItems" then Unique
    else if key == "minLength" then MinLength
    else if key == "maxLength" then MaxLength
    else if key == "minItems" then MinItems
    else if key == "maxItems" then MaxItems
    else if key == "minProperties" then MinProperties
    else if key == "maxProperties" then MaxProperties
    else if key == "minimum" then Minimum
    else if key == "maximum" then Maximum
    else if key == "exclusiveMinimum" then ExclusiveMinimum
    else if key == "exclusiveMaximum" then ExclusiveMaximum
    else if key == "$schema" then Dialect
    else if key in {"title", "description", "$comment", "default", "examples", "readOnly", "writeOnly", "deprecated"} then Annotation
    else Unsupported
  }

  function NameOf(w: Keyword): string {
    match w
    case Types => "type"
    case Const => "const"
    case Enum => "enum"
    case AllOf => "allOf"
    case AnyOf => "anyOf"
    case OneOf => "oneOf"
    case Required => "required"
    case Properties => "properties"
    case Additional => "additionalProperties"
    case Items => "items"
    case Unique => "uniqueItems"
    case MinLength => "minLength"
    case MaxLength => "maxLength"
    case MinItems => "minItems"
    case MaxItems => "maxItems"
    case MinProperties => "minProperties"
    case MaxProperties => "maxProperties"
    case Minimum => "minimum"
    case Maximum => "maximum"
    case ExclusiveMinimum => "exclusiveMinimum"
    case ExclusiveMaximum => "exclusiveMaximum"
    case Dialect => "$schema"
    case _ => ""
  }

  /** A keyword that means something has one name. */
  lemma NameBack(key: string)
    ensures !KeywordOf(key).Annotation? && !KeywordOf(key).Unsupported? ==> key == NameOf(KeywordOf(key))
  {
  }

  lemma NamesTypes()
    ensures KeywordOf("type").Types? && KeywordOf("const").Const? && KeywordOf("enum").Enum?
  {
  }

  lemma NamesTrees()
    ensures KeywordOf("allOf").AllOf? && KeywordOf("anyOf").AnyOf? && KeywordOf("oneOf").OneOf?
    ensures KeywordOf("required").Required? && KeywordOf("properties").Properties? && KeywordOf("additionalProperties").Additional?
    ensures KeywordOf("items").Items? && KeywordOf("uniqueItems").Unique?
  {
  }

  lemma NamesSizes()
    ensures KeywordOf("minLength").MinLength? && KeywordOf("maxLength").MaxLength?
    ensures KeywordOf("minItems").MinItems? && KeywordOf("maxItems").MaxItems?
    ensures KeywordOf("minProperties").MinProperties? && KeywordOf("maxProperties").MaxProperties?
  {
  }

  lemma NamesBounds()
    ensures KeywordOf("minimum").Minimum? && KeywordOf("maximum").Maximum?
    ensures KeywordOf("exclusiveMinimum").ExclusiveMinimum? && KeywordOf("exclusiveMaximum").ExclusiveMaximum?
  {
  }

  predicate Size(w: Keyword) {
    w.MinLength? || w.MaxLength? || w.MinItems? || w.MaxItems? || w.MinProperties? || w.MaxProperties?
  }

  predicate Bound(w: Keyword) { w.Minimum? || w.Maximum? || w.ExclusiveMinimum? || w.ExclusiveMaximum? }

  predicate Combiner(w: Keyword) { w.AllOf? || w.AnyOf? || w.OneOf? }

  predicate Field(key: string) { !KeywordOf(key).Unsupported? }

  predicate TypeName(kind: string) { kind in {"null", "boolean", "object", "array", "number", "integer", "string"} }

  // ---------- What one keyword must look like ----------

  /** Literals are bounded in depth and in the size of every collection. */
  predicate LiteralOk(v: Json, depth: nat)
    decreases v
  {
    && depth <= MAX_DEPTH
    && match v
       case Arr(items) => |items| <= MAX_COLLECTION && forall k | 0 <= k < |items| :: LiteralOk(items[k], depth + 1)
       case Obj(members) =>
         |members| <= MAX_COLLECTION && forall k | 0 <= k < |members| :: LiteralOk(members[k].value, depth + 1)
       case _ => true
  }

  predicate AllStrings(items: seq<Json>) { forall k | 0 <= k < |items| :: items[k].Str? }

  predicate Distinct(items: seq<Json>) { forall i, j | 0 <= i < j < |items| :: items[i] != items[j] }

  function Kinds(value: Json): seq<Json> { if value.Arr? then value.items else [value] }

  predicate KindsOk(kinds: seq<Json>) {
    && 0 < |kinds| <= 7
    && (forall k | 0 <= k < |kinds| :: kinds[k].Str? && TypeName(kinds[k].text))
    && Distinct(kinds)
  }

  predicate KeywordOk(w: Keyword, value: Json) {
    if w.Dialect? then value == Str("https://json-schema.org/draft/2020-12/schema")
    else if w.Types? then KindsOk(Kinds(value))
    else if w.Properties? then value.Obj? && |value.members| <= MAX_COLLECTION
    else if w.Required? then value.Arr? && |value.items| <= MAX_COLLECTION && AllStrings(value.items) && Distinct(value.items)
    else if Combiner(w) then value.Arr? && 0 < |value.items| <= MAX_COLLECTION
    else if Size(w) then value.Int? && value.whole >= 0
    else if Bound(w) then Numeric(value)
    else if w.Unique? then value.Bool?
    else if w.Enum? then
      value.Arr? && 0 < |value.items| <= MAX_COLLECTION && forall k | 0 <= k < |value.items| :: LiteralOk(value.items[k], 0)
    else if w.Const? then LiteralOk(value, 0)
    else true
  }

  // ---------- The tree of subschemas ----------

  /** The subschemas directly under one keyword. */
  function Direct(m: Member): (r: seq<Json>)
    ensures forall c | c in r :: c < m
  {
    var w := KeywordOf(m.key);
    if w.Properties? && m.value.Obj? then
      var members := m.value.members;
      seq(|members|, k requires 0 <= k < |members| => members[k].value)
    else if w.Additional? || w.Items? then [m.value]
    else if Combiner(w) && m.value.Arr? then m.value.items
    else []
  }

  function SubsFrom(schema: Json, k: nat): (r: seq<Json>)
    requires schema.Obj? && k <= |schema.members|
    ensures forall c | c in r :: c < schema
    decreases |schema.members| - k
  {
    if k == |schema.members| then [] else Direct(schema.members[k]) + SubsFrom(schema, k + 1)
  }

  /** All direct subschemas, in the order they are visited. */
  function Subs(schema: Json): (r: seq<Json>)
    ensures forall c | c in r :: c < schema
  {
    if schema.Obj? then SubsFrom(schema, 0) else []
  }

  /** How many schemas there are in this one, itself included. */
  function Nodes(schema: Json): (n: nat)
    ensures n > 0
    decreases schema, 0
  {
    1 + NodesFrom(schema, 0)
  }

  function NodesFrom(schema: Json, i: nat): nat
    requires i <= |Subs(schema)|
    decreases schema, 0, |Subs(schema)| - i
  {
    if i == |Subs(schema)| then 0
    else
      assert Subs(schema)[i] in Subs(schema);
      Nodes(Subs(schema)[i]) + NodesFrom(schema, i + 1)
  }

  /** No schema nested more than `d` deep. */
  predicate Within(schema: Json, d: int)
    decreases schema
  {
    d >= 0 && forall c | c in Subs(schema) :: Within(c, d - 1)
  }

  /** Only supported keywords, each well formed, in every schema of the tree. */
  predicate Compiles(schema: Json)
    decreases schema
  {
    || schema.Bool?
    || (&& schema.Obj?
        && (forall k | 0 <= k < |schema.members| ::
              Field(schema.members[k].key) && KeywordOk(KeywordOf(schema.members[k].key), schema.members[k].value))
        && forall c | c in Subs(schema) :: Compiles(c))
  }

  class Budget {
    var left: int

    constructor ()
      ensures left == MAX_NODES
    {
      left := MAX_NODES;
    }
  }

  /** What has been accepted so far: the first `k` keywords and the first `i` subschemas, paid for out of `budget`. */
  ghost predicate Admitted(schema: Json, k: nat, i: nat, depth: nat, spent: int) {
    && schema.Obj? && k <= |schema.members| && i <= |Subs(schema)|
    && (forall j | 0 <= j < k :: KeywordOk(KeywordOf(schema.members[j].key), schema.members[j].value))
    && (forall j | 0 <= j < i :: Compiles(Subs(schema)[j]) && Within(Subs(schema)[j], MAX_DEPTH - depth - 1))
    && spent + NodesFrom(schema, i) == Nodes(schema)
  }

  /** Where the subschemas of keyword `k`, from its `j`th on, stand among all of them. */
  ghost predicate Standing(schema: Json, k: nat, children: seq<Json>, j: nat, i: nat) {
    && schema.Obj? && k < |schema.members| && j <= |children| && i <= |Subs(schema)|
    && Subs(schema)[i..] == children[j..] + SubsFrom(schema, k + 1)
  }

  predicate KnownFields(schema: Json) {
    schema.Obj? && forall k | 0 <= k < |schema.members| :: Field(schema.members[k].key)
  }

  ghost predicate Accepted(schema: Json, depth: nat, budget: int) {
    Compiles(schema) && Within(schema, MAX_DEPTH - depth) && Nodes(schema) <= budget
  }

  lemma Opening(schema: Json, depth: nat, budget: int)
    ensures depth > MAX_DEPTH || budget < 1 ==> !Accepted(schema, depth, budget)
    ensures schema.Bool? && depth <= MAX_DEPTH && budget >= 1 ==> Accepted(schema, depth, budget) && Nodes(schema) == 1
    ensures !schema.Bool? && !KnownFields(schema) ==> !Accepted(schema, depth, budget)
    ensures schema.Obj? ==> Admitted(schema, 0, 0, depth, 1) && Subs(schema)[0..] == SubsFrom(schema, 0)
  {
    hide KeywordOf, KeywordOk, Field;
    assert Nodes(schema) == 1 + NodesFrom(schema, 0);
    if schema.Bool? {
      assert Subs(schema) == [];
    }
    if schema.Obj? {
      assert Subs(schema)[0..] == Subs(schema);
    }
  }

  lemma NextChild(schema: Json, k: nat, children: seq<Json>, j: nat, i: nat, depth: nat, spent: int, budget: int)
    requires Standing(schema, k, children, j, i) && j < |children| && Admitted(schema, k + 1, i, depth, spent)
    ensures i < |Subs(schema)| && children[j] < schema && Standing(schema, k, children, j + 1, i + 1)
    ensures Accepted(children[j], depth + 1, budget - spent) ==> Admitted(schema, k + 1, i + 1, depth, spent + Nodes(children[j]))
    ensures !Accepted(children[j], depth + 1, budget - spent) ==> !Accepted(schema, depth, budget)
  {
    hide KeywordOf, KeywordOk, SubsFrom, Direct;
    var rest := Subs(schema)[i..];
    assert rest[0] == Subs(schema)[i] == children[j];
    assert Subs(schema)[i + 1..] == rest[1..] == children[j + 1..] + SubsFrom(schema, k + 1);
    assert children[j] in Subs(schema);
    assert NodesFrom(schema, i) >= Nodes(children[j]);
  }

  lemma NextKeyword(schema: Json, k: nat, i: nat, depth: nat, spent: int, budget: int)
    requires Admitted(schema, k, i, depth, spent) && k < |schema.members| && Subs(schema)[i..] == SubsFrom(schema, k)
    ensures var m := schema.members[k];
            && (KeywordOk(KeywordOf(m.key), m.value) ==> Admitted(schema, k + 1, i, depth, spent))
            && (!KeywordOk(KeywordOf(m.key), m.value) ==> !Accepted(schema, depth, budget))
            && Standing(schema, k, Direct(m), 0, i)
  {
    hide KeywordOf, KeywordOk, Direct;
    assert Direct(schema.members[k])[0..] == Direct(schema.members[k]);
  }

  lemma LastKeyword(schema: Json, i: nat, depth: nat, spent: int, budget: int)
    requires schema.Obj? && Admitted(schema, |schema.members|, i, depth, spent) && Subs(schema)[i..] == SubsFrom(schema, |schema.members|)
    requires KnownFields(schema) && depth <= MAX_DEPTH && spent <= budget
    ensures Accepted(schema, depth, budget) && spent == Nodes(schema)
  {
    hide KeywordOf, KeywordOk, Direct;
    assert i == |Subs(schema)|;
    forall c | c in Subs(schema)
      ensures Compiles(c) && Within(c, MAX_DEPTH - depth - 1)
    {
      var j :| 0 <= j < |Subs(schema)| && Subs(schema)[j] == c;
    }
  }

  lemma EndOfChildren(schema: Json, k: nat, children: seq<Json>, i: nat)
    requires Standing(schema, k, children, |children|, i)
    ensures i <= |Subs(schema)| && Subs(schema)[i..] == SubsFrom(schema, k + 1)
  {
    hide Direct;
    assert children[|children|..] == [];
  }

  /** Accepts a schema when it is well formed, shallow enough, and the shared budget covers every schema in it. */
  method CompileSchema(schema: Json, depth: nat, budget: Budget) returns (ok: bool)
    modifies budget
    decreases schema
    ensures ok <==> Compiles(schema) && Within(schema, MAX_DEPTH - depth) && Nodes(schema) <= old(budget.left)
    ensures ok ==> budget.left == old(budget.left) - Nodes(schema)
    ensures budget.left <= old(budget.left)
  {
    hide KeywordOf, KeywordOk, Compiles, Within, Nodes, Subs, SubsFrom, Direct, KnownFields, Admitted, Standing;
    ghost var start := budget.left;
    Opening(schema, depth, start);
    budget.left := budget.left - 1;
    if depth > MAX_DEPTH || budget.left < 0 {
      return false;
    }
    if schema.Bool? {
      return true;
    }
    if !KnownFields(schema) {
      return false;
    }
    KnownIsObject(schema);
    var k := 0;
    ghost var i := 0;
    while k < |schema.members|
      invariant 0 <= k <= |schema.members| && 0 <= i <= |Subs(schema)|
      invariant Subs(schema)[i..] == SubsFrom(schema, k)
      invariant Admitted(schema, k, i, depth, start - budget.left)
      invariant 0 <= budget.left <= start
    {
      var m := schema.members[k];
      NextKeyword(schema, k, i, depth, start - budget.left, start);
      if !KeywordOk(KeywordOf(m.key), m.value) {
        return false;
      }
      var children := Direct(m);
      var j := 0;
      while j < |children|
        invariant 0 <= j <= |children|
        invariant Standing(schema, k, children, j, i)
        invariant Admitted(schema, k + 1, i, depth, start - budget.left)
        invariant 0 <= budget.left <= start
      {
        NextChild(schema, k, children, j, i, depth, start - budget.left, start);
        ok := CompileSchema(children[j], depth + 1, budget);
        if !ok {
          return false;
        }
        i := i + 1;
        j := j + 1;
      }
      EndOfChildren(schema, k, children, i);
      k := k + 1;
    }
    LastKeyword(schema, i, depth, start - budget.left, start);
    return true;
  }

  lemma KnownIsObject(schema: Json)
    requires KnownFields(schema)
    ensures schema.Obj?
  {
  }
}
