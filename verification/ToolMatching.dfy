/** Matching tool arguments against a compiled schema, and what the schema declares about their value. */
module ToolMatching {
  import opened Tokens
  import opened Json
  import opened JsonValues
  import opened ToolSchema

  // ---------- The matcher, branch by branch ----------

  predicate IsWhole(number: real) { number.Floor as real == number }

  predicate IsType(v: Json, kind: string) {
    if kind == "null" then v.Null?
    else if kind == "integer" then v.Int? || (v.Float? && IsWhole(v.number))
    else if kind == "number" then Numeric(v)
    else if kind == "boolean" then v.Bool?
    else if kind == "object" then v.Obj?
    else if kind == "array" then v.Arr?
    else v.Str?
  }

  function KindText(kind: Json): string { if kind.Str? then kind.text else "" }

  predicate TypeOk(schema: Json, v: Json)
    requires schema.Obj?
  {
    Has(schema.members, "type") ==>
      var kinds := Kinds(Under(schema, "type"));
      exists k | 0 <= k < |kinds| :: IsType(v, KindText(kinds[k]))
  }

  predicate LiteralsOk(schema: Json, v: Json)
    requires schema.Obj?
  {
    && (Has(schema.members, "const") ==> Equal(v, Under(schema, "const")))
    && (Has(schema.members, "enum") && Under(schema, "enum").Arr? ==>
          exists k | 0 <= k < |Under(schema, "enum").items| :: Equal(v, Under(schema, "enum").items[k]))
  }

  function Listed(schema: Json, key: string): (r: seq<Json>)
    requires schema.Obj?
    ensures forall k | 0 <= k < |r| :: r[k] < schema
  {
    if Has(schema.members, key) && Under(schema, key).Arr? then
      var r := Under(schema, key).items;
      assert forall k | 0 <= k < |r| :: r[k] < Under(schema, key);
      r
    else []
  }

  /** How many of the schemas from the `k`th on match. */
  function Matched(schema: Json, key: string, k: nat, v: Json): nat
    requires schema.Obj? && k <= |Listed(schema, key)|
    decreases schema, 0, |Listed(schema, key)| - k
  {
    if k == |Listed(schema, key)| then 0
    else (if Matches(Listed(schema, key)[k], v) then 1 else 0) + Matched(schema, key, k + 1, v)
  }

  predicate CombinersOk(schema: Json, v: Json)
    requires schema.Obj?
    decreases schema, 1
  {
    && (Has(schema.members, "allOf") ==> forall k | 0 <= k < |Listed(schema, "allOf")| :: Matches(Listed(schema, "allOf")[k], v))
    && (Has(schema.members, "anyOf") ==> exists k | 0 <= k < |Listed(schema, "anyOf")| :: Matches(Listed(schema, "anyOf")[k], v))
    && (Has(schema.members, "oneOf") ==> Matched(schema, "oneOf", 0, v) == 1)
  }

  /** The schema a property is held against: its own, or the one for additional properties, or none. */
  function PropertySchema(schema: Json, name: string): (r: Option<Json>)
    requires schema.Obj?
    ensures r.Some? ==> r.value < schema
  {
    if Has(schema.members, "properties") && Under(schema, "properties").Obj? && Has(Under(schema, "properties").members, name) then
      Some(Under(Under(schema, "properties"), name))
    else if Has(schema.members, "additionalProperties") then Some(Under(schema, "additionalProperties"))
    else None
  }

  function SizeAt(schema: Json, key: string): int
    requires schema.Obj? && Has(schema.members, key)
  {
    if Under(schema, key).Int? then Under(schema, key).whole else 0
  }

  /** `n` lies between two optional bounds. */
  predicate SizeOk(schema: Json, least: string, most: string, n: nat)
    requires schema.Obj?
  {
    (Has(schema.members, least) ==> n >= SizeAt(schema, least)) && (Has(schema.members, most) ==> n <= SizeAt(schema, most))
  }

  predicate PropertiesOk(schema: Json, v: Json)
    requires schema.Obj? && v.Obj?
    decreases schema, 0
  {
    forall k | 0 <= k < |v.members| ::
      var child := PropertySchema(schema, v.members[k].key);
      child.Some? ==> Matches(child.value, v.members[k].value)
  }

  predicate ObjectOk(schema: Json, v: Json)
    requires schema.Obj? && v.Obj?
    decreases schema, 1
  {
    && (forall k | 0 <= k < |Listed(schema, "required")| :: Has(v.members, KindText(Listed(schema, "required")[k])))
    && PropertiesOk(schema, v)
    && SizeOk(schema, "minProperties", "maxProperties", |v.members|)
  }

  predicate ArrayOk(schema: Json, v: Json)
    requires schema.Obj? && v.Arr?
    decreases schema, 1
  {
    && SizeOk(schema, "minItems", "maxItems", |v.items|)
    && (Has(schema.members, "items") ==> forall k | 0 <= k < |v.items| :: Matches(Under(schema, "items"), v.items[k]))
    && (Has(schema.members, "uniqueItems") && Under(schema, "uniqueItems") == Bool(true) ==>
          forall i, j | 0 <= j < i < |v.items| :: !Equal(v.items[i], v.items[j]))
  }

  function BoundAt(schema: Json, key: string): real
    requires schema.Obj? && Has(schema.members, key)
  {
    if Numeric(Under(schema, key)) then NumberOf(Under(schema, key)) else 0.0
  }

  predicate NumberOk(schema: Json, v: Json)
    requires schema.Obj? && Numeric(v)
  {
    var n := NumberOf(v);
    && (Has(schema.members, "minimum") ==> n >= BoundAt(schema, "minimum"))
    && (Has(schema.members, "maximum") ==> n <= BoundAt(schema, "maximum"))
    && (Has(schema.members, "exclusiveMinimum") ==> n > BoundAt(schema, "exclusiveMinimum"))
    && (Has(schema.members, "exclusiveMaximum") ==> n < BoundAt(schema, "exclusiveMaximum"))
  }

  predicate Matches(schema: Json, v: Json)
    decreases schema, 2
  {
    if schema.Bool? then schema.flag
    else if !schema.Obj? then false
    else
      && TypeOk(schema, v) && LiteralsOk(schema, v) && CombinersOk(schema, v)
      && (v.Obj? ==> ObjectOk(schema, v))
      && (v.Str? ==> SizeOk(schema, "minLength", "maxLength", |v.text|))
      && (v.Arr? ==> ArrayOk(schema, v))
      && (Numeric(v) ==> NumberOk(schema, v))
  }

  // ---------- What a schema declares, keyword by keyword, about a value ----------

  predicate HasType(x: Value, kind: string) {
    match x
    case VNull => kind == "null"
    case VBool(_) => kind == "boolean"
    case VNumber(n) => kind == "number" || (kind == "integer" && IsWhole(n))
    case VString(_) => kind == "string"
    case VArray(_) => kind == "array"
    case VObject(_) => kind == "object"
  }

  /** The property names a schema gives schemas of their own. */
  predicate Named(schema: Json, name: string)
    requires schema.Obj?
  {
    exists k | 0 <= k < |schema.members| ::
      KeywordOf(schema.members[k].key).Properties? && schema.members[k].value.Obj? && Has(schema.members[k].value.members, name)
  }

  predicate TypeAsserts(a: Json, x: Value) { exists t | 0 <= t < |Kinds(a)| :: HasType(x, KindText(Kinds(a)[t])) }

  predicate EnumAsserts(a: Json, x: Value) { a.Arr? ==> exists e | 0 <= e < |a.items| :: x == Denote(a.items[e]) }

  ghost predicate AllAsserts(a: Json, x: Value)
    decreases a, 2
  {
    a.Arr? ==> forall c | 0 <= c < |a.items| :: Satisfies(a.items[c], x)
  }

  ghost predicate AnyAsserts(a: Json, x: Value)
    decreases a, 2
  {
    a.Arr? ==> exists c | 0 <= c < |a.items| :: Satisfies(a.items[c], x)
  }

  /** Schema `c` is satisfied, and no other listed one is. */
  ghost predicate OnlyAt(a: Json, c: nat, x: Value)
    requires a.Arr? && c < |a.items|
    decreases a, 2
  {
    Satisfies(a.items[c], x) && forall d | 0 <= d < |a.items| && d != c :: !Satisfies(a.items[d], x)
  }

  /** Exactly one of the schemas is satisfied. */
  ghost predicate OneAsserts(a: Json, x: Value)
    decreases a, 3
  {
    a.Arr? ==> exists c | 0 <= c < |a.items| :: OnlyAt(a, c, x)
  }

  predicate RequiredAsserts(a: Json, x: Value) {
    x.VObject? && a.Arr? ==> forall r | 0 <= r < |a.items| :: KindText(a.items[r]) in x.members
  }

  ghost predicate PropertiesAsserts(a: Json, x: Value)
    decreases a, 2
  {
    x.VObject? && a.Obj? ==>
      forall p | 0 <= p < |a.members| && a.members[p].key in x.members :: Satisfies(a.members[p].value, x.members[a.members[p].key])
  }

  /** Every property without a schema of its own. */
  ghost predicate AdditionalAsserts(schema: Json, a: Json, x: Value)
    requires schema.Obj?
    decreases a, 2
  {
    x.VObject? ==> forall name | name in x.members && !Named(schema, name) :: Satisfies(a, x.members[name])
  }

  ghost predicate ItemsAsserts(a: Json, x: Value)
    decreases a, 2
  {
    x.VArray? ==> forall i | 0 <= i < |x.items| :: Satisfies(a, x.items[i])
  }

  predicate UniqueAsserts(a: Json, x: Value) {
    x.VArray? && a == Bool(true) ==> forall i, j | 0 <= j < i < |x.items| :: x.items[i] != x.items[j]
  }

  /** The size of a value that a size keyword speaks of, if it does. */
  function SizeOf(w: Keyword, x: Value): Option<nat> {
    if (w.MinLength? || w.MaxLength?) && x.VString? then Some(|x.text|)
    else if (w.MinItems? || w.MaxItems?) && x.VArray? then Some(|x.items|)
    else if (w.MinProperties? || w.MaxProperties?) && x.VObject? then Some(|x.members|)
    else None
  }

  predicate SizeAsserts(w: Keyword, a: Json, x: Value) {
    var size := SizeOf(w, x);
    size.Some? && a.Int? ==>
      if w.MinLength? || w.MinItems? || w.MinProperties? then size.value >= a.whole else size.value <= a.whole
  }

  predicate BoundAsserts(w: Keyword, a: Json, x: Value) {
    x.VNumber? && Numeric(a) ==>
      match w
      case Minimum => x.number >= NumberOf(a)
      case Maximum => x.number <= NumberOf(a)
      case ExclusiveMinimum => x.number > NumberOf(a)
      case ExclusiveMaximum => x.number < NumberOf(a)
      case _ => true
  }

  /** One keyword's assertion; a keyword that does not concern this kind of value asserts nothing. */
  ghost predicate Asserts(schema: Json, k: nat, x: Value)
    requires schema.Obj? && k < |schema.members|
    decreases schema, 0
  {
    var w, a := KeywordOf(schema.members[k].key), schema.members[k].value;
    if Size(w) then SizeAsserts(w, a, x)
    else if Bound(w) then BoundAsserts(w, a, x)
    else
      match w
      case Types => TypeAsserts(a, x)
      case Const => x == Denote(a)
      case Enum => EnumAsserts(a, x)
      case AllOf => AllAsserts(a, x)
      case AnyOf => AnyAsserts(a, x)
      case OneOf => OneAsserts(a, x)
      case Required => RequiredAsserts(a, x)
      case Properties => PropertiesAsserts(a, x)
      case Additional => AdditionalAsserts(schema, a, x)
      case Items => ItemsAsserts(a, x)
      case Unique => UniqueAsserts(a, x)
      case _ => true
  }

  /** A value satisfies a schema when it satisfies every keyword of it. */
  ghost predicate Satisfies(schema: Json, x: Value)
    decreases schema, 1
  {
    || (schema.Bool? && schema.flag)
    || (schema.Obj? && forall k | 0 <= k < |schema.members| :: Asserts(schema, k, x))
  }
}
