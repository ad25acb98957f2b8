/** JSON values as the gateway holds them after decoding: objects keep their order and have no duplicate keys. */
module Json {
  import opened Tokens

  /** Integers and finite floats are different types of one numeric value. */
  datatype Json =
    | Null
    | Bool(flag: bool)
    | Int(whole: int)
    | Float(number: real)
    | Str(text: string)
    | Arr(items: seq<Json>)
    | Obj(members: seq<Member>)

  datatype Member = Member(key: string, value: Json)

  /** Index of the first member called `key`, or the number of members. */
  function Find(members: seq<Member>, key: string): (k: nat)
    ensures k <= |members|
    ensures k < |members| ==> members[k].key == key
    ensures forall j | 0 <= j < k :: members[j].key != key
  {
    if members == [] then 0 else if members[0].key == key then 0 else 1 + Find(members[1..], key)
  }

  predicate Has(members: seq<Member>, key: string) { Find(members, key) < |members| }

  function Get(members: seq<Member>, key: string): Json
    requires Has(members, key)
  {
    members[Find(members, key)].value
  }

  predicate DistinctKeys(members: seq<Member>) {
    forall i, j | 0 <= i < j < |members| :: members[i].key != members[j].key
  }

  /** Every object in the tree has distinct keys, as a decoded object always does. */
  predicate WellKeyed(v: Json) {
    match v
    case Arr(items) => forall k | 0 <= k < |items| :: WellKeyed(items[k])
    case Obj(members) => DistinctKeys(members) && forall k | 0 <= k < |members| :: WellKeyed(members[k].value)
    case _ => true
  }

  lemma FindIs(members: seq<Member>, k: nat)
    requires k < |members| && DistinctKeys(members)
    ensures Find(members, members[k].key) == k
  {
    var f := Find(members, members[k].key);
    assert members[f].key == members[k].key;
  }

  /** The value that a route of child numbers leads to. */
  function Nested(v: Json, route: seq<nat>): Option<Json>
    decreases |route|
  {
    if route == [] then Some(v)
    else if v.Arr? && route[0] < |v.items| then Nested(v.items[route[0]], route[1..])
    else if v.Obj? && route[0] < |v.members| then Nested(v.members[route[0]].value, route[1..])
    else None
  }

  function ChildCount(v: Json): nat { if v.Arr? then |v.items| else if v.Obj? then |v.members| else 0 }

  function ChildNumber(v: Json, k: nat): (c: Json)
    requires k < ChildCount(v)
    ensures c < v
  {
    if v.Arr? then v.items[k] else v.members[k].value
  }

  /** Everything nested in a value passes at its depth. */
  ghost predicate Throughout(v: Json, depth: nat, ok: (Json, nat) -> bool) {
    forall route | Nested(v, route).Some? :: ok(Nested(v, route).value, depth + |route|)
  }

  lemma ThroughoutStep(v: Json, depth: nat, ok: (Json, nat) -> bool)
    ensures Throughout(v, depth, ok) <==>
              ok(v, depth) && forall k | 0 <= k < ChildCount(v) :: Throughout(ChildNumber(v, k), depth + 1, ok)
  {
    assert Nested(v, []) == Some(v);
    if Throughout(v, depth, ok) {
      forall k, route | 0 <= k < ChildCount(v) && Nested(ChildNumber(v, k), route).Some?
        ensures ok(Nested(ChildNumber(v, k), route).value, depth + 1 + |route|)
      {
        assert ([k] + route)[1..] == route;
        assert Nested(v, [k] + route) == Nested(ChildNumber(v, k), route);
      }
    }
    if ok(v, depth) && forall k | 0 <= k < ChildCount(v) :: Throughout(ChildNumber(v, k), depth + 1, ok) {
      forall route | Nested(v, route).Some?
        ensures ok(Nested(v, route).value, depth + |route|)
      {
        if route != [] {
          assert Nested(v, route) == Nested(ChildNumber(v, route[0]), route[1..]);
        }
      }
    }
  }
}
