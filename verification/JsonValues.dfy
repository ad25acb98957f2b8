/** Equality of JSON values, and the mathematical values it compares. */
module JsonValues {
  import opened Tokens
  import opened Json

  /** A JSON value without spelling: numbers are numbers, objects are finite maps. */
  datatype Value =
    | VNull
    | VBool(flag: bool)
    | VNumber(number: real)
    | VString(text: string)
    | VArray(items: seq<Value>)
    | VObject(members: map<string, Value>)

  function Keys(members: seq<Member>): set<string> { set k | 0 <= k < |members| :: members[k].key }

  lemma KeysHave(members: seq<Member>, key: string)
    ensures key in Keys(members) <==> Has(members, key)
  {
    if key in Keys(members) {
      var k :| 0 <= k < |members| && members[k].key == key;
    }
  }

  /** The member called `key` of an object; it is smaller than the object. */
  function Under(v: Json, key: string): (c: Json)
    requires v.Obj? && Has(v.members, key)
    ensures c < v && c == Get(v.members, key)
  {
    v.members[Find(v.members, key)].value
  }

  function Denote(v: Json): Value
    decreases v
  {
    match v
    case Null => VNull
    case Bool(flag) => VBool(flag)
    case Int(whole) => VNumber(whole as real)
    case Float(number) => VNumber(number)
    case Str(text) => VString(text)
    case Arr(items) => VArray(seq(|items|, k requires 0 <= k < |items| => Denote(items[k])))
    case Obj(members) => VObject(map key | key in Keys(members) :: DenoteAt(v, key))
  }

  function DenoteAt(v: Json, key: string): Value
    requires v.Obj? && key in Keys(v.members)
    decreases v, 0
  {
    KeysHave(v.members, key);
    Denote(Under(v, key))
  }

  predicate Numeric(v: Json) { v.Int? || v.Float? }

  function NumberOf(v: Json): real
    requires Numeric(v)
  {
    if v.Int? then v.whole as real else v.number
  }

  /** Python's comparison, made strict about booleans and blind to int against float. */
  predicate Equal(left: Json, right: Json)
    decreases left
  {
    if left.Bool? || right.Bool? then left.Bool? && right.Bool? && left.flag == right.flag
    else if Numeric(left) && Numeric(right) then NumberOf(left) == NumberOf(right)
    else
      match left
      case Obj(members) =>
        right.Obj? && Keys(members) == Keys(right.members)
        && forall k | 0 <= k < |members| ::
             Has(right.members, members[k].key) && Equal(members[k].value, Get(right.members, members[k].key))
      case Arr(items) =>
        right.Arr? && |items| == |right.items| && forall k | 0 <= k < |items| :: Equal(items[k], right.items[k])
      case Str(text) => right.Str? && text == right.text
      case Null => right.Null?
      case _ => false
  }

  /** Equality is sameness of the values denoted; so it is reflexive, symmetric and transitive. */
  lemma {:induction false} EqualExact(left: Json, right: Json)
    requires WellKeyed(left) && WellKeyed(right)
    ensures Equal(left, right) <==> Denote(left) == Denote(right)
    decreases left
  {
    if left.Obj? && right.Obj? {
      ObjectsEqual(left, right);
    } else if left.Arr? && right.Arr? {
      ArraysEqual(left, right);
    }
  }

  lemma {:induction false} ArraysEqual(left: Json, right: Json)
    requires WellKeyed(left) && WellKeyed(right) && left.Arr? && right.Arr?
    ensures Equal(left, right) <==> Denote(left) == Denote(right)
    decreases left, 0
  {
    if |left.items| == |right.items| {
      forall k | 0 <= k < |left.items|
        ensures Equal(left.items[k], right.items[k]) <==> Denote(left).items[k] == Denote(right).items[k]
      {
        EqualExact(left.items[k], right.items[k]);
      }
      assert Denote(left) == Denote(right) <==> Denote(left).items == Denote(right).items;
    } else {
      assert |Denote(left).items| == |left.items| && |Denote(right).items| == |right.items|;
    }
  }

  lemma MembersOf(v: Json)
    requires WellKeyed(v) && v.Obj?
    ensures Denote(v).VObject? && Denote(v).members.Keys == Keys(v.members)
    ensures forall k | 0 <= k < |v.members| ::
              v.members[k].key in Denote(v).members && Denote(v).members[v.members[k].key] == Denote(v.members[k].value)
  {
    forall k | 0 <= k < |v.members|
      ensures v.members[k].key in Denote(v).members && Denote(v).members[v.members[k].key] == Denote(v.members[k].value)
    {
      assert v.members[k].key in Keys(v.members);
      FindIs(v.members, k);
    }
  }

  lemma {:induction false} ObjectsEqual(left: Json, right: Json)
    requires WellKeyed(left) && WellKeyed(right) && left.Obj? && right.Obj?
    ensures Equal(left, right) <==> Denote(left) == Denote(right)
    decreases left, 0
  {
    MembersOf(left);
    MembersOf(right);
    var a, b := Denote(left).members, Denote(right).members;
    if Keys(left.members) == Keys(right.members) {
      forall k | 0 <= k < |left.members|
        ensures Has(right.members, left.members[k].key)
        ensures Equal(left.members[k].value, Get(right.members, left.members[k].key))
                <==> a[left.members[k].key] == b[left.members[k].key]
      {
        var key := left.members[k].key;
        assert key in Keys(left.members);
        KeysHave(right.members, key);
        var j := Find(right.members, key);
        assert right.members[j].key == key;
        EqualExact(left.members[k].value, right.members[j].value);
      }
      SameMembers(left, a, b);
    }
  }

  lemma SameMembers(left: Json, a: map<string, Value>, b: map<string, Value>)
    requires left.Obj? && a.Keys == b.Keys == Keys(left.members)
    ensures a == b <==> forall k | 0 <= k < |left.members| :: left.members[k].key in a && a[left.members[k].key] == b[left.members[k].key]
  {
    if forall k | 0 <= k < |left.members| :: left.members[k].key in a && a[left.members[k].key] == b[left.members[k].key] {
      forall key | key in a
        ensures a[key] == b[key]
      {
        var k :| 0 <= k < |left.members| && left.members[k].key == key;
      }
    } else {
      assert forall k | 0 <= k < |left.members| :: left.members[k].key in Keys(left.members);
    }
  }

  lemma EqualIsEquivalence(a: Json, b: Json, c: Json)
    requires WellKeyed(a) && WellKeyed(b) && WellKeyed(c)
    ensures Equal(a, a)
    ensures Equal(a, b) ==> Equal(b, a)
    ensures Equal(a, b) && Equal(b, c) ==> Equal(a, c)
  {
    hide Equal, Denote, WellKeyed;
    EqualExact(a, a);
    EqualExact(a, b);
    EqualExact(b, a);
    EqualExact(b, c);
    EqualExact(a, c);
  }

  /** As many entries as members. */
  lemma {:induction false} MemberCount(members: seq<Member>)
    requires DistinctKeys(members)
    ensures |Keys(members)| == |members|
  {
    if members != [] {
      var rest := members[1..];
      MemberCount(rest);
      assert forall k | 0 <= k < |members| :: k == 0 || members[k] == rest[k - 1];
      assert forall k | 0 <= k < |rest| :: rest[k] == members[k + 1];
      assert Keys(members) == {members[0].key} + Keys(rest);
      assert members[0].key !in Keys(rest);
    }
  }
}
