/** The bound on decoded JSON trees: an explicit stack instead of recursion. */
module JsonBounds {
  import opened Json

  const MAX_DEPTH := 32
  const MAX_COLLECTION := 512

  /** Nested at most so deep, and no collection larger than the limit; an object's keys count as its children. */
  predicate Bounded(v: Json, depth: nat)
    decreases v
  {
    && depth <= MAX_DEPTH
    && match v
       case Arr(items) => |items| <= MAX_COLLECTION && forall k | 0 <= k < |items| :: Bounded(items[k], depth + 1)
       case Obj(members) =>
         && |members| <= MAX_COLLECTION
         && (members != [] ==> depth < MAX_DEPTH)
         && forall k | 0 <= k < |members| :: Bounded(members[k].value, depth + 1)
       case _ => true
  }

  /** A value found at some depth is allowed there. */
  predicate Allowed(v: Json, depth: nat) {
    && depth <= 32
    && ChildCount(v) <= 512
    && (v.Obj? && v.members != [] ==> depth < 32)
  }

  /** The bound lets through exactly the values in which everything nested is allowed at its depth. */
  lemma {:induction false} BoundedExactly(v: Json, depth: nat)
    ensures Bounded(v, depth) <==> Throughout(v, depth, Allowed)
    decreases v
  {
    hide Throughout;
    ThroughoutStep(v, depth, Allowed);
    forall k | 0 <= k < ChildCount(v)
      ensures Bounded(ChildNumber(v, k), depth + 1) <==> Throughout(ChildNumber(v, k), depth + 1, Allowed)
    {
      BoundedExactly(ChildNumber(v, k), depth + 1);
    }
    assert v.Arr? ==> forall k | 0 <= k < |v.items| :: v.items[k] == ChildNumber(v, k);
    assert v.Obj? ==> forall k | 0 <= k < |v.members| :: v.members[k].value == ChildNumber(v, k);
  }

  datatype Entry = Entry(node: Json, depth: nat)

  /** What a node puts on the stack: for an object, each key and each value. */
  function Children(v: Json, depth: nat): seq<Entry> {
    match v
    case Arr(items) => seq(|items|, k requires 0 <= k < |items| => Entry(items[k], depth + 1))
    case Obj(members) => MemberEntries(members, depth)
    case _ => []
  }

  function MemberEntries(members: seq<Member>, depth: nat): seq<Entry> {
    if members == [] then []
    else [Entry(Str(members[0].key), depth + 1), Entry(members[0].value, depth + 1)] + MemberEntries(members[1..], depth)
  }

  predicate AllBounded(stack: seq<Entry>) {
    forall k | 0 <= k < |stack| :: Bounded(stack[k].node, stack[k].depth)
  }

  lemma AllAppend(a: seq<Entry>, b: seq<Entry>)
    ensures AllBounded(a + b) <==> AllBounded(a) && AllBounded(b)
  {
    hide Bounded;
    assert forall k | 0 <= k < |a| :: (a + b)[k] == a[k];
    assert forall k | 0 <= k < |b| :: (a + b)[|a| + k] == b[k];
  }

  lemma {:induction false} MembersBounded(members: seq<Member>, depth: nat)
    ensures AllBounded(MemberEntries(members, depth)) <==>
            (members != [] ==> depth < MAX_DEPTH) && forall k | 0 <= k < |members| :: Bounded(members[k].value, depth + 1)
  {
    if members != [] {
      var first := [Entry(Str(members[0].key), depth + 1), Entry(members[0].value, depth + 1)];
      assert Bounded(Str(members[0].key), depth + 1) <==> depth < MAX_DEPTH;
      hide Bounded;
      MembersBounded(members[1..], depth);
      AllAppend(first, MemberEntries(members[1..], depth));
      assert AllBounded(first) <==> Bounded(first[0].node, first[0].depth) && Bounded(first[1].node, first[1].depth);
      assert forall k | 1 <= k < |members| :: members[k] == members[1..][k - 1];
      assert forall k | 0 <= k < |members| - 1 :: members[1..][k] == members[k + 1];
    }
  }

  /** A node is bounded when it is itself and everything it puts on the stack is. */
  lemma OneNode(v: Json, depth: nat)
    ensures Bounded(v, depth) <==>
            depth <= MAX_DEPTH && Widths(v) && AllBounded(Children(v, depth))
  {
    if v.Obj? {
      MembersBounded(v.members, depth);
    } else if v.Arr? {
      var c := Children(v, depth);
      assert forall k | 0 <= k < |c| :: c[k] == Entry(v.items[k], depth + 1);
    }
  }

  predicate Widths(v: Json) {
    match v
    case Arr(items) => |items| <= MAX_COLLECTION
    case Obj(members) => |members| <= MAX_COLLECTION
    case _ => true
  }

  // ---------- How much work is left ----------

  ghost function Weight(v: Json): (n: nat)
    ensures n > 0
    decreases v, 0
  {
    match v
    case Arr(items) => 1 + ItemsWeight(v, 0)
    case Obj(members) => 1 + ItemsWeight(v, 0)
    case _ => 1
  }

  ghost function ItemsWeight(v: Json, k: nat): nat
    decreases v, 0, if v.Arr? then |v.items| - k else if v.Obj? then |v.members| - k else 0
  {
    match v
    case Arr(items) => if k < |items| then Weight(items[k]) + ItemsWeight(v, k + 1) else 0
    case Obj(members) => if k < |members| then 1 + Weight(members[k].value) + ItemsWeight(v, k + 1) else 0
    case _ => 0
  }

  ghost function StackWeight(stack: seq<Entry>): nat {
    if stack == [] then 0 else Weight(stack[0].node) + StackWeight(stack[1..])
  }

  lemma {:induction false} WeightAppend(a: seq<Entry>, b: seq<Entry>)
    ensures StackWeight(a + b) == StackWeight(a) + StackWeight(b)
  {
    hide Weight;
    if a == [] {
      assert a + b == b;
    } else {
      assert (a + b)[1..] == a[1..] + b && (a + b)[0] == a[0];
      WeightAppend(a[1..], b);
    }
  }

  lemma {:induction false} ArrayWeight(v: Json, k: nat, depth: nat)
    requires v.Arr? && k <= |v.items|
    ensures StackWeight(Children(v, depth)[k..]) == ItemsWeight(v, k)
    decreases |v.items| - k
  {
    hide Weight;
    if k < |v.items| {
      ArrayWeight(v, k + 1, depth);
      assert Children(v, depth)[k..][1..] == Children(v, depth)[k + 1..];
    }
  }

  lemma {:induction false} ObjectWeight(v: Json, k: nat, depth: nat)
    requires v.Obj? && k <= |v.members|
    ensures StackWeight(MemberEntries(v.members[k..], depth)) == ItemsWeight(v, k)
    decreases |v.members| - k
  {
    if k < |v.members| {
      var key, value := Entry(Str(v.members[k].key), depth + 1), Entry(v.members[k].value, depth + 1);
      assert Weight(key.node) == 1;
      hide Weight;
      ObjectWeight(v, k + 1, depth);
      assert v.members[k..][1..] == v.members[k + 1..];
      var rest := MemberEntries(v.members[k + 1..], depth);
      assert MemberEntries(v.members[k..], depth) == [key] + ([value] + rest);
      WeightAppend([key], [value] + rest);
      WeightAppend([value], rest);
      assert [key][1..] == [] && [value][1..] == [];
      assert StackWeight([]) == 0;
    }
  }

  lemma ChildrenLighter(v: Json, depth: nat)
    ensures StackWeight(Children(v, depth)) < Weight(v)
  {
    if v.Arr? {
      ArrayWeight(v, 0, depth);
      assert Children(v, depth)[0..] == Children(v, depth);
    } else if v.Obj? {
      ObjectWeight(v, 0, depth);
      assert v.members[0..] == v.members;
    }
  }

  /** The walk with an explicit stack decides the recursive bound. */
  method BoundedJson(v: Json) returns (ok: bool)
    ensures ok <==> Bounded(v, 0)
  {
    hide Bounded, Children, Weight, Widths;
    var stack := [Entry(v, 0)];
    while stack != []
      invariant Bounded(v, 0) <==> AllBounded(stack)
      decreases StackWeight(stack)
    {
      var last := |stack| - 1;
      var top, rest := stack[last], stack[..last];
      assert stack == rest + [top];
      AllAppend(rest, [top]);
      WeightAppend(rest, [top]);
      assert [top][1..] == [] && StackWeight([]) == 0;
      assert AllBounded([top]) <==> Bounded([top][0].node, [top][0].depth);
      OneNode(top.node, top.depth);
      if top.depth > MAX_DEPTH || !Widths(top.node) {
        return false;
      }
      var children := Children(top.node, top.depth);
      AllAppend(rest, children);
      WeightAppend(rest, children);
      ChildrenLighter(top.node, top.depth);
      stack := rest + children;
    }
    return true;
  }
}
