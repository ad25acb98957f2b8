/** Paths into JSON trees: looking up, editing one leaf, and editing many leaves at once. */
module JsonPaths {
  import opened Tokens
  import opened Json

  datatype Step = Key(key: string) | At(index: nat)

  type Path = seq<Step>

  /** How many children a value has. */
  function Width(v: Json): nat {
    match v
    case Arr(items) => |items|
    case Obj(members) => |members|
    case _ => 0
  }

  function Child(v: Json, k: nat): (c: Json)
    requires k < Width(v)
    ensures c < v
  {
    if v.Arr? then v.items[k] else v.members[k].value
  }

  function StepTo(v: Json, k: nat): Step
    requires k < Width(v)
  {
    if v.Arr? then At(k) else Key(v.members[k].key)
  }

  /** The child a step leads to, or the number of children. */
  function ChildAt(v: Json, s: Step): (k: nat)
    ensures k <= Width(v)
    ensures k < Width(v) ==> StepTo(v, k) == s
  {
    match v
    case Arr(items) => if s.At? && s.index < |items| then s.index else |items|
    case Obj(members) => if s.Key? then Find(members, s.key) else |members|
    case _ => 0
  }

  lemma ChildAtStep(v: Json, k: nat)
    requires k < Width(v) && WellKeyed(v)
    ensures ChildAt(v, StepTo(v, k)) == k && WellKeyed(Child(v, k))
  {
    if v.Obj? {
      FindIs(v.members, k);
    }
  }

  function Lookup(v: Json, path: Path): Option<Json>
    decreases |path|
  {
    if path == [] then Some(v)
    else
      var k := ChildAt(v, path[0]);
      if k < Width(v) then Lookup(Child(v, k), path[1..]) else None
  }

  function WithChild(v: Json, k: nat, c: Json): (r: Json)
    requires k < Width(v)
    ensures Width(r) == Width(v)
    ensures forall j | 0 <= j < Width(v) :: StepTo(r, j) == StepTo(v, j) && Child(r, j) == if j == k then c else Child(v, j)
  {
    if v.Arr? then Arr(v.items[k := c]) else Obj(v.members[k := Member(v.members[k].key, c)])
  }

  /** The tree with the value at `path` replaced. */
  function Put(v: Json, path: Path, x: Json): Json
    decreases |path|
  {
    if path == [] then x
    else
      var k := ChildAt(v, path[0]);
      if k < Width(v) then WithChild(v, k, Put(Child(v, k), path[1..], x)) else v
  }

  /** All edits at once: a string leaf whose path has an edit takes it; everything else stays. */
  function Rewrite(v: Json, base: Path, edits: map<Path, string>): (r: Json)
    decreases v
  {
    match v
    case Str(text) => Str(if base in edits then edits[base] else text)
    case Arr(items) => Arr(seq(|items|, k requires 0 <= k < |items| => Rewrite(items[k], base + [At(k)], edits)))
    case Obj(members) =>
      Obj(seq(|members|, k requires 0 <= k < |members| =>
        Member(members[k].key, Rewrite(members[k].value, base + [Key(members[k].key)], edits))))
    case _ => v
  }

  /** A rewritten tree has the same shape, child by child. */
  lemma RewriteChildren(v: Json, base: Path, edits: map<Path, string>)
    ensures var r := Rewrite(v, base, edits);
            && Width(r) == Width(v) && (v.Arr? == r.Arr?) && (v.Obj? == r.Obj?) && (v.Str? == r.Str?)
            && (!v.Str? && Width(v) == 0 ==> r == v)
            && forall k | 0 <= k < Width(v) ::
                 StepTo(r, k) == StepTo(v, k) && Child(r, k) == Rewrite(Child(v, k), base + [StepTo(v, k)], edits)
  {
    var r := Rewrite(v, base, edits);
    if v.Arr? && v.items == [] {
      assert r.items == [];
    }
    if v.Obj? && v.members == [] {
      assert r.members == [];
    }
  }

  lemma SameSteps(v: Json, r: Json, s: Step)
    requires v.Arr? == r.Arr? && v.Obj? == r.Obj? && Width(v) == Width(r)
    requires forall k | 0 <= k < Width(v) :: StepTo(r, k) == StepTo(v, k)
    ensures ChildAt(r, s) == ChildAt(v, s)
  {
    if v.Obj? && s.Key? {
      var i, j := Find(v.members, s.key), Find(r.members, s.key);
      assert forall k | 0 <= k < Width(v) :: v.members[k].key == StepTo(v, k).key && r.members[k].key == StepTo(r, k).key;
    }
  }

  /** Looking up commutes with rewriting: what is found is what was there, rewritten. */
  lemma {:induction false} RewriteAt(v: Json, base: Path, edits: map<Path, string>, path: Path)
    ensures Lookup(Rewrite(v, base, edits), path)
            == match Lookup(v, path)
               case None => None
               case Some(x) => Some(Rewrite(x, base + path, edits))
    decreases |path|
  {
    hide Rewrite, Child, StepTo;
    if path == [] {
      assert base + path == base;
    } else {
      RewriteChildren(v, base, edits);
      SameSteps(v, Rewrite(v, base, edits), path[0]);
      var k := ChildAt(v, path[0]);
      if k < Width(v) {
        RewriteAt(Child(v, k), base + [path[0]], edits, path[1..]);
        assert base + [path[0]] + path[1..] == base + path;
      }
    }
  }

  /** Edits elsewhere change nothing here. */
  lemma {:induction false} RewriteElsewhere(v: Json, base: Path, edits: map<Path, string>, path: Path, text: string)
    requires !(base <= path)
    ensures Rewrite(v, base, edits[path := text]) == Rewrite(v, base, edits)
    decreases v
  {
    var after := edits[path := text];
    match v
    case Arr(items) =>
      forall k | 0 <= k < |items|
        ensures Rewrite(items[k], base + [At(k)], after) == Rewrite(items[k], base + [At(k)], edits)
      {
        RewriteElsewhere(items[k], base + [At(k)], edits, path, text);
      }
      assert Rewrite(v, base, after).items == Rewrite(v, base, edits).items;
    case Obj(members) =>
      forall k | 0 <= k < |members|
        ensures Rewrite(members[k].value, base + [Key(members[k].key)], after)
                == Rewrite(members[k].value, base + [Key(members[k].key)], edits)
      {
        RewriteElsewhere(members[k].value, base + [Key(members[k].key)], edits, path, text);
      }
      assert Rewrite(v, base, after).members == Rewrite(v, base, edits).members;
    case _ =>
  }

  /** The values with equal children are equal. */
  lemma SameChildren(a: Json, b: Json)
    requires a.Arr? == b.Arr? && a.Obj? == b.Obj? && (a.Arr? || a.Obj?) && Width(a) == Width(b)
    requires forall k | 0 <= k < Width(a) :: StepTo(a, k) == StepTo(b, k) && Child(a, k) == Child(b, k)
    ensures a == b
  {
    if a.Arr? {
      forall k | 0 <= k < |a.items| ensures a.items[k] == b.items[k] { assert Child(a, k) == Child(b, k); }
      assert a.items == b.items;
    } else {
      forall k | 0 <= k < |a.members| ensures a.members[k] == b.members[k] {
        assert StepTo(a, k) == StepTo(b, k) && Child(a, k) == Child(b, k);
      }
      assert a.members == b.members;
    }
  }

  /** Editing one string leaf of a rewritten tree is one more edit. */
  lemma {:induction false} PutIsEdit(v: Json, base: Path, edits: map<Path, string>, path: Path, text: string)
    requires WellKeyed(v) && Lookup(v, path).Some? && Lookup(v, path).value.Str?
    ensures Put(Rewrite(v, base, edits), path, Str(text)) == Rewrite(v, base, edits[base + path := text])
    decreases |path|
  {
    hide Rewrite, Child, StepTo;
    var r, after := Rewrite(v, base, edits), edits[base + path := text];
    if path == [] {
      LeafEdit(v, base, edits, text);
      assert base + path == base;
    } else {
      RewriteChildren(v, base, edits);
      RewriteChildren(v, base, after);
      SameSteps(v, r, path[0]);
      var k := ChildAt(v, path[0]);
      var step := path[0];
      ChildAtStep(v, k);
      PutIsEdit(Child(v, k), base + [step], edits, path[1..], text);
      assert base + [step] + path[1..] == base + path;
      var put := Put(r, path, Str(text));
      forall j | 0 <= j < Width(v)
        ensures StepTo(put, j) == StepTo(v, j) && Child(put, j) == Rewrite(Child(v, j), base + [StepTo(v, j)], after)
      {
        if j != k {
          ChildAtStep(v, j);
          assert (base + path)[|base|] == step;
          RewriteElsewhere(Child(v, j), base + [StepTo(v, j)], edits, base + path, text);
        }
      }
      PutKind(r, path, Str(text));
      SameChildren(put, Rewrite(v, base, after));
    }
  }

  lemma LeafEdit(v: Json, base: Path, edits: map<Path, string>, text: string)
    requires v.Str?
    ensures Rewrite(v, base, edits[base := text]) == Str(text)
  {
  }

  lemma PutKind(v: Json, path: Path, x: Json)
    requires path != [] && ChildAt(v, path[0]) < Width(v)
    ensures var r := Put(v, path, x);
            && (r.Arr? == v.Arr?) && (r.Obj? == v.Obj?) && (r.Arr? || r.Obj?) && Width(r) == Width(v)
  {
  }

  /** With nothing to edit, or every edit equal to what is there, the tree stays. */
  lemma {:induction false} RewriteNothing(v: Json, base: Path, edits: map<Path, string>)
    requires WellKeyed(v)
    requires forall p, text | Lookup(v, p) == Some(Str(text)) && base + p in edits :: edits[base + p] == text
    ensures Rewrite(v, base, edits) == v
    decreases v
  {
    hide Child, StepTo;
    if v.Arr? || v.Obj? {
      RewriteChildren(v, base, edits);
      var r := Rewrite(v, base, edits);
      hide Rewrite;
      forall k | 0 <= k < Width(v)
        ensures Child(r, k) == Child(v, k)
      {
        ChildAtStep(v, k);
        var b := base + [StepTo(v, k)];
        forall p, text | Lookup(Child(v, k), p) == Some(Str(text)) && b + p in edits
          ensures edits[b + p] == text
        {
          var q := [StepTo(v, k)] + p;
          assert q[1..] == p && base + q == b + p;
          assert Lookup(v, q) == Some(Str(text));
        }
        RewriteNothing(Child(v, k), b, edits);
      }
      SameChildren(r, v);
    } else if v.Str? {
      assert base + [] == base;
      assert Lookup(v, []) == Some(Str(v.text));
    }
  }

  // ---------- Every key and every leaf of a tree ----------

  datatype Spot = KeySpot(path: Path, key: string) | LeafSpot(path: Path, value: Json)

  predicate Leaf(v: Json) { v.Str? || v.Int? || v.Float? }

  /** The keys and the string and number leaves, in document order. */
  function Walk(v: Json, base: Path): seq<Spot>
    decreases v, Width(v) + 1
  {
    if v.Arr? || v.Obj? then WalkFrom(v, 0, base) else if Leaf(v) then [LeafSpot(base, v)] else []
  }

  function WalkFrom(v: Json, k: nat, base: Path): seq<Spot>
    requires k <= Width(v)
    decreases v, Width(v) - k
  {
    if k == Width(v) then []
    else
      var path := base + [StepTo(v, k)];
      (if v.Obj? then [KeySpot(path, v.members[k].key)] else []) + Walk(Child(v, k), path) + WalkFrom(v, k + 1, base)
  }

  /** Where a spot must be in the tree: a key under its object, a leaf at its path. */
  ghost predicate SpotAt(v: Json, base: Path, s: Spot) {
    && base <= s.path
    && var rel := s.path[|base|..];
    match s
    case KeySpot(_, key) => rel != [] && rel[|rel| - 1] == Key(key) && Lookup(v, rel).Some?
    case LeafSpot(_, value) => Lookup(v, rel) == Some(value) && Leaf(value)
  }

  /** What child `k` contributes. */
  ghost predicate Under(v: Json, k: nat, base: Path, s: Spot)
    requires k < Width(v)
  {
    var path := base + [StepTo(v, k)];
    (v.Obj? && s == KeySpot(path, v.members[k].key)) || SpotAt(Child(v, k), path, s)
  }

  lemma KeyOrBelow(v: Json, k: nat, base: Path, s: Spot)
    requires WellKeyed(v) && k < Width(v)
    ensures Under(v, k, base, s) <==>
            base < s.path && s.path[|base|] == StepTo(v, k) && SpotAt(v, base, s)
  {
    var step := StepTo(v, k);
    var path := base + [step];
    ChildAtStep(v, k);
    hide Child, ChildAt;
    if base < s.path && s.path[|base|] == step {
      var rel := s.path[|base|..];
      var below := rel[1..];
      assert rel[0] == step && below == s.path[|path|..] && path <= s.path;
      assert Lookup(v, rel) == Lookup(Child(v, k), below);
      if below == [] {
        assert s.path == path && rel[|rel| - 1] == step;
        assert Lookup(v, rel) == Some(Child(v, k));
      } else {
        assert rel[|rel| - 1] == below[|below| - 1];
        assert s.path != path;
      }
    } else {
      assert !(path <= s.path);
      assert s.path != path;
    }
  }

  /** The walk lists exactly the keys and leaves of the tree. */
  lemma {:induction false} WalkExact(v: Json, base: Path, s: Spot)
    requires WellKeyed(v)
    ensures s in Walk(v, base) <==> SpotAt(v, base, s)
    decreases v, Width(v) + 1
  {
    if v.Arr? || v.Obj? {
      WalkFromExact(v, 0, base, s);
      hide Walk, WalkFrom, Child, StepTo;
      if SpotAt(v, base, s) {
        SpotHasStep(v, base, s);
        var k := ChildAt(v, s.path[|base|]);
        KeyOrBelow(v, k, base, s);
      }
      forall k | 0 <= k < Width(v) && Under(v, k, base, s)
        ensures SpotAt(v, base, s)
      {
        KeyOrBelow(v, k, base, s);
      }
      assert Walk(v, base) == WalkFrom(v, 0, base) by { WalkIs(v, base); }
    } else {
      NoChildren(v, base, s);
    }
  }

  lemma WalkIs(v: Json, base: Path)
    requires v.Arr? || v.Obj?
    ensures Walk(v, base) == WalkFrom(v, 0, base)
  {
  }

  lemma NoChildren(v: Json, base: Path, s: Spot)
    requires !v.Arr? && !v.Obj?
    ensures s in Walk(v, base) <==> SpotAt(v, base, s)
  {
    if base <= s.path {
      var rel := s.path[|base|..];
      assert rel == [] ==> s.path == base;
      assert rel != [] ==> Lookup(v, rel) == None;
    }
  }

  lemma SpotHasStep(v: Json, base: Path, s: Spot)
    requires (v.Arr? || v.Obj?) && SpotAt(v, base, s)
    ensures base < s.path && ChildAt(v, s.path[|base|]) < Width(v)
  {
    var rel := s.path[|base|..];
    assert Lookup(v, []) == Some(v);
    assert rel != [];
    assert rel[0] == s.path[|base|];
  }

  lemma {:induction false} WalkFromExact(v: Json, k: nat, base: Path, s: Spot)
    requires WellKeyed(v) && k <= Width(v) && (v.Arr? || v.Obj?)
    ensures s in WalkFrom(v, k, base) <==> exists j :: k <= j < Width(v) && Under(v, j, base, s)
    decreases v, Width(v) - k
  {
    if k < Width(v) {
      ChildAtStep(v, k);
      WalkExact(Child(v, k), base + [StepTo(v, k)], s);
      WalkFromExact(v, k + 1, base, s);
      hide SpotAt, Walk;
      assert s in WalkFrom(v, k, base) <==> Under(v, k, base, s) || s in WalkFrom(v, k + 1, base);
    }
  }
}
