/** Decoded JSON as Go holds it: maps by reference, slices over a backing array. A tree names the
    objects a value is made of. In an unshared tree no object stands twice; a container that is
    reached a second time stands there as a link. */
module GoValues {
  import opened Wrappers
  import opened Json

  /** An interface{} as encoding/json fills it; a slice is the first `n` elements of its array. */
  datatype Slot = Scalar(v: Json) | MapRef(m: GoMap) | SliceRef(a: array<Slot>, n: nat)

  class GoMap {
    var members: map<string, Slot>

    constructor (members: map<string, Slot>)
      ensures this.members == members
    {
      this.members := members;
    }
  }

  /** The layout of a value: its object, what is below it, and all objects that belong to it; or, of a
      container whose objects belong elsewhere, a link to how they are laid out there. */
  datatype Tree =
    | ScalarAt(v: Json)
    | MapAt(m: GoMap, kids: map<string, Tree>, owned: set<object>)
    | SliceAt(a: array<Slot>, items: seq<Tree>, owned: set<object>)
    | LinkAt(of: Tree)

  ghost function Footprint(t: Tree): set<object> {
    match t
    case MapAt(_, _, owned) => owned
    case SliceAt(_, _, owned) => owned
    case _ => {}
  }

  /** The slot of a value of this layout. */
  function Head(t: Tree): Slot {
    match t
    case ScalarAt(v) => Scalar(v)
    case MapAt(m, _, _) => MapRef(m)
    case SliceAt(a, items, _) => SliceRef(a, |items|)
    case LinkAt(of) => Head(of)
  }

  /** The layout has no links. */
  predicate Solid(t: Tree) {
    match t
    case ScalarAt(_) => true
    case MapAt(_, kids, _) => forall k | k in kids :: Solid(kids[k])
    case SliceAt(_, items, _) => forall i | 0 <= i < |items| :: Solid(items[i])
    case LinkAt(_) => false
  }

  /** The value as JSON. */
  function JsonOf(t: Tree): (v: Json)
    ensures t.MapAt? ==> v.Obj?
  {
    match t
    case ScalarAt(v) => v
    case MapAt(_, kids, _) => Obj(map k | k in kids :: JsonOf(kids[k]))
    case SliceAt(_, items, _) => Arr(seq(|items|, i requires 0 <= i < |items| => JsonOf(items[i])))
    case LinkAt(of) => JsonOf(of)
  }

  /** Every value owns its object and all that is below it. */
  ghost predicate Nested(t: Tree) {
    match t
    case ScalarAt(v) => !IsContainer(v)
    case MapAt(m, kids, owned) =>
      m in owned && forall k | k in kids :: Nested(kids[k]) && Footprint(kids[k]) <= owned
    case SliceAt(a, items, owned) =>
      a in owned && forall i | 0 <= i < |items| :: Nested(items[i]) && Footprint(items[i]) <= owned
    case LinkAt(of) => !of.ScalarAt? && Solid(of) && Nested(of)
  }

  /** No object is reached twice. */
  ghost predicate Unshared(t: Tree) {
    && Nested(t)
    && match t
       case MapAt(m, kids, _) =>
         && (forall k | k in kids :: Unshared(kids[k]) && m !in Footprint(kids[k]))
         && (forall k, k' | k in kids && k' in kids && k != k' :: Footprint(kids[k]) !! Footprint(kids[k']))
       case SliceAt(a, items, _) =>
         && (forall i | 0 <= i < |items| :: Unshared(items[i]) && a !in Footprint(items[i]))
         && (forall i, j | 0 <= i < j < |items| :: Footprint(items[i]) !! Footprint(items[j]))
       case _ => true
  }

  /** The slot holds a value of this layout; of a link, that it is the slot of what the link names. */
  ghost predicate Holds(s: Slot, t: Tree)
    requires Nested(t)
    reads Footprint(t)
    decreases t
  {
    match t
    case ScalarAt(v) => s == Scalar(v)
    case MapAt(m, kids, _) =>
      s == MapRef(m) && m.members.Keys == kids.Keys && forall k | k in kids :: Holds(m.members[k], kids[k])
    case SliceAt(a, items, _) =>
      s == SliceRef(a, |items|) && |items| <= a.Length && forall i | 0 <= i < |items| :: Holds(a[i], items[i])
    case LinkAt(of) => s == Head(of)
  }

  // ---- Links ----

  /** What the links name is laid out as they say, in objects out of `shared`. */
  ghost predicate Linked(t: Tree, shared: set<object>)
    requires Nested(t)
    reads shared
  {
    match t
    case ScalarAt(_) => true
    case MapAt(_, kids, _) => forall k | k in kids :: Linked(kids[k], shared)
    case SliceAt(_, items, _) => forall i | 0 <= i < |items| :: Linked(items[i], shared)
    case LinkAt(of) => Footprint(of) <= shared && Holds(Head(of), of)
  }

  /** The layout with every link replaced by what it names. */
  ghost function Filled(t: Tree, shared: set<object>): (r: Tree)
    requires Nested(t)
    ensures Head(r) == Head(t)
  {
    match t
    case ScalarAt(_) => t
    case MapAt(m, kids, owned) => MapAt(m, map k | k in kids :: Filled(kids[k], shared), owned + shared)
    case SliceAt(a, items, owned) =>
      SliceAt(a, seq(|items|, i requires 0 <= i < |items| => Filled(items[i], shared)), owned + shared)
    case LinkAt(of) => of
  }

  lemma {:induction false} FilledIsSolid(t: Tree, shared: set<object>)
    requires Nested(t)
    ensures Solid(Filled(t, shared)) && JsonOf(Filled(t, shared)) == JsonOf(t)
  {
    var r := Filled(t, shared);
    match t
    case MapAt(_, kids, _) =>
      forall k | k in kids { FilledIsSolid(kids[k], shared); }
      SameMembers(JsonOf(r).members, JsonOf(t).members);
    case SliceAt(_, items, _) =>
      forall i | 0 <= i < |items| { FilledIsSolid(items[i], shared); }
      assert JsonOf(r).elems == JsonOf(t).elems;
    case _ =>
  }

  lemma {:induction false} FilledOfSolid(t: Tree)
    requires Nested(t) && Solid(t)
    ensures Filled(t, {}) == t
  {
    match t
    case MapAt(_, kids, owned) =>
      forall k | k in kids { FilledOfSolid(kids[k]); }
      assert owned + {} == owned && Filled(t, {}).kids == kids;
    case SliceAt(_, items, owned) =>
      forall i | 0 <= i < |items| { FilledOfSolid(items[i]); }
      assert owned + {} == owned && Filled(t, {}).items == items;
    case _ =>
  }

  lemma {:induction false} FilledNested(t: Tree, shared: set<object>)
    requires Nested(t) && Linked(t, shared)
    ensures Nested(Filled(t, shared)) && Footprint(Filled(t, shared)) <= Footprint(t) + shared
  {
    match t
    case MapAt(_, kids, _) => forall k | k in kids { FilledNested(kids[k], shared); }
    case SliceAt(_, items, _) => forall i | 0 <= i < |items| { FilledNested(items[i], shared); }
    case _ =>
  }

  /** A slot holds what is left when every link is followed. */
  lemma {:induction false} FilledHolds(s: Slot, t: Tree, shared: set<object>)
    requires Nested(t) && Linked(t, shared) && Holds(s, t)
    ensures Nested(Filled(t, shared)) && Holds(s, Filled(t, shared))
    decreases t
  {
    FilledNested(t, shared);
    match t
    case MapAt(m, kids, _) => forall k | k in kids { FilledHolds(m.members[k], kids[k], shared); }
    case SliceAt(a, items, _) => forall i | 0 <= i < |items| { FilledHolds(a[i], items[i], shared); }
    case _ =>
  }

  // ---- Changing a layout ----

  ghost function WithKid(t: Tree, k: string, kid: Tree): Tree
    requires t.MapAt?
  {
    MapAt(t.m, t.kids[k := kid], t.owned + Footprint(kid))
  }

  ghost function WithItem(t: Tree, i: nat, item: Tree): Tree
    requires t.SliceAt? && i < |t.items|
  {
    SliceAt(t.a, t.items[i := item], t.owned + Footprint(item))
  }

  /** `item` appended, in the backing array `a`. */
  ghost function WithLast(t: Tree, a: array<Slot>, item: Tree): Tree
    requires t.SliceAt?
  {
    SliceAt(a, t.items + [item], t.owned + {a} + Footprint(item))
  }

  ghost function WithoutKid(t: Tree, k: string): Tree
    requires t.MapAt? && k in t.kids
  {
    MapAt(t.m, t.kids - {k}, t.owned - Footprint(t.kids[k]))
  }

  ghost function WithoutItem(t: Tree, i: nat): Tree
    requires t.SliceAt? && i < |t.items|
  {
    SliceAt(t.a, t.items[..i] + t.items[i + 1..], t.owned - Footprint(t.items[i]))
  }

  /** A value for member `k`, made of objects that are not in the rest of the map. */
  ghost predicate Fits(t: Tree, k: string, kid: Tree)
    requires t.MapAt?
  {
    && Unshared(kid) && t.m !in Footprint(kid)
    && forall k' | k' in t.kids && k' != k :: Footprint(t.kids[k']) !! Footprint(kid)
  }

  ghost predicate FitsAt(t: Tree, i: nat, item: Tree)
    requires t.SliceAt?
  {
    && Unshared(item) && t.a !in Footprint(item)
    && forall j | 0 <= j < |t.items| && j != i :: Footprint(t.items[j]) !! Footprint(item)
  }

  lemma KidPutUnshared(t: Tree, k: string, kid: Tree)
    requires t.MapAt? && Unshared(t) && Fits(t, k, kid)
    ensures Unshared(WithKid(t, k, kid))
  {}

  lemma ItemPutUnshared(t: Tree, i: nat, item: Tree)
    requires t.SliceAt? && i < |t.items| && Unshared(t) && FitsAt(t, i, item)
    ensures Unshared(WithItem(t, i, item))
  {}

  lemma ItemAppendedUnshared(t: Tree, a: array<Slot>, item: Tree)
    requires t.SliceAt? && Unshared(t) && Unshared(item) && Footprint(t) !! Footprint(item)
    requires a == t.a || a !in Footprint(t) + Footprint(item)
    ensures Unshared(WithLast(t, a, item))
  {}

  lemma KidTakenUnshared(t: Tree, k: string)
    requires t.MapAt? && k in t.kids && Unshared(t)
    ensures Unshared(WithoutKid(t, k))
  {}

  lemma ItemTakenUnshared(t: Tree, i: nat)
    requires t.SliceAt? && i < |t.items| && Unshared(t)
    ensures Unshared(WithoutItem(t, i))
  {
    var rest := WithoutItem(t, i);
    forall j | 0 <= j < |rest.items| ensures rest.items[j] == t.items[if j < i then j else j + 1] {}
  }

  // ---- Comparing ----

  /** reflect.DeepEqual. */
  method DeepEqual(x: Slot, ghost tx: Tree, y: Slot, ghost ty: Tree) returns (eq: bool)
    requires Nested(tx) && Holds(x, tx) && Nested(ty) && Holds(y, ty) && Solid(tx) && Solid(ty)
    ensures eq <==> JsonOf(tx) == JsonOf(ty)
    decreases tx, 1
  {
    match (x, y) {
      case (Scalar(v), Scalar(w)) => eq := v == w;
      case (MapRef(m), MapRef(m')) => eq := EqualMaps(m, tx, m', ty);
      case (SliceRef(a, n), SliceRef(a', n')) => eq := EqualSlices(a, n, tx, a', n', ty);
      case _ => eq := false;
    }
  }

  method EqualMaps(m: GoMap, ghost tx: Tree, m': GoMap, ghost ty: Tree) returns (eq: bool)
    requires Nested(tx) && Holds(MapRef(m), tx) && Nested(ty) && Holds(MapRef(m'), ty) && Solid(tx) && Solid(ty)
    ensures eq <==> JsonOf(tx) == JsonOf(ty)
    decreases tx, 0
  {
    ghost var v, w := JsonOf(tx).members, JsonOf(ty).members;
    assert v.Keys == m.members.Keys && w.Keys == m'.members.Keys;
    if m.members.Keys != m'.members.Keys {
      return false;
    }
    var keys := m.members.Keys;
    while keys != {}
      invariant keys <= m.members.Keys
      invariant forall k | k in v && k !in keys :: v[k] == w[k]
      decreases keys
    {
      var k :| k in keys;
      var same := DeepEqual(m.members[k], tx.kids[k], m'.members[k], ty.kids[k]);
      if !same {
        assert v[k] != w[k];
        return false;
      }
      keys := keys - {k};
    }
    SameMembers(v, w);
    eq := true;
  }

  lemma SameMembers(v: Members, w: Members)
    requires v.Keys == w.Keys && forall k | k in v :: v[k] == w[k]
    ensures v == w
  {}

  method EqualSlices(a: array<Slot>, n: nat, ghost tx: Tree, a': array<Slot>, n': nat, ghost ty: Tree)
      returns (eq: bool)
    requires Nested(tx) && Holds(SliceRef(a, n), tx) && Nested(ty) && Holds(SliceRef(a', n'), ty) && Solid(tx)
    requires Solid(ty)
    ensures eq <==> JsonOf(tx) == JsonOf(ty)
    decreases tx, 0
  {
    ghost var v, w := JsonOf(tx).elems, JsonOf(ty).elems;
    if n != n' {
      assert |v| != |w|;
      return false;
    }
    for i := 0 to n
      invariant forall j | 0 <= j < i :: v[j] == w[j]
    {
      var same := DeepEqual(a[i], tx.items[i], a'[i], ty.items[i]);
      if !same {
        assert v[i] != w[i];
        return false;
      }
    }
    assert v == w;
    eq := true;
  }
}
