/** patchSet and patchRemove as the server runs them: they change the maps and slices of the document
    in place and return the new value of the slot they were called on. */
module PatchInPlace {
  import opened Wrappers
  import opened Json
  import opened GoValues
  import JsonPatch

  /** `t'` is made of objects of `t`, of `extra` and of new ones. */
  twostate predicate Grown(t: Tree, extra: set<object>, new t': Tree) {
    forall o | o in Footprint(t') :: o in Footprint(t) || o in extra || fresh(o)
  }

  /** The path goes through no link. */
  predicate Opens(t: Tree, segs: seq<string>) {
    segs == [] ||
    match t
    case ScalarAt(_) => true
    case MapAt(_, kids, _) => segs[0] in kids ==> Opens(kids[segs[0]], segs[1..])
    case SliceAt(_, items, _) =>
      (match JsonPatch.IndexAt(segs[0], |items|) case Some(i) => Opens(items[i], segs[1..]) case None => true)
    case LinkAt(_) => false
  }

  /** The objects a write at `segs` changes; appending needs a new array when there is no room. */
  ghost function PathNodes(t: Tree, segs: seq<string>): (nodes: set<object>)
    requires Nested(t)
    ensures nodes <= Footprint(t)
    decreases |segs|
  {
    if segs == [] then {}
    else
      match t
      case MapAt(m, kids, _) => {m} + if |segs| > 1 && segs[0] in kids then PathNodes(kids[segs[0]], segs[1..]) else {}
      case SliceAt(a, items, _) =>
        if segs[0] == "-" then
          if |items| < a.Length then {a} else {}
        else
          var i := JsonPatch.IndexAt(segs[0], |items|);
          {a} + if i.Some? then PathNodes(items[i.value], segs[1..]) else {}
      case _ => {}
  }

  /** A value that is in nothing of the layout. */
  ghost predicate Foreign(t: Tree, vt: Tree) {
    Unshared(vt) && Footprint(t) !! Footprint(vt)
  }

  /** `t'` has `vt` at `segs`, and everything else where `t` has it; a new array is none of `others`. */
  ghost predicate Put(t: Tree, segs: seq<string>, vt: Tree, t': Tree, others: set<object>)
    decreases |segs|
  {
    if segs == [] then
      t' == vt
    else
      match t
      case MapAt(m, kids, _) =>
        && t'.MapAt? && t'.m == m && t'.kids.Keys == kids.Keys + {segs[0]}
        && (forall k | k in kids && k != segs[0] :: t'.kids[k] == kids[k])
        && (if |segs| == 1 then t'.kids[segs[0]] == vt
            else segs[0] in kids && Put(kids[segs[0]], segs[1..], vt, t'.kids[segs[0]], others))
      case SliceAt(a, items, _) =>
        && t'.SliceAt?
        && (if segs[0] == "-" then
              |segs| == 1 && t'.items == items + [vt] && (if |items| < a.Length then t'.a == a else t'.a !in others)
            else
              match JsonPatch.IndexAt(segs[0], |items|)
              case Some(i) =>
                && t'.a == a && |t'.items| == |items| && Put(items[i], segs[1..], vt, t'.items[i], others)
                && (forall j | 0 <= j < |items| && j != i :: t'.items[j] == items[j])
              case None => false)
      case _ => false
  }

  /** `t'` is `t` without what it has at `segs`, which is `rt`. */
  ghost predicate Taken(t: Tree, segs: seq<string>, t': Tree, rt: Tree)
    decreases |segs|
  {
    segs != [] &&
    match t
    case MapAt(m, kids, _) =>
      && t'.MapAt? && t'.m == m && segs[0] in kids
      && (if |segs| == 1 then t'.kids == kids - {segs[0]} && rt == kids[segs[0]]
          else
            && segs[0] in t'.kids && t'.kids == kids[segs[0] := t'.kids[segs[0]]]
            && Taken(kids[segs[0]], segs[1..], t'.kids[segs[0]], rt))
    case SliceAt(a, items, _) =>
      && t'.SliceAt? && t'.a == a
      && (match JsonPatch.IndexAt(segs[0], |items|)
          case Some(i) =>
            if |segs| == 1 then t'.items == items[..i] + items[i + 1..] && rt == items[i]
            else |t'.items| == |items|
                 && t'.items == items[i := t'.items[i]] && Taken(items[i], segs[1..], t'.items[i], rt)
          case None => false)
    case _ => false
  }

  lemma PutInKid(t: Tree, segs: seq<string>, vt: Tree, kid: Tree, others: set<object>)
    requires t.MapAt? && segs != []
    requires if |segs| == 1 then kid == vt else segs[0] in t.kids && Put(t.kids[segs[0]], segs[1..], vt, kid, others)
    ensures Put(t, segs, vt, WithKid(t, segs[0], kid), others)
  {}

  lemma PutInItem(t: Tree, segs: seq<string>, vt: Tree, i: nat, item: Tree, others: set<object>)
    requires t.SliceAt? && segs != [] && segs[0] != "-" && JsonPatch.IndexAt(segs[0], |t.items|) == Some(i)
    requires Put(t.items[i], segs[1..], vt, item, others)
    ensures Put(t, segs, vt, WithItem(t, i, item), others)
  {}

  lemma SetInObj(m: Members, segs: seq<string>, w: Json, add: bool)
    requires segs != []
    ensures JsonPatch.Set(Obj(m), segs, w, add).Success? <==>
            if |segs| == 1 then segs[0] in m || add
            else segs[0] in m && JsonPatch.Set(m[segs[0]], segs[1..], w, add).Success?
  {}

  lemma SetInArr(elems: seq<Json>, segs: seq<string>, w: Json, add: bool)
    requires segs != [] && segs[0] != "-" && JsonPatch.Set(Arr(elems), segs, w, add).Success?
    ensures |segs| > 1 && JsonPatch.IndexAt(segs[0], |elems|).Some?
    ensures JsonPatch.Set(elems[JsonPatch.IndexAt(segs[0], |elems|).value], segs[1..], w, add).Success?
  {
    var rest := segs[1..];
    assert forall e: Json :: rest == [] ==> JsonPatch.Set(e, rest, w, add).Failure?;
  }

  /** What is put and where says what the value is. */
  lemma {:induction false} PutIsSet(t: Tree, segs: seq<string>, vt: Tree, t': Tree, add: bool, others: set<object>)
    requires segs != [] && Put(t, segs, vt, t', others) && JsonPatch.Set(JsonOf(t), segs, JsonOf(vt), add).Success?
    ensures JsonPatch.Set(JsonOf(t), segs, JsonOf(vt), add) == Success(JsonOf(t'))
    decreases |segs|
  {
    match t
    case MapAt(_, kids, _) =>
      if |segs| > 1 { PutIsSet(kids[segs[0]], segs[1..], vt, t'.kids[segs[0]], add, others); }
      assert JsonOf(t').members == JsonOf(t).members[segs[0] := JsonOf(t'.kids[segs[0]])];
    case SliceAt(_, items, _) =>
      if segs[0] == "-" {
        assert JsonOf(t').elems == JsonOf(t).elems + [JsonOf(vt)];
      } else {
        SetInArr(JsonOf(t).elems, segs, JsonOf(vt), add);
        var i := JsonPatch.IndexAt(segs[0], |items|).value;
        PutIsSet(items[i], segs[1..], vt, t'.items[i], add, others);
        assert JsonOf(t').elems == JsonOf(t).elems[i := JsonOf(t'.items[i])];
      }
  }

  lemma {:induction false} TakenIsDelete(t: Tree, segs: seq<string>, t': Tree, rt: Tree)
    requires Taken(t, segs, t', rt)
    ensures JsonPatch.Delete(JsonOf(t), segs) == Success((JsonOf(t'), JsonOf(rt)))
    decreases |segs|
  {
    match t
    case MapAt(_, kids, _) =>
      if |segs| > 1 {
        TakenIsDelete(kids[segs[0]], segs[1..], t'.kids[segs[0]], rt);
        assert JsonOf(t').members == JsonOf(t).members[segs[0] := JsonOf(t'.kids[segs[0]])];
      } else {
        assert JsonOf(t').members == JsonOf(t).members - {segs[0]};
      }
    case SliceAt(_, items, _) =>
      var i := JsonPatch.IndexAt(segs[0], |items|).value;
      if |segs| > 1 {
        TakenIsDelete(items[i], segs[1..], t'.items[i], rt);
        assert JsonOf(t').elems == JsonOf(t).elems[i := JsonOf(t'.items[i])];
      } else {
        assert JsonOf(t').elems == JsonOf(t).elems[..i] + JsonOf(t).elems[i + 1..];
      }
  }

  // ---- Single writes ----

  /** The map holds what `t` says, member `k` excepted. */
  ghost predicate HoldsBut(m: GoMap, t: Tree, k: string)
    requires t.MapAt? && Nested(t)
    reads t.owned
  {
    m == t.m && m.members.Keys == t.kids.Keys && forall k' | k' in t.kids && k' != k :: Holds(m.members[k'], t.kids[k'])
  }

  /** What grew out of member `k` and a foreign value fits in its place. */
  lemma KidGrows(t: Tree, k: string, kid: Tree, vt: Tree, news: set<object>)
    requires t.MapAt? && Unshared(t) && Unshared(kid) && Foreign(t, vt)
    requires Footprint(kid) <= (if k in t.kids then Footprint(t.kids[k]) else {}) + Footprint(vt) + news
    requires news !! Footprint(t)
    ensures Fits(t, k, kid)
  {}

  /** m[k] = value. */
  method PutMember(m: GoMap, k: string, value: Slot, ghost t: Tree, ghost kid: Tree, ghost t': Tree)
    requires t.MapAt? && Unshared(t) && HoldsBut(m, t, k) && Nested(kid) && m !in Footprint(kid) && Holds(value, kid)
    requires t'.MapAt? && t'.m == m && t'.kids == t.kids[k := kid] && Nested(t')
    modifies m
    ensures Holds(MapRef(m), t')
  {
    m.members := m.members[k := value];
    assert forall k' | k' in t.kids :: m !in Footprint(t.kids[k']);
    assert forall k' | k' in t'.kids && k' != k :: Holds(m.members[k'], t'.kids[k']);
  }

  /** delete(m, k). */
  method TakeMember(m: GoMap, k: string, ghost t: Tree) returns (removed: Slot)
    requires t.MapAt? && Unshared(t) && Holds(MapRef(m), t) && k in m.members && Nested(WithoutKid(t, k))
    modifies m
    ensures Holds(MapRef(m), WithoutKid(t, k)) && Holds(removed, t.kids[k])
  {
    removed := m.members[k];
    m.members := m.members - {k};
    assert forall k' | k' in t.kids :: m !in Footprint(t.kids[k']);
  }

  /** The slice holds what `t` says, element `i` excepted. */
  ghost predicate HoldsButAt(a: array<Slot>, t: Tree, i: nat)
    requires t.SliceAt? && Nested(t)
    reads t.owned
  {
    a == t.a && |t.items| <= a.Length && forall j | 0 <= j < |t.items| && j != i :: Holds(a[j], t.items[j])
  }

  lemma ItemGrows(t: Tree, i: nat, item: Tree, vt: Tree, news: set<object>)
    requires t.SliceAt? && i < |t.items| && Unshared(t) && Unshared(item) && Foreign(t, vt)
    requires Footprint(item) <= Footprint(t.items[i]) + Footprint(vt) + news && news !! Footprint(t)
    ensures FitsAt(t, i, item)
  {
    assert forall j | 0 <= j < |t.items| && j != i :: Footprint(t.items[j]) !! Footprint(t.items[i]);
  }

  /** c[i] = value. */
  method PutElement(a: array<Slot>, i: nat, value: Slot, ghost t: Tree, ghost item: Tree, ghost t': Tree)
    requires t.SliceAt? && i < |t.items| && Unshared(t) && HoldsButAt(a, t, i)
    requires Nested(item) && a !in Footprint(item) && Holds(value, item)
    requires t'.SliceAt? && t'.a == a && t'.items == t.items[i := item] && Nested(t')
    modifies a
    ensures Holds(SliceRef(a, |t.items|), t')
  {
    a[i] := value;
    assert forall j | 0 <= j < |t.items| :: a !in Footprint(t.items[j]);
    assert forall j | 0 <= j < |t'.items| && j != i :: Holds(a[j], t'.items[j]);
  }

  /** append(c, value): behind the last element if the array has room there, else in a new array. */
  method Append(a: array<Slot>, n: nat, value: Slot, ghost t: Tree, ghost vt: Tree) returns (r: array<Slot>)
    requires t.SliceAt? && Unshared(t) && Holds(SliceRef(a, n), t) && Foreign(t, vt) && Holds(value, vt)
    modifies if n < a.Length then {a} else {}
    ensures if n < a.Length then r == a else fresh(r)
    ensures Unshared(WithLast(t, r, vt)) && Holds(SliceRef(r, n + 1), WithLast(t, r, vt))
  {
    if n < a.Length {
      a[n] := value;
      r := a;
    } else {
      var capacity: nat :| capacity > n;
      r := new Slot[capacity](i reads a requires 0 <= i => if i < n <= a.Length then a[i] else value);
    }
    ItemAppendedUnshared(t, r, vt);
    ghost var t' := WithLast(t, r, vt);
    assert forall j | 0 <= j < n :: a !in Footprint(t.items[j]) && Holds(r[j], t.items[j]);
    assert forall j | 0 <= j < n :: t'.items[j] == t.items[j];
  }

  /** append(c[:i], c[i+1:]...): the elements behind move down by one. */
  method TakeElement(a: array<Slot>, n: nat, i: nat, ghost t: Tree) returns (removed: Slot)
    requires t.SliceAt? && Unshared(t) && Holds(SliceRef(a, n), t) && i < n
    modifies a
    ensures Unshared(WithoutItem(t, i)) && Holds(SliceRef(a, n - 1), WithoutItem(t, i)) && Holds(removed, t.items[i])
    ensures a[n - 1] == old(a[n - 1])
  {
    ItemTakenUnshared(t, i);
    removed := a[i];
    ShiftDown(a, n, i);
    ghost var t' := WithoutItem(t, i);
    assert forall k | 0 <= k < n :: a !in Footprint(t.items[k]) && old(Holds(a[k], t.items[k]));
    forall k | 0 <= k < |t'.items| ensures Holds(a[k], t'.items[k]) {
      assert t'.items[k] == t.items[if k < i then k else k + 1];
    }
  }

  /** copy(c[i:], c[i+1:]): each element behind the i-th moves down by one. */
  method ShiftDown(a: array<Slot>, n: nat, i: nat)
    requires i < n <= a.Length
    modifies a
    ensures forall k | 0 <= k < n - 1 :: a[k] == old(a[if k < i then k else k + 1])
    ensures a[n - 1] == old(a[n - 1])
  {
    for j := i to n - 1
      invariant forall k | 0 <= k < n :: a[k] == if i <= k < j then old(a[k + 1]) else old(a[k])
    {
      a[j] := a[j + 1];
    }
  }

  // ---- patchSet ----

  method PatchSet(cur: Slot, ghost t: Tree, segs: seq<string>, value: Slot, ghost vt: Tree, add: bool,
                  ghost others: set<object>)
      returns (ok: bool, r: Slot, ghost t': Tree)
    requires Unshared(t) && Holds(cur, t) && Opens(t, segs) && Foreign(t, vt) && Holds(value, vt)
    modifies PathNodes(t, segs)
    ensures match JsonPatch.Set(JsonOf(t), segs, JsonOf(vt), add)
            case Success(v) =>
              && ok && Unshared(t') && Holds(r, t') && JsonOf(t') == v
              && Put(t, segs, vt, t', others) && Grown(t, Footprint(vt), t') && (cur.MapRef? ==> r == cur)
            case Failure => !ok && unchanged(PathNodes(t, segs))
    decreases |segs|, 1
  {
    ok, r, t' := false, cur, t;
    if segs == [] {
      return;
    }
    match cur {
      case MapRef(m) => ok, t' := SetInMap(m, t, segs, value, vt, add, others);
      case SliceRef(a, n) => ok, r, t' := SetInSlice(a, n, t, segs, value, vt, add, others);
      case Scalar(_) =>
    }
    if ok { PutIsSet(t, segs, vt, t', add, others); }
  }

  method SetInMap(m: GoMap, ghost t: Tree, segs: seq<string>, value: Slot, ghost vt: Tree, add: bool,
                  ghost others: set<object>)
      returns (ok: bool, ghost t': Tree)
    requires segs != []
    requires Unshared(t) && Holds(MapRef(m), t) && Opens(t, segs) && Foreign(t, vt) && Holds(value, vt)
    modifies PathNodes(t, segs)
    ensures ok <==> JsonPatch.Set(JsonOf(t), segs, JsonOf(vt), add).Success?
    ensures ok ==> Unshared(t') && Holds(MapRef(m), t') && Put(t, segs, vt, t', others) && Grown(t, Footprint(vt), t')
    ensures !ok ==> unchanged(PathNodes(t, segs))
    decreases |segs|, 0
  {
    ok, t' := false, t;
    var seg := segs[0];
    SetInObj(JsonOf(t).members, segs, JsonOf(vt), add);
    if |segs| == 1 {
      ok := seg in m.members || add;
      if ok { t' := SetHere(m, t, segs, value, vt, others); }
    } else if seg in m.members {
      ghost var kid';
      ok, kid' := SetBelow(m, t, seg, segs[1..], value, vt, add, others);
      if ok {
        t' := WithKid(t, seg, kid');
        PutInKid(t, segs, vt, kid', others);
      }
    }
  }

  method SetHere(m: GoMap, ghost t: Tree, segs: seq<string>, value: Slot, ghost vt: Tree, ghost others: set<object>)
      returns (ghost t': Tree)
    requires |segs| == 1 && Unshared(t) && t.MapAt? && Holds(MapRef(m), t) && Foreign(t, vt) && Holds(value, vt)
    modifies m
    ensures Unshared(t') && Holds(MapRef(m), t')
    ensures Put(t, segs, vt, t', others) && Grown(t, Footprint(vt), t')
  {
    KidPutUnshared(t, segs[0], vt);
    t' := WithKid(t, segs[0], vt);
    PutMember(m, segs[0], value, t, vt, t');
    PutInKid(t, segs, vt, vt, others);
  }

  /** The recursive call for a member, and the write back into the map. */
  method SetBelow(m: GoMap, ghost t: Tree, k: string, segs: seq<string>, value: Slot, ghost vt: Tree, add: bool,
                  ghost others: set<object>)
      returns (ok: bool, ghost kid': Tree)
    requires Unshared(t) && t.MapAt? && Holds(MapRef(m), t) && k in m.members
    requires Opens(t.kids[k], segs) && Foreign(t, vt) && Holds(value, vt)
    modifies {m} + PathNodes(t.kids[k], segs)
    ensures ok <==> JsonPatch.Set(JsonOf(t.kids[k]), segs, JsonOf(vt), add).Success?
    ensures ok ==> var t' := WithKid(t, k, kid');
                   Unshared(t') && Holds(MapRef(m), t') && Put(t.kids[k], segs, vt, kid', others) &&
                   Grown(t, Footprint(vt), t')
    ensures !ok ==> unchanged({m} + PathNodes(t.kids[k], segs))
    decreases |segs|, 2
  {
    var child;
    ok, child, kid' := PatchSet(m.members[k], t.kids[k], segs, value, vt, add, others);
    if ok {
      assert HoldsBut(m, t, k) by {
        assert forall k' | k' in t.kids && k' != k :: old(Holds(m.members[k'], t.kids[k']));
      }
      KidGrows(t, k, kid', vt, Footprint(kid') - Footprint(t.kids[k]) - Footprint(vt));
      KidPutUnshared(t, k, kid');
      PutMember(m, k, child, t, kid', WithKid(t, k, kid'));
    }
  }

  method SetInSlice(a: array<Slot>, n: nat, ghost t: Tree, segs: seq<string>, value: Slot, ghost vt: Tree, add: bool,
                    ghost others: set<object>)
      returns (ok: bool, r: Slot, ghost t': Tree)
    requires segs != []
    requires Unshared(t) && Holds(SliceRef(a, n), t) && Opens(t, segs) && Foreign(t, vt) && Holds(value, vt)
    modifies PathNodes(t, segs)
    ensures ok <==> JsonPatch.Set(JsonOf(t), segs, JsonOf(vt), add).Success?
    ensures ok ==> Unshared(t') && Holds(r, t') && Put(t, segs, vt, t', others) && Grown(t, Footprint(vt), t')
    ensures !ok ==> unchanged(PathNodes(t, segs))
    decreases |segs|, 0
  {
    ok, r, t' := false, SliceRef(a, n), t;
    var seg := segs[0];
    if seg == "-" {
      ok := |segs| == 1 && add;
      if ok {
        var longer := Append(a, n, value, t, vt);
        r, t' := SliceRef(longer, n + 1), WithLast(t, longer, vt);
      }
      return;
    }
    var i := JsonPatch.IndexAt(seg, n);
    if i.Some? {
      ghost var item';
      ok, item' := SetBelowAt(a, n, t, i.value, segs[1..], value, vt, add, others);
      if ok {
        t' := WithItem(t, i.value, item');
        PutInItem(t, segs, vt, i.value, item', others);
      }
    }
  }

  method SetBelowAt(a: array<Slot>, n: nat, ghost t: Tree, i: nat, segs: seq<string>, value: Slot, ghost vt: Tree,
                    add: bool, ghost others: set<object>)
      returns (ok: bool, ghost item': Tree)
    requires Unshared(t) && t.SliceAt? && Holds(SliceRef(a, n), t) && i < n
    requires Opens(t.items[i], segs) && Foreign(t, vt) && Holds(value, vt)
    modifies {a} + PathNodes(t.items[i], segs)
    ensures ok <==> JsonPatch.Set(JsonOf(t.items[i]), segs, JsonOf(vt), add).Success?
    ensures ok ==> var t' := WithItem(t, i, item');
                   Unshared(t') && Holds(SliceRef(a, n), t') && Put(t.items[i], segs, vt, item', others) &&
                   Grown(t, Footprint(vt), t')
    ensures !ok ==> unchanged({a} + PathNodes(t.items[i], segs))
    decreases |segs|, 2
  {
    var child;
    ok, child, item' := PatchSet(a[i], t.items[i], segs, value, vt, add, others);
    if ok {
      assert HoldsButAt(a, t, i) by {
        assert forall j | 0 <= j < |t.items| && j != i ::
          old(Holds(a[j], t.items[j])) && Footprint(t.items[j]) !! Footprint(t.items[i]);
      }
      ItemGrows(t, i, item', vt, Footprint(item') - Footprint(t.items[i]) - Footprint(vt));
      ItemPutUnshared(t, i, item');
      PutElement(a, i, child, t, item', WithItem(t, i, item'));
    }
  }

  // ---- patchRemove ----

  /** The slot in which the list that the path goes to the end of has its last element. */
  ghost function LastSlot(t: Tree, segs: seq<string>): Option<Slot>
    requires Nested(t)
    reads Footprint(t)
    decreases |segs|
  {
    if segs == [] then None
    else
      match t
      case MapAt(_, kids, _) => if |segs| > 1 && segs[0] in kids then LastSlot(kids[segs[0]], segs[1..]) else None
      case SliceAt(a, items, _) =>
        if |segs| == 1 then
          if 0 < |items| <= a.Length then Some(a[|items| - 1]) else None
        else
          var i := JsonPatch.IndexAt(segs[0], |items|);
          if i.Some? then LastSlot(items[i.value], segs[1..]) else None
      case _ => None
  }

  /** What is left is made of objects of `t`, none of them in what was removed. */
  ghost predicate Parted(t: Tree, rest: Tree, removed: Tree) {
    Footprint(rest) <= Footprint(t) && Footprint(removed) <= Footprint(t) && Footprint(rest) !! Footprint(removed)
  }

  method PatchRemove(cur: Slot, ghost t: Tree, segs: seq<string>)
      returns (ok: bool, r: Slot, removed: Slot, ghost t': Tree, ghost rt: Tree)
    requires Unshared(t) && Holds(cur, t) && Opens(t, segs)
    modifies PathNodes(t, segs)
    ensures match JsonPatch.Delete(JsonOf(t), segs)
            case Success(v) =>
              && ok && Unshared(t') && Holds(r, t') && JsonOf(t') == v.0
              && Unshared(rt) && Holds(removed, rt) && JsonOf(rt) == v.1
              && Parted(t, t', rt) && Taken(t, segs, t', rt) && (cur.MapRef? ==> r == cur)
            case Failure => !ok && unchanged(PathNodes(t, segs))
    ensures ok ==> LastSlot(t, segs) == old(LastSlot(t, segs))
    decreases |segs|, 1
  {
    ok, r, removed, t', rt := false, cur, cur, t, t;
    if segs == [] {
      return;
    }
    match cur {
      case MapRef(m) => ok, removed, t', rt := RemoveInMap(m, t, segs);
      case SliceRef(a, n) => ok, r, removed, t', rt := RemoveInSlice(a, n, t, segs);
      case Scalar(_) =>
    }
    if ok { TakenIsDelete(t, segs, t', rt); }
  }

  lemma DeleteInObj(m: Members, segs: seq<string>)
    requires segs != []
    ensures JsonPatch.Delete(Obj(m), segs).Success? <==>
            segs[0] in m && (|segs| == 1 || JsonPatch.Delete(m[segs[0]], segs[1..]).Success?)
  {}

  method RemoveInMap(m: GoMap, ghost t: Tree, segs: seq<string>)
      returns (ok: bool, removed: Slot, ghost t': Tree, ghost rt: Tree)
    requires segs != [] && Unshared(t) && Holds(MapRef(m), t) && Opens(t, segs)
    modifies PathNodes(t, segs)
    ensures ok <==> JsonPatch.Delete(JsonOf(t), segs).Success?
    ensures ok ==> Unshared(t') && Holds(MapRef(m), t') && Unshared(rt) && Holds(removed, rt)
    ensures ok ==> Parted(t, t', rt) && Taken(t, segs, t', rt)
    ensures ok ==> LastSlot(t, segs) == old(LastSlot(t, segs))
    ensures !ok ==> unchanged(PathNodes(t, segs))
    decreases |segs|, 0
  {
    ok, removed, t', rt := false, MapRef(m), t, t;
    var seg := segs[0];
    DeleteInObj(JsonOf(t).members, segs);
    if seg in m.members {
      if |segs| == 1 {
        ok := true;
        removed, t', rt := TakeHere(m, t, segs);
      } else {
        ghost var kid';
        ok, removed, kid', rt := RemoveBelow(m, t, seg, segs[1..]);
        if ok {
          t' := KidShrunk(t, seg, kid', rt);
          TakenInKid(t, segs, kid', rt);
        }
      }
    }
  }

  method TakeHere(m: GoMap, ghost t: Tree, segs: seq<string>) returns (removed: Slot, ghost t': Tree, ghost rt: Tree)
    requires |segs| == 1 && Unshared(t) && t.MapAt? && Holds(MapRef(m), t) && segs[0] in m.members
    modifies m
    ensures Unshared(t') && Holds(MapRef(m), t') && Unshared(rt) && Holds(removed, rt)
    ensures Parted(t, t', rt) && Taken(t, segs, t', rt)
  {
    KidTakenUnshared(t, segs[0]);
    t', rt := WithoutKid(t, segs[0]), t.kids[segs[0]];
    removed := TakeMember(m, segs[0], t);
  }

  method RemoveInSlice(a: array<Slot>, n: nat, ghost t: Tree, segs: seq<string>)
      returns (ok: bool, r: Slot, removed: Slot, ghost t': Tree, ghost rt: Tree)
    requires segs != [] && Unshared(t) && Holds(SliceRef(a, n), t) && Opens(t, segs)
    modifies PathNodes(t, segs)
    ensures ok <==> JsonPatch.Delete(JsonOf(t), segs).Success?
    ensures ok ==> Unshared(t') && Holds(r, t') && Unshared(rt) && Holds(removed, rt)
    ensures ok ==> Parted(t, t', rt) && Taken(t, segs, t', rt)
    ensures ok ==> LastSlot(t, segs) == old(LastSlot(t, segs))
    ensures !ok ==> unchanged(PathNodes(t, segs))
    decreases |segs|, 0
  {
    ok, r, removed, t', rt := false, SliceRef(a, n), SliceRef(a, n), t, t;
    var i := JsonPatch.IndexAt(segs[0], n);
    if i.Some? {
      if |segs| == 1 {
        removed, t', rt := TakeHereAt(a, n, i.value, t, segs);
        ok, r := true, SliceRef(a, n - 1);
      } else {
        ghost var item';
        ok, removed, item', rt := RemoveBelowAt(a, n, t, i.value, segs[1..]);
        if ok {
          t' := ItemShrunk(t, i.value, item', rt);
          TakenInItem(t, segs, i.value, item', rt);
        }
      }
    }
  }

  method TakeHereAt(a: array<Slot>, n: nat, i: nat, ghost t: Tree, ghost segs: seq<string>)
      returns (removed: Slot, ghost t': Tree, ghost rt: Tree)
    requires |segs| == 1 && Unshared(t) && t.SliceAt? && Holds(SliceRef(a, n), t)
    requires JsonPatch.IndexAt(segs[0], n) == Some(i)
    modifies a
    ensures Unshared(t') && Holds(SliceRef(a, n - 1), t') && Unshared(rt) && Holds(removed, rt)
    ensures Parted(t, t', rt) && Taken(t, segs, t', rt) && a[n - 1] == old(a[n - 1])
  {
    t', rt := WithoutItem(t, i), t.items[i];
    removed := TakeElement(a, n, i, t);
  }

  ghost function KidShrunk(t: Tree, k: string, kid: Tree, gone: Tree): Tree
    requires t.MapAt?
  {
    MapAt(t.m, t.kids[k := kid], t.owned - Footprint(gone))
  }

  ghost function ItemShrunk(t: Tree, i: nat, item: Tree, gone: Tree): Tree
    requires t.SliceAt? && i < |t.items|
  {
    SliceAt(t.a, t.items[i := item], t.owned - Footprint(gone))
  }

  lemma KidShrinks(t: Tree, k: string, kid: Tree, gone: Tree)
    requires t.MapAt? && k in t.kids && Unshared(t) && Unshared(kid) && Parted(t.kids[k], kid, gone)
    ensures Unshared(KidShrunk(t, k, kid, gone)) && Fits(t, k, kid) && Parted(t, KidShrunk(t, k, kid, gone), gone)
    ensures t.m !in Footprint(gone)
  {}

  lemma ItemShrinks(t: Tree, i: nat, item: Tree, gone: Tree)
    requires t.SliceAt? && i < |t.items| && Unshared(t) && Unshared(item) && Parted(t.items[i], item, gone)
    ensures Unshared(ItemShrunk(t, i, item, gone)) && FitsAt(t, i, item)
    ensures Parted(t, ItemShrunk(t, i, item, gone), gone) && t.a !in Footprint(gone)
  {}

  lemma TakenInKid(t: Tree, segs: seq<string>, kid: Tree, rt: Tree)
    requires t.MapAt? && |segs| > 1 && segs[0] in t.kids && Taken(t.kids[segs[0]], segs[1..], kid, rt)
    ensures Taken(t, segs, KidShrunk(t, segs[0], kid, rt), rt)
  {}

  lemma TakenInItem(t: Tree, segs: seq<string>, i: nat, item: Tree, rt: Tree)
    requires t.SliceAt? && |segs| > 1 && JsonPatch.IndexAt(segs[0], |t.items|) == Some(i)
    requires Taken(t.items[i], segs[1..], item, rt)
    ensures Taken(t, segs, ItemShrunk(t, i, item, rt), rt)
  {}

  method RemoveBelow(m: GoMap, ghost t: Tree, k: string, segs: seq<string>)
      returns (ok: bool, removed: Slot, ghost kid': Tree, ghost rt: Tree)
    requires Unshared(t) && t.MapAt? && Holds(MapRef(m), t) && k in m.members && Opens(t.kids[k], segs)
    modifies {m} + PathNodes(t.kids[k], segs)
    ensures ok <==> JsonPatch.Delete(JsonOf(t.kids[k]), segs).Success?
    ensures ok ==> var t' := KidShrunk(t, k, kid', rt);
                   && Unshared(t') && Holds(MapRef(m), t') && Unshared(rt) && Holds(removed, rt)
                   && Parted(t, t', rt) && Taken(t.kids[k], segs, kid', rt)
    ensures ok ==> LastSlot(t.kids[k], segs) == old(LastSlot(t.kids[k], segs))
    ensures !ok ==> unchanged({m} + PathNodes(t.kids[k], segs))
    decreases |segs|, 2
  {
    var child;
    ok, child, removed, kid', rt := PatchRemove(m.members[k], t.kids[k], segs);
    if ok {
      assert HoldsBut(m, t, k) by {
        assert forall k' | k' in t.kids && k' != k :: old(Holds(m.members[k'], t.kids[k']));
      }
      PutLeft(m, k, child, removed, t, kid', rt);
    }
  }

  /** The write back of what is left of member `k`. */
  method PutLeft(m: GoMap, k: string, child: Slot, removed: Slot, ghost t: Tree, ghost kid: Tree, ghost rt: Tree)
    requires t.MapAt? && k in t.kids && Unshared(t) && HoldsBut(m, t, k)
    requires Unshared(kid) && Holds(child, kid) && Unshared(rt) && Holds(removed, rt) && Parted(t.kids[k], kid, rt)
    modifies m
    ensures var t' := KidShrunk(t, k, kid, rt);
            Unshared(t') && Holds(MapRef(m), t') && Holds(removed, rt) && Parted(t, t', rt)
  {
    KidShrinks(t, k, kid, rt);
    PutMember(m, k, child, t, kid, KidShrunk(t, k, kid, rt));
  }

  method RemoveBelowAt(a: array<Slot>, n: nat, ghost t: Tree, i: nat, segs: seq<string>)
      returns (ok: bool, removed: Slot, ghost item': Tree, ghost rt: Tree)
    requires Unshared(t) && t.SliceAt? && Holds(SliceRef(a, n), t) && i < n && Opens(t.items[i], segs)
    modifies {a} + PathNodes(t.items[i], segs)
    ensures ok <==> JsonPatch.Delete(JsonOf(t.items[i]), segs).Success?
    ensures ok ==> var t' := ItemShrunk(t, i, item', rt);
                   && Unshared(t') && Holds(SliceRef(a, n), t') && Unshared(rt) && Holds(removed, rt)
                   && Parted(t, t', rt) && Taken(t.items[i], segs, item', rt)
    ensures ok ==> LastSlot(t.items[i], segs) == old(LastSlot(t.items[i], segs))
    ensures !ok ==> unchanged({a} + PathNodes(t.items[i], segs))
    decreases |segs|, 2
  {
    var child;
    ok, child, removed, item', rt := PatchRemove(a[i], t.items[i], segs);
    if ok {
      assert HoldsButAt(a, t, i) by {
        assert forall j | 0 <= j < |t.items| && j != i ::
          old(Holds(a[j], t.items[j])) && Footprint(t.items[j]) !! Footprint(t.items[i]);
      }
      PutLeftAt(a, i, child, removed, t, item', rt);
    }
  }

  method PutLeftAt(a: array<Slot>, i: nat, child: Slot, removed: Slot, ghost t: Tree, ghost item: Tree, ghost rt: Tree)
    requires t.SliceAt? && i < |t.items| && Unshared(t) && HoldsButAt(a, t, i)
    requires Unshared(item) && Holds(child, item) && Unshared(rt) && Holds(removed, rt) && Parted(t.items[i], item, rt)
    modifies a
    ensures var t' := ItemShrunk(t, i, item, rt);
            Unshared(t') && Holds(SliceRef(a, |t.items|), t') && Holds(removed, rt) && Parted(t, t', rt)
  {
    ItemShrinks(t, i, item, rt);
    PutElement(a, i, child, t, item, ItemShrunk(t, i, item, rt));
  }
}
