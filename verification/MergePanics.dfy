/** For which overlays a merge never panics. */
module MergePanics {
  import opened Wrappers
  import opened Json
  import opened StrategicMerge
  import opened MergeIdempotence
  import NamedLists
  import MergePatch

  /** No directive anywhere a merge can look for one, on whatever document. */
  predicate Plain(v: Json) {
    match v
    case Obj(m) => forall k | k in m :: !IsDirective(k) && Plain(m[k])
    case Arr(list) =>
      (forall el | el in list :: !HasMarker(el)) && (AllHaveName(list) ==> forall el | el in list :: Plain(el))
    case _ => true
  }

  /** Every list that can be merged by name has string names, at every depth. */
  predicate StringNames(v: Json) {
    match v
    case Obj(m) => forall k | k in m :: StringNames(m[k])
    case Arr(list) => AllHaveName(list) ==> forall el | el in list :: NameOf(el).Some? && StringNames(el)
    case _ => true
  }

  /** No list that can be merged by name repeats one. */
  predicate NoRepeats(v: Json) {
    match v
    case Obj(m) => forall k | k in m :: NoRepeats(m[k])
    case Arr(list) =>
      AllHaveName(list) ==>
        && (forall i, j | 0 <= i < j < |list| && NameOf(list[i]).Some? :: NameOf(list[i]) != NameOf(list[j]))
        && (forall el | el in list :: NoRepeats(el))
    case _ => true
  }

  // ---- String names are enough ----

  lemma {:induction false} NeverPanics(base: Members, v: Json)
    requires v.Obj? && Plain(v) && StringNames(v)
    ensures Merge(base, v) == Merged(MergedMembers(base, v))
    decreases v, 0
  {
    var o := v.members;
    MergePatch.PlainMerge(base, v);
    forall k | k in o ensures !MergeMember(Lookup(base, k), o[k]).SlotPanics? {
      MemberNeverPanics(Lookup(base, k), o[k]);
    }
  }

  lemma {:induction false} MemberNeverPanics(current: Option<Json>, v: Json)
    requires Plain(v) && StringNames(v)
    ensures !MergeMember(current, v).SlotPanics?
    decreases v, 1
  {
    match v {
      case Obj(_) =>
        NeverPanics(if current.Some? && current.value.Obj? then current.value.members else map[], v);
      case Arr(list) =>
        if current.Some? && current.value.Arr? { ListNeverPanics(current.value.elems, list); }
      case _ =>
    }
  }

  lemma {:induction false} ListNeverPanics(base: seq<Json>, list: seq<Json>)
    requires Plain(Arr(list)) && StringNames(Arr(list))
    ensures !MergeNamedArray(base, list).ListPanics?
    decreases list, 0
  {
    NamedListIsMergeable(list);
    if AllHaveName(list) && NamedLists.AllNamed(base) {
      forall el, before: Members | el in list && el.Obj? ensures Merge(before, el).Merged? {
        NeverPanics(before, el);
      }
      ElementsMerge(IndexBase(base, {}), list);
    }
    NotAPanic(base, list);
  }

  lemma NotAPanic(base: seq<Json>, list: seq<Json>)
    requires (forall el | el in list :: !HasMarker(el)) && !ReplacesList(list) && DeletedNames(list) == {}
    requires AllHaveName(list) <==> forall el | el in list :: Mergeable(el)
    requires MergesByName(base, list) ==> MergeElements(IndexBase(base, {}), list, {}).Some?
    ensures !MergeNamedArray(base, list).ListPanics?
  {}

  // ---- They are needed ----

  lemma {:induction false} MergeElementsConcat(ix: Index, a: seq<Json>, b: seq<Json>)
    requires forall el | el in a + b :: Mergeable(el)
    ensures forall el | el in a :: Mergeable(el)
    ensures forall el | el in b :: Mergeable(el)
    ensures MergeElements(ix, a + b, {}) ==
            match MergeElements(ix, a, {}) case None => None case Some(mid) => MergeElements(mid, b, {})
    decreases |a|
  {
    assert forall el | el in a :: el in a + b;
    assert forall el | el in b :: el in a + b;
    if a == [] {
      assert a + b == b;
    } else {
      assert (a + b)[0] == a[0] && (a + b)[1..] == a[1..] + b;
      var next := MergeElement(ix, a[0], {});
      if next.Some? { MergeElementsConcat(next.value, a[1..], b); }
    }
  }

  /** In a list without repetitions every element is merged into the base element of its name. */
  lemma ElementMerges(base: seq<Json>, list: seq<Json>, i: nat)
    requires NamedLists.AllNamed(base) && DistinctNames(list) &&
             forall el | el in list :: Mergeable(el) && !IsDeleteMarker(el)
    requires i < |list| && MergeElements(IndexBase(base, {}), list, {}).Some?
    ensures !Merge(NamedLists.LastNamed(base, NameOf(list[i]).value), list[i]).Panics?
  {
    var ix0, front, el := IndexBase(base, {}), list[..i], list[i];
    var n := NameOf(el).value;
    assert list == front + ([el] + list[i + 1..]);
    MergeElementsConcat(ix0, front, [el] + list[i + 1..]);
    var ix := MergeElements(ix0, front, {}).value;
    NamedLists.BaseIndexed(base, {});
    NamedLists.ElementsIndexed(ix0, base, [], front, {});
    assert [] + front == front;
    forall e | e in front ensures NameOf(e) != Some(n) {
      var j :| 0 <= j < |front| && front[j] == e;
      assert list[j] == e;
    }
    DocUntouched(base, front, n);
    if n !in ix.byName { NamedLists.UnnamedIsEmpty(base, front, {}, n); }
    FirstDoesNotPanic(ix, el, list[i + 1..]);
  }

  lemma FirstDoesNotPanic(ix: Index, el: Json, rest: seq<Json>)
    requires Mergeable(el) && !IsDeleteMarker(el) && NameOf(el).Some? && (forall e | e in [el] + rest :: Mergeable(e))
    requires MergeElements(ix, [el] + rest, {}).Some?
    ensures var n := NameOf(el).value; !Merge(if n in ix.byName then ix.byName[n] else map[], el).Panics?
  {
    assert ([el] + rest)[0] == el;
  }

  /** An element's own name is stored whatever the document has for it. */
  lemma NamePutIn(b: Members, el: Json, n: string)
    requires NameOf(el) == Some(n) && Plain(el)
    ensures Merge(b["name" := Str(n)], el) == Merge(b, el)
  {
    var b' := b["name" := Str(n)];
    MergePatch.PlainMerge(b, el);
    MergePatch.PlainMerge(b', el);
    forall k | k in el.members
      ensures MergeMember(Lookup(b', k), el.members[k]) == MergeMember(Lookup(b, k), el.members[k])
    {
      assert k != "name" ==> Lookup(b', k) == Lookup(b, k);
    }
    forall k ensures MergedSlot(b', el, k) == MergedSlot(b, el, k) {
      assert k != "name" ==> Lookup(b', k) == Lookup(b, k);
    }
    assert MergedMembers(b', el) == MergedMembers(b, el);
  }

  /** A document on which an overlay with another name panics. */
  lemma {:induction false} OtherNamesPanic(v: Json) returns (current: Option<Json>)
    requires Plain(v) && NoRepeats(v) && !StringNames(v)
    ensures MergeMember(current, v).SlotPanics?
    decreases v
  {
    match v {
      case Obj(m) =>
        var k :| k in m && !StringNames(m[k]);
        var inner := OtherNamesPanic(m[k]);
        current := Some(Obj(Holding(k, inner)));
        MemberPanics(inner, m, k);
      case Arr(list) =>
        if i :| 0 <= i < |list| && NameOf(list[i]).None? {
          current := Some(Arr([]));
          assert list[i] in list;
          NonStringNameShows(list, list[i]);
        } else {
          var i :| 0 <= i < |list| && !StringNames(list[i]);
          assert list[i] in list;
          var inner := OtherNamesPanic(list[i]);
          var b := if inner.Some? && inner.value.Obj? then inner.value.members else map[];
          current := Some(Arr([Named(b, NameOf(list[i]).value)]));
          ElementPanics(b, list, i);
        }
    }
  }

  /** A document with one member, or without it. */
  function Holding(k: string, v: Option<Json>): (m: Members)
    ensures Lookup(m, k) == v
  {
    if v.Some? then map[k := v.value] else map[]
  }

  lemma MemberPanics(current: Option<Json>, m: Members, k: string)
    requires Plain(Obj(m)) && k in m && MergeMember(current, m[k]).SlotPanics?
    ensures MergeMember(Some(Obj(Holding(k, current))), Obj(m)).SlotPanics?
  {
    MergePatch.PlainMerge(Holding(k, current), Obj(m));
  }

  lemma NonStringNameShows(list: seq<Json>, el: Json)
    requires (forall e | e in list :: !HasMarker(e)) && AllHaveName(list)
    requires el in list && NameOf(el).None?
    ensures MergeNamedArray([], list).ListPanics?
  {
    NamedListIsMergeable(list);
    AllMergeable(list);
    NamedLists.NonStringNamePanics([], list, el);
  }

  lemma AllMergeable(list: seq<Json>)
    requires forall el | el in list :: Mergeable(el)
    ensures MergesByName([], list)
  {}

  function Named(b: Members, n: string): (el: Json)
    ensures NameOf(el) == Some(n)
  {
    Obj(b["name" := Str(n)])
  }

  /** A panic inside an element, shown on the base element of its name. */
  lemma ElementPanics(b: Members, list: seq<Json>, i: nat)
    requires Plain(Arr(list)) && AllHaveName(list) && DistinctNames(list) && i < |list|
    requires Merge(b, list[i]).Panics?
    ensures MergeNamedArray([Named(b, NameOf(list[i]).value)], list).ListPanics?
  {
    var n := NameOf(list[i]).value;
    var base := [Named(b, n)];
    assert list[i] in list;
    NamedListIsMergeable(list);
    NamePutIn(b, list[i], n);
    LastNamedAt(base, 0);
    assert MergesByName(base, list);
    if MergeElements(IndexBase(base, {}), list, {}).Some? { ElementMerges(base, list, i); }
  }

  /** For overlays without directives whose lists repeat no name: no document makes the merge panic if
      and only if the lists that can be merged by name have only string names. */
  lemma PanicsExactly(overlay: Json)
    requires overlay.Obj? && Plain(overlay) && NoRepeats(overlay)
    ensures (forall base: Members :: !Merge(base, overlay).Panics?) <==> StringNames(overlay)
  {
    if StringNames(overlay) {
      forall base: Members ensures !Merge(base, overlay).Panics? { NeverPanics(base, overlay); }
    } else {
      var current := OtherNamesPanic(overlay);
      var base := if current.Some? && current.value.Obj? then current.value.members else map[];
      assert Merge(base, overlay).Panics?;
    }
  }
}
