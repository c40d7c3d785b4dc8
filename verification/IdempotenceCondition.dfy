/** For which overlays re-applying changes nothing: exactly the repeatable ones. */
module IdempotenceCondition {
  import opened Wrappers
  import opened Json
  import opened StrategicMerge
  import opened MergeIdempotence
  import opened MergePanics
  import NamedLists
  import MergePatch

  /** On a member that holds `current`, merging `v` panics or the second merge changes what the first left. */
  predicate Fails(current: Option<Json>, v: Json) {
    match MergeMember(current, v)
    case SlotPanics => true
    case Dropped => MergeMember(None, v) != Dropped
    case Kept(w) => MergeMember(Some(w), v) != Kept(w)
  }

  // ---- What each kind of overlay that is not repeatable fails on ----

  lemma MergedHolds(base: Members, v: Json, doc: Members, k: string)
    requires v.Obj? && Plain(v) && k in v.members && Merge(base, v) == Merged(doc)
    ensures SlotOf(Lookup(doc, k)) == MergeMember(Lookup(base, k), v.members[k])
  {
    MergePatch.PlainMerge(base, v);
  }

  lemma MemberFails(current: Option<Json>, m: Members, k: string)
    requires Plain(Obj(m)) && k in m && Fails(current, m[k])
    ensures Fails(Some(Obj(Holding(k, current))), Obj(m))
  {
    var base, v := Holding(k, current), Obj(m);
    MergePatch.PlainMerge(base, v);
    if Merge(base, v).Merged? {
      var once := Merge(base, v).doc;
      MergedHolds(base, v, once, k);
      if Merge(once, v) == Merged(once) { MergedHolds(once, v, once, k); }
    }
  }

  /** Without a list to merge with, a list is stored as it is. */
  lemma FirstStores(list: seq<Json>)
    requires (forall el | el in list :: !HasMarker(el)) && MergeNamedArray(list, list) != Listed(list)
    requires !MergeNamedArray(list, list).NotNamed?
    ensures Fails(None, Arr(list))
  {
    NamedListIsMergeable(list);
    assert MergeMember(None, Arr(list)) == Kept(Arr(list));
  }

  lemma PlainRetains(el: Json)
    requires el.Obj? && Plain(el)
    ensures NamedLists.RetainsName(el)
  {
    assert IsDirective(RETAIN);
  }

  /** Repeated names are stored the first time and merged into one the second time. */
  lemma RepeatedNameShows(list: seq<Json>)
    requires Plain(Arr(list)) && AllHaveName(list) && NamedLists.AllNamed(list) && !DistinctNames(list)
    ensures Fails(None, Arr(list))
  {
    NamedListIsMergeable(list);
    forall el | el in list ensures NamedLists.RetainsName(el) { PlainRetains(el); }
    NamedLists.NamedListLaw(list, list);
    NamedLists.NamedListNames(list, list);
    NamedLists.ResultNamesLaw(list, list, "");
    var r := MergeNamedArray(list, list);
    if r == Listed(list) {
      forall i, j | 0 <= i < j < |list| ensures NameOf(list[i]) != NameOf(list[j]) {
        assert NameOf(list[i]) == Some(NamedLists.ResultNames(list, list)[i]);
      }
      assert DistinctNames(list);
    }
    FirstStores(list);
  }

  /** A repeatable element with a null loses it when it is merged into itself. */
  lemma {:induction false} SelfMergeLosesNull(x: Json)
    requires x.Obj? && Repeatable(x) && !Settled(x)
    ensures Merge(x.members, x) != Merged(x.members)
    decreases x
  {
    var m := x.members;
    RepeatableMerges(m, x);
    var k :| k in m && (m[k].Null? || !Settled(m[k]));
    assert !IsDirective(k) && Repeatable(m[k]);
    if m[k].Obj? { SelfMergeLosesNull(m[k]); }
    assert MergeMember(Some(m[k]), m[k]) != Kept(m[k]);
    assert SlotOf(Lookup(MergedMembers(m, x), k)) == MergedSlot(m, x, k);
  }

  lemma NullShows(list: seq<Json>, i: nat)
    requires Plain(Arr(list)) && AllHaveName(list) && DistinctNames(list)
    requires i < |list| && Repeatable(list[i]) && !Settled(list[i])
    ensures Fails(None, Arr(list))
  {
    var el := list[i];
    assert el in list;
    NamedListIsMergeable(list);
    SelfListed(list);
    DocMergedOnce(list, list, i);
    LastNamedAt(list, i);
    RepeatableMerges(el.members, el);
    SelfMergeLosesNull(el);
    FirstStores(list);
  }

  /** A failure inside an element, lifted to the base element of its name. */
  lemma ElementFails(b: Members, list: seq<Json>, i: nat)
    requires Plain(Arr(list)) && AllHaveName(list) && DistinctNames(list) && i < |list|
    requires Fails(Some(Obj(b)), list[i])
    ensures Fails(Some(Arr([Named(b, NameOf(list[i]).value)])), Arr(list))
  {
    var base := [Named(b, NameOf(list[i]).value)];
    MergedByName(base, list);
    if MergeNamedArray(base, list).ListPanics? {
      ListPanicFails(base, list);
    } else {
      ListedElementFails(b, base, list, i, MergeNamedArray(base, list).elems);
    }
  }

  lemma ListedElementFails(b: Members, base: seq<Json>, list: seq<Json>, i: nat, once: seq<Json>)
    requires Plain(Arr(list)) && AllHaveName(list) && DistinctNames(list) && i < |list|
    requires Fails(Some(Obj(b)), list[i]) && base == [Named(b, NameOf(list[i]).value)]
    requires MergeNamedArray(base, list) == Listed(once)
    ensures Fails(Some(Arr(base)), Arr(list))
  {
    var d := ElementOnce(b, list, i);
    var p := ElementKept(base, once, list, i);
    MergedByName(once, list);
    if MergeNamedArray(once, list) == Listed(once) {
      SecondLeaves(once, list, i, p, d);
      ElementStays(b, d, list[i]);
    }
    ListChangedFails(base, once, list);
  }

  lemma NotReplaced(base: seq<Json>, list: seq<Json>)
    requires NamedLists.AllNamed(base) && !ReplacesList(list) && forall el | el in list :: Mergeable(el)
    ensures !MergeNamedArray(base, list).NotNamed?
  {}

  lemma MergedByName(base: seq<Json>, list: seq<Json>)
    requires NamedLists.AllNamed(base) && AllHaveName(list) && forall el | el in list :: !HasMarker(el)
    ensures !MergeNamedArray(base, list).NotNamed?
  {
    NamedListIsMergeable(list);
    NotReplaced(base, list);
  }

  lemma ElementStays(b: Members, d: Members, el: Json)
    requires el.Obj? && Merge(b, el) == Merged(d) && Merge(d, el) == Merged(d)
    ensures !Fails(Some(Obj(b)), el)
  {}

  lemma ListPanicFails(base: seq<Json>, list: seq<Json>)
    requires MergeNamedArray(base, list).ListPanics?
    ensures Fails(Some(Arr(base)), Arr(list))
  {}

  lemma ListChangedFails(base: seq<Json>, once: seq<Json>, list: seq<Json>)
    requires MergeNamedArray(base, list) == Listed(once)
    requires MergeNamedArray(once, list) != Listed(once) && !MergeNamedArray(once, list).NotNamed?
    ensures Fails(Some(Arr(base)), Arr(list))
  {}

  /** The first merge puts the element's own merge under its name. */
  lemma ElementOnce(b: Members, list: seq<Json>, i: nat) returns (d: Members)
    requires Plain(Arr(list)) && AllHaveName(list) && DistinctNames(list) && i < |list|
    requires MergeNamedArray([Named(b, NameOf(list[i]).value)], list).Listed?
    ensures Merge(b, list[i]) == Merged(d)
    ensures NamedLists.DocNamed([Named(b, NameOf(list[i]).value)], list, NameOf(list[i]).value) == d
  {
    var el, n := list[i], NameOf(list[i]).value;
    var base := [Named(b, n)];
    assert el in list;
    NamedListIsMergeable(list);
    NamedLists.NamedListLaw(base, list);
    ElementMerges(base, list, i);
    LastNamedAt(base, 0);
    NamePutIn(b, el, n);
    DocMergedOnce(base, list, i);
    d := Merge(b, el).doc;
  }

  /** Where the element of that name is in the result, whose names the second merge keeps. */
  lemma ElementKept(base: seq<Json>, once: seq<Json>, list: seq<Json>, i: nat) returns (p: nat)
    requires Plain(Arr(list)) && AllHaveName(list) && DistinctNames(list) && i < |list|
    requires NamedLists.AllNamed(base) && MergeNamedArray(base, list) == Listed(once)
    ensures p < |once| && NameOf(once[p]) == NameOf(list[i]) && DistinctNames(once)
    ensures once[p] == Obj(NamedLists.DocNamed(base, list, NameOf(list[i]).value))
    ensures NamedLists.AllNamed(list) && NamedLists.AllNamed(once)
    ensures |NamedLists.ResultNames(once, list)| == |once|
    ensures NamedLists.ResultNames(once, list)[p] == NameOf(list[i]).value
  {
    var n := NameOf(list[i]).value;
    assert list[i] in list;
    NamedListIsMergeable(list);
    forall el | el in list ensures NamedLists.RetainsName(el) { PlainRetains(el); }
    NamedLists.NamedListLaw(base, list);
    NamedLists.NamedListNames(base, list);
    NamedLists.ResultNamesLaw(base, list, n);
    var names := NamedLists.ResultNames(base, list);
    assert NamedLists.MergesInto(list[i], n);
    p :| 0 <= p < |names| && names[p] == n;
    NamesKept(once, names);
    SameNames(base, once, list);
  }

  /** If the second merge changes nothing, the element's own second merge changes nothing. */
  lemma SecondLeaves(once: seq<Json>, list: seq<Json>, i: nat, p: nat, d: Members)
    requires Plain(Arr(list)) && AllHaveName(list) && DistinctNames(list) && i < |list|
    requires DistinctNames(once) && NamedLists.AllNamed(once) && NamedLists.AllNamed(list)
    requires p < |once| && once[p] == Obj(d) && NameOf(once[p]) == NameOf(list[i])
    requires |NamedLists.ResultNames(once, list)| == |once|
    requires NamedLists.ResultNames(once, list)[p] == NameOf(list[i]).value
    requires MergeNamedArray(once, list) == Listed(once)
    ensures Merge(d, list[i]) == Merged(d)
  {
    NamedListIsMergeable(list);
    assert list[i] in list;
    AllMergeable(list);
    NamedLists.NamedListLaw(once, list);
    LastNamedAt(once, p);
    ElementMerges(once, list, i);
    DocMergedOnce(once, list, i);
  }

  // ---- The condition ----

  /** A value on which an overlay that is not repeatable fails. */
  lemma {:induction false} NotRepeatableFails(v: Json) returns (current: Option<Json>)
    requires Plain(v) && !Repeatable(v)
    ensures Fails(current, v)
    decreases v
  {
    match v {
      case Obj(m) =>
        var k :| k in m && !Repeatable(m[k]);
        var inner := NotRepeatableFails(m[k]);
        current := Some(Obj(Holding(k, inner)));
        MemberFails(inner, m, k);
      case Arr(list) =>
        if el :| el in list && NameOf(el).None? {
          current := Some(Arr([]));
          NonStringNameShows(list, el);
        } else if !DistinctNames(list) {
          current := None;
          RepeatedNameShows(list);
        } else if i :| 0 <= i < |list| && !Repeatable(list[i]) {
          assert list[i] in list;
          var inner := NotRepeatableFails(list[i]);
          var b := if inner.Some? && inner.value.Obj? then inner.value.members else map[];
          current := Some(Arr([Named(b, NameOf(list[i]).value)]));
          ElementFails(b, list, i);
        } else {
          current := None;
          var i :| 0 <= i < |list| && !Settled(list[i]);
          NullShows(list, i);
        }
    }
  }

  /** For overlays without directives: the merge succeeds on every document and a second merge changes
      nothing, if and only if the lists that can be merged by name have distinct string names and no
      nulls in their elements. */
  lemma IdempotentExactly(overlay: Json)
    requires overlay.Obj? && Plain(overlay)
    ensures (forall base: Members ::
               Merge(base, overlay).Merged? && Merge(Merge(base, overlay).doc, overlay) == Merge(base, overlay))
            <==> Repeatable(overlay)
  {
    if Repeatable(overlay) {
      forall base: Members
        ensures Merge(base, overlay).Merged? && Merge(Merge(base, overlay).doc, overlay) == Merge(base, overlay)
      {
        MergeIsIdempotent(base, overlay);
      }
    } else {
      var current := NotRepeatableFails(overlay);
      var base := if current.Some? && current.value.Obj? then current.value.members else map[];
      FailsAsDocument(base, current, overlay);
    }
  }

  lemma FailsAsDocument(base: Members, current: Option<Json>, overlay: Json)
    requires overlay.Obj? && Fails(current, overlay)
    requires base == if current.Some? && current.value.Obj? then current.value.members else map[]
    ensures !(Merge(base, overlay).Merged? && Merge(Merge(base, overlay).doc, overlay) == Merge(base, overlay))
  {}
}
