/** Re-applying an overlay changes nothing. */
module MergeIdempotence {
  import opened Wrappers
  import opened Json
  import opened StrategicMerge
  import NamedLists
  import MergePatch
  import Seqs

  predicate AllHaveName(list: seq<Json>) {
    forall el | el in list :: MergePatch.Named(el)
  }

  /** String names, no two equal. */
  predicate DistinctNames(list: seq<Json>) {
    && (forall i | 0 <= i < |list| :: NameOf(list[i]).Some?)
    && (forall i, j | 0 <= i < j < |list| :: NameOf(list[i]) != NameOf(list[j]))
  }

  /** A list that is stored as it stands and merges into itself: no markers, and if it can be merged
      by name, distinct string names and null-free elements. */
  predicate SettledList(list: seq<Json>) {
    && (forall el | el in list :: !HasMarker(el))
    && (AllHaveName(list) ==> DistinctNames(list) && forall el | el in list :: Settled(el))
  }

  /** Null-free and directive-free as far as a merge looks. */
  predicate Settled(v: Json) {
    match v
    case Obj(m) => forall k | k in m :: !IsDirective(k) && !m[k].Null? && Settled(m[k])
    case Arr(list) => SettledList(list)
    case _ => true
  }

  /** The overlays that can be re-applied: no directives; named lists have distinct string names and
      no nulls in their elements. Nulls elsewhere are deletions and are fine. */
  predicate Repeatable(v: Json) {
    match v
    case Obj(m) => forall k | k in m :: !IsDirective(k) && Repeatable(m[k])
    case Arr(list) => SettledList(list)
    case _ => true
  }

  lemma {:induction false} SettledIsRepeatable(v: Json)
    requires Settled(v)
    ensures Repeatable(v)
  {
    if v.Obj? {
      forall k | k in v.members ensures Repeatable(v.members[k]) { SettledIsRepeatable(v.members[k]); }
    }
  }

  lemma NamedListIsMergeable(list: seq<Json>)
    requires forall el | el in list :: !HasMarker(el)
    ensures !ReplacesList(list) && DeletedNames(list) == {} && WithoutMarkers(list) == list
    ensures AllHaveName(list) <==> forall el | el in list :: Mergeable(el)
    ensures forall el | el in list :: el.Obj? ==> !IsDeleteMarker(el)
  {
    MergePatch.NothingDeleted(list);
    Seqs.FilterAll(list, el => !HasMarker(el));
  }

  // ---- Lists with distinct names ----

  lemma {:induction false} PlainNames(list: seq<Json>)
    requires NamedLists.AllNamed(list) && forall el | el in list :: !IsDeleteMarker(el)
    ensures NamedLists.OverlayNames(list, {}) == NamedLists.BaseNames(list, {})
    ensures |NamedLists.BaseNames(list, {})| == |list|
    ensures forall i | 0 <= i < |list| :: Some(NamedLists.BaseNames(list, {})[i]) == NameOf(list[i])
  {
    if list != [] {
      var front, last := list[..|list| - 1], list[|list| - 1];
      assert list == front + [last] && last in list;
      PlainNames(front);
      forall i | 0 <= i < |list| ensures Some(NamedLists.BaseNames(list, {})[i]) == NameOf(list[i]) {
        if i < |front| { assert list[i] == front[i]; }
      }
    }
  }

  /** Without repeated names, at most one overlay element contributes to a name. */
  lemma {:induction false} DocUntouched(base: seq<Json>, overlay: seq<Json>, n: string)
    requires forall el | el in overlay :: NameOf(el) != Some(n)
    ensures NamedLists.DocNamed(base, overlay, n) == NamedLists.LastNamed(base, n)
  {
    if overlay != [] {
      assert overlay[|overlay| - 1] in overlay;
      DocUntouched(base, overlay[..|overlay| - 1], n);
    }
  }

  lemma {:induction false} DocMergedOnce(base: seq<Json>, overlay: seq<Json>, i: nat)
    requires DistinctNames(overlay) && i < |overlay| && !IsDeleteMarker(overlay[i])
    ensures var n := NameOf(overlay[i]).value;
            var before := NamedLists.LastNamed(base, n);
            NamedLists.DocNamed(base, overlay, n) ==
            (match Merge(before, overlay[i]) case Merged(doc) => doc case _ => before)
  {
    var n := NameOf(overlay[i]).value;
    var front, last := overlay[..|overlay| - 1], overlay[|overlay| - 1];
    assert forall j | 0 <= j < |front| :: front[j] == overlay[j];
    if i == |front| {
      DocUntouched(base, front, n);
    } else {
      assert front[i] == overlay[i];
      DocMergedOnce(base, front, i);
    }
  }

  lemma {:induction false} LastNamedAt(list: seq<Json>, i: nat)
    requires DistinctNames(list) && i < |list|
    ensures NamedLists.LastNamed(list, NameOf(list[i]).value) == list[i].members
  {
    var front := list[..|list| - 1];
    if i < |front| {
      assert forall j | 0 <= j < |front| :: front[j] == list[j];
      LastNamedAt(front, i);
    }
  }

  /** No element of a settled named list makes the merge panic. */
  lemma {:induction false} ElementsMerge(ix: Index, list: seq<Json>)
    requires forall el | el in list :: Mergeable(el) && !IsDeleteMarker(el) && NameOf(el).Some?
    requires forall el, before: Members | el in list && el.Obj? :: Merge(before, el).Merged?
    ensures MergeElements(ix, list, {}).Some?
    decreases |list|
  {
    if list != [] {
      var el := list[0];
      var name := NameOf(el).value;
      var before := if name in ix.byName then ix.byName[name] else map[];
      assert el in list && Merge(before, el).Merged?;
      assert MergeElement(ix, el, {}).Some?;
      ElementsMerge(MergeElement(ix, el, {}).value, list[1..]);
    }
  }

  // ---- Repeatable overlays never panic ----

  lemma {:induction false} RepeatableMerges(base: Members, overlay: Json)
    requires overlay.Obj? && Repeatable(overlay)
    ensures Merge(base, overlay) == Merged(MergedMembers(base, overlay))
    decreases overlay, 0
  {
    var o := overlay.members;
    MergePatch.PlainMerge(base, overlay);
    forall k | k in o ensures !MergeMember(Lookup(base, k), o[k]).SlotPanics? {
      RepeatableMember(Lookup(base, k), o[k]);
    }
  }

  lemma {:induction false} RepeatableMember(current: Option<Json>, v: Json)
    requires Repeatable(v)
    ensures !MergeMember(current, v).SlotPanics?
    decreases v, 1
  {
    match v {
      case Obj(_) =>
        RepeatableMerges(if current.Some? && current.value.Obj? then current.value.members else map[], v);
      case Arr(list) =>
        if current.Some? && current.value.Arr? { SettledListMerges(current.value.elems, list); }
      case _ =>
    }
  }

  lemma {:induction false} SettledListMerges(base: seq<Json>, list: seq<Json>)
    requires SettledList(list)
    ensures !MergeNamedArray(base, list).ListPanics?
    ensures MergeNamedArray(base, list).NotNamed? <==> !(AllHaveName(list) && NamedLists.AllNamed(base))
    decreases list, 0
  {
    NamedListIsMergeable(list);
    if AllHaveName(list) && NamedLists.AllNamed(base) {
      forall el, before: Members | el in list && el.Obj? ensures Merge(before, el).Merged? {
        SettledIsRepeatable(el);
        RepeatableMerges(before, el);
      }
      ElementsMerge(IndexBase(base, {}), list);
    }
    SettledMergesByName(base, list);
    OutcomeOf(base, list);
  }

  lemma SettledMergesByName(base: seq<Json>, list: seq<Json>)
    requires SettledList(list)
    ensures MergesByName(base, list) <==> AllHaveName(list) && NamedLists.AllNamed(base)
  {
    NamedListIsMergeable(list);
  }

  lemma OutcomeOf(base: seq<Json>, list: seq<Json>)
    requires !ReplacesList(list) && DeletedNames(list) == {}
    requires MergesByName(base, list) ==> MergeElements(IndexBase(base, {}), list, {}).Some?
    ensures !MergeNamedArray(base, list).ListPanics?
    ensures MergeNamedArray(base, list).NotNamed? <==> !MergesByName(base, list)
  {}

  // ---- Merging a settled value into itself ----

  lemma {:induction false} SelfMerge(x: Json)
    requires x.Obj? && Settled(x)
    ensures Merge(x.members, x) == Merged(x.members)
    decreases x, 0
  {
    SettledIsRepeatable(x);
    RepeatableMerges(x.members, x);
    forall k | k in x.members ensures MergedSlot(x.members, x, k) == Kept(x.members[k]) {
      SelfMember(x.members[k]);
    }
    assert MergedMembers(x.members, x) == x.members;
  }

  lemma {:induction false} SelfMember(v: Json)
    requires Settled(v) && !v.Null?
    ensures MergeMember(Some(v), v) == Kept(v)
    decreases v, 1
  {
    match v {
      case Obj(_) => SelfMerge(v);
      case Arr(list) =>
        NamedListIsMergeable(list);
        SelfMergeList(list);
      case _ =>
    }
  }

  lemma {:induction false} SelfMergeList(list: seq<Json>)
    requires SettledList(list)
    ensures match MergeNamedArray(list, list)
            case NotNamed => true
            case Listed(r) => r == list
            case ListPanics => false
    decreases list, 0
  {
    NamedListIsMergeable(list);
    SettledListMerges(list, list);
    if AllHaveName(list) {
      forall i | 0 <= i < |list|
        ensures Obj(NamedLists.DocNamed(list, list, NameOf(list[i]).value)) == list[i]
      {
        DocMergedOnce(list, list, i);
        LastNamedAt(list, i);
        SelfMerge(list[i]);
      }
      SelfListed(list);
      assert MergeNamedArray(list, list).elems == list;
    }
  }

  /** A named list merged into itself keeps its names. */
  lemma SelfListed(list: seq<Json>)
    requires AllHaveName(list) && DistinctNames(list) && forall el | el in list :: !HasMarker(el)
    ensures match MergeNamedArray(list, list)
            case NotNamed => false
            case ListPanics => true
            case Listed(r) =>
              |r| == |list| && forall i | 0 <= i < |list| ::
                r[i] == Obj(NamedLists.DocNamed(list, list, NameOf(list[i]).value))
  {
    NamedListIsMergeable(list);
    assert NamedLists.AllNamed(list);
    PlainNames(list);
    var names := NamedLists.BaseNames(list, {});
    NamedLists.FirstOfDistinct(names);
    NamedLists.FirstAbsorbs(names, names);
    NamedLists.NamedListLaw(list, list);
  }

  // ---- Merging twice ----

  /** Re-applying a repeatable overlay is a no-op, whatever the document. */
  lemma {:induction false} MergeIsIdempotent(base: Members, overlay: Json)
    requires overlay.Obj? && Repeatable(overlay)
    ensures Merge(base, overlay).Merged?
    ensures Merge(Merge(base, overlay).doc, overlay) == Merge(base, overlay)
    decreases overlay, 0
  {
    var o := overlay.members;
    RepeatableMerges(base, overlay);
    var once := Merge(base, overlay).doc;
    RepeatableMerges(once, overlay);
    forall k ensures MergedSlot(once, overlay, k) == MergedSlot(base, overlay, k) {
      assert SlotOf(Lookup(once, k)) == MergedSlot(base, overlay, k) by {
        if k in o { RepeatableMember(Lookup(base, k), o[k]); }
      }
      if k in o { MemberTwice(Lookup(base, k), o[k]); }
    }
    assert MergedMembers(once, overlay) == MergedMembers(base, overlay);
  }

  lemma {:induction false} MemberTwice(current: Option<Json>, v: Json)
    requires Repeatable(v)
    ensures match MergeMember(current, v)
            case SlotPanics => false
            case Dropped => MergeMember(None, v) == Dropped
            case Kept(w) => MergeMember(Some(w), v) == Kept(w)
    decreases v, 1
  {
    match v {
      case Obj(_) =>
        MergeIsIdempotent(if current.Some? && current.value.Obj? then current.value.members else map[], v);
      case Arr(list) =>
        NamedListIsMergeable(list);
        SelfMergeList(list);
        if current.Some? && current.value.Arr? {
          SettledListMerges(current.value.elems, list);
          if MergeNamedArray(current.value.elems, list).Listed? { ListTwice(current.value.elems, list); }
        }
      case _ =>
    }
  }

  lemma {:induction false} ListTwice(base: seq<Json>, list: seq<Json>)
    requires SettledList(list) && AllHaveName(list) && NamedLists.AllNamed(base)
    ensures MergeNamedArray(base, list).Listed?
    ensures MergeNamedArray(MergeNamedArray(base, list).elems, list) == MergeNamedArray(base, list)
    decreases list, 1
  {
    NamedListIsMergeable(list);
    SettledListMerges(base, list);
    NamedLists.NamedListLaw(base, list);
    forall el | el in list ensures NamedLists.RetainsName(el) { Unretained(el); }
    NamedLists.NamedListNames(base, list);
    var once := MergeNamedArray(base, list).elems;
    var names := NamedLists.ResultNames(base, list);
    NamesKept(once, names);
    SettledListMerges(once, list);
    NamedLists.NamedListLaw(once, list);
    SameNames(base, once, list);
    assert NamedLists.ResultNames(once, list) == names;
    forall i | 0 <= i < |names|
      ensures NamedLists.DocNamed(once, list, names[i]) == NamedLists.DocNamed(base, list, names[i])
    {
      ElementTwice(base, once, list, i);
    }
    assert MergeNamedArray(once, list).elems == once;
  }

  lemma Unretained(el: Json)
    requires el.Obj? && Settled(el)
    ensures NamedLists.RetainsName(el)
  {
    assert IsDirective(RETAIN);
  }

  lemma NamesKept(once: seq<Json>, names: seq<string>)
    requires |once| == |names| && forall i | 0 <= i < |once| :: NameOf(once[i]) == Some(names[i])
    ensures NamedLists.AllNamed(once)
  {}

  lemma SameNames(base: seq<Json>, once: seq<Json>, list: seq<Json>)
    requires NamedLists.AllNamed(base) && NamedLists.AllNamed(once) && NamedLists.AllNamed(list)
    requires DeletedNames(list) == {} && forall el | el in list :: !IsDeleteMarker(el)
    requires var names := NamedLists.ResultNames(base, list);
             |once| == |names| && forall i | 0 <= i < |once| :: NameOf(once[i]) == Some(names[i])
    ensures NamedLists.ResultNames(once, list) == NamedLists.ResultNames(base, list)
    ensures DistinctNames(once)
  {
    var names := NamedLists.ResultNames(base, list);
    var overlayNames := NamedLists.OverlayNames(list, {});
    var all := NamedLists.BaseNames(base, {}) + overlayNames;
    NamedLists.FirstIsDistinct(all);
    NamedLists.FirstKeepsMembers(all);
    NamesRead(once, names);
    NamedLists.FirstOfDistinct(names);
    NamedLists.FirstAbsorbs(names, overlayNames);
  }

  lemma {:induction false} NamesRead(list: seq<Json>, names: seq<string>)
    requires |list| == |names| && forall i | 0 <= i < |list| :: NameOf(list[i]) == Some(names[i])
    requires NamedLists.AllNamed(list)
    ensures NamedLists.BaseNames(list, {}) == names
  {
    if list != [] {
      var front := list[..|list| - 1];
      assert forall i | 0 <= i < |front| :: front[i] == list[i];
      NamesRead(front, names[..|names| - 1]);
      assert names == names[..|names| - 1] + [names[|names| - 1]];
    }
  }

  lemma {:induction false} ElementTwice(base: seq<Json>, once: seq<Json>, list: seq<Json>, i: nat)
    requires SettledList(list) && AllHaveName(list) && NamedLists.AllNamed(base) && DistinctNames(once)
    requires var names := NamedLists.ResultNames(base, list);
             |once| == |names| && i < |names| && NameOf(once[i]) == Some(names[i]) &&
             once[i] == Obj(NamedLists.DocNamed(base, list, names[i]))
    ensures var n := NamedLists.ResultNames(base, list)[i];
            NamedLists.DocNamed(once, list, n) == NamedLists.DocNamed(base, list, n)
    decreases list, 0
  {
    var n := NamedLists.ResultNames(base, list)[i];
    LastNamedAt(once, i);
    if el :| el in list && NameOf(el) == Some(n) {
      var j :| 0 <= j < |list| && list[j] == el;
      NamedListIsMergeable(list);
      DocMergedOnce(base, list, j);
      DocMergedOnce(once, list, j);
      SettledIsRepeatable(list[j]);
      MergeIsIdempotent(NamedLists.LastNamed(base, n), list[j]);
    } else {
      DocUntouched(base, list, n);
      DocUntouched(once, list, n);
    }
  }

  // ---- The condition on list elements is needed ----

  const CLEANED: Members := map["name" := Str("a")]
  const ELEMENT := Obj(CLEANED["x" := Null])

  lemma PlainKeys(k: string)
    requires k in {"l", "name", "x"}
    ensures !IsDirective(k) && k != PATCH && k != RETAIN
  {
    assert k[0] != "$"[0];
  }

  lemma ElementLosesNull()
    ensures !HasMarker(ELEMENT) && !IsDeleteMarker(ELEMENT) && NameOf(ELEMENT) == Some("a")
    ensures Merge(ELEMENT.members, ELEMENT) == Merged(CLEANED)
  {
    PlainKeys("name");
    PlainKeys("x");
    MergePatch.PlainMerge(ELEMENT.members, ELEMENT);
    assert MergedMembers(ELEMENT.members, ELEMENT) == CLEANED;
  }

  lemma OneElement(el: Json, n: string, merged: Members)
    requires NameOf(el) == Some(n) && el.Obj? && !HasMarker(el) && Merge(el.members, el) == Merged(merged)
    ensures MergeNamedArray([el], [el]) == Listed([Obj(merged)])
    ensures WithoutMarkers([el]) == [el]
  {
    var list := [el];
    MergePatch.NothingDeleted(list);
    Seqs.FilterAll(list, e => !HasMarker(e));
    OneIndexed(el, n);
    OneMerged(el, n, merged);
    OneCollected(n, merged);
    assert MergesByName(list, list);
  }

  lemma OneIndexed(el: Json, n: string)
    requires NameOf(el) == Some(n)
    ensures IndexBase([el], {}) == Index(map[n := el.members], [n], {})
  {
    assert [el][..0] == [];
  }

  lemma OneMerged(el: Json, n: string, merged: Members)
    requires NameOf(el) == Some(n) && el.Obj? && !HasMarker(el) && Merge(el.members, el) == Merged(merged)
    ensures MergeElements(Index(map[n := el.members], [n], {}), [el], {}) == Some(Index(map[n := merged], [n], {}))
  {
    assert map[n := el.members][n := merged] == map[n := merged];
    assert [el][1..] == [];
  }

  lemma OneCollected(n: string, doc: Members)
    ensures Collect(Index(map[n := doc], [n], {}), [n], {}) == [Obj(doc)]
  {
    assert [n][1..] == [];
  }

  lemma OneMember(base: Members, k: string, v: Json, w: Json)
    requires base.Keys <= {k} && !IsDirective(k) && MergeMember(Lookup(base, k), v) == Kept(w)
    ensures Merge(base, Obj(map[k := v])) == Merged(map[k := w])
  {
    var overlay := Obj(map[k := v]);
    MergePatch.PlainMerge(base, overlay);
    assert MergedMembers(base, overlay) == map[k := w];
  }

  /** A member that is a one-element list, merged into an empty document and then merged again. */
  lemma OneMemberTwice(k: string, el: Json, n: string, merged: Members)
    requires NameOf(el) == Some(n) && el.Obj? && !HasMarker(el) && Merge(el.members, el) == Merged(merged)
    requires !IsDirective(k)
    ensures var overlay := Obj(map[k := Arr([el])]);
            && Merge(map[], overlay) == Merged(map[k := Arr([el])])
            && Merge(map[k := Arr([el])], overlay) == Merged(map[k := Arr([Obj(merged)])])
  {
    OneElement(el, n, merged);
    OneMember(map[], k, Arr([el]), Arr([el]));
    OneMember(map[k := Arr([el])], k, Arr([el]), Arr([Obj(merged)]));
  }

  /** A null inside an element of a named list is stored the first time and taken for a deletion the
      second time, so this overlay is not idempotent. */
  lemma NullInListElementIsNotIdempotent()
    ensures var overlay := Obj(map["l" := Arr([ELEMENT])]);
            && Merge(map[], overlay) == Merged(map["l" := Arr([ELEMENT])])
            && Merge(map["l" := Arr([ELEMENT])], overlay) == Merged(map["l" := Arr([Obj(CLEANED)])])
  {
    PlainKeys("l");
    ElementLosesNull();
    OneMemberTwice("l", ELEMENT, "a", CLEANED);
  }
}
