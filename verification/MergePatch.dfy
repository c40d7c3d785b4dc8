/** JSON Merge Patch (RFC 7396), and exactly when a strategic merge is one. */
module MergePatch {
  import opened Wrappers
  import opened Json
  import opened StrategicMerge
  import Seqs

  /** The MergePatch function of section 2 of RFC 7396. */
  function MergePatch(target: Json, patch: Json): Json
    decreases patch
  {
    if patch.Obj? then
      var t := if target.Obj? then target.members else map[];
      Obj(map k | k in t.Keys + patch.members.Keys && !(k in patch.members && patch.members[k].Null?) ::
            if k in patch.members then MergePatch(if k in t then t[k] else Null, patch.members[k]) else t[k])
    else
      patch
  }

  /** No directive where a merge would look for one. */
  predicate DirectiveFree(overlay: Json) {
    match overlay
    case Obj(m) => forall k | k in m :: !IsDirective(k) && DirectiveFree(m[k])
    case Arr(elems) => forall el | el in elems :: !HasMarker(el)
    case _ => true
  }

  predicate Named(el: Json) {
    el.Obj? && "name" in el.members
  }

  /** No list of the overlay could be merged by name: each has an element without a name. */
  predicate NoNamedList(overlay: Json) {
    match overlay
    case Obj(m) => forall k | k in m :: NoNamedList(m[k])
    case Arr(elems) => exists el | el in elems :: !Named(el)
    case _ => true
  }

  lemma FinishWithoutDirectives(o: Members, m: Members)
    requires forall k | k in o :: !IsDirective(k)
    ensures Finish(o, m) == m
  {
    forall k: string ensures IsDirective(DELETE + k) && IsDirective(ORDER + k) && IsDirective(RETAIN) {}
  }

  lemma NotAsked(o: Members, what: string)
    requires forall k | k in o :: !IsDirective(k)
    ensures !Asks(o, what)
  {
    assert IsDirective(PATCH);
  }

  /** What the merge of a directive-free overlay comes down to. */
  lemma PlainMerge(base: Members, overlay: Json)
    requires overlay.Obj? && forall k | k in overlay.members :: !IsDirective(k)
    ensures Merge(base, overlay) ==
            if exists k | k in overlay.members :: MergeMember(Lookup(base, k), overlay.members[k]).SlotPanics?
            then Panics else Merged(MergedMembers(base, overlay))
  {
    var o := overlay.members;
    NotAsked(o, "delete");
    NotAsked(o, "replace");
    FinishWithoutDirectives(o, MergedMembers(base, overlay));
    assert forall k | k in o :: MergedSlot(base, overlay, k) == MergeMember(Lookup(base, k), o[k]);
  }

  lemma UnmarkedListIsWhole(elems: seq<Json>)
    requires forall el | el in elems :: !HasMarker(el)
    ensures WithoutMarkers(elems) == elems && !ReplacesList(elems)
  {
    Seqs.FilterAll(elems, el => !HasMarker(el));
  }

  lemma UnnamedListReplaces(current: Option<Json>, elems: seq<Json>)
    requires DirectiveFree(Arr(elems)) && NoNamedList(Arr(elems))
    ensures MergeMember(current, Arr(elems)) == Kept(Arr(elems))
  {
    UnmarkedListIsWhole(elems);
    if current.Some? && current.value.Arr? {
      var el :| el in elems && !Named(el);
      assert !HasMarker(el);
      assert !Mergeable(el);
      assert MergeNamedArray(current.value.elems, elems) == NotNamed;
    }
  }

  lemma {:induction false} MemberIsMergePatch(current: Option<Json>, v: Json)
    requires DirectiveFree(v) && NoNamedList(v)
    ensures MergeMember(current, v) ==
            if v.Null? then Dropped else Kept(MergePatch(if current.Some? then current.value else Null, v))
    decreases v, 1
  {
    match v {
      case Obj(_) => MergeIsMergePatch(if current.Some? && current.value.Obj? then current.value.members else map[], v);
      case Arr(elems) => UnnamedListReplaces(current, elems);
      case _ =>
    }
  }

  /** On directive-free overlays without mergeable lists a strategic merge is an RFC 7396 merge. */
  lemma {:induction false} MergeIsMergePatch(base: Members, overlay: Json)
    requires overlay.Obj? && DirectiveFree(overlay) && NoNamedList(overlay)
    ensures Merge(base, overlay) == Merged(MergePatch(Obj(base), overlay).members)
    decreases overlay, 0
  {
    var o := overlay.members;
    PlainMerge(base, overlay);
    forall k | k in o
      ensures MergeMember(Lookup(base, k), o[k]) ==
              if o[k].Null? then Dropped else Kept(MergePatch(if k in base then base[k] else Null, o[k]))
    {
      MemberIsMergePatch(Lookup(base, k), o[k]);
    }
    assert MergedMembers(base, overlay) == MergePatch(Obj(base), overlay).members;
  }

  // ---- The converse: a mergeable list always shows ----

  /** A name longer than every name in the list. */
  function UnusedName(elems: seq<Json>): (r: string)
    ensures forall el | el in elems && NameOf(el).Some? :: |NameOf(el).value| < |r|
  {
    if elems == [] then "x"
    else
      var r := UnusedName(elems[1..]);
      if NameOf(elems[0]).Some? && |NameOf(elems[0]).value| >= |r| then NameOf(elems[0]).value + "x" else r
  }

  lemma {:induction false} UnusedSurvives(ix: Index, overlay: seq<Json>, name: string)
    requires forall el | el in overlay :: Mergeable(el) && !HasMarker(el) && NameOf(el) != Some(name)
    requires ix.order != [] && ix.order[0] == name && name in ix.byName && ix.removed == {}
    ensures match MergeElements(ix, overlay, {})
            case None => true
            case Some(r) =>
              && r.order != [] && r.order[0] == name && r.removed == {}
              && name in r.byName && r.byName[name] == ix.byName[name]
    decreases |overlay|
  {
    if overlay != [] {
      var next := MergeElement(ix, overlay[0], {});
      assert !Asks(overlay[0].members, "delete");
      if next.Some? {
        UnusedSurvives(next.value, overlay[1..], name);
      }
    }
  }

  lemma {:induction false} NothingDeleted(overlay: seq<Json>)
    requires forall el | el in overlay :: !HasMarker(el)
    ensures DeletedNames(overlay) == {} && !ReplacesList(overlay)
  {
    if overlay != [] {
      NothingDeleted(overlay[..|overlay| - 1]);
      assert !HasMarker(overlay[|overlay| - 1]);
    }
  }

  /** A list that already holds a differently named element is not replaced by a named list. */
  lemma NamedListDoesNotReplace(elems: seq<Json>) returns (base: seq<Json>)
    requires DirectiveFree(Arr(elems)) && !NoNamedList(Arr(elems))
    ensures MergeMember(Some(Arr(base)), Arr(elems)) != Kept(Arr(elems))
  {
    var name := UnusedName(elems);
    var keeper := Obj(map["name" := Str(name)]);
    base := [keeper];
    NothingDeleted(elems);
    assert forall el | el in elems :: Named(el) && Mergeable(el);
    var ix := Index(map[name := keeper.members], [name], {});
    assert IndexBase(base, {}) == ix by {
      assert base[..0] == [];
      assert IndexBase(base[..0], {}) == Index(map[], [], {});
    }
    UnusedSurvives(ix, elems, name);
    var r := MergeElements(ix, elems, {});
    if r.Some? {
      var out := Collect(r.value, r.value.order, {});
      assert out[0] == keeper;
      assert keeper !in elems;
    }
  }

  lemma {:induction false} NamedListShows(overlay: Json) returns (base: Members)
    requires overlay.Obj? && DirectiveFree(overlay) && !NoNamedList(overlay)
    ensures Merge(base, overlay) != Merged(MergePatch(Obj(base), overlay).members)
  {
    var o := overlay.members;
    var k :| k in o && !NoNamedList(o[k]);
    var inner: Json;
    if o[k].Arr? {
      var list := NamedListDoesNotReplace(o[k].elems);
      inner := Arr(list);
    } else {
      var doc := NamedListShows(o[k]);
      inner := Obj(doc);
      NotAsked(o[k].members, "delete");
    }
    base := map[k := inner];
    assert MergeMember(Some(inner), o[k]) != Kept(MergePatch(inner, o[k]));
    PlainMerge(base, overlay);
    if Merge(base, overlay).Merged? {
      assert Lookup(base, k) == Some(inner);
      assert !MergeMember(Lookup(base, k), o[k]).SlotPanics?;
      assert k in MergedMembers(base, overlay) ==> MergedSlot(base, overlay, k).Kept?;
      assert k in MergePatch(Obj(base), overlay).members;
    }
  }

  /** Exactly the directive-free overlays without a mergeable list are merged, into every stored
      document, as RFC 7396 merges them. */
  lemma MergesAsRfc7396(overlay: Json)
    requires overlay.Obj? && DirectiveFree(overlay)
    ensures (forall base: Members :: Merge(base, overlay) == Merged(MergePatch(Obj(base), overlay).members))
            <==> NoNamedList(overlay)
  {
    if NoNamedList(overlay) {
      forall base: Members ensures Merge(base, overlay) == Merged(MergePatch(Obj(base), overlay).members) {
        MergeIsMergePatch(base, overlay);
      }
    } else {
      var base := NamedListShows(overlay);
    }
  }
}
