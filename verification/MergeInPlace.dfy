/** The strategic merge as the server runs it: maps and list elements changed in place, Go maps met
    in any order (every `:|` below is such an arbitrary choice). Each method is proved to leave
    exactly what module StrategicMerge defines, so no choice of order can show in the result. */
module MergeInPlace {
  import opened Wrappers
  import opened Text
  import opened Json
  import opened Documents
  import ElementOrder
  import Seqs
  import S = StrategicMerge

  /** How a call of jsonMerge ends: by a panic, by returning true, or by returning false. */
  datatype Signal = Panicked | DeleteParent | Completed

  datatype Directives = Directives(
    replacing: bool,
    retain: Option<seq<Json>>,
    elementOrder: map<string, seq<Json>>,
    primitiveDeletes: map<string, seq<Json>>)

  /** `lists` holds the list directives of `o` under `prefix`, by field. */
  ghost predicate CollectedFrom(lists: map<string, seq<Json>>, o: Members, keys: set<string>, prefix: string) {
    forall f: string ::
      (f in lists <==> prefix + f in keys && S.ListAt(o, prefix + f).Some?) &&
      (f in lists ==> S.ListAt(o, prefix + f) == Some(lists[f]))
  }

  lemma PrefixedOnce(prefix: string, k: string)
    requires HasPrefix(k, prefix)
    ensures prefix + k[|prefix|..] == k
    ensures forall f :: prefix + f == k ==> f == k[|prefix|..]
  {
    forall f | prefix + f == k ensures f == k[|prefix|..] {
      assert (prefix + f)[|prefix|..] == f;
    }
  }

  lemma Collects(lists: map<string, seq<Json>>, o: Members, keys: set<string>, prefix: string, k: string)
    requires CollectedFrom(lists, o, keys, prefix) && k in o
    ensures !HasPrefix(k, prefix) || S.ListAt(o, k).None? ==> CollectedFrom(lists, o, keys + {k}, prefix)
    ensures HasPrefix(k, prefix) && S.ListAt(o, k).Some? ==>
              CollectedFrom(lists[k[|prefix|..] := S.ListAt(o, k).value], o, keys + {k}, prefix)
  {
    if HasPrefix(k, prefix) {
      PrefixedOnce(prefix, k);
    }
    forall f | prefix + f == k ensures HasPrefix(k, prefix) {}
  }

  method ScanDirectives(o: Members) returns (deleteParent: bool, d: Directives)
    ensures deleteParent == S.Asks(o, "delete")
    ensures !deleteParent ==>
              && d.replacing == S.Asks(o, "replace")
              && d.retain == S.ListAt(o, S.RETAIN)
              && CollectedFrom(d.elementOrder, o, o.Keys, S.ORDER)
              && CollectedFrom(d.primitiveDeletes, o, o.Keys, S.DELETE)
  {
    d := Directives(false, None, map[], map[]);
    var keys := o.Keys;
    ghost var done: set<string> := {};
    while keys != {}
      invariant done + keys == o.Keys && done !! keys
      invariant S.PATCH in done ==> o[S.PATCH] != Str("delete")
      invariant d.replacing == (S.PATCH in done && S.Asks(o, "replace"))
      invariant d.retain == if S.RETAIN in done then S.ListAt(o, S.RETAIN) else None
      invariant CollectedFrom(d.elementOrder, o, done, S.ORDER)
      invariant CollectedFrom(d.primitiveDeletes, o, done, S.DELETE)
      decreases keys
    {
      var k :| k in keys;
      Collects(d.elementOrder, o, done, S.ORDER, k);
      Collects(d.primitiveDeletes, o, done, S.DELETE, k);
      assert S.ORDER[1] != S.PATCH[1] && S.ORDER[1] != S.RETAIN[1] && S.ORDER[1] != S.DELETE[1];
      assert S.DELETE[1] != S.PATCH[1] && S.DELETE[1] != S.RETAIN[1];
      if k == S.PATCH {
        if o[k] == Str("delete") {
          return true, d;
        } else if o[k] == Str("replace") {
          d := d.(replacing := true);
        }
      } else if k == S.RETAIN {
        d := d.(retain := S.ListAt(o, k));
      } else if HasPrefix(k, S.ORDER) {
        if o[k].Arr? {
          d := d.(elementOrder := d.elementOrder[k[|S.ORDER|..] := o[k].elems]);
        }
      } else if HasPrefix(k, S.DELETE) {
        if o[k].Arr? {
          d := d.(primitiveDeletes := d.primitiveDeletes[k[|S.DELETE|..] := o[k].elems]);
        }
      }
      keys, done := keys - {k}, done + {k};
    }
    deleteParent := false;
    assert done == o.Keys;
  }

  method ClearAll(base: Doc)
    modifies base
    ensures base.members == map[]
  {
    var keys := base.members.Keys;
    while keys != {}
      invariant base.members.Keys == keys
      decreases keys
    {
      var k :| k in keys;
      base.members, keys := base.members - {k}, keys - {k};
    }
  }

  method ListWithoutPatchMarkers(list: seq<Json>) returns (r: seq<Json>)
    ensures r == S.WithoutMarkers(list)
  {
    r := [];
    for i := 0 to |list|
      invariant r == Seqs.Filter(list[..i], el => !S.HasMarker(el))
    {
      Seqs.FilterStep(list, el => !S.HasMarker(el), i);
      if !S.HasMarker(list[i]) {
        r := r + [list[i]];
      }
    }
    assert list[..|list|] == list;
  }

  method DeletePrimitiveValues(list: seq<Json>, remove: seq<Json>) returns (r: seq<Json>)
    ensures r == S.DeletePrimitiveValues(list, remove)
  {
    r := [];
    for i := 0 to |list|
      invariant r == S.DeletePrimitiveValues(list[..i], remove)
    {
      Seqs.FilterStep(list, el => el !in remove, i);
      var drop := false;
      for j := 0 to |remove|
        invariant drop <==> list[i] in remove[..j]
      {
        if list[i] == remove[j] {
          drop := true;
          assert list[i] in remove;
          break;
        }
      }
      assert drop <==> list[i] in remove by { assert remove[..|remove|] == remove; }
      if !drop {
        r := r + [list[i]];
      }
    }
    assert list[..|list|] == list;
  }

  // ---- The member loop ----

  /** The members of `todo` still hold their starting value, all others their merged one. */
  ghost predicate Progress(m: Members, start: Members, overlay: Json, todo: set<string>)
    requires overlay.Obj?
  {
    forall k: string ::
      if k in todo then Lookup(m, k) == Lookup(start, k)
      else S.SlotOf(Lookup(m, k)) == S.MergedSlot(start, overlay, k)
  }

  lemma ProgressDone(m: Members, start: Members, overlay: Json)
    requires overlay.Obj? && Progress(m, start, overlay, {})
    ensures m == S.MergedMembers(start, overlay)
    ensures forall k | k in overlay.members :: !S.MergedSlot(start, overlay, k).SlotPanics?
  {
    var merged := S.MergedMembers(start, overlay);
    forall k ensures Lookup(m, k) == Lookup(merged, k) {
      assert S.SlotOf(Lookup(m, k)) == S.MergedSlot(start, overlay, k);
    }
    forall k ensures k in m <==> k in merged {
      assert Lookup(m, k) == Lookup(merged, k);
    }
    forall k | k in m ensures m[k] == merged[k] {
      assert Lookup(m, k) == Lookup(merged, k);
    }
    forall k | k in overlay.members ensures !S.MergedSlot(start, overlay, k).SlotPanics? {
      assert S.SlotOf(Lookup(m, k)) == S.MergedSlot(start, overlay, k);
    }
  }

  method MergeMembers(base: Doc, overlay: Json) returns (ok: bool)
    requires overlay.Obj?
    modifies base
    ensures ok ==> base.members == S.MergedMembers(old(base.members), overlay)
    ensures ok <==> forall k | k in overlay.members :: !S.MergedSlot(old(base.members), overlay, k).SlotPanics?
    decreases overlay, 4
  {
    ghost var start := base.members;
    var o := overlay.members;
    var keys := o.Keys;
    while keys != {}
      invariant keys <= o.Keys
      invariant Progress(base.members, start, overlay, keys)
      decreases keys
    {
      var k :| k in keys;
      assert Lookup(base.members, k) == Lookup(start, k);
      if !S.IsDirective(k) {
        var slot := MergeOne(Lookup(base.members, k), o[k]);
        assert slot == S.MergedSlot(start, overlay, k);
        match slot {
          case SlotPanics => return false;
          case Dropped => base.members := base.members - {k};
          case Kept(v) => base.members := base.members[k := v];
        }
      }
      keys := keys - {k};
    }
    ProgressDone(base.members, start, overlay);
    ok := true;
  }

  /** One turn of the member loop: the value `current` of a member, changed by the overlay's `v`. */
  method MergeOne(current: Option<Json>, v: Json) returns (slot: S.Slot)
    ensures slot == S.MergeMember(current, v)
    decreases v, 6
  {
    match v {
      case Null => return S.Dropped;
      case Obj(_) =>
        var bm := new Doc(if current.Some? && current.value.Obj? then current.value.members else map[]);
        var signal := JsonMerge(bm, v);
        match signal {
          case Panicked => return S.SlotPanics;
          case DeleteParent => return S.Dropped;
          case Completed => return S.Kept(Obj(bm.members));
        }
      case Arr(oa) =>
        if current.Some? && current.value.Arr? {
          var ba := current.value.elems;
          var cells := new Json[|ba|](i requires 0 <= i < |ba| => ba[i]);
          assert cells[..] == ba;
          var merged := MergeNamedArray(cells, oa);
          match merged {
            case ListPanics => return S.SlotPanics;
            case Listed(elems) => return S.Kept(Arr(elems));
            case NotNamed =>
          }
        }
        var kept := ListWithoutPatchMarkers(oa);
        return S.Kept(Arr(kept));
      case _ => return S.Kept(v);
    }
  }

  // ---- The directive loops ----

  method PruneFields(base: Doc, primitiveDeletes: map<string, seq<Json>>, ghost o: Members)
    requires CollectedFrom(primitiveDeletes, o, o.Keys, S.DELETE)
    modifies base
    ensures base.members == map k | k in old(base.members) :: S.PruneField(o, k, old(base.members)[k])
  {
    ghost var start := base.members;
    var fields := primitiveDeletes.Keys;
    while fields != {}
      invariant fields <= primitiveDeletes.Keys
      invariant base.members == map k | k in start :: if k in fields then start[k] else S.PruneField(o, k, start[k])
      decreases fields
    {
      var f :| f in fields;
      if f in base.members && base.members[f].Arr? {
        var list := DeletePrimitiveValues(base.members[f].elems, primitiveDeletes[f]);
        base.members := base.members[f := Arr(list)];
      }
      fields := fields - {f};
    }
  }

  method OrderFields(base: Doc, elementOrder: map<string, seq<Json>>, ghost o: Members)
    requires CollectedFrom(elementOrder, o, o.Keys, S.ORDER)
    modifies base
    ensures base.members == map k | k in old(base.members) :: S.OrderField(o, k, old(base.members)[k])
  {
    ghost var start := base.members;
    var fields := elementOrder.Keys;
    while fields != {}
      invariant fields <= elementOrder.Keys
      invariant base.members == map k | k in start :: if k in fields then start[k] else S.OrderField(o, k, start[k])
      decreases fields
    {
      var f :| f in fields;
      if f in base.members && base.members[f].Arr? {
        base.members := base.members[f := Arr(ElementOrder.OrderElements(base.members[f].elems, elementOrder[f]))];
      }
      fields := fields - {f};
    }
  }

  method RetainFields(base: Doc, retain: seq<Json>)
    modifies base
    ensures base.members == map k | k in old(base.members) && Str(k) in retain :: old(base.members)[k]
  {
    ghost var start := base.members;
    var keep: set<string> := {};
    for i := 0 to |retain|
      invariant forall k :: k in keep <==> Str(k) in retain[..i]
    {
      if retain[i].Str? {
        keep := keep + {retain[i].s};
      }
    }
    assert retain[..|retain|] == retain;
    var keys := base.members.Keys;
    while keys != {}
      invariant keys <= base.members.Keys
      invariant base.members == map k | k in start && (k in keys || Str(k) in retain) :: start[k]
      decreases keys
    {
      var k :| k in keys;
      if k !in keep {
        base.members := base.members - {k};
      }
      keys := keys - {k};
    }
  }

  /** The directives that act on the merged object, in the order jsonMerge applies them. */
  method ApplyDirectives(base: Doc, d: Directives, ghost o: Members)
    requires d.retain == S.ListAt(o, S.RETAIN)
    requires CollectedFrom(d.elementOrder, o, o.Keys, S.ORDER) && CollectedFrom(d.primitiveDeletes, o, o.Keys, S.DELETE)
    modifies base
    ensures base.members == S.Finish(o, old(base.members))
  {
    ghost var merged := base.members;
    PruneFields(base, d.primitiveDeletes, o);
    OrderFields(base, d.elementOrder, o);
    if d.retain.Some? {
      RetainFields(base, d.retain.value);
    }
    assert base.members == S.Finish(o, merged);
  }

  // ---- jsonMerge ----

  method JsonMerge(base: Doc, overlay: Json) returns (signal: Signal)
    requires overlay.Obj?
    modifies base
    ensures match S.Merge(old(base.members), overlay)
            case Panics => signal == Panicked
            case Deletes => signal == DeleteParent && base.members == old(base.members)
            case Merged(doc) => signal == Completed && base.members == doc
    decreases overlay, 5
  {
    var o := overlay.members;
    var deleteParent, d := ScanDirectives(o);
    if deleteParent {
      return DeleteParent;
    }
    if d.replacing {
      ClearAll(base);
    }
    ghost var start := base.members;
    var ok := MergeMembers(base, overlay);
    if !ok {
      return Panicked;
    }
    ApplyDirectives(base, d, o);
    signal := Completed;
  }

  // ---- mergeNamedArray ----

  function Elements(overlay: seq<Json>): seq<Json> {
    Seqs.Filter(overlay, el => !S.IsDeleteMarker(el))
  }

  /** Skipping the delete markers beforehand changes nothing. */
  lemma {:induction false} MergeElementsSkipsMarkers(ix: S.Index, overlay: seq<Json>, deleted: set<string>)
    requires forall el | el in overlay :: S.Mergeable(el)
    requires forall el | el in Elements(overlay) :: S.Mergeable(el)
    ensures S.MergeElements(ix, Elements(overlay), deleted) == S.MergeElements(ix, overlay, deleted)
    decreases |overlay|
  {
    if overlay != [] {
      var el, rest := overlay[0], overlay[1..];
      Seqs.FilterCons(overlay, el => !S.IsDeleteMarker(el));
      var next := S.MergeElement(ix, el, deleted);
      if S.IsDeleteMarker(el) {
        assert Elements(overlay) == Elements(rest);
        MergeElementsSkipsMarkers(ix, rest, deleted);
      } else {
        assert Elements(overlay) == [el] + Elements(rest);
        assert Elements(overlay)[1..] == Elements(rest);
        if next.Some? {
          MergeElementsSkipsMarkers(next.value, rest, deleted);
        }
      }
    }
  }

  /** The Go map byName, whose values are shared pointers: to cells of the base list for the names
      in `cellOf`, to objects made during the merge for those in `clean`. */
  ghost predicate Represents(cells: seq<Json>, cellOf: map<string, nat>, clean: map<string, Members>,
                             byName: map<string, Members>)
  {
    && byName.Keys == cellOf.Keys + clean.Keys
    && cellOf.Keys !! clean.Keys
    && (forall n | n in cellOf :: cellOf[n] < |cells| && cells[cellOf[n]] == Obj(byName[n]))
    && (forall n, n' | n in cellOf && n' in cellOf && n != n' :: cellOf[n] != cellOf[n'])
    && (forall n | n in clean :: clean[n] == byName[n])
  }

  /** Collects deletions and the elements to merge; fails on an element that is not an object. */
  method SplitOverlay(overlay: seq<Json>) returns (objects: bool, deleted: set<string>, elements: seq<Json>)
    ensures objects <==> forall el | el in overlay :: el.Obj?
    ensures objects ==> deleted == S.DeletedNames(overlay) && elements == Elements(overlay)
  {
    deleted, elements := {}, [];
    for i := 0 to |overlay|
      invariant forall j | 0 <= j < i :: overlay[j].Obj?
      invariant deleted == S.DeletedNames(overlay[..i])
      invariant elements == Elements(overlay[..i])
    {
      var el := overlay[i];
      if !el.Obj? {
        return false, deleted, elements;
      }
      assert overlay[..i + 1][..i] == overlay[..i];
      Seqs.FilterStep(overlay, el => !S.IsDeleteMarker(el), i);
      if !S.IsDeleteMarker(el) {
        elements := elements + [el];
      } else if NameOf(el).Some? {
        deleted := deleted + {NameOf(el).value};
      }
    }
    assert overlay[..|overlay|] == overlay;
    objects := true;
  }

  method ReadOverlay(overlay: seq<Json>) returns (named: bool, deleted: set<string>, elements: seq<Json>)
    ensures named <==> forall el | el in overlay :: S.Mergeable(el)
    ensures named ==> deleted == S.DeletedNames(overlay) && elements == Elements(overlay)
  {
    var objects;
    objects, deleted, elements := SplitOverlay(overlay);
    if !objects {
      return false, deleted, elements;
    }
    ElementsMembers(overlay);
    for i := 0 to |elements|
      invariant forall el | el in elements[..i] :: "name" in el.members
    {
      if "name" !in elements[i].members {
        assert !S.Mergeable(elements[i]);
        return false, deleted, elements;
      }
    }
    assert elements[..|elements|] == elements;
    named := true;
  }

  lemma ElementsMembers(overlay: seq<Json>)
    ensures forall el :: el in Elements(overlay) <==> el in overlay && !S.IsDeleteMarker(el)
  {
    forall el ensures el in Elements(overlay) <==> el in overlay && !S.IsDeleteMarker(el) {
      Seqs.FilterMember(overlay, el => !S.IsDeleteMarker(el), el);
    }
  }

  /** Indexes the base list by name; `named` is false when an element has no string name. */
  method IndexBase(base: array<Json>, deleted: set<string>)
      returns (named: bool, cellOf: map<string, nat>, order: seq<string>)
    ensures named <==> forall el | el in base[..] :: NameOf(el).Some?
    ensures named ==>
              var ix := S.IndexBase(base[..], deleted);
              order == ix.order && ix.removed == {} && Represents(base[..], cellOf, map[], ix.byName)
  {
    cellOf, order := map[], [];
    for i := 0 to base.Length
      invariant forall el | el in base[..i] :: NameOf(el).Some?
      invariant forall n | n in cellOf :: cellOf[n] < i && NameOf(base[cellOf[n]]) == Some(n)
      invariant var ix := S.IndexBase(base[..i], deleted);
                && order == ix.order && ix.removed == {}
                && ix.byName.Keys == cellOf.Keys
                && forall n | n in cellOf :: base[cellOf[n]] == Obj(ix.byName[n])
    {
      assert base[..i + 1] == base[..i] + [base[i]];
      assert base[..i + 1][..i] == base[..i];
      if NameOf(base[i]).None? {
        assert base[i] in base[..];
        return false, cellOf, order;
      }
      var name := NameOf(base[i]).value;
      if name !in deleted {
        cellOf, order := cellOf[name := i], order + [name];
      }
    }
    assert base[..base.Length] == base[..];
    named := true;
  }

  method MergeNamedArray(base: array<Json>, overlay: seq<Json>) returns (r: S.ListOutcome)
    modifies base
    ensures r == S.MergeNamedArray(old(base[..]), overlay)
    ensures r.NotNamed? ==> base[..] == old(base[..])
    decreases overlay, 7
  {
    for i := 0 to |overlay|
      invariant forall el | el in overlay[..i] :: !S.IsReplaceMarker(el)
    {
      if S.IsReplaceMarker(overlay[i]) {
        assert overlay[i] in overlay;
        var kept := ListWithoutPatchMarkers(overlay);
        return S.Listed(kept);
      }
    }
    assert overlay[..|overlay|] == overlay;
    var mergeable, deleted, elements := ReadOverlay(overlay);
    if !mergeable {
      return S.NotNamed;
    }
    var named, cellOf, order := IndexBase(base, deleted);
    if !named {
      return S.NotNamed;
    }
    ghost var ix := S.IndexBase(base[..], deleted);
    ElementsMembers(overlay);
    MergeElementsSkipsMarkers(ix, overlay, deleted);
    r := MergeIntoCells(base, overlay, elements, deleted, cellOf, order, ix);
  }

  method MergeIntoCells(base: array<Json>, ghost overlay: seq<Json>, elements: seq<Json>, deleted: set<string>,
                        cellOf: map<string, nat>, order0: seq<string>, ghost ix0: S.Index)
    returns (r: S.ListOutcome)
    requires forall el | el in elements :: el in overlay && S.Mergeable(el) && !S.IsDeleteMarker(el)
    requires ix0.order == order0 && ix0.removed == {} && Represents(base[..], cellOf, map[], ix0.byName)
    modifies base
    ensures r == match S.MergeElements(ix0, elements, deleted)
                 case None => S.ListPanics
                 case Some(ix) => S.Listed(S.Collect(ix, ix.order, {}))
    decreases overlay, 6
  {
    var clean: map<string, Members>, order, removed := map[], order0, {};
    ghost var ix := ix0;
    for i := 0 to |elements|
      invariant order == ix.order && removed == ix.removed
      invariant Represents(base[..], cellOf, clean, ix.byName)
      invariant S.MergeElements(ix, elements[i..], deleted) == S.MergeElements(ix0, elements, deleted)
    {
      var el := elements[i];
      assert elements[i..][0] == el && elements[i..][1..] == elements[i + 1..];
      ghost var j :| 0 <= j < |overlay| && overlay[j] == el;
      var ok;
      ghost var next := S.MergeElement(ix, el, deleted);
      ok, clean, order, removed := MergeIntoCell(base, el, deleted, cellOf, clean, order, removed, ix);
      if !ok {
        return S.ListPanics;
      }
      ix := next.value;
    }
    var elems := CollectElements(base, cellOf, clean, order, removed, ix);
    r := S.Listed(elems);
  }

  method MergeIntoCell(base: array<Json>, el: Json, deleted: set<string>, cellOf: map<string, nat>,
                       clean0: map<string, Members>, order0: seq<string>, removed0: set<string>, ghost ix: S.Index)
    returns (ok: bool, clean: map<string, Members>, order: seq<string>, removed: set<string>)
    requires S.Mergeable(el) && !S.IsDeleteMarker(el)
    requires order0 == ix.order && removed0 == ix.removed && Represents(base[..], cellOf, clean0, ix.byName)
    modifies base
    ensures match S.MergeElement(ix, el, deleted)
            case None => !ok
            case Some(ix') =>
              ok && order == ix'.order && removed == ix'.removed && Represents(base[..], cellOf, clean, ix'.byName)
    decreases el, 6
  {
    clean, order, removed := clean0, order0, removed0;
    if NameOf(el).None? {
      return false, clean, order, removed;
    }
    var name := NameOf(el).value;
    ok := true;
    if name in deleted {
      return;
    }
    var known := name in cellOf || name in clean;
    var target := new Doc(if name in cellOf then base[cellOf[name]].members else if known then clean[name] else map[]);
    var signal := JsonMerge(target, el);
    match signal {
      case Panicked =>
        ok := false;
      case DeleteParent =>
        if known {
          removed := removed + {name};
        } else {
          clean, order := clean[name := map[]], order + [name];
        }
      case Completed =>
        if name in cellOf {
          base[cellOf[name]] := Obj(target.members);
        } else {
          clean := clean[name := target.members];
          if !known {
            order := order + [name];
          }
        }
    }
  }

  method CollectElements(base: array<Json>, cellOf: map<string, nat>, clean: map<string, Members>,
                         order: seq<string>, removed: set<string>, ghost ix: S.Index)
    returns (r: seq<Json>)
    requires order == ix.order && removed == ix.removed && Represents(base[..], cellOf, clean, ix.byName)
    ensures r == S.Collect(ix, ix.order, {})
  {
    r := [];
    var seen: set<string> := {};
    for i := 0 to |order|
      invariant r + S.Collect(ix, order[i..], seen) == S.Collect(ix, order, {})
    {
      var name := order[i];
      assert order[i..][1..] == order[i + 1..];
      if name in seen || name in removed {
        continue;
      }
      if name in cellOf {
        r, seen := r + [base[cellOf[name]]], seen + {name};
      } else if name in clean {
        r, seen := r + [Obj(clean[name])], seen + {name};
      }
    }
  }
}
