/** What merging two lists of named objects yields, stated without the algorithm's index: which
    names, in which order, holding what. */
module NamedLists {
  import opened Wrappers
  import opened Json
  import opened StrategicMerge

  /** The names of a list with repetitions dropped, each at its first position. */
  function First(names: seq<string>): seq<string> {
    if names == [] then []
    else
      var front, last := names[..|names| - 1], names[|names| - 1];
      First(front) + if last in front then [] else [last]
  }

  lemma {:induction false} FirstKeepsMembers(names: seq<string>)
    ensures forall n :: n in First(names) <==> n in names
  {
    if names != [] {
      FirstKeepsMembers(names[..|names| - 1]);
      assert names == names[..|names| - 1] + [names[|names| - 1]];
    }
  }

  lemma {:induction false} FirstIsDistinct(names: seq<string>)
    ensures forall i, j | 0 <= i < j < |First(names)| :: First(names)[i] != First(names)[j]
  {
    if names != [] {
      FirstIsDistinct(names[..|names| - 1]);
      FirstKeepsMembers(names[..|names| - 1]);
    }
  }

  lemma FirstSnoc(names: seq<string>, n: string)
    ensures First(names + [n]) == First(names) + if n in names then [] else [n]
  {
    assert (names + [n])[..|names|] == names;
  }

  lemma {:induction false} FirstOfDistinct(names: seq<string>)
    requires forall i, j | 0 <= i < j < |names| :: names[i] != names[j]
    ensures First(names) == names
  {
    if names != [] {
      FirstOfDistinct(names[..|names| - 1]);
      assert names == names[..|names| - 1] + [names[|names| - 1]];
    }
  }

  /** Names already present add nothing. */
  lemma {:induction false} FirstAbsorbs(names: seq<string>, more: seq<string>)
    requires forall n | n in more :: n in names
    ensures First(names + more) == First(names)
  {
    if more == [] {
      assert names + more == names;
    } else {
      var front, last := more[..|more| - 1], more[|more| - 1];
      assert last in more;
      FirstAbsorbs(names, front);
      assert names + more == (names + front) + [last];
      FirstSnoc(names + front, last);
    }
  }

  predicate AllNamed(list: seq<Json>) {
    forall el | el in list :: NameOf(el).Some?
  }

  /** The names of the base elements that no delete marker names, in base order. */
  function BaseNames(base: seq<Json>, deleted: set<string>): seq<string>
    requires AllNamed(base)
  {
    if base == [] then []
    else
      var last := NameOf(base[|base| - 1]).value;
      BaseNames(base[..|base| - 1], deleted) + if last in deleted then [] else [last]
  }

  /** Whether an overlay element is merged into the element named `n`. */
  predicate MergesInto(el: Json, n: string) {
    !IsDeleteMarker(el) && NameOf(el) == Some(n)
  }

  /** The name an overlay element brings in. */
  function NameAdded(el: Json, deleted: set<string>): seq<string> {
    if !IsDeleteMarker(el) && NameOf(el).Some? && NameOf(el).value !in deleted then [NameOf(el).value] else []
  }

  function OverlayNames(overlay: seq<Json>, deleted: set<string>): seq<string> {
    if overlay == [] then []
    else OverlayNames(overlay[..|overlay| - 1], deleted) + NameAdded(overlay[|overlay| - 1], deleted)
  }

  lemma OverlayNamesSnoc(overlay: seq<Json>, el: Json, deleted: set<string>)
    ensures OverlayNames(overlay + [el], deleted) == OverlayNames(overlay, deleted) + NameAdded(el, deleted)
  {
    assert (overlay + [el])[..|overlay|] == overlay;
  }

  /** The last base element named `n`; an empty object when there is none. */
  function LastNamed(base: seq<Json>, n: string): Members {
    if base == [] then map[]
    else if NameOf(base[|base| - 1]) == Some(n) then base[|base| - 1].members
    else LastNamed(base[..|base| - 1], n)
  }

  /** The element named `n` of the result: the base element with every overlay element of that name
      merged into it, in overlay order. */
  function DocNamed(base: seq<Json>, overlay: seq<Json>, n: string): Members {
    if overlay == [] then LastNamed(base, n)
    else
      var before := DocNamed(base, overlay[..|overlay| - 1], n);
      var el := overlay[|overlay| - 1];
      if !MergesInto(el, n) then before
      else match Merge(before, el) case Merged(doc) => doc case _ => before
  }

  /** Base survivors, then what the overlay elements `done` bring in. */
  function NamesOf(base: seq<Json>, done: seq<Json>, deleted: set<string>): seq<string>
    requires AllNamed(base)
  {
    BaseNames(base, deleted) + OverlayNames(done, deleted)
  }

  lemma NamesOfSnoc(base: seq<Json>, done: seq<Json>, el: Json, deleted: set<string>)
    requires AllNamed(base)
    ensures NamesOf(base, done + [el], deleted) == NamesOf(base, done, deleted) + NameAdded(el, deleted)
  {
    OverlayNamesSnoc(done, el, deleted);
  }

  function ResultNames(base: seq<Json>, overlay: seq<Json>): seq<string>
    requires AllNamed(base)
  {
    First(NamesOf(base, overlay, DeletedNames(overlay)))
  }

  function Docs(byName: map<string, Members>, names: seq<string>): seq<Json>
    requires forall n | n in names :: n in byName
  {
    seq(|names|, i requires 0 <= i < |names| => assert names[i] in names; Obj(byName[names[i]]))
  }

  // ---- The index holds just that ----

  /** The index lists exactly `names`, each first met in the same order. */
  ghost predicate Lists(ix: Index, names: seq<string>) {
    && ix.removed == {}
    && (forall n :: n in ix.order <==> n in names)
    && (forall n :: n in ix.byName <==> n in names)
    && First(ix.order) == First(names)
  }

  /** The index holds, under each name, what the elements `done` make of it. */
  ghost predicate Holds(ix: Index, base: seq<Json>, done: seq<Json>) {
    forall n | n in ix.byName :: ix.byName[n] == DocNamed(base, done, n)
  }

  lemma {:induction false} BaseListed(base: seq<Json>, deleted: set<string>)
    requires AllNamed(base)
    ensures var ix := IndexBase(base, deleted);
            ix.order == BaseNames(base, deleted) && ix.removed == {} && forall n :: n in ix.byName <==> n in ix.order
  {
    if base != [] { BaseListed(base[..|base| - 1], deleted); }
  }

  lemma {:induction false} BaseHeld(base: seq<Json>, deleted: set<string>, n: string)
    requires AllNamed(base) && n in IndexBase(base, deleted).byName
    ensures n !in deleted && IndexBase(base, deleted).byName[n] == LastNamed(base, n)
  {
    if n in IndexBase(base[..|base| - 1], deleted).byName { BaseHeld(base[..|base| - 1], deleted, n); }
  }

  lemma BaseIndexed(base: seq<Json>, deleted: set<string>)
    requires AllNamed(base)
    ensures IndexBase(base, deleted).order == BaseNames(base, deleted)
    ensures Lists(IndexBase(base, deleted), NamesOf(base, [], deleted))
    ensures Holds(IndexBase(base, deleted), base, [])
  {
    var ix := IndexBase(base, deleted);
    BaseListed(base, deleted);
    assert NamesOf(base, [], deleted) == ix.order;
    forall n | n in ix.byName ensures ix.byName[n] == DocNamed(base, [], n) { BaseHeld(base, deleted, n); }
  }

  lemma {:induction false} UnnamedIsEmpty(base: seq<Json>, done: seq<Json>, deleted: set<string>, n: string)
    requires AllNamed(base) && n !in deleted && n !in BaseNames(base, deleted) && n !in OverlayNames(done, deleted)
    ensures DocNamed(base, done, n) == map[]
    decreases |base| + |done|
  {
    if done != [] {
      UnnamedIsEmpty(base, done[..|done| - 1], deleted, n);
    } else if base != [] {
      UnnamedIsEmpty(base[..|base| - 1], done, deleted, n);
      assert DocNamed(base[..|base| - 1], [], n) == LastNamed(base[..|base| - 1], n);
    }
  }

  lemma ElementListed(ix: Index, names: seq<string>, el: Json, deleted: set<string>)
    requires Lists(ix, names) && Mergeable(el) && MergeElement(ix, el, deleted).Some?
    ensures Lists(MergeElement(ix, el, deleted).value, names + NameAdded(el, deleted))
  {
    if NameAdded(el, deleted) == [] {
      assert names + NameAdded(el, deleted) == names;
    } else {
      FirstSnoc(names, NameOf(el).value);
      FirstSnoc(ix.order, NameOf(el).value);
    }
  }

  lemma DocNamedSnoc(base: seq<Json>, done: seq<Json>, el: Json, n: string)
    ensures var before := DocNamed(base, done, n);
            DocNamed(base, done + [el], n) ==
            if !MergesInto(el, n) then before else match Merge(before, el) case Merged(doc) => doc case _ => before
  {
    assert (done + [el])[..|done|] == done;
  }

  lemma ElementHeld(ix: Index, base: seq<Json>, done: seq<Json>, el: Json, deleted: set<string>)
    requires AllNamed(base) && Lists(ix, NamesOf(base, done, deleted)) && Holds(ix, base, done)
    requires Mergeable(el) && MergeElement(ix, el, deleted).Some?
    ensures Holds(MergeElement(ix, el, deleted).value, base, done + [el])
  {
    var ix' := MergeElement(ix, el, deleted).value;
    forall n | n in ix'.byName ensures ix'.byName[n] == DocNamed(base, done + [el], n) {
      DocNamedSnoc(base, done, el, n);
      if n in deleted {
        DeletedNotNamed(base, done, deleted, n);
      } else if n !in ix.byName {
        UnnamedIsEmpty(base, done, deleted, n);
      }
    }
  }

  lemma {:induction false} DeletedNotNamed(base: seq<Json>, done: seq<Json>, deleted: set<string>, n: string)
    requires AllNamed(base) && n in deleted
    ensures n !in BaseNames(base, deleted) && n !in OverlayNames(done, deleted)
    decreases |base| + |done|
  {
    if base != [] { DeletedNotNamed(base[..|base| - 1], done, deleted, n); }
    if done != [] { DeletedNotNamed(base, done[..|done| - 1], deleted, n); }
  }

  lemma MoveFirst(done: seq<Json>, rest: seq<Json>)
    requires rest != []
    ensures done + [rest[0]] + rest[1..] == done + rest
  {}

  lemma MergeElementsUnfold(ix: Index, rest: seq<Json>, deleted: set<string>)
    requires rest != [] && (forall el | el in rest :: Mergeable(el)) && MergeElements(ix, rest, deleted).Some?
    ensures MergeElement(ix, rest[0], deleted).Some?
    ensures MergeElements(ix, rest, deleted) ==
              MergeElements(MergeElement(ix, rest[0], deleted).value, rest[1..], deleted)
  {}

  lemma {:induction false} ElementsIndexed(ix: Index, base: seq<Json>, done: seq<Json>, rest: seq<Json>,
                                           deleted: set<string>)
    requires AllNamed(base) && Lists(ix, NamesOf(base, done, deleted)) && Holds(ix, base, done)
    requires forall el | el in rest :: Mergeable(el)
    requires MergeElements(ix, rest, deleted).Some?
    ensures Lists(MergeElements(ix, rest, deleted).value, NamesOf(base, done + rest, deleted))
    ensures Holds(MergeElements(ix, rest, deleted).value, base, done + rest)
    decreases |rest|
  {
    if rest == [] {
      assert done + rest == done;
    } else {
      MergeElementsUnfold(ix, rest, deleted);
      ElementListed(ix, NamesOf(base, done, deleted), rest[0], deleted);
      NamesOfSnoc(base, done, rest[0], deleted);
      ElementHeld(ix, base, done, rest[0], deleted);
      ElementsIndexed(MergeElement(ix, rest[0], deleted).value, base, done + [rest[0]], rest[1..], deleted);
      MoveFirst(done, rest);
    }
  }

  /** The names of `rest` that are not seen yet, each at its first position. */
  function NotSeen(rest: seq<string>, seen: set<string>): seq<string> {
    if rest == [] then []
    else if rest[0] in seen then NotSeen(rest[1..], seen)
    else [rest[0]] + NotSeen(rest[1..], seen + {rest[0]})
  }

  lemma {:induction false} NotSeenMembers(rest: seq<string>, seen: set<string>)
    ensures forall n | n in NotSeen(rest, seen) :: n in rest
  {
    if rest != [] {
      NotSeenMembers(rest[1..], if rest[0] in seen then seen else seen + {rest[0]});
      assert forall n | n in rest[1..] :: n in rest;
    }
  }

  lemma {:induction false} FirstSplits(done: seq<string>, rest: seq<string>, seen: set<string>)
    requires forall n :: n in seen <==> n in done
    ensures First(done + rest) == First(done) + NotSeen(rest, seen)
    decreases |rest|
  {
    if rest == [] {
      assert done + rest == done;
    } else {
      var n := rest[0];
      assert done + rest == (done + [n]) + rest[1..];
      FirstSnoc(done, n);
      FirstSplits(done + [n], rest[1..], seen + {n});
      if n in seen { assert seen + {n} == seen; }
    }
  }

  lemma {:induction false} CollectsNotSeen(ix: Index, rest: seq<string>, seen: set<string>)
    requires ix.removed == {} && forall n | n in rest :: n in ix.byName
    ensures forall n | n in NotSeen(rest, seen) :: n in ix.byName
    ensures Collect(ix, rest, seen) == Docs(ix.byName, NotSeen(rest, seen))
  {
    NotSeenMembers(rest, seen);
    if rest != [] {
      assert rest[0] in rest && forall n | n in rest[1..] :: n in rest;
      CollectsNotSeen(ix, rest[1..], if rest[0] in seen then seen else seen + {rest[0]});
    }
  }

  /** The named-list law: when lists merge by name the result holds, for the base survivors in base
      order and then the overlay's new names in the order they first appear, one element each: the
      base element with the overlay's elements of that name merged in. */
  lemma NamedListLaw(base: seq<Json>, overlay: seq<Json>)
    requires MergesByName(base, overlay) && !ReplacesList(overlay)
    ensures match MergeNamedArray(base, overlay)
            case NotNamed => false
            case ListPanics =>
              MergeElements(IndexBase(base, DeletedNames(overlay)), overlay, DeletedNames(overlay)).None?
            case Listed(r) =>
              && |r| == |ResultNames(base, overlay)|
              && forall i | 0 <= i < |r| :: r[i] == Obj(DocNamed(base, overlay, ResultNames(base, overlay)[i]))
  {
    var deleted := DeletedNames(overlay);
    var ix0 := IndexBase(base, deleted);
    BaseIndexed(base, deleted);
    var r := MergeElements(ix0, overlay, deleted);
    if r.Some? {
      ElementsIndexed(ix0, base, [], overlay, deleted);
      assert [] + overlay == overlay;
      CollectedDocs(r.value, base, overlay, NamesOf(base, overlay, deleted));
    }
  }

  lemma CollectedDocs(ix: Index, base: seq<Json>, done: seq<Json>, names: seq<string>)
    requires Lists(ix, names) && Holds(ix, base, done)
    ensures var r := Collect(ix, ix.order, {});
            && |r| == |First(names)|
            && forall i | 0 <= i < |r| :: r[i] == Obj(DocNamed(base, done, First(names)[i]))
  {
    assert [] + ix.order == ix.order;
    FirstKeepsMembers(ix.order);
    FirstSplits([], ix.order, {});
    CollectsNotSeen(ix, ix.order, {});
    var docs := Docs(ix.byName, First(ix.order));
    assert Collect(ix, ix.order, {}) == docs;
    forall i | 0 <= i < |docs| ensures docs[i] == Obj(DocNamed(base, done, First(names)[i])) {
      assert First(ix.order)[i] in First(ix.order);
    }
  }

  /** A list that is merged by name panics on an overlay element whose name is not a string. */
  lemma NonStringNamePanics(base: seq<Json>, overlay: seq<Json>, el: Json)
    requires MergesByName(base, overlay) && !ReplacesList(overlay)
    requires el in overlay && !IsDeleteMarker(el) && NameOf(el).None?
    ensures MergeNamedArray(base, overlay).ListPanics?
  {
    var deleted := DeletedNames(overlay);
    ElementWithoutName(IndexBase(base, deleted), overlay, deleted, el);
  }

  lemma {:induction false} ElementWithoutName(ix: Index, overlay: seq<Json>, deleted: set<string>, el: Json)
    requires forall e | e in overlay :: Mergeable(e)
    requires el in overlay && !IsDeleteMarker(el) && NameOf(el).None?
    ensures MergeElements(ix, overlay, deleted).None?
    decreases |overlay|
  {
    var next := MergeElement(ix, overlay[0], deleted);
    if el != overlay[0] && next.Some? {
      assert el in overlay[1..];
      ElementWithoutName(next.value, overlay[1..], deleted, el);
    }
  }

  // ---- Reading the law ----

  lemma {:induction false} BaseNamesMembers(base: seq<Json>, deleted: set<string>, n: string)
    requires AllNamed(base)
    ensures n in BaseNames(base, deleted) <==> n !in deleted && exists el | el in base :: NameOf(el) == Some(n)
  {
    if base != [] {
      var front, last := base[..|base| - 1], base[|base| - 1];
      BaseNamesMembers(front, deleted, n);
      assert base == front + [last];
    }
  }

  lemma {:induction false} OverlayNamesMembers(overlay: seq<Json>, deleted: set<string>, n: string)
    ensures n in OverlayNames(overlay, deleted) <==> n !in deleted && exists el | el in overlay :: MergesInto(el, n)
  {
    if overlay != [] {
      var front, last := overlay[..|overlay| - 1], overlay[|overlay| - 1];
      OverlayNamesMembers(front, deleted, n);
      assert overlay == front + [last];
      assert forall el :: el in overlay <==> el in front || el == last;
      assert (exists el | el in overlay :: MergesInto(el, n)) <==>
             (exists el | el in front :: MergesInto(el, n)) || MergesInto(last, n);
    }
  }

  lemma {:induction false} DeletedNamesMembers(overlay: seq<Json>, n: string)
    ensures n in DeletedNames(overlay) <==> exists el | el in overlay :: IsDeleteMarker(el) && NameOf(el) == Some(n)
  {
    if overlay != [] {
      var front, last := overlay[..|overlay| - 1], overlay[|overlay| - 1];
      DeletedNamesMembers(front, n);
      assert overlay == front + [last];
    }
  }

  /** The result's names are distinct, and a name is present exactly when the base or the overlay
      has an element of that name and no delete marker names it. */
  lemma ResultNamesLaw(base: seq<Json>, overlay: seq<Json>, n: string)
    requires AllNamed(base)
    ensures var names := ResultNames(base, overlay);
            && (forall i, j | 0 <= i < j < |names| :: names[i] != names[j])
            && (n in names <==>
                  && !(exists el | el in overlay :: IsDeleteMarker(el) && NameOf(el) == Some(n))
                  && ((exists el | el in base :: NameOf(el) == Some(n))
                       || exists el | el in overlay :: MergesInto(el, n)))
  {
    var deleted := DeletedNames(overlay);
    var all := BaseNames(base, deleted) + OverlayNames(overlay, deleted);
    FirstIsDistinct(all);
    FirstKeepsMembers(all);
    BaseNamesMembers(base, deleted, n);
    OverlayNamesMembers(overlay, deleted, n);
    DeletedNamesMembers(overlay, n);
  }

  predicate RetainsName(el: Json) {
    el.Obj? && (ListAt(el.members, RETAIN).Some? ==> Str("name") in ListAt(el.members, RETAIN).value)
  }

  lemma MergeKeepsName(before: Members, el: Json, n: string)
    requires RetainsName(el) && NameOf(el) == Some(n) && Merge(before, el).Merged?
    ensures NameOf(Obj(Merge(before, el).doc)) == Some(n)
  {
    var start := if Asks(el.members, "replace") then map[] else before;
    assert !IsDirective("name") by { assert "name"[0] != "$"[0]; }
    assert MergedSlot(start, el, "name") == Kept(Str(n));
    assert MergedMembers(start, el)["name"] == Str(n);
  }

  ghost predicate CarriesNames(ix: Index) {
    forall n | n in ix.byName :: NameOf(Obj(ix.byName[n])) == Some(n)
  }

  lemma {:induction false} ElementsCarryNames(ix: Index, overlay: seq<Json>, deleted: set<string>)
    requires forall el | el in overlay :: Mergeable(el) && (IsDeleteMarker(el) || RetainsName(el))
    requires CarriesNames(ix) && MergeElements(ix, overlay, deleted).Some?
    ensures CarriesNames(MergeElements(ix, overlay, deleted).value)
    decreases |overlay|
  {
    if overlay != [] {
      var el := overlay[0];
      if !IsDeleteMarker(el) && NameOf(el).value !in deleted {
        var name := NameOf(el).value;
        MergeKeepsName(if name in ix.byName then ix.byName[name] else map[], el, name);
      }
      ElementsCarryNames(MergeElement(ix, el, deleted).value, overlay[1..], deleted);
    }
  }

  lemma {:induction false} BaseCarriesNames(base: seq<Json>, deleted: set<string>)
    requires AllNamed(base)
    ensures CarriesNames(IndexBase(base, deleted))
  {
    if base != [] { BaseCarriesNames(base[..|base| - 1], deleted); }
  }

  /** Unless a `$retainKeys` directive drops `name`, each element of the result carries the name it
      is listed under, so the result is again a list of distinctly named objects. */
  lemma NamedListNames(base: seq<Json>, overlay: seq<Json>)
    requires MergesByName(base, overlay) && !ReplacesList(overlay)
    requires forall el | el in overlay :: IsDeleteMarker(el) || RetainsName(el)
    ensures match MergeNamedArray(base, overlay)
            case Listed(r) =>
              && |r| == |ResultNames(base, overlay)|
              && forall i | 0 <= i < |r| :: NameOf(r[i]) == Some(ResultNames(base, overlay)[i])
            case _ => true
  {
    var deleted := DeletedNames(overlay);
    var ix0 := IndexBase(base, deleted);
    var all := BaseNames(base, deleted) + OverlayNames(overlay, deleted);
    NamedListLaw(base, overlay);
    BaseIndexed(base, deleted);
    BaseCarriesNames(base, deleted);
    if MergeElements(ix0, overlay, deleted).Some? {
      ElementsIndexed(ix0, base, [], overlay, deleted);
      ElementsCarryNames(ix0, overlay, deleted);
      assert [] + overlay == overlay;
      var names := ResultNames(base, overlay);
      FirstKeepsMembers(all);
      forall i | 0 <= i < |names| ensures NameOf(Obj(DocNamed(base, overlay, names[i]))) == Some(names[i]) {
        assert names[i] in names;
      }
    }
  }
}
