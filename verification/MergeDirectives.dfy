/** What the directives of an overlay do to a merge, told from the overlay's own text: the keys are
    spelled out here, and the merge they are compared with is that of the overlay without them. */
module MergeDirectives {
  import opened Wrappers
  import opened Json
  import opened StrategicMerge
  import ElementOrder
  import NamedLists
  import Seqs
  import StableSort

  // ---- What an overlay says ----

  /** A key that is an instruction and not a member. */
  predicate Instruction(k: string) {
    k != "" && k[0] == '$'
  }

  /** The overlay without its instructions; what lies deeper keeps its own. */
  function Undirected(o: Members): Json {
    Obj(map k | k in o && !Instruction(k) :: o[k])
  }

  predicate Says(o: Members, what: string) {
    "$patch" in o && o["$patch"] == Str(what)
  }

  function ListUnder(o: Members, key: string): Option<seq<Json>> {
    if key in o && o[key].Arr? then Some(o[key].elems) else None
  }

  predicate Retains(o: Members, k: string) {
    match ListUnder(o, "$retainKeys")
    case Some(keys) => Str(k) in keys
    case None => true
  }

  // ---- What a list must then be ----

  /** `r` is what `drop` leaves of the list: the elements at the positions `at`, in their order. */
  ghost predicate LeavesAt(list: seq<Json>, drop: Json -> bool, r: seq<Json>, at: seq<nat>) {
    && |at| == |r|
    && (forall i, j | 0 <= i < j < |at| :: at[i] < at[j])
    && (forall i | 0 <= i < |r| :: at[i] < |list| && r[i] == list[at[i]])
    && (forall j: nat | j < |list| :: j in at <==> !drop(list[j]))
  }

  ghost predicate Leaves(list: seq<Json>, drop: Json -> bool, r: seq<Json>) {
    exists at :: LeavesAt(list, drop, r, at)
  }

  /** One list, first without the values to be deleted and then in the order asked for. */
  ghost predicate ListObeys(o: Members, k: string, list: seq<Json>, r: seq<Json>) {
    exists kept :: Pruned(o, k, list, kept) && Ordered(o, k, kept, r)
  }

  ghost predicate Pruned(o: Members, k: string, list: seq<Json>, kept: seq<Json>) {
    match ListUnder(o, "$deleteFromPrimitiveList/" + k)
    case Some(values) => Leaves(list, el => el in values, kept)
    case None => kept == list
  }

  ghost predicate Ordered(o: Members, k: string, kept: seq<Json>, r: seq<Json>) {
    match ListUnder(o, "$setElementOrder/" + k)
    case Some(order) =>
      var rank := ElementOrder.Rank(order);
      StableSort.Sorted(r, rank) && StableSort.SameClasses(r, kept, rank)
    case None => r == kept
  }

  /** `doc` is `plain` after the instructions that act on the merged object. */
  ghost predicate Obeys(o: Members, plain: Members, doc: Members) {
    && (forall k :: k in doc <==> k in plain && Retains(o, k))
    && (forall k | k in doc ::
          if plain[k].Arr? then doc[k].Arr? && ListObeys(o, k, plain[k].elems, doc[k].elems)
          else doc[k] == plain[k])
  }

  // ---- The law ----

  lemma LeavesPast(list: seq<Json>, x: Json, drop: Json -> bool, r: seq<Json>, at: seq<nat>)
    requires LeavesAt(list, drop, r, at) && drop(x)
    ensures LeavesAt(list + [x], drop, r, at)
  {
    assert forall i | 0 <= i < |r| :: at[i] in at && (list + [x])[at[i]] == list[at[i]];
    assert forall j: nat | j < |list| :: (list + [x])[j] == list[j];
  }

  lemma LeavesWith(list: seq<Json>, x: Json, drop: Json -> bool, r: seq<Json>, at: seq<nat>)
    requires LeavesAt(list, drop, r, at) && !drop(x)
    ensures LeavesAt(list + [x], drop, r + [x], at + [|list|])
  {
    var n: nat, at' := |list|, at + [|list|];
    assert forall i | 0 <= i < |r| :: at'[i] == at[i] < n && (list + [x])[at[i]] == list[at[i]];
    forall j: nat | j < n + 1 ensures j in at' <==> !drop((list + [x])[j]) {
      assert j in at' <==> j in at || j == n;
      if j < n { assert (list + [x])[j] == list[j]; }
    }
  }

  lemma {:induction false} FilterLeaves(list: seq<Json>, keep: Json -> bool, drop: Json -> bool) returns (at: seq<nat>)
    requires forall el :: drop(el) <==> !keep(el)
    ensures LeavesAt(list, drop, Seqs.Filter(list, keep), at)
  {
    at := [];
    if list != [] {
      var front, last := list[..|list| - 1], list[|list| - 1];
      at := FilterLeaves(front, keep, drop);
      assert list == front + [last];
      if keep(last) {
        LeavesWith(front, last, drop, Seqs.Filter(front, keep), at);
        at := at + [|front|];
      } else {
        LeavesPast(front, last, drop, Seqs.Filter(front, keep), at);
        assert Seqs.Filter(list, keep) == Seqs.Filter(front, keep) + [];
      }
    }
  }

  lemma FinishObeys(o: Members, plain: Members)
    ensures Obeys(o, plain, Finish(o, plain))
  {
    var doc := Finish(o, plain);
    forall k | k in doc && plain[k].Arr? ensures doc[k].Arr? && ListObeys(o, k, plain[k].elems, doc[k].elems) {
      var kept := PruneField(o, k, plain[k]);
      PruneFieldPrunes(o, k, plain[k].elems);
      OrderFieldOrders(o, k, kept.elems);
    }
  }

  lemma PruneFieldPrunes(o: Members, k: string, list: seq<Json>)
    ensures PruneField(o, k, Arr(list)).Arr? && Pruned(o, k, list, PruneField(o, k, Arr(list)).elems)
  {
    if ListUnder(o, "$deleteFromPrimitiveList/" + k).Some? {
      var values := ListUnder(o, "$deleteFromPrimitiveList/" + k).value;
      var at := FilterLeaves(list, el => el !in values, el => el in values);
    }
  }

  lemma OrderFieldOrders(o: Members, k: string, kept: seq<Json>)
    ensures OrderField(o, k, Arr(kept)).Arr? && Ordered(o, k, kept, OrderField(o, k, Arr(kept)).elems)
  {
    if ListUnder(o, "$setElementOrder/" + k).Some? {
      var order := ListUnder(o, "$setElementOrder/" + k).value;
      ElementOrder.OrderElementsLaw(kept, order, ElementOrder.OrderElements(kept, order));
    }
  }

  lemma UndirectedSlot(start: Members, overlay: Json, k: string)
    requires overlay.Obj?
    ensures MergedSlot(start, Undirected(overlay.members), k) == MergedSlot(start, overlay, k)
  {
    assert IsDirective(k) <==> Instruction(k);
  }

  lemma UndirectedMembers(start: Members, overlay: Json)
    requires overlay.Obj?
    ensures MergedMembers(start, Undirected(overlay.members)) == MergedMembers(start, overlay)
  {
    var m, m' := MergedMembers(start, Undirected(overlay.members)), MergedMembers(start, overlay);
    forall k ensures k in m <==> k in m' { UndirectedSlot(start, overlay, k); }
    forall k | k in m ensures m[k] == m'[k] { UndirectedSlot(start, overlay, k); }
  }

  lemma UndirectedPanics(start: Members, overlay: Json)
    requires overlay.Obj?
    ensures (exists k | k in Undirected(overlay.members).members ::
               MergedSlot(start, Undirected(overlay.members), k).SlotPanics?) <==>
            exists k | k in overlay.members :: MergedSlot(start, overlay, k).SlotPanics?
  {
    var u := Undirected(overlay.members);
    if k :| k in u.members && MergedSlot(start, u, k).SlotPanics? { UndirectedSlot(start, overlay, k); }
    if k :| k in overlay.members && MergedSlot(start, overlay, k).SlotPanics? {
      UndirectedSlot(start, overlay, k);
      assert IsDirective(k) <==> Instruction(k);
    }
  }

  lemma NothingToFinish(o: Members, m: Members)
    requires forall k | k in o :: !Instruction(k)
    ensures Finish(o, m) == m
  {
    assert RETAIN !in o;
    assert forall k: string :: Instruction(DELETE + k) && Instruction(ORDER + k);
  }

  lemma UndirectedMerge(start: Members, overlay: Json)
    requires overlay.Obj?
    ensures Merge(start, Undirected(overlay.members)) ==
            if exists k | k in overlay.members :: MergedSlot(start, overlay, k).SlotPanics? then Panics
            else Merged(MergedMembers(start, overlay))
  {
    var u := Undirected(overlay.members);
    UndirectedPanics(start, overlay);
    UndirectedMembers(start, overlay);
    NothingToFinish(u.members, MergedMembers(start, u));
    assert PATCH !in u.members;
  }

  /** Merging obeys the overlay's instructions: the result is that of the overlay without them, on an empty
      object if the overlay says so; of it the retained members stay, and their lists are pruned and ordered. */
  lemma MergeObeys(base: Members, overlay: Json)
    requires overlay.Obj?
    ensures var o := overlay.members;
            if Says(o, "delete") then Merge(base, overlay) == Deletes
            else
              match Merge(if Says(o, "replace") then map[] else base, Undirected(o))
              case Merged(plain) =>
                Merge(base, overlay).Merged? && Obeys(o, plain, Merge(base, overlay).doc)
              case ended => ended == Panics && Merge(base, overlay) == Panics
  {
    var o := overlay.members;
    var start := if Says(o, "replace") then map[] else base;
    UndirectedMerge(start, overlay);
    FinishObeys(o, MergedMembers(start, overlay));
  }

  /** An overlay that replaces gives the same whatever was there. */
  lemma ReplaceForgets(base: Members, other: Members, overlay: Json)
    requires overlay.Obj? && Says(overlay.members, "replace")
    ensures Merge(base, overlay) == Merge(other, overlay)
  {}

  // ---- Without instructions: member by member ----

  function Current(base: Members, k: string): Members {
    if k in base && base[k].Obj? then base[k].members else map[]
  }

  /** What the overlay's value for member `k` makes of it. */
  ghost predicate MemberMerged(base: Members, k: string, v: Json, doc: Members) {
    match v
    case Null => k !in doc
    case Obj(m) =>
      if Says(m, "delete") then k !in doc
      else k in doc && doc[k].Obj? && Merge(Current(base, k), v) == Merged(doc[k].members)
    case Arr(elems) =>
      && k in doc && doc[k].Arr?
      && (if k in base && base[k].Arr? && !MergeNamedArray(base[k].elems, elems).NotNamed?
          then MergeNamedArray(base[k].elems, elems) == Listed(doc[k].elems)
          else Leaves(elems, Marker, doc[k].elems))
    case _ => k in doc && doc[k] == v
  }

  predicate Marker(el: Json) {
    el.Obj? && "$patch" in el.members
  }

  /** An overlay without instructions: null deletes, an object is merged into the object that is there or
      into none, a list into the list that is there or in its place, and anything else is stored. */
  lemma MembersMerge(base: Members, overlay: Json, k: string)
    requires overlay.Obj? && forall key | key in overlay.members :: !Instruction(key)
    requires Merge(base, overlay).Merged?
    ensures var o, doc := overlay.members, Merge(base, overlay).doc;
            if k in o then MemberMerged(base, k, o[k], doc)
            else (k in doc <==> k in base) && (k in base ==> doc[k] == base[k])
  {
    var o := overlay.members;
    assert Undirected(o) == overlay;
    UndirectedMerge(base, overlay);
    assert Merge(base, overlay).doc == MergedMembers(base, overlay);
    assert IsDirective(k) <==> Instruction(k);
    if k in o && o[k].Arr? { MarkersLeave(o[k].elems); }
  }

  lemma MarkersLeave(elems: seq<Json>)
    ensures Leaves(elems, Marker, WithoutMarkers(elems))
  {
    var at := FilterLeaves(elems, el => !HasMarker(el), Marker);
  }

  // ---- Lists ----

  predicate Marked(el: Json, what: string) {
    el.Obj? && Says(el.members, what)
  }

  predicate NamedBy(el: Json, n: string) {
    el.Obj? && "name" in el.members && el.members["name"] == Str(n)
  }

  ghost predicate HasName(el: Json) {
    exists n :: NamedBy(el, n)
  }

  lemma NamesAreRead(el: Json)
    ensures forall n :: NameOf(el) == Some(n) <==> NamedBy(el, n)
    ensures NameOf(el).Some? <==> HasName(el)
  {
    if NameOf(el).Some? { assert NamedBy(el, NameOf(el).value); }
  }

  /** One element that says so makes the overlay's list take the place of the base's, without the elements
      that are markers. */
  lemma ListReplaced(base: seq<Json>, overlay: seq<Json>)
    requires exists el | el in overlay :: Marked(el, "replace")
    ensures MergeNamedArray(base, overlay).Listed?
    ensures Leaves(overlay, Marker, MergeNamedArray(base, overlay).elems)
  {
    var el :| el in overlay && Marked(el, "replace");
    assert IsReplaceMarker(el);
    MarkersLeave(overlay);
  }

  /** Lists merge by name if every overlay element has a name or says to delete, and every base element has
      a name that is a string. */
  lemma ListNotNamed(base: seq<Json>, overlay: seq<Json>)
    requires forall el | el in overlay :: !Marked(el, "replace")
    ensures MergeNamedArray(base, overlay) == NotNamed <==>
            !((forall el | el in overlay :: Marked(el, "delete") || (el.Obj? && "name" in el.members))
              && forall el | el in base :: HasName(el))
  {
    forall el { NamesAreRead(el); }
    assert forall el :: IsReplaceMarker(el) <==> Marked(el, "replace");
    assert forall el :: Mergeable(el) <==> Marked(el, "delete") || (el.Obj? && "name" in el.members);
  }

  /** A name is in the merged list if the base or the overlay has it, unless an element says to delete it. */
  lemma ListNames(base: seq<Json>, overlay: seq<Json>, n: string)
    requires forall el | el in base :: HasName(el)
    ensures NamedLists.AllNamed(base)
    ensures n in NamedLists.ResultNames(base, overlay) <==>
            && !(exists el | el in overlay :: Marked(el, "delete") && NamedBy(el, n))
            && ((exists el | el in base :: NamedBy(el, n))
                || exists el | el in overlay :: !Marked(el, "delete") && NamedBy(el, n))
  {
    forall el { NamesAreRead(el); }
    NamedLists.ResultNamesLaw(base, overlay, n);
    assert forall el :: IsDeleteMarker(el) <==> Marked(el, "delete");
    assert forall el :: NamedLists.MergesInto(el, n) <==> !Marked(el, "delete") && NamedBy(el, n);
  }

  // ---- Ranks ----

  /** The entry of `$setElementOrder` is about the element: they have one name, or no name and one value. */
  ghost predicate Mentions(entry: Json, el: Json) {
    if HasName(entry) || HasName(el) then exists n :: NamedBy(entry, n) && NamedBy(el, n) else entry == el
  }

  /** An element ranks at the last entry about it, and behind all entries when there is none. */
  lemma RankIsLastMention(order: seq<Json>, el: Json)
    ensures var r := ElementOrder.Rank(order)(el);
            && (r == |order| || (r < |order| && Mentions(order[r], el)))
            && forall i | 0 <= i < |order| && Mentions(order[i], el) :: i <= r < |order|
  {
    ElementOrder.RankBelowIsLastMention(order, |order|, ElementOrder.ElementKey(el));
    forall entry ensures ElementOrder.ElementKey(entry) == ElementOrder.ElementKey(el) <==> Mentions(entry, el) {
      NamesAreRead(entry);
      NamesAreRead(el);
    }
  }
}
