/** Strategic merge patch: what merging an overlay into a stored document yields.
    The definition is pointwise (each member of the result depends on that member alone), so it
    mentions no iteration order; the loops over Go maps in module MergeInPlace are proved to compute
    it whatever order they meet the keys in. */
module StrategicMerge {
  import opened Wrappers
  import opened Text
  import opened Json
  import ElementOrder
  import Seqs

  /** How merging one object into another ends. `Panics` is the failed type assertion on a list
      element whose `name` is not a string; `Deletes` asks the caller to drop the parent member. */
  datatype Outcome = Panics | Deletes | Merged(doc: Members)

  /** What merging leaves in one member. */
  datatype Slot = SlotPanics | Dropped | Kept(value: Json)

  /** How merging one list into another ends. `NotNamed` asks the caller to replace the list. */
  datatype ListOutcome = ListPanics | NotNamed | Listed(elems: seq<Json>)

  const PATCH := "$patch"
  const RETAIN := "$retainKeys"
  const ORDER := "$setElementOrder/"
  const DELETE := "$deleteFromPrimitiveList/"

  predicate IsDirective(k: string) {
    HasPrefix(k, "$")
  }

  predicate Asks(m: Members, what: string) {
    PATCH in m && m[PATCH] == Str(what)
  }

  function ListAt(m: Members, key: string): Option<seq<Json>> {
    if key in m && m[key].Arr? then Some(m[key].elems) else None
  }

  // ---- Whole objects ----

  function Merge(base: Members, overlay: Json): (r: Outcome)
    requires overlay.Obj?
    ensures r.Deletes? <==> Asks(overlay.members, "delete")
    decreases overlay, 2
  {
    var o := overlay.members;
    if Asks(o, "delete") then
      Deletes
    else
      var start := if Asks(o, "replace") then map[] else base;
      if exists k | k in o :: MergedSlot(start, overlay, k).SlotPanics? then Panics
      else Merged(Finish(o, MergedMembers(start, overlay)))
  }

  /** Member `k` after the overlay's own members are in; directives are never stored. */
  function MergedSlot(start: Members, overlay: Json, k: string): Slot
    requires overlay.Obj?
    decreases overlay, 0
  {
    if k in overlay.members && !IsDirective(k) then
      MergeMember(Lookup(start, k), overlay.members[k])
    else
      SlotOf(Lookup(start, k))
  }

  function SlotOf(v: Option<Json>): Slot {
    if v.Some? then Kept(v.value) else Dropped
  }

  function MergedMembers(start: Members, overlay: Json): Members
    requires overlay.Obj?
    decreases overlay, 1
  {
    map k | k in start.Keys + overlay.members.Keys && MergedSlot(start, overlay, k).Kept? ::
      MergedSlot(start, overlay, k).value
  }

  function MergeMember(current: Option<Json>, v: Json): Slot
    decreases v, 3
  {
    match v
    case Null => Dropped
    case Obj(_) =>
      (match Merge(if current.Some? && current.value.Obj? then current.value.members else map[], v)
       case Panics => SlotPanics
       case Deletes => Dropped
       case Merged(doc) => Kept(Obj(doc)))
    case Arr(oa) =>
      if current.Some? && current.value.Arr? then
        match MergeNamedArray(current.value.elems, oa)
        case ListPanics => SlotPanics
        case NotNamed => Kept(Arr(WithoutMarkers(oa)))
        case Listed(elems) => Kept(Arr(elems))
      else
        Kept(Arr(WithoutMarkers(oa)))
    case _ => Kept(v)
  }

  // ---- Directives that act on a merged object ----

  function DeletePrimitiveValues(list: seq<Json>, remove: seq<Json>): seq<Json> {
    Seqs.Filter(list, el => el !in remove)
  }

  /** One member after `$deleteFromPrimitiveList` and then `$setElementOrder`. */
  function FinishField(o: Members, k: string, v: Json): Json {
    OrderField(o, k, PruneField(o, k, v))
  }

  function PruneField(o: Members, k: string, v: Json): Json {
    if v.Arr? && ListAt(o, DELETE + k).Some? then Arr(DeletePrimitiveValues(v.elems, ListAt(o, DELETE + k).value))
    else v
  }

  function OrderField(o: Members, k: string, v: Json): Json {
    if v.Arr? && ListAt(o, ORDER + k).Some? then Arr(ElementOrder.OrderElements(v.elems, ListAt(o, ORDER + k).value))
    else v
  }

  predicate Retained(o: Members, k: string) {
    ListAt(o, RETAIN).Some? ==> Str(k) in ListAt(o, RETAIN).value
  }

  function Finish(o: Members, m: Members): Members {
    map k | k in m && Retained(o, k) :: FinishField(o, k, m[k])
  }

  // ---- Lists ----

  predicate HasMarker(el: Json) {
    el.Obj? && PATCH in el.members
  }

  function WithoutMarkers(list: seq<Json>): seq<Json> {
    Seqs.Filter(list, el => !HasMarker(el))
  }

  predicate IsDeleteMarker(el: Json) {
    el.Obj? && Asks(el.members, "delete")
  }

  predicate IsReplaceMarker(el: Json) {
    el.Obj? && Asks(el.members, "replace")
  }

  predicate ReplacesList(overlay: seq<Json>) {
    exists el | el in overlay :: IsReplaceMarker(el)
  }

  /** The names that delete markers of the overlay name. */
  function DeletedNames(overlay: seq<Json>): set<string> {
    if overlay == [] then {}
    else DeletedNames(overlay[..|overlay| - 1]) + DeletedBy(overlay[|overlay| - 1])
  }

  function DeletedBy(el: Json): set<string> {
    if IsDeleteMarker(el) && NameOf(el).Some? then {NameOf(el).value} else {}
  }

  /** An overlay element a list can be merged by: a delete marker, or an object with a `name`. */
  predicate Mergeable(el: Json) {
    el.Obj? && (IsDeleteMarker(el) || "name" in el.members)
  }

  /** The test the code makes before it touches any element. */
  predicate MergesByName(base: seq<Json>, overlay: seq<Json>) {
    && (forall el | el in overlay :: Mergeable(el))
    && (forall el | el in base :: NameOf(el).Some?)
  }

  /** The working state of a list merge: the elements by name and the names in order. */
  datatype Index = Index(byName: map<string, Members>, order: seq<string>, removed: set<string>)

  function IndexBase(base: seq<Json>, deleted: set<string>): Index
    requires forall el | el in base :: NameOf(el).Some?
  {
    if base == [] then
      Index(map[], [], {})
    else
      var ix := IndexBase(base[..|base| - 1], deleted);
      var el := base[|base| - 1];
      var name := NameOf(el).value;
      if name in deleted then ix
      else ix.(byName := ix.byName[name := el.members], order := ix.order + [name])
  }

  /** Merges or appends one overlay element; None is the panic on a non-string name. */
  function MergeElement(ix: Index, el: Json, deleted: set<string>): Option<Index>
    requires Mergeable(el)
    decreases el, 3
  {
    if IsDeleteMarker(el) then
      Some(ix)
    else
      match NameOf(el)
      case None => None
      case Some(name) =>
        if name in deleted then
          Some(ix)
        else if name in ix.byName then
          match Merge(ix.byName[name], el)
          case Panics => None
          case Deletes => Some(ix.(removed := ix.removed + {name}))
          case Merged(doc) => Some(ix.(byName := ix.byName[name := doc]))
        else
          match Merge(map[], el)
          case Panics => None
          case Deletes => Some(ix.(byName := ix.byName[name := map[]], order := ix.order + [name]))
          case Merged(doc) => Some(ix.(byName := ix.byName[name := doc], order := ix.order + [name]))
  }

  function MergeElements(ix: Index, overlay: seq<Json>, deleted: set<string>): Option<Index>
    requires forall el | el in overlay :: Mergeable(el)
    decreases overlay, 0
  {
    if overlay == [] then
      Some(ix)
    else
      match MergeElement(ix, overlay[0], deleted)
      case None => None
      case Some(ix') => MergeElements(ix', overlay[1..], deleted)
  }

  /** The surviving elements, each name once, at its first position in `order`. */
  function Collect(ix: Index, order: seq<string>, seen: set<string>): seq<Json> {
    if order == [] then []
    else if order[0] in seen || order[0] in ix.removed || order[0] !in ix.byName then Collect(ix, order[1..], seen)
    else [Obj(ix.byName[order[0]])] + Collect(ix, order[1..], seen + {order[0]})
  }

  function MergeNamedArray(base: seq<Json>, overlay: seq<Json>): ListOutcome
    decreases overlay, 1
  {
    if ReplacesList(overlay) then
      Listed(WithoutMarkers(overlay))
    else if !MergesByName(base, overlay) then
      NotNamed
    else
      var deleted := DeletedNames(overlay);
      match MergeElements(IndexBase(base, deleted), overlay, deleted)
      case None => ListPanics
      case Some(ix) => Listed(Collect(ix, ix.order, {}))
  }
}
