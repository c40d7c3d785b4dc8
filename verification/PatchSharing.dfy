/** What copying a container does to later operations: it stands in two places, and a write into it
    shows in both, where RFC 6902 changes one. Of a list only the elements are shared, not the length. */
module PatchSharing {
  import opened Wrappers
  import opened Json
  import opened GoValues
  import opened JsonPatch
  import opened PatchInPlace
  import opened PatchLayouts
  import opened PatchRun
  import opened PatchSoundness
  import opened PatchTwins
  import opened Rfc6902
  import JsonPointer

  // ---- A write into a container that stands in two places ----

  /** What is at `rest` is an element of the list itself. */
  predicate Element(v: Json, rest: seq<string>) {
    v.Arr? && |rest| == 1
  }

  /** The container at `x` stands at `y` as well, by a link, and nothing else stands in two places. */
  ghost predicate Twin(doc: GoMap, t: Tree, x: seq<string>, y: seq<string>)
    reads Footprint(t)
  {
    && t.MapAt? && t.m == doc && Unshared(t) && Holds(MapRef(doc), t)
    && Get(JsonOf(t), x).Success? && Get(JsonOf(t), y).Success? && Opens(t, x) && Opens(t, y) && Apart(JsonOf(t), x, y)
    && Solid(Sub(t, x)) && Sub(t, y) == LinkAt(Sub(t, x)) && SolidBut(t, y)
  }

  /** Once the container has changed at `x`, its slot at `y` holds what is left of it there. */
  lemma TwinFollows(doc: GoMap, t: Tree, x: seq<string>, y: seq<string>, t': Tree, seen: Tree, v: Json)
      returns (b: Tree)
    requires t.MapAt? && t.m == doc && Unshared(t) && Get(JsonOf(t), x).Success? && Get(JsonOf(t), y).Success?
    requires Opens(t, x) && Opens(t, y) && Apart(JsonOf(t), x, y) && Sub(t, y) == LinkAt(Sub(t, x)) && SolidBut(t, y)
    requires Unshared(t') && Holds(MapRef(doc), t') && Get(JsonOf(t'), x).Success? && Opens(t', x)
    requires Put(t, x, Sub(t', x), t', {}) && Solid(Sub(t', x)) && JsonOf(t') == Replaced(JsonOf(t), x, v)
    requires Nested(seen) && Solid(seen) && Holds(Head(Sub(t, x)), seen)
    ensures Is(doc, b, Both(JsonOf(t), x, y, v, JsonOf(seen)))
  {
    PutLeaves(t, x, Sub(t', x), t', {}, y);
    PutKeepsSolidBut(t, x, Sub(t', x), t', {}, y);
    b := Grafted(t', y, seen, {});
    GraftedNested(t', y, seen);
    GraftedHolds(MapRef(doc), t', y, seen, {});
    GraftedIsSolid(t', y, seen, {});
    GraftedIsReplaced(t', y, seen, {});
  }

  /** What another slot of the same container holds after an addition. */
  lemma SeenAfterPut(was: Tree, rest: seq<string>, wt: Tree, now: Tree) returns (seen: Tree)
    requires Nested(was) && Solid(was) && Nested(now) && Solid(now) && Holds(Head(now), now)
    requires rest != [] && Put(was, rest, wt, now, {})
    requires Element(JsonOf(was), rest) ==> rest == ["-"] && (HasRoom(was) || Holds(Head(was), was))
    ensures Nested(seen) && Solid(seen) && Holds(Head(was), seen)
    ensures JsonOf(seen) == if Element(JsonOf(was), rest) then JsonOf(was) else JsonOf(now)
  {
    seen := now;
    if Element(JsonOf(was), rest) {
      seen := was;
      if HasRoom(was) {
        assert forall j | 0 <= j < |was.items| :: now.items[j] == was.items[j];
      }
    }
  }

  /** Once a value has been put below `x`, it shows at `y`. */
  lemma AddedShows(doc: GoMap, t: Tree, x: seq<string>, y: seq<string>, rest: seq<string>, wt: Tree, t': Tree, v: Json)
      returns (b: Tree)
    requires t.MapAt? && t.m == doc && Unshared(t) && Get(JsonOf(t), x).Success? && Get(JsonOf(t), y).Success?
    requires Opens(t, x) && Opens(t, y) && Apart(JsonOf(t), x, y) && Sub(t, y) == LinkAt(Sub(t, x)) && SolidBut(t, y)
    requires Unshared(t') && Holds(MapRef(doc), t') && rest != [] && Put(t, x + rest, wt, t', {}) && Solid(wt)
    requires Solid(Sub(t, x)) && JsonOf(t') == Replaced(JsonOf(t), x, v)
    requires Element(JsonOf(Sub(t, x)), rest) ==>
               rest == ["-"] && (HasRoom(Sub(t, x)) || Holds(Head(Sub(t, x)), Sub(t, x)))
    ensures Is(doc, b, Both(JsonOf(t), x, y, v, if Element(JsonOf(Sub(t, x)), rest) then JsonOf(Sub(t, x)) else v))
  {
    PutInside(t, x, rest, wt, t', {});
    PutIsSolid(Sub(t, x), rest, wt, Sub(t', x), {});
    SubHolds(MapRef(doc), t', x);
    var seen := SeenAfterPut(Sub(t, x), rest, wt, Sub(t', x));
    ReplacedReads(JsonOf(t), x, v);
    b := TwinFollows(doc, t, x, y, t', seen, v);
  }

  /** An addition to a list itself appends, and to a list without room it writes to none of its objects. */
  lemma AppendAvoids(doc: GoMap, t: Tree, x: seq<string>, rest: seq<string>, w: Json, add: bool)
    requires Unshared(t) && Holds(MapRef(doc), t) && Get(JsonOf(t), x).Success? && Opens(t, x) && Opens(t, x + rest)
    requires Element(JsonOf(Sub(t, x)), rest) && Set(JsonOf(Sub(t, x)), rest, w, add).Success?
    ensures rest == ["-"] && Holds(Head(Sub(t, x)), Sub(t, x))
    ensures HasRoom(Sub(t, x)) || PathNodes(t, x + rest) !! Footprint(Sub(t, x))
  {
    if rest[0] != "-" { SetInArr(JsonOf(Sub(t, x)).elems, rest, w, add); }
    assert rest == ["-"];
    AppendsHere(JsonOf(t), x);
    AvoidsUnlessBelow(t, x, x + rest);
    SubHolds(MapRef(doc), t, x);
  }

  /** patchSet into a container that stands in two places changes it in both. An element appended to a list
      shows only where the list was named: a slice has its own length. */
  method SetInTwin(doc: GoMap, ghost t: Tree, ghost x: seq<string>, ghost y: seq<string>, segs: seq<string>,
                   ghost rest: seq<string>, value: Slot, ghost wt: Tree, add: bool)
      returns (ok: bool, ghost b: Tree)
    requires Twin(doc, t, x, y) && segs == x + rest && rest != []
    requires Foreign(t, wt) && Solid(wt) && Holds(value, wt)
    modifies Footprint(t)
    ensures match Set(Get(JsonOf(t), x).value, rest, JsonOf(wt), add)
            case Success(v) =>
              var v0 := Get(JsonOf(t), x).value;
              ok && Is(doc, b, Both(JsonOf(t), x, y, v, if Element(v0, rest) then v0 else v))
            case Failure => !ok
  {
    OpensDeeper(t, x, rest);
    SetInside(JsonOf(t), x, rest, JsonOf(wt), add);
    if Element(JsonOf(Sub(t, x)), rest) && Set(JsonOf(Sub(t, x)), rest, JsonOf(wt), add).Success? {
      AppendAvoids(doc, t, x, rest, JsonOf(wt), add);
    }
    var root;
    ghost var t';
    ok, root, t' := PatchSet(MapRef(doc), t, segs, value, wt, add, {});
    b := t;
    if ok {
      b := AddedShows(doc, t, x, y, rest, wt, t', Set(Get(JsonOf(t), x).value, rest, JsonOf(wt), add).value);
    }
  }

  /** What another slot of the same container holds after a removal: of a list, as many elements as before. The
      later ones have moved down, and the last one is there twice. */
  function SeenRemoved(v: Json, rest: seq<string>): Json
    requires Delete(v, rest).Success?
  {
    if Element(v, rest) then Arr(Shifted(v.elems, IndexAt(rest[0], |v.elems|).value)) else Delete(v, rest).value.0
  }

  /** The array of a list has its last element where it was. */
  ghost predicate EndsSame(t: Tree)
    requires Nested(t)
    reads Footprint(t)
  {
    t.SliceAt? && 0 < |t.items| <= t.a.Length && t.a[|t.items| - 1] == Head(t.items[|t.items| - 1])
  }

  lemma SeenAfterTake(was: Tree, rest: seq<string>, now: Tree, removed: Slot, rt: Tree) returns (seen: Tree)
    requires Nested(was) && Solid(was) && Nested(now) && Solid(now) && Holds(Head(now), now)
    requires Taken(was, rest, now, rt) && Nested(rt) && Holds(removed, rt) && Delete(JsonOf(was), rest).Success?
    requires Element(JsonOf(was), rest) ==> EndsSame(was)
    requires JsonOf(now) == Delete(JsonOf(was), rest).value.0
    ensures Nested(seen) && Solid(seen) && Holds(Head(was), seen) && JsonOf(seen) == SeenRemoved(JsonOf(was), rest)
  {
    seen := now;
    if Element(JsonOf(was), rest) {
      var i := IndexAt(rest[0], |was.items|).value;
      StaleIsSolid(was, i);
      StaleIsJson(was, i);
      StaleHolds(was, i, now, removed);
      seen := Stale(was, i);
    }
  }

  /** Once something has been removed below `x`, that shows at `y`. */
  lemma RemovedShows(doc: GoMap, t: Tree, x: seq<string>, y: seq<string>, rest: seq<string>, t': Tree, removed: Slot,
                     rt: Tree, v: Json)
      returns (b: Tree)
    requires t.MapAt? && t.m == doc && Unshared(t) && Get(JsonOf(t), x).Success? && Get(JsonOf(t), y).Success?
    requires Opens(t, x) && Opens(t, y) && Apart(JsonOf(t), x, y) && Sub(t, y) == LinkAt(Sub(t, x)) && SolidBut(t, y)
    requires Unshared(t') && Holds(MapRef(doc), t') && rest != [] && Taken(t, x + rest, t', rt)
    requires Nested(rt) && Holds(removed, rt) && Solid(Sub(t, x)) && JsonOf(t') == Replaced(JsonOf(t), x, v)
    requires Delete(JsonOf(Sub(t, x)), rest).Success? && Delete(JsonOf(Sub(t, x)), rest).value.0 == v
    requires Element(JsonOf(Sub(t, x)), rest) ==> EndsSame(Sub(t, x))
    ensures Is(doc, b, Both(JsonOf(t), x, y, v, SeenRemoved(JsonOf(Sub(t, x)), rest)))
  {
    TakenInside(t, x, rest, t', rt, {});
    TakenIsSolid(Sub(t, x), rest, Sub(t', x), rt);
    SubHolds(MapRef(doc), t', x);
    ReplacedReads(JsonOf(t), x, v);
    var seen := SeenAfterTake(Sub(t, x), rest, Sub(t', x), removed, rt);
    b := TwinFollows(doc, t, x, y, t', seen, v);
  }

  lemma HeldEnds(l: Tree)
    requires l.SliceAt? && l.items != [] && Nested(l) && Holds(Head(l), l)
    ensures EndsSame(l)
  {
    assert Holds(l.a[|l.items| - 1], l.items[|l.items| - 1]);
  }

  lemma EndIsLast(l: Tree, rest: seq<string>)
    requires l.SliceAt? && l.items != [] && Nested(l) && |rest| == 1
    ensures EndsSame(l) <==> LastSlot(l, rest) == Some(Head(l.items[|l.items| - 1]))
  {}

  /** The list at `x` in a layout, and the slot that patchRemove does not change. */
  lemma EndInside(t: Tree, x: seq<string>, rest: seq<string>)
    requires Nested(t) && Get(JsonOf(t), x).Success? && Opens(t, x)
    requires Element(JsonOf(Sub(t, x)), rest) && Delete(JsonOf(Sub(t, x)), rest).Success? && Solid(Sub(t, x))
    ensures Sub(t, x).SliceAt? && Sub(t, x).items != []
    ensures EndsSame(Sub(t, x)) <==> LastSlot(t, x + rest) == Some(Head(Sub(t, x).items[|Sub(t, x).items| - 1]))
  {
    LastSlotInside(t, x, rest);
    EndIsLast(Sub(t, x), rest);
  }

  lemma EndBefore(doc: GoMap, t: Tree, x: seq<string>, rest: seq<string>)
    requires Nested(t) && Holds(MapRef(doc), t) && Get(JsonOf(t), x).Success? && Opens(t, x) && Solid(Sub(t, x))
    requires Element(JsonOf(Sub(t, x)), rest) && Delete(JsonOf(Sub(t, x)), rest).Success?
    ensures EndsSame(Sub(t, x)) && LastSlot(t, x + rest) == Some(Head(Sub(t, x).items[|Sub(t, x).items| - 1]))
  {
    SubHolds(MapRef(doc), t, x);
    EndInside(t, x, rest);
    HeldEnds(Sub(t, x));
  }

  /** patchRemove changes it in both places too. */
  method RemoveInTwin(doc: GoMap, ghost t: Tree, ghost x: seq<string>, ghost y: seq<string>, segs: seq<string>,
                      ghost rest: seq<string>)
      returns (ok: bool, ghost b: Tree)
    requires Twin(doc, t, x, y) && segs == x + rest && rest != []
    modifies Footprint(t)
    ensures match Delete(Get(JsonOf(t), x).value, rest)
            case Success(r) => ok && Is(doc, b, Both(JsonOf(t), x, y, r.0, SeenRemoved(Get(JsonOf(t), x).value, rest)))
            case Failure => !ok
  {
    OpensDeeper(t, x, rest);
    DeleteInside(JsonOf(t), x, rest);
    ghost var takes := Element(JsonOf(Sub(t, x)), rest) && Delete(JsonOf(Sub(t, x)), rest).Success?;
    if takes { EndBefore(doc, t, x, rest); }
    var root, removed;
    ghost var t', rt;
    ok, root, removed, t', rt := PatchRemove(MapRef(doc), t, segs);
    b := t;
    if ok {
      if takes { EndInside(t, x, rest); }
      b := RemovedShows(doc, t, x, y, rest, t', removed, rt, Delete(Get(JsonOf(t), x).value, rest).value.0);
    }
  }


  // ---- Copying, then writing into the copy or into what was copied ----

  /** Operation `from` to `path` copies a container to a place apart from its own, where it is read by `q`. */
  predicate CopiesApart(doc: Members, from: string, path: string, f: seq<string>, q: seq<string>, d1: Members) {
    && JsonPointer.ParsePath(from) == Success(f) && Get(Obj(doc), f).Success? && IsContainer(Get(Obj(doc), f).value)
    && JsonPointer.ParsePath(path).Success? && LandsAt(Obj(doc), JsonPointer.ParsePath(path).value, q)
    && Apart(Obj(doc), JsonPointer.ParsePath(path).value, f)
    && Step(doc, Copy(from, path)) == Done(d1) && Get(Obj(d1), q).Success?
  }

  lemma CopiedReads(doc: Members, from: string, path: string, f: seq<string>, q: seq<string>, d1: Members)
    requires CopiesApart(doc, from, path, f, q, d1)
    ensures Get(Obj(d1), f) == Get(Obj(d1), q) == Get(Obj(doc), f) && Apart(Obj(d1), q, f) && Apart(Obj(d1), f, q)
  {
    var v, to := Get(Obj(doc), f).value, JsonPointer.ParsePath(path).value;
    SetLeaves(Obj(doc), to, v, true, f);
    if q == to {
      SetReads(Obj(doc), q, v, true);
    } else {
      var p, s := AppendedPath(Obj(doc), to, q);
      AppendReads(Obj(doc), p, s, v, f);
    }
    ApartIsSymmetric(Obj(d1), q, f);
  }

  /** After such a copy the container at `f` stands at `q` as well. */
  lemma CopyMakesTwin(doc: GoMap, t: Tree, f: seq<string>, to: seq<string>, q: seq<string>, t': Tree,
                      others: set<object>)
    requires Solid(t) && Nested(t) && t.MapAt? && t.m == doc && Get(JsonOf(t), f).Success? && Apart(JsonOf(t), to, f)
    requires Put(t, to, LinkAt(Sub(t, f)), t', others) && Unshared(t') && Holds(MapRef(doc), t')
    requires Get(JsonOf(t'), q).Success?
    requires LandsAt(JsonOf(t), to, q) && Apart(JsonOf(t'), f, q)
    ensures Twin(doc, t', f, q) && Sub(t', f) == Sub(t, f)
  {
    SolidOpens(t, f);
    PutLandsAt(t, to, q, LinkAt(Sub(t, f)), t', others);
    PutLeaves(t, to, LinkAt(Sub(t, f)), t', others, f);
  }

  /** Which of the two is the link is a matter of description. */
  lemma TwinSwaps(doc: GoMap, t: Tree, f: seq<string>, q: seq<string>) returns (t': Tree)
    requires Twin(doc, t, f, q)
    ensures Twin(doc, t', q, f) && JsonOf(t') == JsonOf(t) && Footprint(t') <= Footprint(t) && Sub(t', q) == Sub(t, f)
  {
    var of := Sub(t, f);
    SubIsPart(t, f);
    SubHolds(MapRef(doc), t, f);
    ApartIsSymmetric(JsonOf(t), f, q);
    var u := Grafted(t, f, LinkAt(of), Footprint(of));
    GraftedUnshared(t, f, LinkAt(of), Footprint(of));
    GraftedHolds(MapRef(doc), t, f, LinkAt(of), Footprint(of));
    GraftedPuts(t, f, LinkAt(of), Footprint(of), {});
    GraftedIsReplaced(t, f, LinkAt(of), Footprint(of));
    ReplacedSame(JsonOf(t), f);
    PutLands(t, f, LinkAt(of), u, {});
    PutLeaves(t, f, LinkAt(of), u, {}, q);
    t' := Grafted(u, q, of, {});
    GraftedUnshared(u, q, of, {});
    GraftedHolds(MapRef(doc), u, q, of, {});
    GraftedPuts(u, q, of, {}, {});
    GraftedIsReplaced(u, q, of, {});
    ReplacedSame(JsonOf(u), q);
    PutLands(u, q, of, t', {});
    PutLeaves(u, q, of, t', {}, f);
    LinkMoves(t, f, LinkAt(of), u, q, of, t', {});
  }

  method CopyToTwin(doc: GoMap, ghost t: Tree, from: string, path: string, ghost f: seq<string>, ghost q: seq<string>,
                    ghost d1: Members)
      returns (ghost t': Tree)
    requires t.MapAt? && Unshared(t) && Is(doc, t, JsonOf(t)) && CopiesApart(JsonOf(t).members, from, path, f, q, d1)
    modifies Footprint(t)
    ensures Twin(doc, t', f, q) && Sub(t', f) == Sub(t, f) && JsonOf(t') == Obj(d1) && Grown(t, {}, t')
  {
    ghost var l := Layout(t, {}, {});
    SolidIsLinked(t, {});
    CoversSolid(t, {}, [], {});
    KeepsNothing(JsonOf(t), Op.Copy(from, path));
    FilledOfSolid(Sub(t, f));
    var end;
    ghost var l';
    end, l' := PatchRun.Copy(doc, l, from, path);
    t' := l'.t;
    ghost var to := JsonPointer.ParsePath(path).value;
    assert PutTwice(l, f, to, t');
    CopiedReads(JsonOf(t).members, from, path, f, q, d1);
    CopyMakesTwin(doc, t, f, to, q, t', l.shared + Footprint(Source(l, f)));
  }

  /** What an operation at `rest` below a container makes of the container. */
  function Changed(v: Json, rest: seq<string>, op: Op): Result<Json> {
    match op
    case Add(_, w) => Set(v, rest, w, true)
    case Replace(_, w) => Set(v, rest, w, false)
    case Remove(_) =>
      (match Delete(v, rest) case Success(r) => Success(r.0) case Failure => Failure)
    case _ => Failure
  }

  /** What the other place holds then: the same, except that a slice keeps its length. An element appended
      does not show there, and after a removal the last element stands there twice. */
  function Seen(v: Json, rest: seq<string>, op: Op): Json
    requires Changed(v, rest, op).Success?
  {
    if !Element(v, rest) then Changed(v, rest, op).value
    else if op.Remove? then Arr(Shifted(v.elems, IndexAt(rest[0], |v.elems|).value))
    else v
  }

  /** The other place holds what it held: the operation changes nothing, or it appends, or every element from
      the one removed on is the same. */
  predicate Unseen(v: Json, rest: seq<string>, op: Op)
    requires Changed(v, rest, op).Success?
  {
    if !Element(v, rest) then Changed(v, rest, op).value == v
    else
      op.Remove? ==>
        var elems := v.elems;
        forall j | IndexAt(rest[0], |elems|).value <= j < |elems| :: elems[j] == elems[|elems| - 1]
  }

  lemma UnseenIsSame(v: Json, rest: seq<string>, op: Op)
    requires Changed(v, rest, op).Success?
    ensures Unseen(v, rest, op) <==> Seen(v, rest, op) == v
  {
    if Element(v, rest) && op.Remove? { ShiftedSame(v.elems, IndexAt(rest[0], |v.elems|).value); }
  }

  /** An addition, replacement or removal at `rest` below `x`. */
  predicate ChangesBelow(op: Op, x: seq<string>, rest: seq<string>) {
    (op.Add? || op.Replace? || op.Remove?) && JsonPointer.ParsePath(op.path) == Success(x + rest) && rest != []
  }

  method ChangeInTwin(doc: GoMap, ghost t: Tree, ghost x: seq<string>, ghost y: seq<string>, op: Op,
                      ghost rest: seq<string>, value: Slot, ghost wt: Tree)
      returns (ok: bool, ghost b: Tree)
    requires Twin(doc, t, x, y) && ChangesBelow(op, x, rest)
    requires Foreign(t, wt) && Solid(wt) && Holds(value, wt) && (HasValue(op) ==> op.value == JsonOf(wt))
    modifies Footprint(t)
    ensures match Changed(JsonOf(Sub(t, x)), rest, op)
            case Success(v) => ok && Is(doc, b, Both(JsonOf(t), x, y, v, Seen(JsonOf(Sub(t, x)), rest, op)))
            case Failure => !ok
  {
    var segs := JsonPointer.Parse(op.path);
    if op.Remove? {
      ok, b := RemoveInTwin(doc, t, x, y, segs.value, rest);
    } else {
      ok, b := SetInTwin(doc, t, x, y, segs.value, rest, value, wt, op.Add?);
    }

  }

  /** A copy of a container from `f` to `q`, and then an operation below one of the two: what it makes of
      the container shows there, what `Seen` says at the other, and everything else stays. */
  method CopyThenChange(doc: GoMap, ghost t: Tree, from: string, path: string, op: Op, value: Slot, ghost wt: Tree,
                        ghost f: seq<string>, ghost q: seq<string>, ghost ontoCopy: bool, ghost rest: seq<string>,
                        ghost d1: Members)
      returns (ok: bool, ghost b: Tree)
    requires t.MapAt? && Unshared(t) && Is(doc, t, JsonOf(t)) && CopiesApart(JsonOf(t).members, from, path, f, q, d1)
    requires ChangesBelow(op, if ontoCopy then q else f, rest)
    requires Unshared(wt) && Solid(wt) && Footprint(wt) !! Footprint(t) && Holds(value, wt)
    requires HasValue(op) ==> op.value == JsonOf(wt)
    modifies Footprint(t)
    ensures Get(Obj(d1), f).Success? && Get(Obj(d1), f) == Get(Obj(d1), q) == Get(JsonOf(t), f)
    ensures match Changed(Get(JsonOf(t), f).value, rest, op)
            case Success(v) =>
              var w := Seen(Get(JsonOf(t), f).value, rest, op);
              ok && Is(doc, b, if ontoCopy then Both(Obj(d1), q, f, v, w) else Both(Obj(d1), f, q, v, w))
            case Failure => !ok
  {
    ghost var t1 := CopyToTwin(doc, t, from, path, f, q, d1);
    CopiedReads(JsonOf(t).members, from, path, f, q, d1);
    assert Footprint(wt) !! Footprint(t1);
    ghost var x, y := f, q;
    if ontoCopy {
      t1 := TwinSwaps(doc, t1, f, q);
      x, y := q, f;
    }
    ok, b := ChangeInTwin(doc, t1, x, y, op, rest, value, wt);
  }

  /** By RFC 6902 the operation changes the one place it names. The server's document is that one if and only
      if the other place holds what it held. */
  lemma SharedWriteShows(doc: Members, from: string, path: string, op: Op, f: seq<string>, q: seq<string>,
                         ontoCopy: bool, rest: seq<string>, d1: Members)
    requires CopiesApart(doc, from, path, f, q, d1) && Sound(Copy(from, path)) && Sound(op)
    requires ChangesBelow(op, if ontoCopy then q else f, rest)
    requires Changed(Get(Obj(doc), f).value, rest, op).Success?
    ensures Get(Obj(d1), f).Success? && Get(Obj(d1), q).Success?
    ensures var v, w := Changed(Get(Obj(doc), f).value, rest, op).value, Seen(Get(Obj(doc), f).value, rest, op);
            var x, y := if ontoCopy then q else f, if ontoCopy then f else q;
            && EvaluatedAll(Obj(doc), [Copy(from, path), op]) == Success(Replaced(Obj(d1), x, v))
            && (Both(Obj(d1), x, y, v, w) == Replaced(Obj(d1), x, v) <==> Unseen(Get(Obj(doc), f).value, rest, op))
  {
    var v, w := Changed(Get(Obj(doc), f).value, rest, op).value, Seen(Get(Obj(doc), f).value, rest, op);
    var x, y := if ontoCopy then q else f, if ontoCopy then f else q;
    CopiedReads(doc, from, path, f, q, d1);
    UnseenIsSame(Get(Obj(doc), f).value, rest, op);
    var e := Replaced(Obj(d1), x, v);
    StepBelow(d1, x, rest, op);
    SoundAgrees(doc, Copy(from, path));
    SoundAgrees(d1, op);
    TwoSteps(Obj(doc), Copy(from, path), op, Obj(d1), e);
    ReplacedLeaves(Obj(d1), x, v, y);
    ReplacedReads(e, y, w);
    if w == Get(Obj(doc), f).value { ReplacedSame(e, y); }
  }

  lemma StepBelow(d: Members, x: seq<string>, rest: seq<string>, op: Op)
    requires Get(Obj(d), x).Success? && ChangesBelow(op, x, rest) && x != []
    requires Changed(Get(Obj(d), x).value, rest, op).Success?
    ensures Step(d, op) == Done(Replaced(Obj(d), x, Changed(Get(Obj(d), x).value, rest, op).value).members)
  {
    if op.Remove? {
      DeleteInside(Obj(d), x, rest);
    } else if op.Add? {
      SetInside(Obj(d), x, rest, op.value, true);
    } else if op.Replace? {
      SetInside(Obj(d), x, rest, op.value, false);
    }
  }

  lemma TwoSteps(doc: Json, first: Op, second: Op, mid: Json, last: Json)
    requires Evaluated(doc, first) == Success(mid) && Evaluated(mid, second) == Success(last)
    ensures EvaluatedAll(doc, [first, second]) == Success(last)
  {
    assert [first, second][1..] == [second] && [second][1..] == [];
    assert EvaluatedAll(mid, [second]) == EvaluatedAll(last, []);
  }
}
