/** applyJSONPatch on a document as Go holds it. */
module PatchRun {
  import opened Wrappers
  import opened Json
  import opened GoValues
  import opened JsonPatch
  import opened PatchLayouts
  import JsonPointer
  import PatchCycles
  import opened PatchInPlace

  /** How a document is laid out: the objects that copies have made part of it in two ways, and the
      places where those stand. */
  datatype Layout = Layout(t: Tree, shared: set<object>, places: set<seq<Hop>>)

  ghost predicate Document(doc: GoMap, l: Layout)
    reads Footprint(l.t), l.shared
  {
    && l.t.MapAt? && l.t.m == doc && Unshared(l.t) && Holds(MapRef(doc), l.t)
    && Linked(l.t, l.shared) && Covers(l.places, [], l.t, l.shared)
  }

  /** The document is a JSON value, laid out by `t`. */
  ghost predicate Is(doc: GoMap, t: Tree, v: Json)
    reads Footprint(t)
  {
    Nested(t) && Solid(t) && Holds(MapRef(doc), t) && JsonOf(t) == v
  }

  /** A document with copied containers is a JSON value all the same. */
  lemma DocumentIsJson(doc: GoMap, l: Layout)
    requires Document(doc, l)
    ensures Is(doc, Filled(l.t, l.shared), JsonOf(l.t))
  {
    FilledIsSolid(l.t, l.shared);
    FilledHolds(MapRef(doc), l.t, l.shared);
  }

  // ---- patchGet ----

  method PatchGet(doc: Slot, ghost t: Tree, segs: seq<string>, ghost shared: set<object>) returns (r: Option<Slot>)
    requires Nested(t) && Holds(doc, t) && Linked(t, shared)
    ensures match Get(JsonOf(t), segs)
            case Success(_) => r.Some? && Holds(r.value, Sub(t, segs))
            case Failure => r.None?
  {
    var cur := doc;
    ghost var sub := t;
    for n := 0 to |segs|
      invariant Nested(sub) && Holds(cur, sub) && Linked(sub, shared)
      invariant Get(JsonOf(sub), segs[n..]) == Get(JsonOf(t), segs)
      invariant Get(JsonOf(t), segs).Success? ==> Sub(sub, segs[n..]) == Sub(t, segs)
    {
      var seg := segs[n];
      assert segs[n..][1..] == segs[n + 1..];
      if sub.LinkAt? {
        SolidIsLinked(sub.of, shared);
        sub := sub.of;
      }
      match cur {
        case MapRef(m) =>
          if seg !in m.members {
            return None;
          }
          cur, sub := m.members[seg], sub.kids[seg];
        case SliceRef(a, len) =>
          var i := IndexAt(seg, len);
          if i.None? {
            return None;
          }
          cur, sub := a[i.value], sub.items[i.value];
        case Scalar(_) =>
          return None;
      }
    }
    r := Some(cur);
  }

  // ---- One operation ----

  datatype Ending = NoError | Error

  ghost predicate Ended(end: Ending, doc: GoMap, l: Layout, run: Run)
    reads Footprint(l.t), l.shared
  {
    match run
    case Done(d) => end == NoError && Document(doc, l) && JsonOf(l.t) == Obj(d)
    case Failed(d) => end == Error && Document(doc, l) && JsonOf(l.t) == Obj(d)
    case _ => end == NoError
  }

  /** `vt` can be written at the path: no shared object on the way, and what `vt` shares stands at a place. */
  ghost predicate Fit(l: Layout, segs: seq<string>, vt: Tree)
    requires Nested(l.t)
  {
    && Opens(l.t, segs) && PathNodes(l.t, segs) !! l.shared
    && Foreign(l.t, vt) && Covers(l.places, Hops(JsonOf(l.t), segs), vt, l.shared)
  }

  /** A write whose value shares objects at places only leaves a document. */
  lemma WrittenIsDocument(doc: GoMap, l: Layout, to: seq<string>, vt: Tree, l': Layout)
    requires l.t.MapAt? && l.t.m == doc && Nested(l.t) && Linked(l.t, l.shared) && l.shared <= l'.shared && to != []
    requires Covers(l'.places, [], l.t, l'.shared) && Covers(l'.places, Hops(JsonOf(l.t), to), vt, l'.shared)
    requires Nested(vt) && Linked(vt, l'.shared) && Put(l.t, to, vt, l'.t, l'.shared)
    requires Unshared(l'.t) && Holds(MapRef(doc), l'.t)
    ensures Document(doc, l')
  {
    LinkedMore(l.t, l.shared, l'.shared);
    PutLinked(l.t, to, vt, l'.t, l'.shared, l'.shared);
    assert [] + Hops(JsonOf(l.t), to) == Hops(JsonOf(l.t), to);
    CoversPut(l.t, to, vt, l'.t, l'.places, [], l'.shared);
  }

  method SetAt(doc: GoMap, ghost l: Layout, segs: seq<string>, value: Slot, ghost vt: Tree, add: bool)
      returns (ok: bool, ghost l': Layout)
    requires Document(doc, l) && Fit(l, segs, vt) && Holds(value, vt) && Linked(vt, l.shared)
    modifies Footprint(l.t)
    ensures match Set(JsonOf(l.t), segs, JsonOf(vt), add)
            case Success(v) => ok && Document(doc, l') && JsonOf(l'.t) == v
            case Failure => !ok && l' == l && Document(doc, l)
    ensures l'.shared == l.shared && l'.places == l.places && Grown(l.t, Footprint(vt), l'.t)
  {
    l' := l;
    var root;
    ghost var t';
    ok, root, t' := PatchSet(MapRef(doc), l.t, segs, value, vt, add, l.shared);
    if ok {
      l' := l.(t := t');
      WrittenIsDocument(doc, l, segs, vt, l');
    }
  }

  ghost predicate FitPath(l: Layout, path: string, vt: Tree)
    requires Nested(l.t)
  {
    match JsonPointer.ParsePath(path) case Success(segs) => Fit(l, segs, vt) case Failure => true
  }

  /** add and replace. */
  method Write(doc: GoMap, ghost l: Layout, path: string, value: Slot, ghost vt: Tree, add: bool)
      returns (end: Ending, ghost l': Layout)
    requires Document(doc, l) && Foreign(l.t, vt) && FitPath(l, path, vt) && Holds(value, vt) && Linked(vt, l.shared)
    modifies Footprint(l.t)
    ensures Ended(end, doc, l', JsonPatch.Write(JsonOf(l.t).members, path, JsonOf(vt), add))
    ensures l'.shared == l.shared && l'.places == l.places && Grown(l.t, Footprint(vt), l'.t)
  {
    end, l' := Error, l;
    var segs := JsonPointer.Parse(path);
    if segs.Failure? {
      return;
    }
    var ok;
    ok, l' := SetAt(doc, l, segs.value, value, vt, add);
    end := if ok then NoError else Error;
  }

  /** A removal leaves a document, in which the places behind a removed element have moved up. */
  lemma TakenIsDocument(doc: GoMap, l: Layout, segs: seq<string>, l': Layout, rt: Tree)
    requires l.t.MapAt? && l.t.m == doc && Nested(l.t) && Linked(l.t, l.shared) && Covers(l.places, [], l.t, l.shared)
    requires Clear(JsonOf(l.t), segs, l.places, []) && Taken(l.t, segs, l'.t, rt) && Nested(rt)
    requires Unshared(l'.t) && Holds(MapRef(doc), l'.t)
    requires l'.shared == l.shared && l'.places == PlacesWithout(l.places, Hops(JsonOf(l.t), segs))
    ensures Document(doc, l') && Linked(rt, l.shared) && Covers(l.places, Hops(JsonOf(l.t), segs), rt, l.shared)
  {
    TakenLinked(l.t, segs, l'.t, rt, l.shared);
    assert [] + Hops(JsonOf(l.t), segs) == Hops(JsonOf(l.t), segs);
    CoversTaken(l.t, segs, l'.t, rt, l.places, [], l.shared);
  }

  method TakeAt(doc: GoMap, ghost l: Layout, segs: seq<string>)
      returns (ok: bool, removed: Slot, ghost l': Layout, ghost rt: Tree)
    requires Document(doc, l) && Clear(JsonOf(l.t), segs, l.places, [])
    modifies Footprint(l.t)
    ensures match Delete(JsonOf(l.t), segs)
            case Success(v) =>
              && ok && Document(doc, l') && JsonOf(l'.t) == v.0 && Parted(l.t, l'.t, rt)
              && Unshared(rt) && Holds(removed, rt) && JsonOf(rt) == v.1 && Linked(rt, l.shared)
              && Covers(l.places, Hops(JsonOf(l.t), segs), rt, l.shared)
              && l'.shared == l.shared && l'.places == PlacesWithout(l.places, Hops(JsonOf(l.t), segs))
            case Failure => !ok && l' == l && Document(doc, l)
  {
    l' := l;
    var root;
    ghost var t';
    ClearAvoids(l.t, segs, l.places, [], l.shared);
    ok, root, removed, t', rt := PatchRemove(MapRef(doc), l.t, segs);
    if ok {
      l' := Layout(t', l.shared, PlacesWithout(l.places, Hops(JsonOf(l.t), segs)));
      TakenIsDocument(doc, l, segs, l', rt);
    }
  }

  method Remove(doc: GoMap, ghost l: Layout, path: string) returns (end: Ending, ghost l': Layout)
    requires Document(doc, l) && KeepsPath(JsonOf(l.t), l.places, path)
    modifies Footprint(l.t)
    ensures Ended(end, doc, l', Step(JsonOf(l.t).members, Op.Remove(path)))
    ensures end == NoError ==> l'.places == Places(JsonOf(l.t), l.places, Op.Remove(path))
    ensures l'.shared == l.shared && Footprint(l'.t) <= Footprint(l.t)
  {
    end, l' := Error, l;
    var segs := JsonPointer.Parse(path);
    if segs.Failure? {
      return;
    }
    var ok, removed;
    ghost var rt;
    ok, removed, l', rt := TakeAt(doc, l, segs.value);
    end := if ok then NoError else Error;
  }

  method Test(doc: GoMap, ghost l: Layout, path: string, value: Slot, ghost vt: Tree) returns (end: Ending)
    requires Document(doc, l) && Nested(vt) && Solid(vt) && Holds(value, vt)
    ensures Ended(end, doc, l, Step(JsonOf(l.t).members, Op.Test(path, JsonOf(vt))))
  {
    var segs := JsonPointer.Parse(path);
    if segs.Failure? {
      return Error;
    }
    var same := TestAt(MapRef(doc), l.t, segs.value, value, vt, l.shared);
    end := if same then NoError else Error;
  }

  method TestAt(doc: Slot, ghost t: Tree, segs: seq<string>, value: Slot, ghost vt: Tree, ghost shared: set<object>)
      returns (same: bool)
    requires Nested(t) && Holds(doc, t) && Linked(t, shared) && Nested(vt) && Solid(vt) && Holds(value, vt)
    ensures same <==> Get(JsonOf(t), segs) == Success(JsonOf(vt))
  {
    var cur := PatchGet(doc, t, segs, shared);
    if cur.None? {
      return false;
    }
    ghost var sub := Sub(t, segs);
    SubIsShared(t, segs, shared);
    FilledIsSolid(sub, shared);
    FilledHolds(cur.value, sub, shared);
    same := DeepEqual(cur.value, Filled(sub, shared), value, vt);
  }

  /** What was removed fits anywhere, once the place it is moved to counts if it has brought one. */
  lemma MovedFits(l: Layout, gone: seq<Hop>, rt: Tree, places: set<seq<Hop>>, shared: set<object>, to: seq<Hop>)
    requires Nested(rt) && Covers(places, gone, rt, shared) && l.shared == shared
    requires l.places == PlacesWithout(places, gone) + if exists p | p in places :: gone <= p then {to} else {}
    ensures Covers(l.places, to, rt, shared)
  {
    if !exists p | p in places :: gone <= p {
      assert Moved(places, gone, l.places, to) by {
        forall r: seq<Hop> ensures gone + r !in places { assert gone <= gone + r; }
      }
      CoversMoved(places, gone, rt, shared, l.places, to, shared);
    }
  }

  lemma MorePlaces(doc: GoMap, l: Layout, places: set<seq<Hop>>)
    requires Document(doc, l) && l.places <= places
    ensures Document(doc, l.(places := places))
  {
    CoversMoved(l.places, [], l.t, l.shared, places, [], l.shared);
  }

  /** What a move of what is at `f` to `to` comes to. */
  function MoveStep(d: Members, f: seq<string>, to: seq<string>): Run {
    match Delete(Obj(d), f)
    case Failure => Failed(d)
    case Success(r) =>
      match Set(r.0, to, r.1, true)
      case Failure => Failed(r.0.members)
      case Success(v) => Done(v.members)
  }

  /** The removed value is put back elsewhere; when that fails the removal stands. */
  method MoveFound(doc: GoMap, ghost l: Layout, f: seq<string>, to: seq<string>) returns (end: Ending, ghost l': Layout)
    requires Document(doc, l) && Clear(JsonOf(l.t), f, l.places, [])
    requires match Delete(JsonOf(l.t), f)
             case Success(r) => Clear(r.0, to, PlacesWithout(l.places, Hops(JsonOf(l.t), f)), [])
             case Failure => true
    modifies Footprint(l.t)
    ensures Ended(end, doc, l', MoveStep(JsonOf(l.t).members, f, to))
    ensures end == NoError ==> l'.places == PlacesMoved(JsonOf(l.t), l.places, f, to)
    ensures l'.shared == l.shared && Grown(l.t, {}, l'.t)
  {
    var ok, removed;
    ghost var l1, rt;
    ok, removed, l1, rt := TakeAt(doc, l, f);
    end, l' := Error, l1;
    if ok {
      ClearAvoids(l1.t, to, l1.places, [], l1.shared);
      ghost var l2 := l1.(places := PlacesMoved(JsonOf(l.t), l.places, f, to));
      MorePlaces(doc, l1, l2.places);
      MovedFits(l2, Hops(JsonOf(l.t), f), rt, l.places, l.shared, Hops(JsonOf(l1.t), to));
      ok, l' := SetAt(doc, l2, to, removed, rt, true);
      end := if ok then NoError else Error;
    }
  }

  method Move(doc: GoMap, ghost l: Layout, from: string, path: string) returns (end: Ending, ghost l': Layout)
    requires Document(doc, l) && Keeps(JsonOf(l.t), l.places, Op.Move(from, path))
    modifies Footprint(l.t)
    ensures Ended(end, doc, l', Step(JsonOf(l.t).members, Op.Move(from, path)))
    ensures end == NoError ==> l'.places == Places(JsonOf(l.t), l.places, Op.Move(from, path))
    ensures l'.shared == l.shared && Grown(l.t, {}, l'.t)
  {
    end, l' := Error, l;
    var fromSegs := JsonPointer.Parse(from);
    if fromSegs.Failure? {
      return;
    }
    var toSegs := JsonPointer.Parse(path);
    if toSegs.Failure? {
      return;
    }
    assert Step(JsonOf(l.t).members, Op.Move(from, path)) ==
           MoveStep(JsonOf(l.t).members, fromSegs.value, toSegs.value);
    end, l' := MoveFound(doc, l, fromSegs.value, toSegs.value);
  }

  // What is copied is laid out where it was; the second place is a link to it, unless it is a scalar.

  ghost function Source(l: Layout, f: seq<string>): (of: Tree)
    requires Nested(l.t) && Get(JsonOf(l.t), f).Success?
    ensures Head(of) == Head(Sub(l.t, f))
  {
    Filled(Sub(l.t, f), l.shared)
  }

  ghost function Second(l: Layout, f: seq<string>): Tree
    requires Nested(l.t) && Get(JsonOf(l.t), f).Success?
  {
    if Sub(l.t, f).ScalarAt? then Sub(l.t, f) else LinkAt(Source(l, f))
  }

  lemma SourceIsSolid(l: Layout, f: seq<string>)
    requires Nested(l.t) && Get(JsonOf(l.t), f).Success? && Linked(l.t, l.shared)
    ensures var of, sub := Source(l, f), Sub(l.t, f);
            && Nested(of) && Solid(of) && JsonOf(of) == Get(JsonOf(l.t), f).value && Linked(sub, l.shared)
            && Footprint(of) <= Footprint(sub) + l.shared && (!Opens(l.t, f) ==> Footprint(of) <= l.shared)
            && (Opens(l.t, f) ==> Footprint(of) <= Footprint(l.t) + l.shared)
            && JsonOf(Second(l, f)) == JsonOf(of) && Unshared(Second(l, f)) && Footprint(Second(l, f)) == {}
    ensures forall s: Slot :: Holds(s, Sub(l.t, f)) ==> Holds(s, Source(l, f)) && Holds(s, Second(l, f))
  {
    var sub := Sub(l.t, f);
    SubIsShared(l.t, f, l.shared);
    FilledIsSolid(sub, l.shared);
    FilledNested(sub, l.shared);
    if Opens(l.t, f) { SubIsPart(l.t, f); }
    forall s: Slot | Holds(s, sub) ensures Holds(s, Source(l, f)) { FilledHolds(s, sub, l.shared); }
  }

  /** The layout after what is at `f` was put at `to` as well. */
  ghost function Copied(l: Layout, f: seq<string>, to: seq<string>, t': Tree): Layout
    requires Nested(l.t) && Get(JsonOf(l.t), f).Success?
  {
    if Sub(l.t, f).ScalarAt? then l.(t := t')
    else Layout(t', l.shared + Footprint(Source(l, f)), l.places + {Hops(JsonOf(l.t), f), Hops(JsonOf(l.t), to)})
  }

  lemma CopiedStandsAtPlaces(l: Layout, f: seq<string>, to: seq<string>)
    requires Unshared(l.t) && Linked(l.t, l.shared) && Covers(l.places, [], l.t, l.shared)
    requires Get(JsonOf(l.t), f).Success?
    ensures var l' := Copied(l, f, to, l.t); Covers(l'.places, [], l.t, l'.shared)
  {
    var l' := Copied(l, f, to, l.t);
    var sub := Sub(l.t, f);
    SourceIsSolid(l, f);
    if Opens(l.t, f) {
      assert [] + Hops(JsonOf(l.t), f) == Hops(JsonOf(l.t), f);
      CoversCopied(l.t, f, l.places, [], l.shared);
      if !sub.ScalarAt? {
        CoversMoved(l.places + {Hops(JsonOf(l.t), f)}, [], l.t, l.shared + Footprint(sub), l'.places, [], l'.shared);
      }
    } else {
      CoversMoved(l.places, [], l.t, l.shared, l'.places, [], l'.shared);
    }
  }

  lemma CopyIsDocument(doc: GoMap, l: Layout, f: seq<string>, to: seq<string>, t': Tree)
    requires l.t.MapAt? && l.t.m == doc && Unshared(l.t) && Linked(l.t, l.shared) && Covers(l.places, [], l.t, l.shared)
    requires Get(JsonOf(l.t), f).Success? && to != []
    requires Nested(Source(l, f)) && Holds(Head(Source(l, f)), Source(l, f))
    requires Put(l.t, to, Second(l, f), t', l.shared + Footprint(Source(l, f)))
    requires Unshared(t') && Holds(MapRef(doc), t')
    ensures Document(doc, Copied(l, f, to, t'))
  {
    SourceIsSolid(l, f);
    CopiedStandsAtPlaces(l, f, to);
    if Sub(l.t, f).ScalarAt? { assert l.shared + Footprint(Source(l, f)) == l.shared; }
    WrittenIsDocument(doc, l, to, Second(l, f), Copied(l, f, to, t'));
  }

  /** A write that avoids the shared objects, and what `of` is made of. */
  method PutBeside(doc: GoMap, ghost l: Layout, to: seq<string>, value: Slot, ghost vt: Tree, ghost of: Tree)
      returns (ok: bool, ghost t': Tree)
    requires Document(doc, l) && Opens(l.t, to) && PathNodes(l.t, to) !! l.shared
    requires Unshared(vt) && Footprint(vt) == {} && Holds(value, vt) && Nested(of) && Holds(Head(of), of)
    modifies Footprint(l.t)
    ensures match Set(JsonOf(l.t), to, JsonOf(vt), true)
            case Success(v) =>
              && ok && Unshared(t') && Holds(MapRef(doc), t') && JsonOf(t') == v && Grown(l.t, {}, t')
              && Put(l.t, to, vt, t', l.shared + Footprint(of)) && Linked(l.t, l.shared)
            case Failure => !ok && Document(doc, l)
    ensures PathNodes(l.t, to) !! Footprint(of) ==> Holds(Head(of), of)
  {
    var root;
    ok, root, t' := PatchSet(MapRef(doc), l.t, to, value, vt, true, l.shared + Footprint(of));
  }

  /** Writing what is at `f` a second time leaves it as it was, unless it is put inside itself. */
  lemma SecondAvoids(l: Layout, f: seq<string>, to: seq<string>)
    requires Unshared(l.t) && Linked(l.t, l.shared) && Get(JsonOf(l.t), f).Success?
    requires Opens(l.t, to) && PathNodes(l.t, to) !! l.shared && !Below(JsonOf(l.t), f, to)
    ensures PathNodes(l.t, to) !! Footprint(Source(l, f)) || (Appends(JsonOf(l.t), f, to) && HasRoom(Sub(l.t, f)))
  {
    SourceIsSolid(l, f);
    if Opens(l.t, f) { AvoidsUnlessBelow(l.t, f, to); }
  }

  /** The copy does not put a container inside itself. */
  ghost predicate Kept(l: Layout, f: seq<string>, to: seq<string>)
    requires Nested(l.t) && Get(JsonOf(l.t), f).Success?
  {
    Sub(l.t, f).ScalarAt? || !Below(JsonOf(l.t), f, to)
  }

  lemma CopiedFacts(l: Layout, f: seq<string>, to: seq<string>, t': Tree)
    requires Nested(l.t) && Get(JsonOf(l.t), f).Success? && Linked(l.t, l.shared)
    ensures Kept(l, f, to) <==> !(IsContainer(Get(JsonOf(l.t), f).value) && Below(JsonOf(l.t), f, to))
    ensures Copied(l, f, to, t').places == PlacesCopied(JsonOf(l.t), l.places, f, to)
    ensures Copied(l, f, to, t').shared <= l.shared + Footprint(l.t)
  {
    SourceIsSolid(l, f);
  }

  /** The writing half of a copy. */
  method CopyAt(doc: GoMap, ghost l: Layout, f: seq<string>, to: seq<string>, value: Slot)
      returns (ok: bool, ghost l': Layout)
    requires Document(doc, l) && Clear(JsonOf(l.t), to, l.places, [])
    requires Get(JsonOf(l.t), f).Success? && Holds(value, Sub(l.t, f))
    modifies Footprint(l.t)
    ensures ok <==> Set(JsonOf(l.t), to, Get(JsonOf(l.t), f).value, true).Success?
    ensures !ok ==> l' == l && Document(doc, l)
    ensures ok && Kept(l, f, to) ==>
              Document(doc, l') && Success(JsonOf(l'.t)) == Set(JsonOf(l.t), to, Get(JsonOf(l.t), f).value, true)
    ensures ok && !Kept(l, f, to) ==> forall b: Tree | Nested(b) && Solid(b) :: !Holds(MapRef(doc), b)
    ensures ok ==> l' == Copied(l, f, to, l'.t) && Put(l.t, to, Second(l, f), l'.t, l.shared + Footprint(Source(l, f)))
    ensures Grown(l.t, {}, l'.t)
  {
    l' := l;
    SourceIsSolid(l, f);
    ClearAvoids(l.t, to, l.places, [], l.shared);
    ghost var t';
    ok, t' := PutBeside(doc, l, to, value, Second(l, f), Source(l, f));
    if ok {
      l' := Copied(l, f, to, t');
      if Kept(l, f, to) {
        SourceStillHolds(doc, l, f, to, t');
        CopyIsDocument(doc, l, f, to, t');
      } else {
        forall b: Tree | Nested(b) && Solid(b) ensures !Holds(MapRef(doc), b) {
          PatchCycles.CyclicIsNoJson(MapRef(doc), l.t, f, to, Second(l, f), t', l.shared + Footprint(Source(l, f)), b);
        }
      }
    }
  }

  lemma SourceStillHolds(doc: GoMap, l: Layout, f: seq<string>, to: seq<string>, t': Tree)
    requires Unshared(l.t) && Linked(l.t, l.shared) && Get(JsonOf(l.t), f).Success? && Kept(l, f, to)
    requires Opens(l.t, to) && PathNodes(l.t, to) !! l.shared && Nested(Source(l, f))
    requires Put(l.t, to, Second(l, f), t', l.shared + Footprint(Source(l, f))) && Nested(t') && Holds(MapRef(doc), t')
    requires PathNodes(l.t, to) !! Footprint(Source(l, f)) ==> Holds(Head(Source(l, f)), Source(l, f))
    ensures Holds(Head(Source(l, f)), Source(l, f))
  {
    if !Sub(l.t, f).ScalarAt? {
      SecondAvoids(l, f, to);
      if Appends(JsonOf(l.t), f, to) && HasRoom(Sub(l.t, f)) {
        ExtendedStillHolds(MapRef(doc), l.t, f, to, Second(l, f), t', l.shared + Footprint(Source(l, f)));
        SourceIsSolid(l, f);
      }
    }
  }

  /** The same slot, and so the same container, stands at both paths. */
  ghost predicate PutTwice(l: Layout, f: seq<string>, to: seq<string>, t': Tree)
    requires Nested(l.t)
  {
    Get(JsonOf(l.t), f).Success? && Put(l.t, to, Second(l, f), t', l.shared + Footprint(Source(l, f)))
  }

  /** What a copy of what is at `f` to `to` comes to. */
  function CopyStep(d: Members, f: seq<string>, to: seq<string>): Run {
    match Get(Obj(d), f)
    case Failure => Failed(d)
    case Success(v) =>
      match Set(Obj(d), to, v, true)
      case Failure => Failed(d)
      case Success(r) => if IsContainer(v) && Below(Obj(d), f, to) then Cyclic else Done(r.members)
  }

  method CopyFound(doc: GoMap, ghost l: Layout, f: seq<string>, to: seq<string>) returns (end: Ending, ghost l': Layout)
    requires Document(doc, l) && Clear(JsonOf(l.t), to, l.places, [])
    modifies Footprint(l.t)
    ensures Ended(end, doc, l', CopyStep(JsonOf(l.t).members, f, to))
    ensures end == NoError ==> l'.places == PlacesCopied(JsonOf(l.t), l.places, f, to) && PutTwice(l, f, to, l'.t)
    ensures CopyStep(JsonOf(l.t).members, f, to).Cyclic? ==>
              forall b: Tree | Nested(b) && Solid(b) :: !Holds(MapRef(doc), b)
    ensures l'.shared <= l.shared + Footprint(l.t) && Grown(l.t, {}, l'.t)
  {
    end, l' := Error, l;
    var value := PatchGet(MapRef(doc), l.t, f, l.shared);
    if value.None? {
      return;
    }
    CopiedFacts(l, f, to, l.t);
    var ok;
    ok, l' := CopyAt(doc, l, f, to, value.value);
    end := if ok then NoError else Error;
  }

  /** The value found is put in a second place as it is: a container is then in two places, or, put inside
      itself, no value any more. */
  method Copy(doc: GoMap, ghost l: Layout, from: string, path: string) returns (end: Ending, ghost l': Layout)
    requires Document(doc, l) && KeepsPath(JsonOf(l.t), l.places, path)
    modifies Footprint(l.t)
    ensures Ended(end, doc, l', Step(JsonOf(l.t).members, Op.Copy(from, path)))
    ensures end == NoError ==> l'.places == Places(JsonOf(l.t), l.places, Op.Copy(from, path))
    ensures Step(JsonOf(l.t).members, Op.Copy(from, path)).Cyclic? ==>
              forall b: Tree | Nested(b) && Solid(b) :: !Holds(MapRef(doc), b)
    ensures l'.shared <= l.shared + Footprint(l.t) && Grown(l.t, {}, l'.t)
    ensures match (JsonPointer.ParsePath(from), JsonPointer.ParsePath(path))
            case (Success(f), Success(to)) => end == NoError ==> PutTwice(l, f, to, l'.t)
            case _ => end == Error
  {
    end, l' := Error, l;
    var fromSegs := JsonPointer.Parse(from);
    if fromSegs.Failure? {
      return;
    }
    var toSegs := JsonPointer.Parse(path);
    if toSegs.Failure? {
      return;
    }
    assert Step(JsonOf(l.t).members, Op.Copy(from, path)) ==
           CopyStep(JsonOf(l.t).members, fromSegs.value, toSegs.value);
    end, l' := CopyFound(doc, l, fromSegs.value, toSegs.value);
  }

  predicate HasValue(op: Op) {
    op.Add? || op.Replace? || op.Test?
  }

  /** A decoded value, in objects of its own. */
  ghost predicate Fresh(l: Layout, vt: Tree) {
    Unshared(vt) && Solid(vt) && Footprint(vt) !! Footprint(l.t) + l.shared
  }

  lemma FreshFits(l: Layout, path: string, vt: Tree)
    requires Nested(l.t) && Covers(l.places, [], l.t, l.shared) && Fresh(l, vt)
    requires KeepsPath(JsonOf(l.t), l.places, path)
    ensures FitPath(l, path, vt) && Linked(vt, l.shared)
  {
    SolidIsLinked(vt, l.shared);
    if JsonPointer.ParsePath(path).Success? {
      var segs := JsonPointer.ParsePath(path).value;
      ClearAvoids(l.t, segs, l.places, [], l.shared);
      CoversSolid(vt, l.places, Hops(JsonOf(l.t), segs), l.shared);
    }
  }

  method ApplyOp(doc: GoMap, ghost l: Layout, op: Op, value: Slot, ghost vt: Tree)
      returns (end: Ending, ghost l': Layout)
    requires Document(doc, l) && Keeps(JsonOf(l.t), l.places, op)
    requires Fresh(l, vt) && Holds(value, vt) && (HasValue(op) ==> op.value == JsonOf(vt))
    modifies Footprint(l.t)
    ensures Ended(end, doc, l', Step(JsonOf(l.t).members, op))
    ensures end == NoError ==> l'.places == Places(JsonOf(l.t), l.places, op)
    ensures Step(JsonOf(l.t).members, op).Cyclic? ==> forall b: Tree | Nested(b) && Solid(b) :: !Holds(MapRef(doc), b)
    ensures l'.shared <= l.shared + Footprint(l.t) && Grown(l.t, Footprint(vt), l'.t)
  {
    match op {
      case Add(path, _) =>
        FreshFits(l, path, vt);
        end, l' := Write(doc, l, path, value, vt, true);
      case Replace(path, _) =>
        FreshFits(l, path, vt);
        end, l' := Write(doc, l, path, value, vt, false);
      case Remove(path) => end, l' := Remove(doc, l, path);
      case Test(path, _) =>
        end := Test(doc, l, path, value, vt);
        l' := l;
      case Move(from, path) => end, l' := Move(doc, l, from, path);
      case Copy(from, path) => end, l' := Copy(doc, l, from, path);
      case Unsupported => end, l' := Error, l;
    }
  }

  // ---- The whole patch ----

  /** The patch's values as decoded, in objects of their own out of `pool`. */
  ghost predicate Decoded(patch: seq<Members>, values: seq<Slot>, layouts: seq<Tree>, pool: set<object>) {
    && |patch| == |values| == |layouts|
    && (forall i | 0 <= i < |layouts| ::
          Unshared(layouts[i]) && Solid(layouts[i])
          && Footprint(layouts[i]) <= pool && JsonOf(layouts[i]) == ValueAt(patch[i], "value"))
    && (forall i, j | 0 <= i < j < |layouts| :: Footprint(layouts[i]) !! Footprint(layouts[j]))
  }

  /** The values from `n` on are as decoded and not part of the document. */
  ghost predicate Waiting(values: seq<Slot>, layouts: seq<Tree>, pool: set<object>, n: nat, l: Layout)
    requires |values| == |layouts|
    requires forall i | 0 <= i < |layouts| :: Nested(layouts[i]) && Footprint(layouts[i]) <= pool
    reads pool
  {
    forall i | n <= i < |layouts| :: Footprint(layouts[i]) !! Footprint(l.t) + l.shared && Holds(values[i], layouts[i])
  }

  /** The i-th operation; the values after it are still as decoded. */
  method ApplyNext(doc: GoMap, ghost l: Layout, patch: seq<Members>, values: seq<Slot>, i: nat,
                   ghost layouts: seq<Tree>, ghost pool: set<object>)
      returns (end: Ending, ghost l': Layout)
    requires Document(doc, l) && Decoded(patch, values, layouts, pool) && i < |patch|
    requires Waiting(values, layouts, pool, i, l)
    requires Keeps(JsonOf(l.t), l.places, Decode(patch[i]))
    modifies Footprint(l.t)
    ensures Ended(end, doc, l', Step(JsonOf(l.t).members, Decode(patch[i])))
    ensures end == NoError ==> l'.places == Places(JsonOf(l.t), l.places, Decode(patch[i]))
    ensures Step(JsonOf(l.t).members, Decode(patch[i])).Cyclic? ==>
              forall b: Tree | Nested(b) && Solid(b) :: !Holds(MapRef(doc), b)
    ensures Waiting(values, layouts, pool, i + 1, l') && Grown(l.t, pool, l'.t)
  {
    end, l' := ApplyOp(doc, l, Decode(patch[i]), values[i], layouts[i]);
  }

  /** applyJSONPatch: runs the operations on the caller's document, in place. An error leaves what the
      earlier operations did (and the removal half of a failing move). */
  method ApplyJSONPatch(doc: GoMap, ghost t: Tree, patch: seq<Members>, values: seq<Slot>, ghost layouts: seq<Tree>,
                        ghost pool: set<object>)
      returns (end: Ending, ghost t': Tree)
    requires t.MapAt? && Unshared(t) && Is(doc, t, JsonOf(t))
    requires Decoded(patch, values, layouts, pool) && Waiting(values, layouts, pool, 0, Layout(t, {}, {}))
    requires !Steps(JsonOf(t).members, DecodeAll(patch)).Aliased?
    modifies Footprint(t) + pool
    ensures match Steps(JsonOf(t).members, DecodeAll(patch))
            case Done(d) => end == NoError && Is(doc, t', Obj(d))
            case Failed(d) => end == Error && Is(doc, t', Obj(d))
            case _ => end == NoError && forall b: Tree | Nested(b) && Solid(b) :: !Holds(MapRef(doc), b)
  {
    ghost var run := Steps(JsonOf(t).members, DecodeAll(patch));
    ghost var l := Layout(t, {}, {});
    SolidIsLinked(t, {});
    CoversSolid(t, {}, [], {});
    for i := 0 to |patch|
      invariant RunsOn(doc, l, patch, values, i, layouts, pool, run) || (i == |patch| && run.Cyclic?)
      invariant !RunsOn(doc, l, patch, values, i, layouts, pool, run) ==>
                  forall b: Tree | Nested(b) && Solid(b) :: !Holds(MapRef(doc), b)
      invariant forall o | o in Footprint(l.t) :: o in Footprint(t) || o in pool || fresh(o)
    {
      FollowUnfold(JsonOf(l.t).members, l.places, patch, i);
      end, l := ApplyNext(doc, l, patch, values, i, layouts, pool);
      if end == Error {
        DocumentIsJson(doc, l);
        t' := Filled(l.t, l.shared);
        return;
      }
    }
    end, t' := NoError, t;
    if RunsOn(doc, l, patch, values, |patch|, layouts, pool, run) {
      DocumentIsJson(doc, l);
      t' := Filled(l.t, l.shared);
    }
  }

  /** `i` operations done, the others are still to make the run what it is. */
  ghost predicate RunsOn(doc: GoMap, l: Layout, patch: seq<Members>, values: seq<Slot>, i: nat, layouts: seq<Tree>,
                         pool: set<object>, run: Run)
    reads Footprint(l.t), l.shared, pool
  {
    && Document(doc, l) && Decoded(patch, values, layouts, pool) && Waiting(values, layouts, pool, i, l)
    && i <= |patch| && Follow(JsonOf(l.t).members, l.places, DecodeAll(patch)[i..]) == run
  }

  lemma FollowUnfold(doc: Members, places: set<seq<Hop>>, patch: seq<Members>, i: nat)
    requires i < |patch|
    ensures Follow(doc, places, DecodeAll(patch)[i..]) ==
            if !Keeps(Obj(doc), places, Decode(patch[i])) then Aliased
            else
              match Step(doc, Decode(patch[i]))
              case Done(d) => Follow(d, Places(Obj(doc), places, Decode(patch[i])), DecodeAll(patch)[i + 1..])
              case Failed(d) => Failed(d)
              case _ => if i + 1 == |patch| then Cyclic else Aliased
  {
    var ops := DecodeAll(patch);
    assert ops[i..][0] == Decode(patch[i]) && ops[i..][1..] == ops[i + 1..];
  }
}
