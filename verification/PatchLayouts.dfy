/** How a document with copied containers is laid out: which of its objects stand in two places, and
    what writing and removing leave of that. */
module PatchLayouts {
  import opened Wrappers
  import opened Json
  import opened GoValues
  import opened JsonPatch
  import opened PatchInPlace

  // ---- What a path leads to ----

  /** The layout of what a path leads to. */
  ghost function Sub(t: Tree, segs: seq<string>): (r: Tree)
    requires Nested(t) && Get(JsonOf(t), segs).Success?
    ensures Nested(r) && JsonOf(r) == Get(JsonOf(t), segs).value
    ensures Solid(t) ==> Solid(r)
    decreases |segs|, t
  {
    if segs == [] then t
    else
      match t
      case MapAt(_, kids, _) => Sub(kids[segs[0]], segs[1..])
      case SliceAt(_, items, _) => Sub(items[IndexAt(segs[0], |items|).value], segs[1..])
      case LinkAt(of) => Sub(of, segs)
  }

  lemma {:induction false} SubIsPart(t: Tree, segs: seq<string>)
    requires Nested(t) && Get(JsonOf(t), segs).Success? && Opens(t, segs)
    ensures Footprint(Sub(t, segs)) <= Footprint(t)
    ensures Unshared(t) ==> Unshared(Sub(t, segs))
    decreases |segs|
  {
    if segs != [] {
      match t
      case MapAt(_, kids, _) => SubIsPart(kids[segs[0]], segs[1..]);
      case SliceAt(_, items, _) => SubIsPart(items[IndexAt(segs[0], |items|).value], segs[1..]);
    }
  }

  /** What a path leads to behind a link belongs to the shared objects. */
  lemma {:induction false} SubIsShared(t: Tree, segs: seq<string>, shared: set<object>)
    requires Nested(t) && Get(JsonOf(t), segs).Success? && Linked(t, shared)
    ensures Linked(Sub(t, segs), shared)
    ensures !Opens(t, segs) ==> Footprint(Sub(t, segs)) <= shared
    decreases |segs|, t
  {
    if segs != [] {
      match t
      case MapAt(_, kids, _) => SubIsShared(kids[segs[0]], segs[1..], shared);
      case SliceAt(_, items, _) => SubIsShared(items[IndexAt(segs[0], |items|).value], segs[1..], shared);
      case LinkAt(of) =>
        SolidIsLinked(of, shared);
        SolidOpens(of, segs);
        SubIsShared(of, segs, shared);
        SubIsPart(of, segs);
    }
  }

  lemma {:induction false} SolidIsLinked(t: Tree, shared: set<object>)
    requires Nested(t) && Solid(t)
    ensures Linked(t, shared)
  {
    match t
    case MapAt(_, kids, _) => forall k | k in kids { SolidIsLinked(kids[k], shared); }
    case SliceAt(_, items, _) => forall i | 0 <= i < |items| { SolidIsLinked(items[i], shared); }
    case _ =>
  }

  lemma {:induction false} SolidOpens(t: Tree, segs: seq<string>)
    requires Solid(t)
    ensures Opens(t, segs)
    decreases |segs|
  {
    if segs != [] {
      match t
      case MapAt(_, kids, _) => if segs[0] in kids { SolidOpens(kids[segs[0]], segs[1..]); }
      case SliceAt(_, items, _) =>
        var i := IndexAt(segs[0], |items|);
        if i.Some? { SolidOpens(items[i.value], segs[1..]); }
      case _ =>
    }
  }

  // ---- Links ----

  lemma {:induction false} LinkedMore(t: Tree, shared: set<object>, more: set<object>)
    requires Nested(t) && Linked(t, shared) && shared <= more
    ensures Linked(t, more)
  {
    match t
    case MapAt(_, kids, _) => forall k | k in kids { LinkedMore(kids[k], shared, more); }
    case SliceAt(_, items, _) => forall i | 0 <= i < |items| { LinkedMore(items[i], shared, more); }
    case _ =>
  }

  lemma {:induction false} PutLinked(t: Tree, segs: seq<string>, vt: Tree, t': Tree, others: set<object>,
                                     shared: set<object>)
    requires Nested(t) && Nested(vt) && Nested(t') && Put(t, segs, vt, t', others)
    requires Linked(t, shared) && Linked(vt, shared)
    ensures Linked(t', shared)
    decreases |segs|
  {
    if segs != [] {
      match t
      case MapAt(_, kids, _) =>
        if |segs| > 1 { PutLinked(kids[segs[0]], segs[1..], vt, t'.kids[segs[0]], others, shared); }
      case SliceAt(_, items, _) =>
        if segs[0] != "-" {
          var i := IndexAt(segs[0], |items|).value;
          PutLinked(items[i], segs[1..], vt, t'.items[i], others, shared);
        }
    }
  }

  lemma {:induction false} TakenLinked(t: Tree, segs: seq<string>, t': Tree, rt: Tree, shared: set<object>)
    requires Nested(t) && Nested(t') && Nested(rt) && Taken(t, segs, t', rt) && Linked(t, shared)
    ensures Linked(t', shared) && Linked(rt, shared)
    decreases |segs|
  {
    match t
    case MapAt(_, kids, _) =>
      if |segs| > 1 { TakenLinked(kids[segs[0]], segs[1..], t'.kids[segs[0]], rt, shared); }
    case SliceAt(_, items, _) =>
      var i := IndexAt(segs[0], |items|).value;
      if |segs| > 1 { TakenLinked(items[i], segs[1..], t'.items[i], rt, shared); }
  }

  // ---- Shared objects stand at places ----

  /** The shared objects, and links, stand only at the places and below. */
  ghost predicate Covers(places: set<seq<Hop>>, here: seq<Hop>, t: Tree, shared: set<object>)
    decreases t
  {
    here in places ||
    match t
    case ScalarAt(_) => true
    case MapAt(m, kids, _) => m !in shared && forall k | k in kids :: Covers(places, here + [Key(k)], kids[k], shared)
    case SliceAt(a, items, _) =>
      a !in shared && forall i | 0 <= i < |items| :: Covers(places, here + [At(i)], items[i], shared)
    case LinkAt(_) => false
  }

  /** Every place below `here` has its counterpart below `here'`. */
  ghost predicate Moved(places: set<seq<Hop>>, here: seq<Hop>, places': set<seq<Hop>>, here': seq<Hop>) {
    forall r: seq<Hop> :: here + r in places ==> here' + r in places'
  }

  lemma MovedDown(places: set<seq<Hop>>, here: seq<Hop>, places': set<seq<Hop>>, here': seq<Hop>, hop: Hop)
    requires Moved(places, here, places', here')
    ensures Moved(places, here + [hop], places', here' + [hop])
    ensures here in places ==> here' in places'
  {
    forall r: seq<Hop> | here + [hop] + r in places ensures here' + [hop] + r in places' {
      assert here + [hop] + r == here + ([hop] + r);
      assert here' + [hop] + r == here' + ([hop] + r);
    }
    assert here + [] == here && here' + [] == here';
  }

  lemma {:induction false} CoversMoved(places: set<seq<Hop>>, here: seq<Hop>, t: Tree, shared: set<object>,
                                       places': set<seq<Hop>>, here': seq<Hop>, shared': set<object>)
    requires Nested(t) && Covers(places, here, t, shared) && Moved(places, here, places', here')
    requires Footprint(t) * shared' <= shared
    ensures Covers(places', here', t, shared')
    decreases t
  {
    MovedDown(places, here, places', here', Key(""));
    if here !in places {
      match t
      case MapAt(_, kids, _) =>
        forall k | k in kids ensures Covers(places', here' + [Key(k)], kids[k], shared') {
          MovedDown(places, here, places', here', Key(k));
          CoversMoved(places, here + [Key(k)], kids[k], shared, places', here' + [Key(k)], shared');
        }
      case SliceAt(_, items, _) =>
        forall i | 0 <= i < |items| ensures Covers(places', here' + [At(i)], items[i], shared') {
          MovedDown(places, here, places', here', At(i));
          CoversMoved(places, here + [At(i)], items[i], shared, places', here' + [At(i)], shared');
        }
      case _ =>
    }
  }

  lemma {:induction false} CoversSolid(t: Tree, places: set<seq<Hop>>, here: seq<Hop>, shared: set<object>)
    requires Nested(t) && Solid(t) && Footprint(t) !! shared
    ensures Covers(places, here, t, shared)
  {
    match t
    case MapAt(_, kids, _) => forall k | k in kids { CoversSolid(kids[k], places, here + [Key(k)], shared); }
    case SliceAt(_, items, _) => forall i | 0 <= i < |items| { CoversSolid(items[i], places, here + [At(i)], shared); }
    case _ =>
  }

  /** A clear path meets no shared object and no link. */
  lemma {:induction false} ClearAvoids(t: Tree, segs: seq<string>, places: set<seq<Hop>>, here: seq<Hop>,
                                       shared: set<object>)
    requires Nested(t) && Clear(JsonOf(t), segs, places, here) && Covers(places, here, t, shared)
    ensures Opens(t, segs) && PathNodes(t, segs) !! shared
    decreases |segs|
  {
    if segs != [] {
      match t
      case MapAt(_, kids, _) =>
        if segs[0] in kids { ClearAvoids(kids[segs[0]], segs[1..], places, here + [Key(segs[0])], shared); }
      case SliceAt(_, items, _) =>
        var i := IndexAt(segs[0], |items|);
        assert segs[0] == "-" ==> i.None?;
        if i.Some? { ClearAvoids(items[i.value], segs[1..], places, here + [At(i.value)], shared); }
      case _ =>
    }
  }

  lemma HopsUnfold(cur: Json, segs: seq<string>, here: seq<Hop>)
    requires segs != [] && Child(cur, segs[0]).Some?
    ensures here + Hops(cur, segs) == here + [HopOf(cur, segs[0])] + Hops(Child(cur, segs[0]).value, segs[1..])
  {}

  /** Writing keeps the shared objects at their places, if what is written does. */
  lemma {:induction false} CoversPut(t: Tree, segs: seq<string>, vt: Tree, t': Tree, places: set<seq<Hop>>,
                                     here: seq<Hop>, shared: set<object>)
    requires Nested(t) && Put(t, segs, vt, t', shared) && Covers(places, here, t, shared)
    requires Covers(places, here + Hops(JsonOf(t), segs), vt, shared)
    ensures Covers(places, here, t', shared)
    decreases |segs|
  {
    if segs == [] {
      assert here + [] == here;
    } else if here !in places {
      match t
      case MapAt(_, kids, _) => CoversPutInMap(t, segs, vt, t', places, here, shared);
      case SliceAt(_, items, _) => CoversPutInSlice(t, segs, vt, t', places, here, shared);
    }
  }

  lemma {:induction false} CoversPutInMap(t: Tree, segs: seq<string>, vt: Tree, t': Tree, places: set<seq<Hop>>,
                                          here: seq<Hop>, shared: set<object>)
    requires segs != [] && t.MapAt? && here !in places
    requires Nested(t) && Put(t, segs, vt, t', shared) && Covers(places, here, t, shared)
    requires Covers(places, here + Hops(JsonOf(t), segs), vt, shared)
    ensures Covers(places, here, t', shared)
    decreases |segs|, 0
  {
    var k := segs[0];
    if |segs| == 1 {
      assert segs[1..] == [];
      if k in t.kids { assert Hops(JsonOf(t.kids[k]), segs[1..]) == []; }
      assert Hops(JsonOf(t), segs) == [Key(k)];
    } else {
      HopsUnfold(JsonOf(t), segs, here);
      CoversPut(t.kids[k], segs[1..], vt, t'.kids[k], places, here + [Key(k)], shared);
    }
  }

  lemma {:induction false} CoversPutInSlice(t: Tree, segs: seq<string>, vt: Tree, t': Tree, places: set<seq<Hop>>,
                                            here: seq<Hop>, shared: set<object>)
    requires segs != [] && t.SliceAt? && here !in places
    requires Nested(t) && Put(t, segs, vt, t', shared) && Covers(places, here, t, shared)
    requires Covers(places, here + Hops(JsonOf(t), segs), vt, shared)
    ensures Covers(places, here, t', shared)
    decreases |segs|, 0
  {
    if segs[0] == "-" {
      assert Child(JsonOf(t), "-").None?;
      assert Hops(JsonOf(t), segs) == [At(|t.items|)];
    } else {
      var i := IndexAt(segs[0], |t.items|).value;
      HopsUnfold(JsonOf(t), segs, here);
      CoversPut(t.items[i], segs[1..], vt, t'.items[i], places, here + [At(i)], shared);
    }
  }

  // Removing: the places behind the removed element move up.

  lemma Unmoved(places: set<seq<Hop>>, gone: seq<Hop>, here: seq<Hop>, hop: Hop, other: Hop)
    requires |gone| > |here| + 1 && here + [hop] <= gone && other != hop
    ensures Moved(places, here + [other], PlacesWithout(places, gone), here + [other])
  {
    var list := gone[..|gone| - 1];
    assert list[|here|] == hop;
    forall r: seq<Hop> | here + [other] + r in places ensures here + [other] + r in PlacesWithout(places, gone) {
      var p := here + [other] + r;
      assert p[|here|] == other;
      assert gone[|gone| - 1].At? ==> Lowered(p, list, gone[|gone| - 1].i) == p;
    }
  }

  lemma MovedUp(places: set<seq<Hop>>, here: seq<Hop>, i: nat, j: nat)
    ensures j < i ==> Moved(places, here + [At(j)], PlacesWithout(places, here + [At(i)]), here + [At(j)])
    ensures j > i ==> Moved(places, here + [At(j)], PlacesWithout(places, here + [At(i)]), here + [At(j - 1)])
  {
    var gone := here + [At(i)];
    assert gone[..|gone| - 1] == here;
    if j != i {
      var j': nat := if j < i then j else j - 1;
      forall r: seq<Hop> | here + [At(j)] + r in places ensures here + [At(j')] + r in PlacesWithout(places, gone) {
        var p := here + [At(j)] + r;
        assert p[|here|] == At(j) && p[|here| + 1..] == r;
        assert Lowered(p, here, i) == here + [At(j')] + r;
      }
    }
  }

  lemma {:induction false} CoversTaken(t: Tree, segs: seq<string>, t': Tree, rt: Tree, places: set<seq<Hop>>,
                                       here: seq<Hop>, shared: set<object>)
    requires Nested(t) && Taken(t, segs, t', rt) && Covers(places, here, t, shared)
    requires Clear(JsonOf(t), segs, places, here)
    ensures var gone := here + Hops(JsonOf(t), segs);
            Covers(PlacesWithout(places, gone), here, t', shared) && Covers(places, gone, rt, shared)
    decreases |segs|
  {
    if |segs| > 1 {
      match t
      case MapAt(_, kids, _) => CoversTakenBelow(t, segs, t', rt, places, here, shared);
      case SliceAt(_, items, _) => CoversTakenBelowAt(t, segs, t', rt, places, here, shared);
    } else {
      assert segs[1..] == [];
      assert Hops(JsonOf(t), segs) == [HopOf(JsonOf(t), segs[0])] by {
        assert Hops(Child(JsonOf(t), segs[0]).value, segs[1..]) == [];
      }
      if t.SliceAt? { CoversTakenHere(t, segs, t', rt, places, here, shared); }
    }
  }

  lemma CoversMovedUp(t: Tree, places: set<seq<Hop>>, here: seq<Hop>, i: nat, j: nat, shared: set<object>)
    requires Nested(t) && Covers(places, here + [At(if j < i then j else j + 1)], t, shared)
    ensures Covers(PlacesWithout(places, here + [At(i)]), here + [At(j)], t, shared)
  {
    var j' := if j < i then j else j + 1;
    MovedUp(places, here, i, j');
    CoversMoved(places, here + [At(j')], t, shared, PlacesWithout(places, here + [At(i)]), here + [At(j)], shared);
  }

  lemma CoversTakenHere(t: Tree, segs: seq<string>, t': Tree, rt: Tree, places: set<seq<Hop>>, here: seq<Hop>,
                        shared: set<object>)
    requires |segs| == 1 && t.SliceAt? && here !in places
    requires Nested(t) && Taken(t, segs, t', rt) && Covers(places, here, t, shared)
    ensures Covers(PlacesWithout(places, here + [HopOf(JsonOf(t), segs[0])]), here, t', shared)
  {
    var i := IndexAt(segs[0], |t.items|).value;
    assert segs[0] != "-";
    forall j | 0 <= j < |t'.items|
      ensures Covers(PlacesWithout(places, here + [At(i)]), here + [At(j)], t'.items[j], shared)
    {
      CoversMovedUp(t.items[if j < i then j else j + 1], places, here, i, j, shared);
    }
  }

  lemma {:induction false} CoversTakenBelow(t: Tree, segs: seq<string>, t': Tree, rt: Tree, places: set<seq<Hop>>,
                                            here: seq<Hop>, shared: set<object>)
    requires |segs| > 1 && t.MapAt? && here !in places
    requires Nested(t) && Taken(t, segs, t', rt) && Covers(places, here, t, shared)
    requires Clear(JsonOf(t), segs, places, here)
    ensures var gone := here + Hops(JsonOf(t), segs);
            Covers(PlacesWithout(places, gone), here, t', shared) && Covers(places, gone, rt, shared)
    decreases |segs|, 0
  {
    var k := segs[0];
    var gone := here + Hops(JsonOf(t), segs);
    var places' := PlacesWithout(places, gone);
    HopsUnfold(JsonOf(t), segs, here);
    CoversTaken(t.kids[k], segs[1..], t'.kids[k], rt, places, here + [Key(k)], shared);
    forall k' | k' in t'.kids ensures Covers(places', here + [Key(k')], t'.kids[k'], shared) {
      if k' != k {
        Unmoved(places, gone, here, Key(k), Key(k'));
        CoversMoved(places, here + [Key(k')], t.kids[k'], shared, places', here + [Key(k')], shared);
      }
    }
  }

  lemma {:induction false} CoversTakenBelowAt(t: Tree, segs: seq<string>, t': Tree, rt: Tree, places: set<seq<Hop>>,
          here: seq<Hop>, shared: set<object>)
    requires |segs| > 1 && t.SliceAt? && here !in places
    requires Nested(t) && Taken(t, segs, t', rt) && Covers(places, here, t, shared)
    requires Clear(JsonOf(t), segs, places, here)
    ensures var gone := here + Hops(JsonOf(t), segs);
            Covers(PlacesWithout(places, gone), here, t', shared) && Covers(places, gone, rt, shared)
    decreases |segs|, 0
  {
    var i := IndexAt(segs[0], |t.items|).value;
    var gone := here + Hops(JsonOf(t), segs);
    var places' := PlacesWithout(places, gone);
    HopsUnfold(JsonOf(t), segs, here);
    CoversTaken(t.items[i], segs[1..], t'.items[i], rt, places, here + [At(i)], shared);
    forall j | 0 <= j < |t'.items| ensures Covers(places', here + [At(j)], t'.items[j], shared) {
      if j != i {
        Unmoved(places, gone, here, At(i), At(j));
        CoversMoved(places, here + [At(j)], t.items[j], shared, places', here + [At(j)], shared);
      }
    }
  }

  // Copying: what is copied is shared from now on, and stands at its own place.

  lemma {:induction false} CoversCopied(t: Tree, f: seq<string>, places: set<seq<Hop>>, here: seq<Hop>,
                                        shared: set<object>)
    requires Unshared(t) && Get(JsonOf(t), f).Success? && Opens(t, f) && Covers(places, here, t, shared)
    ensures Covers(places + {here + Hops(JsonOf(t), f)}, here, t, shared + Footprint(Sub(t, f)))
    decreases |f|
  {
    var places' := places + {here + Hops(JsonOf(t), f)};
    var shared' := shared + Footprint(Sub(t, f));
    if f == [] {
      assert here + [] == here;
    } else if here !in places' {
      HopsUnfold(JsonOf(t), f, here);
      SubIsPart(t, f);
      match t
      case MapAt(m, kids, _) =>
        SubIsPart(kids[f[0]], f[1..]);
        CoversCopied(kids[f[0]], f[1..], places, here + [Key(f[0])], shared);
        forall k | k in kids ensures Covers(places', here + [Key(k)], kids[k], shared') {
          if k != f[0] { CoversMoved(places, here + [Key(k)], kids[k], shared, places', here + [Key(k)], shared'); }
        }
      case SliceAt(a, items, _) =>
        var i := IndexAt(f[0], |items|).value;
        SubIsPart(items[i], f[1..]);
        CoversCopied(items[i], f[1..], places, here + [At(i)], shared);
        forall j | 0 <= j < |items| ensures Covers(places', here + [At(j)], items[j], shared') {
          if j != i {
            assert Footprint(items[j]) !! Footprint(items[i]);
            CoversMoved(places, here + [At(j)], items[j], shared, places', here + [At(j)], shared');
          }
        }
    }
  }

  // ---- What a copy may write ----

  /** A write to `to` appends to the list at `from`. */
  predicate Appends(cur: Json, from: seq<string>, to: seq<string>) {
    to != [] &&
    if from == [] then cur.Arr? && to == ["-"]
    else SameChild(cur, from[0], to[0])
         && Child(cur, from[0]).Some? && Appends(Child(cur, from[0]).value, from[1..], to[1..])
  }

  /** The array of a list has room behind its last element. */
  predicate HasRoom(t: Tree) {
    t.SliceAt? && |t.items| < t.a.Length
  }

  /** Writing what is at `from` to `to` changes none of its objects, unless `to` lies inside it; or it is a
      list, appended to itself, whose array has room. */
  lemma {:induction false} AvoidsUnlessBelow(t: Tree, from: seq<string>, to: seq<string>)
    requires Unshared(t) && Get(JsonOf(t), from).Success? && Opens(t, from) && Opens(t, to)
    requires !Below(JsonOf(t), from, to)
    ensures PathNodes(t, to) !! Footprint(Sub(t, from)) || (Appends(JsonOf(t), from, to) && HasRoom(Sub(t, from)))
    decreases |from|
  {
    if to != [] && from != [] {
      SubIsPart(t, from);
      match t {
        case MapAt(m, kids, _) => AvoidsInMap(t, from, to);
        case SliceAt(_, items, _) => AvoidsInSlice(t, from, to);
      }
    }
  }

  lemma {:induction false} AvoidsInMap(t: Tree, from: seq<string>, to: seq<string>)
    requires t.MapAt? && from != [] && to != []
    requires Unshared(t) && Get(JsonOf(t), from).Success? && Opens(t, from) && Opens(t, to)
    requires !Below(JsonOf(t), from, to)
    ensures PathNodes(t, to) !! Footprint(Sub(t, from)) || (Appends(JsonOf(t), from, to) && HasRoom(Sub(t, from)))
    decreases |from|, 0
  {
    var a, b := from[0], to[0];
    SubIsPart(t.kids[a], from[1..]);
    if |to| > 1 {
      if a == b {
        AvoidsUnlessBelow(t.kids[a], from[1..], to[1..]);
      } else if b in t.kids {
        assert Footprint(t.kids[a]) !! Footprint(t.kids[b]);
      }
    }
  }

  lemma {:induction false} AvoidsInSlice(t: Tree, from: seq<string>, to: seq<string>)
    requires t.SliceAt? && from != [] && to != []
    requires Unshared(t) && Get(JsonOf(t), from).Success? && Opens(t, from) && Opens(t, to)
    requires !Below(JsonOf(t), from, to)
    ensures PathNodes(t, to) !! Footprint(Sub(t, from)) || (Appends(JsonOf(t), from, to) && HasRoom(Sub(t, from)))
    decreases |from|, 0
  {
    var i, j := IndexAt(from[0], |t.items|), IndexAt(to[0], |t.items|);
    assert to[0] == "-" ==> j.None?;
    SubIsPart(t.items[i.value], from[1..]);
    if i == j {
      AvoidsUnlessBelow(t.items[i.value], from[1..], to[1..]);
    } else if j.Some? {
      assert Footprint(t.items[i.value]) !! Footprint(t.items[j.value]);
    }
  }

  /** A list appended to in its own array is still there as it was, behind its old length. */
  lemma {:induction false} ExtendedStillHolds(s: Slot, t: Tree, from: seq<string>, to: seq<string>, vt: Tree, t': Tree,
          others: set<object>)
    requires Nested(t) && Nested(t') && Put(t, to, vt, t', others) && Holds(s, t') && Get(JsonOf(t), from).Success?
    requires Appends(JsonOf(t), from, to) && HasRoom(Sub(t, from))
    ensures Holds(Head(Sub(t, from)), Sub(t, from))
    decreases |from|
  {
    if from == [] {
      assert forall j | 0 <= j < |t.items| :: t'.items[j] == t.items[j];
    } else {
      match t
      case MapAt(m, kids, _) =>
        ExtendedStillHolds(m.members[from[0]], kids[from[0]], from[1..], to[1..], vt, t'.kids[from[0]], others);
      case SliceAt(a, items, _) =>
        var i := IndexAt(from[0], |items|).value;
        ExtendedStillHolds(a[i], items[i], from[1..], to[1..], vt, t'.items[i], others);
    }
  }
}
