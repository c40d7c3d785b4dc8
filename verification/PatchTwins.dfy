/** Locations of a document on values and on layouts: writing at one, what that leaves at another, and
    layouts in which one container is a link. */
module PatchTwins {
  import opened Wrappers
  import opened Json
  import opened GoValues
  import opened JsonPatch
  import opened PatchInPlace
  import opened PatchLayouts

  // ---- Two places in a document ----

  /** A write at `to` leaves what is at `y` where it is: the paths part before either ends. */
  predicate Apart(cur: Json, to: seq<string>, y: seq<string>) {
    && to != [] && y != [] && Child(cur, y[0]).Some?
    && (SameChild(cur, to[0], y[0]) ==> Apart(Child(cur, y[0]).value, to[1..], y[1..]))
  }

  /** The document with what is at a path replaced. */
  function Replaced(cur: Json, segs: seq<string>, v: Json): Json
    requires Get(cur, segs).Success?
  {
    if segs == [] then v
    else
      match cur
      case Obj(m) => Obj(m[segs[0] := Replaced(m[segs[0]], segs[1..], v)])
      case Arr(elems) =>
        var i := IndexAt(segs[0], |elems|).value;
        Arr(elems[i := Replaced(elems[i], segs[1..], v)])
  }

  /** The same of a layout, with the objects `lost` gone from it. */
  ghost function Grafted(t: Tree, segs: seq<string>, x: Tree, lost: set<object>): Tree
    requires Nested(t) && Opens(t, segs) && Get(JsonOf(t), segs).Success?
  {
    if segs == [] then x
    else
      match t
      case MapAt(m, kids, owned) =>
        MapAt(m, kids[segs[0] := Grafted(kids[segs[0]], segs[1..], x, lost)], owned - lost + Footprint(x))
      case SliceAt(a, items, owned) =>
        var i := IndexAt(segs[0], |items|).value;
        SliceAt(a, items[i := Grafted(items[i], segs[1..], x, lost)], owned - lost + Footprint(x))
  }

  lemma {:induction false} GraftedIsReplaced(t: Tree, segs: seq<string>, x: Tree, lost: set<object>)
    requires Nested(t) && Opens(t, segs) && Get(JsonOf(t), segs).Success?
    ensures JsonOf(Grafted(t, segs, x, lost)) == Replaced(JsonOf(t), segs, JsonOf(x))
    decreases |segs|
  {
    if segs != [] {
      var t' := Grafted(t, segs, x, lost);
      match t
      case MapAt(_, kids, _) =>
        GraftedIsReplaced(kids[segs[0]], segs[1..], x, lost);
        SameMembers(JsonOf(t').members, Replaced(JsonOf(t), segs, JsonOf(x)).members);
      case SliceAt(_, items, _) =>
        GraftedIsReplaced(items[IndexAt(segs[0], |items|).value], segs[1..], x, lost);
        assert JsonOf(t').elems == Replaced(JsonOf(t), segs, JsonOf(x)).elems;
    }
  }

  lemma KidGrafted(t: Tree, k: string, kid: Tree, x: set<object>, lost: set<object>)
    requires t.MapAt? && k in t.kids && Unshared(t) && Unshared(kid) && x !! t.owned && lost <= Footprint(t.kids[k])
    requires Footprint(kid) <= Footprint(t.kids[k]) - lost + x
    ensures Unshared(MapAt(t.m, t.kids[k := kid], t.owned - lost + x))
  {
    assert forall k' | k' in t.kids && k' != k :: Footprint(t.kids[k']) !! Footprint(t.kids[k]);
  }

  lemma ItemGrafted(t: Tree, i: nat, item: Tree, x: set<object>, lost: set<object>)
    requires t.SliceAt? && i < |t.items| && Unshared(t) && Unshared(item) && x !! t.owned
    requires lost <= Footprint(t.items[i])
    requires Footprint(item) <= Footprint(t.items[i]) - lost + x
    ensures Unshared(SliceAt(t.a, t.items[i := item], t.owned - lost + x))
  {
    assert forall j | 0 <= j < |t.items| && j != i :: Footprint(t.items[j]) !! Footprint(t.items[i]);
  }

  /** Putting in a link for what it names, or a value of its own for a link, shares nothing. */
  lemma {:induction false} GraftedUnshared(t: Tree, segs: seq<string>, x: Tree, lost: set<object>)
    requires Unshared(t) && Opens(t, segs) && Get(JsonOf(t), segs).Success?
    requires Unshared(x) && Footprint(x) !! Footprint(t) && lost == Footprint(Sub(t, segs))
    ensures Unshared(Grafted(t, segs, x, lost))
    ensures Footprint(Grafted(t, segs, x, lost)) <= Footprint(t) - lost + Footprint(x)
    decreases |segs|
  {
    if segs != [] {
      match t
      case MapAt(_, kids, _) =>
        SubIsPart(kids[segs[0]], segs[1..]);
        GraftedUnshared(kids[segs[0]], segs[1..], x, lost);
        KidGrafted(t, segs[0], Grafted(kids[segs[0]], segs[1..], x, lost), Footprint(x), lost);
      case SliceAt(_, items, _) =>
        var i := IndexAt(segs[0], |items|).value;
        SubIsPart(items[i], segs[1..]);
        GraftedUnshared(items[i], segs[1..], x, lost);
        ItemGrafted(t, i, Grafted(items[i], segs[1..], x, lost), Footprint(x), lost);
    }
  }

  lemma {:induction false} GraftedNested(t: Tree, segs: seq<string>, x: Tree)
    requires Nested(t) && Opens(t, segs) && Get(JsonOf(t), segs).Success? && Nested(x)
    ensures Nested(Grafted(t, segs, x, {})) && Footprint(Grafted(t, segs, x, {})) <= Footprint(t) + Footprint(x)
    decreases |segs|
  {
    if segs != [] {
      match t
      case MapAt(_, kids, _) => GraftedNested(kids[segs[0]], segs[1..], x);
      case SliceAt(_, items, _) => GraftedNested(items[IndexAt(segs[0], |items|).value], segs[1..], x);
    }
  }

  lemma {:induction false} GraftedHolds(s: Slot, t: Tree, segs: seq<string>, x: Tree, lost: set<object>)
    requires Nested(t) && Opens(t, segs) && Get(JsonOf(t), segs).Success? && Nested(Grafted(t, segs, x, lost))
    requires Nested(x)
    requires Holds(s, t) && Holds(Head(Sub(t, segs)), x)
    ensures Holds(s, Grafted(t, segs, x, lost))
    decreases |segs|
  {
    if segs != [] {
      match t
      case MapAt(m, kids, _) =>
        var kid := Grafted(kids[segs[0]], segs[1..], x, lost);
        assert kid == Grafted(t, segs, x, lost).kids[segs[0]];
        GraftedHolds(m.members[segs[0]], kids[segs[0]], segs[1..], x, lost);
      case SliceAt(a, items, _) =>
        var i := IndexAt(segs[0], |items|).value;
        var item := Grafted(items[i], segs[1..], x, lost);
        assert item == Grafted(t, segs, x, lost).items[i];
        GraftedHolds(a[i], items[i], segs[1..], x, lost);
    } else {
      assert s == Head(t);
    }
  }

  // ---- What a write leaves, and what it changes ----

  lemma {:induction false} ApartIsSymmetric(cur: Json, a: seq<string>, b: seq<string>)
    requires Apart(cur, a, b) && Get(cur, a).Success?
    ensures Apart(cur, b, a)
    decreases |a|
  {
    if SameChild(cur, a[0], b[0]) { ApartIsSymmetric(Child(cur, a[0]).value, a[1..], b[1..]); }
  }

  lemma {:induction false} PutLands(t: Tree, q: seq<string>, vt: Tree, t': Tree, others: set<object>)
    requires Put(t, q, vt, t', others) && Nested(t') && Get(JsonOf(t'), q).Success?
    ensures Sub(t', q) == vt && Opens(t', q)
    decreases |q|
  {
    if q != [] {
      match t
      case MapAt(_, kids, _) =>
        if |q| > 1 { PutLands(kids[q[0]], q[1..], vt, t'.kids[q[0]], others); } else { assert q[1..] == []; }
      case SliceAt(_, items, _) =>
        var i := IndexAt(q[0], |items|).value;
        PutLands(items[i], q[1..], vt, t'.items[i], others);
    }
  }

  lemma {:induction false} PutLeaves(t: Tree, to: seq<string>, vt: Tree, t': Tree, others: set<object>, y: seq<string>)
    requires Nested(t) && Nested(t') && Put(t, to, vt, t', others) && Apart(JsonOf(t), to, y)
    requires Get(JsonOf(t), y).Success? && Opens(t, y)
    ensures Get(JsonOf(t'), y).Success? && Opens(t', y) && Sub(t', y) == Sub(t, y) && Apart(JsonOf(t'), to, y)
    decreases |to|
  {
    match t
    case MapAt(_, kids, _) => PutLeavesMember(t, to, vt, t', others, y);
    case SliceAt(_, items, _) => PutLeavesElement(t, to, vt, t', others, y);
  }

  lemma {:induction false} PutLeavesMember(t: Tree, to: seq<string>, vt: Tree, t': Tree, others: set<object>,
                                           y: seq<string>)
    requires t.MapAt? && Nested(t) && Nested(t') && Put(t, to, vt, t', others) && Apart(JsonOf(t), to, y)
    requires Get(JsonOf(t), y).Success? && Opens(t, y)
    ensures Get(JsonOf(t'), y).Success? && Opens(t', y) && Sub(t', y) == Sub(t, y) && Apart(JsonOf(t'), to, y)
    decreases |to|, 0
  {
    if to[0] == y[0] {
      assert |to| > 1;
      PutLeaves(t.kids[y[0]], to[1..], vt, t'.kids[y[0]], others, y[1..]);
    } else {
      assert t'.kids[y[0]] == t.kids[y[0]];
    }
  }

  lemma {:induction false} PutLeavesElement(t: Tree, to: seq<string>, vt: Tree, t': Tree, others: set<object>,
                                            y: seq<string>)
    requires t.SliceAt? && Nested(t) && Nested(t') && Put(t, to, vt, t', others) && Apart(JsonOf(t), to, y)
    requires Get(JsonOf(t), y).Success? && Opens(t, y)
    ensures Get(JsonOf(t'), y).Success? && Opens(t', y) && Sub(t', y) == Sub(t, y) && Apart(JsonOf(t'), to, y)
    decreases |to|, 0
  {
    var i := IndexAt(y[0], |t.items|).value;
    assert IndexAt(y[0], |t'.items|) == Some(i);
    if SameChild(JsonOf(t), to[0], y[0]) {
      PutLeaves(t.items[i], to[1..], vt, t'.items[i], others, y[1..]);
    } else {
      assert t'.items[i] == t.items[i];
    }
  }

  lemma PutBelowMember(t: Tree, x: seq<string>, rest: seq<string>, vt: Tree, t': Tree, others: set<object>)
    requires x != [] && rest != [] && t.MapAt? && Put(t, x + rest, vt, t', others)
    ensures t'.MapAt? && t'.m == t.m && x[0] in t.kids && t'.kids.Keys == t.kids.Keys
    ensures forall k | k in t.kids && k != x[0] :: t'.kids[k] == t.kids[k]
    ensures Put(t.kids[x[0]], x[1..] + rest, vt, t'.kids[x[0]], others)
  {
    assert (x + rest)[1..] == x[1..] + rest;
  }

  lemma PutBelowElement(t: Tree, x: seq<string>, rest: seq<string>, vt: Tree, t': Tree, others: set<object>)
    requires x != [] && rest != [] && t.SliceAt? && Put(t, x + rest, vt, t', others)
    ensures t'.SliceAt? && t'.a == t.a && |t'.items| == |t.items| && IndexAt(x[0], |t.items|).Some?
    ensures var i := IndexAt(x[0], |t.items|).value;
            && (forall j | 0 <= j < |t.items| && j != i :: t'.items[j] == t.items[j])
            && Put(t.items[i], x[1..] + rest, vt, t'.items[i], others)
  {
    assert (x + rest)[1..] == x[1..] + rest;
  }

  /** A write below `x` changes what is at `x`, and nothing else. */
  lemma {:induction false} PutInside(t: Tree, x: seq<string>, rest: seq<string>, vt: Tree, t': Tree,
                                     others: set<object>)
    requires Nested(t) && Nested(t') && rest != [] && Put(t, x + rest, vt, t', others) && Get(JsonOf(t), x).Success?
    requires Opens(t, x)
    ensures Get(JsonOf(t'), x).Success? && Opens(t', x) && Put(Sub(t, x), rest, vt, Sub(t', x), others)
    ensures Put(t, x, Sub(t', x), t', others)
    decreases |x|
  {
    if x == [] {
      assert x + rest == rest;
    } else {
      match t
      case MapAt(_, kids, _) =>
        PutBelowMember(t, x, rest, vt, t', others);
        PutInside(kids[x[0]], x[1..], rest, vt, t'.kids[x[0]], others);
        InsideMember(t, x, t', others);
      case SliceAt(_, items, _) =>
        PutBelowElement(t, x, rest, vt, t', others);
        var i := IndexAt(x[0], |items|).value;
        PutInside(items[i], x[1..], rest, vt, t'.items[i], others);
        InsideElement(t, x, t', others);
    }
  }

  lemma TakenBelowMember(t: Tree, x: seq<string>, rest: seq<string>, t': Tree, rt: Tree)
    requires x != [] && rest != [] && t.MapAt? && Taken(t, x + rest, t', rt)
    ensures t'.MapAt? && t'.m == t.m && x[0] in t.kids && t'.kids.Keys == t.kids.Keys
    ensures forall k | k in t.kids && k != x[0] :: t'.kids[k] == t.kids[k]
    ensures Taken(t.kids[x[0]], x[1..] + rest, t'.kids[x[0]], rt)
  {
    assert (x + rest)[1..] == x[1..] + rest;
  }

  lemma TakenBelowElement(t: Tree, x: seq<string>, rest: seq<string>, t': Tree, rt: Tree)
    requires x != [] && rest != [] && t.SliceAt? && Taken(t, x + rest, t', rt)
    ensures t'.SliceAt? && t'.a == t.a && |t'.items| == |t.items| && IndexAt(x[0], |t.items|).Some?
    ensures var i := IndexAt(x[0], |t.items|).value;
            && (forall j | 0 <= j < |t.items| && j != i :: t'.items[j] == t.items[j])
            && Taken(t.items[i], x[1..] + rest, t'.items[i], rt)
  {
    assert (x + rest)[1..] == x[1..] + rest;
  }

  lemma {:induction false} TakenInside(t: Tree, x: seq<string>, rest: seq<string>, t': Tree, rt: Tree,
                                       others: set<object>)
    requires Nested(t) && Nested(t') && rest != [] && Taken(t, x + rest, t', rt) && Get(JsonOf(t), x).Success?
    requires Opens(t, x)
    ensures Get(JsonOf(t'), x).Success? && Opens(t', x) && Taken(Sub(t, x), rest, Sub(t', x), rt)
    ensures Put(t, x, Sub(t', x), t', others)
    decreases |x|
  {
    if x == [] {
      assert x + rest == rest;
    } else {
      match t
      case MapAt(_, kids, _) =>
        TakenBelowMember(t, x, rest, t', rt);
        TakenInside(kids[x[0]], x[1..], rest, t'.kids[x[0]], rt, others);
        InsideMember(t, x, t', others);
      case SliceAt(_, items, _) =>
        TakenBelowElement(t, x, rest, t', rt);
        var i := IndexAt(x[0], |items|).value;
        TakenInside(items[i], x[1..], rest, t'.items[i], rt, others);
        InsideElement(t, x, t', others);
    }
  }

  lemma InsideMember(t: Tree, x: seq<string>, t': Tree, others: set<object>)
    requires x != [] && t.MapAt? && t'.MapAt? && t'.m == t.m && Nested(t') && x[0] in t.kids
    requires t'.kids.Keys == t.kids.Keys && forall k | k in t.kids && k != x[0] :: t'.kids[k] == t.kids[k]
    requires var kid := t'.kids[x[0]];
             Get(JsonOf(kid), x[1..]).Success? && Opens(kid, x[1..])
             && Put(t.kids[x[0]], x[1..], Sub(kid, x[1..]), kid, others)
    ensures Get(JsonOf(t'), x).Success? && Opens(t', x) && Put(t, x, Sub(t', x), t', others)
    ensures Sub(t', x) == Sub(t'.kids[x[0]], x[1..])
  {
    if |x| == 1 { assert x[1..] == []; }
  }

  lemma InsideElement(t: Tree, x: seq<string>, t': Tree, others: set<object>)
    requires x != [] && t.SliceAt? && t'.SliceAt? && t'.a == t.a && Nested(t') && |t'.items| == |t.items|
    requires IndexAt(x[0], |t.items|).Some?
    requires var i := IndexAt(x[0], |t.items|).value; var item := t'.items[i];
             && (forall j | 0 <= j < |t.items| && j != i :: t'.items[j] == t.items[j])
             && Get(JsonOf(item), x[1..]).Success? && Opens(item, x[1..])
             && Put(t.items[i], x[1..], Sub(item, x[1..]), item, others)
    ensures Get(JsonOf(t'), x).Success? && Opens(t', x) && Put(t, x, Sub(t', x), t', others)
    ensures Sub(t', x) == Sub(t'.items[IndexAt(x[0], |t.items|).value], x[1..])
  {
    assert x[0] != "-";
  }

  lemma {:induction false} GraftedPuts(t: Tree, segs: seq<string>, x: Tree, lost: set<object>, others: set<object>)
    requires Nested(t) && Opens(t, segs) && Get(JsonOf(t), segs).Success?
    ensures Put(t, segs, x, Grafted(t, segs, x, lost), others)
    ensures Get(JsonOf(Grafted(t, segs, x, lost)), segs).Success?
    decreases |segs|
  {
    GraftedIsReplaced(t, segs, x, lost);
    ReplacedReads(JsonOf(t), segs, JsonOf(x));
    if segs != [] {
      match t
      case MapAt(_, kids, _) =>
        GraftedPuts(kids[segs[0]], segs[1..], x, lost, others);
        if |segs| == 1 { assert segs[1..] == []; }
      case SliceAt(_, items, _) =>
        GraftedPuts(items[IndexAt(segs[0], |items|).value], segs[1..], x, lost, others);
    }
  }

  // ---- A layout with one link ----

  /** No links but at `y`. */
  predicate SolidBut(t: Tree, y: seq<string>) {
    y == [] ||
    match t
    case ScalarAt(_) => true
    case MapAt(_, kids, _) => forall k | k in kids :: if k == y[0] then SolidBut(kids[k], y[1..]) else Solid(kids[k])
    case SliceAt(_, items, _) =>
      forall i | 0 <= i < |items| ::
        if IndexAt(y[0], |items|) == Some(i) then SolidBut(items[i], y[1..]) else Solid(items[i])
    case LinkAt(_) => false
  }

  lemma {:induction false} GraftedIsSolid(t: Tree, y: seq<string>, x: Tree, lost: set<object>)
    requires Nested(t) && Opens(t, y) && Get(JsonOf(t), y).Success? && SolidBut(t, y) && Solid(x)
    ensures Solid(Grafted(t, y, x, lost))
    decreases |y|
  {
    if y != [] {
      match t
      case MapAt(_, kids, _) => GraftedIsSolid(kids[y[0]], y[1..], x, lost);
      case SliceAt(_, items, _) => GraftedIsSolid(items[IndexAt(y[0], |items|).value], y[1..], x, lost);
    }
  }

  lemma {:induction false} PutIsSolidBut(t: Tree, q: seq<string>, vt: Tree, t': Tree, others: set<object>)
    requires Solid(t) && Put(t, q, vt, t', others) && Get(JsonOf(t'), q).Success?
    ensures SolidBut(t', q)
    decreases |q|
  {
    if q != [] {
      match t
      case MapAt(_, kids, _) =>
        if |q| > 1 { PutIsSolidBut(kids[q[0]], q[1..], vt, t'.kids[q[0]], others); } else { assert q[1..] == []; }
      case SliceAt(_, items, _) =>
        var i := IndexAt(q[0], |items|).value;
        PutIsSolidBut(items[i], q[1..], vt, t'.items[i], others);
    }
  }

  lemma {:induction false} PutKeepsSolidBut(t: Tree, to: seq<string>, vt: Tree, t': Tree, others: set<object>,
                                            y: seq<string>)
    requires Nested(t) && Put(t, to, vt, t', others) && Apart(JsonOf(t), to, y) && SolidBut(t, y) && Solid(vt)
    ensures SolidBut(t', y)
    decreases |to|
  {
    match t
    case MapAt(_, kids, _) => MemberKeepsSolidBut(t, to, vt, t', others, y);
    case SliceAt(_, items, _) => ElementKeepsSolidBut(t, to, vt, t', others, y);
  }

  lemma {:induction false} SubDeeper(t: Tree, p: seq<string>, s: string)
    requires Nested(t) && Get(JsonOf(t), p).Success? && Opens(t, p) && Sub(t, p).SliceAt?
    requires IndexAt(s, |Sub(t, p).items|).Some? && SolidBut(t, p) && SolidBut(Sub(t, p), [s])
    ensures Get(JsonOf(t), p + [s]).Success? && Sub(t, p + [s]) == Sub(t, p).items[IndexAt(s, |Sub(t, p).items|).value]
    ensures Opens(t, p + [s]) && SolidBut(t, p + [s])
    decreases |p|
  {
    if p == [] {
      assert p + [s] == [s] && [s][1..] == [];
    } else {
      assert (p + [s])[1..] == p[1..] + [s];
      match t
      case MapAt(_, kids, _) => SubDeeper(kids[p[0]], p[1..], s);
      case SliceAt(_, items, _) => SubDeeper(items[IndexAt(p[0], |items|).value], p[1..], s);
    }
  }

  lemma AppendedHere(l: Tree, s: string, vt: Tree, l': Tree, others: set<object>)
    requires l.SliceAt? && Solid(l) && Put(l, ["-"], vt, l', others) && IndexAt(s, |l.items| + 1) == Some(|l.items|)
    ensures l'.SliceAt? && IndexAt(s, |l'.items|) == Some(|l.items|) && l'.items[|l.items|] == vt && SolidBut(l', [s])
  {
    assert SolidBut(vt, [s][1..]);
  }

  lemma AppendLands(t: Tree, p: seq<string>, s: string, vt: Tree, t': Tree, others: set<object>)
    requires Nested(t) && Solid(t) && Put(t, p + ["-"], vt, t', others) && Nested(t')
    requires Lists(JsonOf(t), p) && AppendedAt(Get(JsonOf(t), p).value.elems, s)
    ensures Get(JsonOf(t'), p + [s]).Success? && Sub(t', p + [s]) == vt && Opens(t', p + [s]) && SolidBut(t', p + [s])
  {
    ListIsSlice(Sub(t, p));
    SolidOpens(t, p);
    PutInside(t, p, ["-"], vt, t', others);
    PutIsSolidBut(t, p, Sub(t', p), t', others);
    AppendedHere(Sub(t, p), s, vt, Sub(t', p), others);
    SubDeeper(t', p, s);
  }

  /** A value put in a solid layout is where it can be read, and the one thing there that may have a link. */
  lemma PutLandsAt(t: Tree, to: seq<string>, q: seq<string>, vt: Tree, t': Tree, others: set<object>)
    requires Nested(t) && Solid(t) && Put(t, to, vt, t', others) && Nested(t')
    requires LandsAt(JsonOf(t), to, q) && Get(JsonOf(t'), q).Success?
    ensures Sub(t', q) == vt && Opens(t', q) && SolidBut(t', q)
  {
    if q == to {
      PutLands(t, q, vt, t', others);
      PutIsSolidBut(t, q, vt, t', others);
    } else {
      var p, s := AppendedPath(JsonOf(t), to, q);
      AppendLands(t, p, s, vt, t', others);
    }
  }

  lemma ListIsSlice(l: Tree)
    requires Nested(l) && Solid(l) && JsonOf(l).Arr?
    ensures l.SliceAt? && |l.items| == |JsonOf(l).elems|
  {}

  /** Putting a solid value in a solid layout. */
  lemma {:induction false} PutIsSolid(t: Tree, to: seq<string>, vt: Tree, t': Tree, others: set<object>)
    requires Put(t, to, vt, t', others) && Solid(t) && Solid(vt)
    ensures Solid(t')
    decreases |to|
  {
    if to != [] {
      match t
      case MapAt(_, kids, _) => if |to| > 1 { PutIsSolid(kids[to[0]], to[1..], vt, t'.kids[to[0]], others); }
      case SliceAt(_, items, _) =>
        if to[0] != "-" {
          var i := IndexAt(to[0], |items|).value;
          PutIsSolid(items[i], to[1..], vt, t'.items[i], others);
        }
    }
  }

  /** Filling the one place. */
  lemma {:induction false} PutFills(t: Tree, q: seq<string>, vt: Tree, t': Tree, others: set<object>)
    requires SolidBut(t, q) && Put(t, q, vt, t', others) && Get(JsonOf(t'), q).Success? && Solid(vt)
    ensures Solid(t')
    decreases |q|
  {
    if q != [] {
      match t
      case MapAt(_, kids, _) =>
        if |q| > 1 { PutFills(kids[q[0]], q[1..], vt, t'.kids[q[0]], others); }
      case SliceAt(_, items, _) =>
        var i := IndexAt(q[0], |items|).value;
        PutFills(items[i], q[1..], vt, t'.items[i], others);
    }
  }

  lemma {:induction false} MemberKeepsSolidBut(t: Tree, to: seq<string>, vt: Tree, t': Tree, others: set<object>,
          y: seq<string>)
    requires t.MapAt? && Nested(t) && Put(t, to, vt, t', others) && Apart(JsonOf(t), to, y) && SolidBut(t, y)
    requires Solid(vt)
    ensures SolidBut(t', y)
    decreases |to|, 0
  {
    var k := to[0];
    if k == y[0] {
      assert |to| > 1;
      PutKeepsSolidBut(t.kids[k], to[1..], vt, t'.kids[k], others, y[1..]);
    } else if |to| > 1 {
      PutIsSolid(t.kids[k], to[1..], vt, t'.kids[k], others);
    }
  }

  lemma {:induction false} ElementKeepsSolidBut(t: Tree, to: seq<string>, vt: Tree, t': Tree, others: set<object>,
          y: seq<string>)
    requires t.SliceAt? && Nested(t) && Put(t, to, vt, t', others) && Apart(JsonOf(t), to, y) && SolidBut(t, y)
    requires Solid(vt)
    ensures SolidBut(t', y)
    decreases |to|, 0
  {
    var j := IndexAt(y[0], |t.items|).value;
    assert IndexAt(y[0], |t'.items|) == Some(j);
    if to[0] != "-" {
      var i := IndexAt(to[0], |t.items|).value;
      if i == j {
        PutKeepsSolidBut(t.items[i], to[1..], vt, t'.items[i], others, y[1..]);
      } else {
        PutIsSolid(t.items[i], to[1..], vt, t'.items[i], others);
      }
    }
  }

  /** The link moved from `q` to `f`: first one is put at `f`, then the value at `q`. */
  lemma {:induction false} LinkMoves(t: Tree, f: seq<string>, link: Tree, u: Tree, q: seq<string>, vt: Tree, t': Tree,
                                     others: set<object>)
    requires Nested(t) && SolidBut(t, q) && Put(t, f, link, u, others) && Put(u, q, vt, t', others) && Solid(vt)
    requires Get(JsonOf(t), q).Success? && Get(JsonOf(u), f).Success? && Get(JsonOf(t'), q).Success?
    requires Apart(JsonOf(t), q, f)
    ensures SolidBut(t', f)
    decreases |f|
  {
    match t
    case MapAt(_, kids, _) => LinkMovesInMap(t, f, link, u, q, vt, t', others);
    case SliceAt(_, items, _) => LinkMovesInSlice(t, f, link, u, q, vt, t', others);
  }

  lemma {:induction false} LinkMovesInMap(t: Tree, f: seq<string>, link: Tree, u: Tree, q: seq<string>, vt: Tree,
                                          t': Tree, others: set<object>)
    requires t.MapAt? && Nested(t) && SolidBut(t, q) && Put(t, f, link, u, others) && Put(u, q, vt, t', others)
    requires Solid(vt)
    requires Get(JsonOf(t), q).Success? && Get(JsonOf(u), f).Success? && Get(JsonOf(t'), q).Success?
    requires Apart(JsonOf(t), q, f)
    ensures SolidBut(t', f)
    decreases |f|, 0
  {
    var a, b := f[0], q[0];
    if a == b {
      assert |q| > 1 && |f| > 1;
      LinkMoves(t.kids[a], f[1..], link, u.kids[a], q[1..], vt, t'.kids[a], others);
    } else {
      PutInMember(t, f, link, u, others);
      PutInMember(u, q, vt, t', others);
      LinkMovesApart(t.kids, f, link, u.kids, q, vt, t', others);
    }
  }

  lemma PutInMember(t: Tree, f: seq<string>, vt: Tree, t': Tree, others: set<object>)
    requires t.MapAt? && f != [] && f[0] in t.kids && Put(t, f, vt, t', others) && Get(JsonOf(t'), f).Success?
    ensures t'.MapAt? && t'.kids.Keys == t.kids.Keys && forall k | k in t.kids && k != f[0] :: t'.kids[k] == t.kids[k]
    ensures Put(t.kids[f[0]], f[1..], vt, t'.kids[f[0]], others) && Get(JsonOf(t'.kids[f[0]]), f[1..]).Success?
  {
    if |f| == 1 { assert f[1..] == []; }
  }

  lemma LinkMovesApart(kids: map<string, Tree>, f: seq<string>, link: Tree, mid: map<string, Tree>, q: seq<string>,
                       vt: Tree, t': Tree,
                       others: set<object>)
    requires f != [] && q != [] && f[0] != q[0] && f[0] in kids && q[0] in kids && t'.MapAt?
    requires kids.Keys == mid.Keys == t'.kids.Keys
    requires forall k | k in kids && k != f[0] :: mid[k] == kids[k]
    requires forall k | k in kids && k != q[0] :: t'.kids[k] == mid[k]
    requires Put(kids[f[0]], f[1..], link, mid[f[0]], others) && Get(JsonOf(mid[f[0]]), f[1..]).Success?
    requires Put(mid[q[0]], q[1..], vt, t'.kids[q[0]], others) && Get(JsonOf(t'.kids[q[0]]), q[1..]).Success?
    requires Solid(vt)
    requires forall k | k in kids :: if k == q[0] then SolidBut(kids[k], q[1..]) else Solid(kids[k])
    ensures SolidBut(t', f)
  {
    PutIsSolidBut(kids[f[0]], f[1..], link, mid[f[0]], others);
    PutFills(mid[q[0]], q[1..], vt, t'.kids[q[0]], others);
  }

  lemma {:induction false} LinkMovesInSlice(t: Tree, f: seq<string>, link: Tree, u: Tree, q: seq<string>, vt: Tree,
                                            t': Tree, others: set<object>)
    requires t.SliceAt? && Nested(t) && SolidBut(t, q) && Put(t, f, link, u, others) && Put(u, q, vt, t', others)
    requires Solid(vt)
    requires Get(JsonOf(t), q).Success? && Get(JsonOf(u), f).Success? && Get(JsonOf(t'), q).Success?
    requires Apart(JsonOf(t), q, f)
    ensures SolidBut(t', f)
    decreases |f|, 0
  {
    var i, j := IndexAt(f[0], |t.items|).value, IndexAt(q[0], |t.items|).value;
    assert f[0] != "-" && q[0] != "-";
    if i == j {
      LinkMoves(t.items[i], f[1..], link, u.items[i], q[1..], vt, t'.items[i], others);
    } else {
      assert u.items[j] == t.items[j] && t'.items[i] == u.items[i];
      PutIsSolidBut(t.items[i], f[1..], link, u.items[i], others);
      PutFills(t.items[j], q[1..], vt, t'.items[j], others);
    }
  }

  lemma {:induction false} TakenIsSolid(t: Tree, segs: seq<string>, t': Tree, rt: Tree)
    requires Taken(t, segs, t', rt) && Solid(t)
    ensures Solid(t')
    decreases |segs|
  {
    if |segs| > 1 {
      match t
      case MapAt(_, kids, _) => TakenIsSolid(kids[segs[0]], segs[1..], t'.kids[segs[0]], rt);
      case SliceAt(_, items, _) =>
        var i := IndexAt(segs[0], |items|).value;
        TakenIsSolid(items[i], segs[1..], t'.items[i], rt);
    }
  }

  lemma {:induction false} OpensDeeper(t: Tree, x: seq<string>, rest: seq<string>)
    requires Nested(t) && Get(JsonOf(t), x).Success? && Opens(t, x) && Solid(Sub(t, x))
    ensures Opens(t, x + rest)
    decreases |x|
  {
    if x == [] {
      assert x + rest == rest;
      SolidOpens(t, rest);
    } else {
      assert (x + rest)[1..] == x[1..] + rest;
      match t
      case MapAt(_, kids, _) => OpensDeeper(kids[x[0]], x[1..], rest);
      case SliceAt(_, items, _) => OpensDeeper(items[IndexAt(x[0], |items|).value], x[1..], rest);
    }
  }

  lemma {:induction false} SetInside(cur: Json, x: seq<string>, rest: seq<string>, w: Json, add: bool)
    requires Get(cur, x).Success? && rest != []
    ensures match Set(Get(cur, x).value, rest, w, add)
            case Success(v) => Set(cur, x + rest, w, add) == Success(Replaced(cur, x, v))
            case Failure => Set(cur, x + rest, w, add) == Failure
    decreases |x|
  {
    if x == [] {
      assert x + rest == rest;
    } else {
      assert (x + rest)[1..] == x[1..] + rest;
      if cur.Arr? { assert x[0] != "-"; }
      SetInside(Child(cur, x[0]).value, x[1..], rest, w, add);
    }
  }

  lemma {:induction false} DeleteInside(cur: Json, x: seq<string>, rest: seq<string>)
    requires Get(cur, x).Success? && rest != []
    ensures match Delete(Get(cur, x).value, rest)
            case Success(r) => Delete(cur, x + rest) == Success((Replaced(cur, x, r.0), r.1))
            case Failure => Delete(cur, x + rest) == Failure
    decreases |x|
  {
    if x == [] {
      assert x + rest == rest;
    } else {
      assert (x + rest)[1..] == x[1..] + rest;
      DeleteInside(Child(cur, x[0]).value, x[1..], rest);
    }
  }

  lemma {:induction false} SubHolds(s: Slot, t: Tree, x: seq<string>)
    requires Nested(t) && Holds(s, t) && Get(JsonOf(t), x).Success? && Opens(t, x)
    ensures Holds(Head(Sub(t, x)), Sub(t, x))
    decreases |x|
  {
    if x != [] {
      match t
      case MapAt(m, kids, _) => SubHolds(m.members[x[0]], kids[x[0]], x[1..]);
      case SliceAt(a, items, _) =>
        var i := IndexAt(x[0], |items|).value;
        SubHolds(a[i], items[i], x[1..]);
    }
  }

  // ---- A list whose length changes where it is named ----

  lemma {:induction false} AppendsHere(cur: Json, x: seq<string>)
    requires Get(cur, x).Success? && Get(cur, x).value.Arr?
    ensures !Below(cur, x, x + ["-"]) && Appends(cur, x, x + ["-"])
    decreases |x|
  {
    if x == [] {
      assert x + ["-"] == ["-"];
    } else {
      assert (x + ["-"])[1..] == x[1..] + ["-"];
      AppendsHere(Child(cur, x[0]).value, x[1..]);
    }
  }

  lemma {:induction false} LastSlotInside(t: Tree, x: seq<string>, rest: seq<string>)
    requires Nested(t) && Get(JsonOf(t), x).Success? && Opens(t, x) && rest != []
    ensures LastSlot(t, x + rest) == LastSlot(Sub(t, x), rest)
    decreases |x|
  {
    if x == [] {
      assert x + rest == rest;
    } else {
      assert (x + rest)[1..] == x[1..] + rest;
      match t
      case MapAt(_, kids, _) => LastSlotInside(kids[x[0]], x[1..], rest);
      case SliceAt(_, items, _) => LastSlotInside(items[IndexAt(x[0], |items|).value], x[1..], rest);
    }
  }

  /** The elements behind the i-th moved down by one, and the last one where it was too. */
  function Shifted<T>(s: seq<T>, i: nat): (r: seq<T>)
    requires i < |s|
  {
    seq(|s|, j requires 0 <= j < |s| => s[if j < i || j == |s| - 1 then j else j + 1])
  }

  /** That is the list as it was if and only if the elements from the i-th on are all the same. */
  lemma {:induction false} ShiftedSame<T>(s: seq<T>, i: nat)
    requires i < |s|
    ensures Shifted(s, i) == s <==> forall j | i <= j < |s| :: s[j] == s[|s| - 1]
    decreases |s| - i
  {
    var r := Shifted(s, i);
    if i + 1 < |s| {
      ShiftedSame(s, i + 1);
      assert forall j | 0 <= j < |s| && j != i :: r[j] == Shifted(s, i + 1)[j];
      assert r[i] == s[i + 1];
    }
  }

  /** The slice of a list's old length over its array, after the i-th element was taken out. */
  ghost function Stale(t: Tree, i: nat): Tree
    requires t.SliceAt? && i < |t.items|
  {
    SliceAt(t.a, Shifted(t.items, i), t.owned)
  }

  lemma StaleIsSolid(t: Tree, i: nat)
    requires t.SliceAt? && i < |t.items| && Nested(t) && Solid(t)
    ensures Nested(Stale(t, i)) && Solid(Stale(t, i))
  {
    assert forall j | 0 <= j < |t.items| ::
             Stale(t, i).items[j] == t.items[if j < i || j == |t.items| - 1 then j else j + 1];
  }

  lemma StaleIsJson(t: Tree, i: nat)
    requires t.SliceAt? && i < |t.items|
    ensures JsonOf(Stale(t, i)) == Arr(Shifted(JsonOf(t).elems, i))
  {
    assert JsonOf(Stale(t, i)).elems == Shifted(JsonOf(t).elems, i);
  }

  lemma ShiftedTakes<T>(s: seq<T>, i: nat, j: nat)
    requires i < |s| && j + 1 < |s|
    ensures Shifted(s, i)[j] == (s[..i] + s[i + 1..])[j]
  {}

  lemma StaleHolds(t: Tree, i: nat, t': Tree, removed: Slot)
    requires t.SliceAt? && i < |t.items| <= t.a.Length && Nested(t) && Nested(Stale(t, i))
    requires t'.SliceAt? && t'.a == t.a && t'.items == t.items[..i] + t.items[i + 1..] && Nested(t')
    requires Holds(Head(t'), t')
    requires Holds(removed, t.items[i]) && t.a[|t.items| - 1] == Head(t.items[|t.items| - 1])
    ensures Holds(Head(t), Stale(t, i))
  {
    var n, r := |t.items|, Stale(t, i);
    forall j | 0 <= j < n - 1 ensures Holds(t.a[j], r.items[j]) {
      ShiftedTakes(t.items, i, j);
      assert Holds(t.a[j], t'.items[j]);
    }
    StaleEnds(t, i, t', removed);
  }

  /** The last element is what was taken out, or it has moved down. */
  lemma StaleEnds(t: Tree, i: nat, t': Tree, removed: Slot)
    requires t.SliceAt? && i < |t.items| <= t.a.Length && Nested(t)
    requires t'.SliceAt? && t'.a == t.a && t'.items == t.items[..i] + t.items[i + 1..] && Nested(t')
    requires Holds(Head(t'), t')
    requires Holds(removed, t.items[i])
    ensures Holds(Head(t.items[|t.items| - 1]), t.items[|t.items| - 1])
  {
    var n := |t.items|;
    if i < n - 1 {
      assert t'.items[n - 2] == t.items[n - 1];
      assert Holds(t.a[n - 2], t'.items[n - 2]);
    }
  }

  // ---- The same on values ----

  lemma {:induction false} SetLeaves(cur: Json, to: seq<string>, w: Json, add: bool, y: seq<string>)
    requires Set(cur, to, w, add).Success? && Apart(cur, to, y) && Get(cur, y).Success?
    ensures var r := Set(cur, to, w, add).value; Get(r, y) == Get(cur, y) && Apart(r, to, y)
    decreases |to|
  {
    if SameChild(cur, to[0], y[0]) {
      SetLeaves(Child(cur, y[0]).value, to[1..], w, add, y[1..]);
    }
  }

  lemma {:induction false} SetReads(cur: Json, to: seq<string>, w: Json, add: bool)
    requires Set(cur, to, w, add).Success? && Get(Set(cur, to, w, add).value, to).Success?
    ensures Get(Set(cur, to, w, add).value, to) == Success(w)
    decreases |to|
  {
    if cur.Obj? {
      if |to| > 1 { SetReads(cur.members[to[0]], to[1..], w, add); } else { assert to[1..] == []; }
    } else {
      SetReads(Child(cur, to[0]).value, to[1..], w, add);
    }
  }

  lemma {:induction false} ReplacedLeaves(cur: Json, x: seq<string>, v: Json, y: seq<string>)
    requires Get(cur, x).Success? && Apart(cur, x, y)
    ensures Get(Replaced(cur, x, v), y) == Get(cur, y)
    decreases |x|
  {
    if SameChild(cur, x[0], y[0]) { ReplacedLeaves(Child(cur, x[0]).value, x[1..], v, y[1..]); }
  }

  lemma {:induction false} ReplacedReads(cur: Json, x: seq<string>, v: Json)
    requires Get(cur, x).Success?
    ensures Get(Replaced(cur, x, v), x) == Success(v)
    decreases |x|
  {
    if x != [] { ReplacedReads(Child(cur, x[0]).value, x[1..], v); }
  }

  lemma {:induction false} ReplacedSame(cur: Json, segs: seq<string>)
    requires Get(cur, segs).Success?
    ensures Replaced(cur, segs, Get(cur, segs).value) == cur
    decreases |segs|
  {
    if segs != [] { ReplacedSame(Child(cur, segs[0]).value, segs[1..]); }
  }

  /** A value put at `to` can be read at `q`: the same path, or, of one appended to a list, its index there. */
  predicate LandsAt(cur: Json, to: seq<string>, q: seq<string>) {
    q == to ||
    (&& |q| == |to| > 0 && q[..|q| - 1] == to[..|to| - 1] && to[|to| - 1] == "-"
     && Lists(cur, q[..|q| - 1]) && AppendedAt(Get(cur, q[..|q| - 1]).value.elems, q[|q| - 1]))
  }

  predicate Lists(cur: Json, p: seq<string>) {
    Get(cur, p).Success? && Get(cur, p).value.Arr?
  }

  /** The index of an element that is appended to the list. */
  predicate AppendedAt(elems: seq<Json>, s: string) {
    IndexAt(s, |elems| + 1) == Some(|elems|)
  }

  lemma AppendedPath(cur: Json, to: seq<string>, q: seq<string>) returns (p: seq<string>, s: string)
    requires LandsAt(cur, to, q) && q != to
    ensures q == p + [s] && to == p + ["-"] && Lists(cur, p) && AppendedAt(Get(cur, p).value.elems, s)
  {
    p, s := q[..|q| - 1], q[|q| - 1];
  }

  lemma {:induction false} AppendReads(cur: Json, p: seq<string>, s: string, w: Json, f: seq<string>)
    requires Lists(cur, p) && AppendedAt(Get(cur, p).value.elems, s)
    requires Get(cur, f).Success? && Apart(cur, p + ["-"], f)
    ensures Set(cur, p + ["-"], w, true).Success?
    ensures var r := Set(cur, p + ["-"], w, true).value; Get(r, p + [s]) == Success(w) && Apart(r, p + [s], f)
    decreases |p|
  {
    if p == [] {
      assert p + ["-"] == ["-"] && p + [s] == [s];
    } else {
      assert (p + ["-"])[1..] == p[1..] + ["-"] && (p + [s])[1..] == p[1..] + [s];
      if cur.Arr? { assert p[0] != "-"; }
      if SameChild(cur, p[0], f[0]) {
        AppendReads(Child(cur, p[0]).value, p[1..], s, w, f[1..]);
      } else {
        AppendRead(Child(cur, p[0]).value, p[1..], s, w);
      }
    }
  }

  lemma {:induction false} AppendRead(cur: Json, p: seq<string>, s: string, w: Json)
    requires Lists(cur, p) && AppendedAt(Get(cur, p).value.elems, s)
    ensures Set(cur, p + ["-"], w, true).Success? && Get(Set(cur, p + ["-"], w, true).value, p + [s]) == Success(w)
    decreases |p|
  {
    if p == [] {
      assert p + ["-"] == ["-"] && p + [s] == [s];
    } else {
      assert (p + ["-"])[1..] == p[1..] + ["-"] && (p + [s])[1..] == p[1..] + [s];
      if cur.Arr? { assert p[0] != "-"; }
      AppendRead(Child(cur, p[0]).value, p[1..], s, w);
    }
  }

  /** The document with `v` at one place and `w` at another. */
  function Both(cur: Json, x: seq<string>, y: seq<string>, v: Json, w: Json): Json
    requires Get(cur, x).Success?
  {
    var c := Replaced(cur, x, v);
    if Get(c, y).Success? then Replaced(c, y, w) else c
  }
}
