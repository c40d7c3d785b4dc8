/** A container that was copied to below itself has no value: no layout, however deep, describes it. */
module PatchCycles {
  import opened Wrappers
  import opened Json
  import opened GoValues
  import opened JsonPatch
  import opened PatchInPlace
  import opened PatchLayouts

  /** A slot has one value. */
  lemma {:induction false} OneValue(s: Slot, x: Tree, y: Tree)
    requires Nested(x) && Solid(x) && Holds(s, x) && Nested(y) && Solid(y) && Holds(s, y)
    ensures JsonOf(x) == JsonOf(y)
    decreases x
  {
    match x
    case ScalarAt(_) =>
    case MapAt(m, kids, _) =>
      forall k | k in kids { OneValue(m.members[k], kids[k], y.kids[k]); }
      SameMembers(JsonOf(x).members, JsonOf(y).members);
    case SliceAt(a, items, _) =>
      forall i | 0 <= i < |items| { OneValue(a[i], items[i], y.items[i]); }
      assert JsonOf(x).elems == JsonOf(y).elems;
  }

  lemma MemberIsSmaller(v: Json, k: string)
    requires v.Obj? && k in v.members
    ensures v.members[k] < v
  {
    var m := v.members;
    assert v == Obj(m);
  }

  /** Where a value was put, every layout has it; strictly inside, unless it was put at the root. */
  lemma {:induction false} FindsPut(s: Slot, t: Tree, segs: seq<string>, vt: Tree, t': Tree, others: set<object>,
                                    b: Tree)
      returns (y: Tree)
    requires Put(t, segs, vt, t', others) && Nested(t') && Holds(s, t') && !vt.ScalarAt?
    requires Nested(b) && Solid(b) && Holds(s, b)
    ensures Nested(y) && Solid(y) && Holds(Head(vt), y)
    ensures if segs == [] then y == b else JsonOf(y) < JsonOf(b)
    decreases |segs|
  {
    if segs == [] {
      y := b;
    } else {
      match t {
        case MapAt(m, kids, _) =>
          var k := segs[0];
          if |segs| == 1 {
            y := b.kids[k];
          } else {
            y := FindsPut(m.members[k], kids[k], segs[1..], vt, t'.kids[k], others, b.kids[k]);
          }
          MemberIsSmaller(JsonOf(b), k);
        case SliceAt(_, items, _) =>
          if segs[0] == "-" {
            y := b.items[|items|];
            assert JsonOf(b).elems[|items|] < JsonOf(b);
          } else {
            var i := IndexAt(segs[0], |items|).value;
            y := FindsPut(t'.a[i], items[i], segs[1..], vt, t'.items[i], others, b.items[i]);
            assert JsonOf(b).elems[i] < JsonOf(b);
          }
      }
    }
  }

  /** Putting a container to below itself leaves no layout. */
  lemma {:induction false} CyclicIsNoJson(s: Slot, t: Tree, from: seq<string>, to: seq<string>, vt: Tree, t': Tree,
                                          others: set<object>, b: Tree)
    requires Nested(t) && Put(t, to, vt, t', others) && Nested(t') && Holds(s, t')
    requires Get(JsonOf(t), from).Success? && Below(JsonOf(t), from, to) && Opens(t, to)
    requires !vt.ScalarAt? && Head(vt) == Head(Sub(t, from)) && Nested(b) && Solid(b)
    ensures !Holds(s, b)
    decreases |from|
  {
    if Holds(s, b) {
      if from == [] {
        var y := FindsPut(s, t, to, vt, t', others, b);
        OneValue(s, b, y);
      } else {
        match t {
          case MapAt(m, kids, _) =>
            CyclicIsNoJson(m.members[from[0]], kids[from[0]], from[1..], to[1..], vt,
                           t'.kids[from[0]], others, b.kids[from[0]]);
          case SliceAt(a, items, _) =>
            var i := IndexAt(from[0], |items|).value;
            CyclicIsNoJson(a[i], items[i], from[1..], to[1..], vt, t'.items[i], others, b.items[i]);
        }
      }
    }
  }
}
