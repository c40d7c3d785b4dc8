/** The server's JSON Patch evaluator. */
module JsonPatch {
  import opened Wrappers
  import opened Text
  import opened Json
  import JsonPointer

  /** One operation with its members read; a missing or non-string member reads as "", a missing
      value as null. */
  datatype Op =
    | Add(path: string, value: Json)
    | Replace(path: string, value: Json)
    | Remove(path: string)
    | Test(path: string, value: Json)
    | Move(from: string, path: string)
    | Copy(from: string, path: string)
    | Unsupported

  function StringAt(raw: Members, key: string): string {
    if key in raw && raw[key].Str? then raw[key].s else ""
  }

  function ValueAt(raw: Members, key: string): Json {
    if key in raw then raw[key] else Null
  }

  function Decode(raw: Members): Op {
    var typ, path := StringAt(raw, "op"), StringAt(raw, "path");
    if typ == "add" then Add(path, ValueAt(raw, "value"))
    else if typ == "replace" then Replace(path, ValueAt(raw, "value"))
    else if typ == "remove" then Remove(path)
    else if typ == "test" then Test(path, ValueAt(raw, "value"))
    else if typ == "move" then Move(StringAt(raw, "from"), path)
    else if typ == "copy" then Copy(StringAt(raw, "from"), path)
    else Unsupported
  }

  function DecodeAll(patch: seq<Members>): seq<Op> {
    seq(|patch|, i requires 0 <= i < |patch| => Decode(patch[i]))
  }

  // ---- Walking a path ----

  /** A segment read as an index into a list of length `n`: strconv.Atoi, then the bounds. */
  function IndexAt(seg: string, n: nat): (r: Option<nat>)
    ensures r.Some? ==> r.value < n
  {
    match Atoi(seg)
    case Some(i) => if 0 <= i < n then Some(i) else None
    case None => None
  }

  function Child(cur: Json, seg: string): Option<Json> {
    match cur
    case Obj(m) => Lookup(m, seg)
    case Arr(elems) => (match IndexAt(seg, |elems|) case Some(i) => Some(elems[i]) case None => None)
    case _ => None
  }

  function Get(cur: Json, segs: seq<string>): Result<Json> {
    if segs == [] then Success(cur)
    else match Child(cur, segs[0]) case Some(c) => Get(c, segs[1..]) case None => Failure
  }

  /** patchSet: the node after `value` is put at `segs`, or an error that has changed nothing.
      With `add` a final object member may be new and "-" appends to a list. */
  function Set(cur: Json, segs: seq<string>, value: Json, add: bool): (r: Result<Json>)
    ensures cur.Obj? && r.Success? ==> r.value.Obj?
  {
    if segs == [] then
      Failure
    else
      var seg := segs[0];
      match cur
      case Obj(m) =>
        if |segs| == 1 then
          if seg !in m && !add then Failure else Success(Obj(m[seg := value]))
        else if seg !in m then
          Failure
        else
          var child :- Set(m[seg], segs[1..], value, add);
          Success(Obj(m[seg := child]))
      case Arr(elems) =>
        if seg == "-" then
          if |segs| != 1 || !add then Failure else Success(Arr(elems + [value]))
        else (
          match IndexAt(seg, |elems|)
          case None => Failure
          case Some(i) =>
            var child :- Set(elems[i], segs[1..], value, add);
            Success(Arr(elems[i := child])))
      case _ => Failure
  }

  /** patchRemove: the node without the value at `segs`, and that value. */
  function Delete(cur: Json, segs: seq<string>): (r: Result<(Json, Json)>)
    ensures cur.Obj? && r.Success? ==> r.value.0.Obj?
  {
    if segs == [] then
      Failure
    else
      var seg := segs[0];
      match cur
      case Obj(m) =>
        if seg !in m then
          Failure
        else if |segs| == 1 then
          Success((Obj(m - {seg}), m[seg]))
        else
          var child :- Delete(m[seg], segs[1..]);
          Success((Obj(m[seg := child.0]), child.1))
      case Arr(elems) =>
        (match IndexAt(seg, |elems|)
         case None => Failure
         case Some(i) =>
           if |segs| == 1 then
             Success((Arr(elems[..i] + elems[i + 1..]), elems[i]))
           else
             var child :- Delete(elems[i], segs[1..]);
             Success((Arr(elems[i := child.0]), child.1)))
      case _ => Failure
  }

  // ---- Running an operation ----

  /** How operations end: with a document; with an error and the document as far as it was changed; with
      a container copied to below itself, which leaves no JSON value; or, once a container was copied,
      with an operation that writes into it, of which no outcome is given. */
  datatype Run = Done(doc: Members) | Failed(doc: Members) | Cyclic | Aliased

  predicate SameChild(cur: Json, a: string, b: string) {
    match cur
    case Obj(_) => a == b
    case Arr(elems) => IndexAt(a, |elems|).Some? && IndexAt(a, |elems|) == IndexAt(b, |elems|)
    case _ => false
  }

  /** A write to `to` goes into what is at `from`. Appending to a list leaves the slice that was there
      alone: its length is part of the slice, not of the array. */
  predicate Below(cur: Json, from: seq<string>, to: seq<string>) {
    to != [] &&
    if from == [] then !(cur.Arr? && to == ["-"])
    else SameChild(cur, from[0], to[0])
         && Child(cur, from[0]).Some? && Below(Child(cur, from[0]).value, from[1..], to[1..])
  }

  function Write(doc: Members, path: string, value: Json, add: bool): Run {
    match JsonPointer.ParsePath(path)
    case Failure => Failed(doc)
    case Success(segs) =>
      match Set(Obj(doc), segs, value, add)
      case Failure => Failed(doc)
      case Success(r) => Done(r.members)
  }

  function Step(doc: Members, op: Op): (r: Run)
    ensures !r.Aliased?
  {
    match op
    case Add(path, value) => Write(doc, path, value, true)
    case Replace(path, value) => Write(doc, path, value, false)
    case Remove(path) =>
      (match JsonPointer.ParsePath(path)
       case Failure => Failed(doc)
       case Success(segs) =>
         match Delete(Obj(doc), segs)
         case Failure => Failed(doc)
         case Success(r) => Done(r.0.members))
    case Test(path, value) =>
      (match JsonPointer.ParsePath(path)
       case Failure => Failed(doc)
       case Success(segs) => if Get(Obj(doc), segs) == Success(value) then Done(doc) else Failed(doc))
    case Move(from, path) =>
      (match (JsonPointer.ParsePath(from), JsonPointer.ParsePath(path))
       case (Success(fromSegs), Success(_)) =>
         (match Delete(Obj(doc), fromSegs)
          case Failure => Failed(doc)
          case Success(r) => Write(r.0.members, path, r.1, true))
       case _ => Failed(doc))
    case Copy(from, path) =>
      (match (JsonPointer.ParsePath(from), JsonPointer.ParsePath(path))
       case (Success(fromSegs), Success(toSegs)) =>
         (match Get(Obj(doc), fromSegs)
          case Failure => Failed(doc)
          case Success(v) =>
            var written := Write(doc, path, v, true);
            if written.Done? && IsContainer(v) && Below(Obj(doc), fromSegs, toSegs) then Cyclic else written)
       case _ => Failed(doc))
    case Unsupported => Failed(doc)
  }

  // ---- Places of copied containers ----

  /** One step of a location: a member, or an element. */
  datatype Hop = Key(k: string) | At(i: nat)

  function HopOf(cur: Json, seg: string): Hop {
    match cur
    case Arr(elems) =>
      if seg == "-" then At(|elems|)
      else (match IndexAt(seg, |elems|) case Some(i) => At(i) case None => Key(seg))
    case _ => Key(seg)
  }

  /** The location a path leads to in this document. */
  function Hops(cur: Json, segs: seq<string>): seq<Hop> {
    if segs == [] then []
    else
      match Child(cur, segs[0])
      case Some(c) => [HopOf(cur, segs[0])] + Hops(c, segs[1..])
      case None => [HopOf(cur, segs[0])]
  }

  /** A write to the path writes into nothing that stands at one of the places, or below. `here` is the
      location of `cur`. */
  predicate Clear(cur: Json, segs: seq<string>, places: set<seq<Hop>>, here: seq<Hop>) {
    segs == [] ||
    (here !in places &&
     match Child(cur, segs[0])
     case Some(c) => Clear(c, segs[1..], places, here + [HopOf(cur, segs[0])])
     case None => true)
  }

  /** Where a location is once the element `i` of the list at `list` is gone. */
  function Lowered(p: seq<Hop>, list: seq<Hop>, i: nat): seq<Hop> {
    if |p| > |list| && list <= p && p[|list|].At? && p[|list|].i > i then
      list + [At(p[|list|].i - 1)] + p[|list| + 1..]
    else
      p
  }

  function PlacesWithout(places: set<seq<Hop>>, gone: seq<Hop>): set<seq<Hop>> {
    if gone != [] && gone[|gone| - 1].At? then
      set p | p in places :: Lowered(p, gone[..|gone| - 1], gone[|gone| - 1].i)
    else
      places
  }

  /** The operation writes into no copied container. */
  predicate Keeps(doc: Json, places: set<seq<Hop>>, op: Op) {
    match op
    case Add(path, _) => KeepsPath(doc, places, path)
    case Replace(path, _) => KeepsPath(doc, places, path)
    case Remove(path) => KeepsPath(doc, places, path)
    case Copy(_, path) => KeepsPath(doc, places, path)
    case Move(from, path) =>
      && KeepsPath(doc, places, from)
      && (match JsonPointer.ParsePath(from)
          case Success(f) =>
            (match Delete(doc, f)
             case Success(r) => KeepsPath(r.0, PlacesWithout(places, Hops(doc, f)), path)
             case Failure => true)
          case Failure => true)
    case _ => true
  }

  predicate KeepsPath(doc: Json, places: set<seq<Hop>>, path: string) {
    match JsonPointer.ParsePath(path) case Success(t) => Clear(doc, t, places, []) case Failure => true
  }

  /** The places after an operation that succeeded: both ends of a copied container, and where one that
      was moved has gone. */
  function Places(doc: Json, places: set<seq<Hop>>, op: Op): set<seq<Hop>> {
    match op
    case Remove(path) =>
      (match JsonPointer.ParsePath(path) case Success(s) => PlacesWithout(places, Hops(doc, s)) case Failure => places)
    case Move(from, path) =>
      (match (JsonPointer.ParsePath(from), JsonPointer.ParsePath(path))
       case (Success(f), Success(t)) => PlacesMoved(doc, places, f, t)
       case _ => places)
    case Copy(from, path) =>
      (match (JsonPointer.ParsePath(from), JsonPointer.ParsePath(path))
       case (Success(f), Success(t)) => PlacesCopied(doc, places, f, t)
       case _ => places)
    case _ => places
  }

  function PlacesMoved(doc: Json, places: set<seq<Hop>>, f: seq<string>, t: seq<string>): set<seq<Hop>> {
    match Delete(doc, f)
    case Success(r) =>
      var gone := Hops(doc, f);
      PlacesWithout(places, gone) + if exists p | p in places :: gone <= p then {Hops(r.0, t)} else {}
    case Failure => places
  }

  function PlacesCopied(doc: Json, places: set<seq<Hop>>, f: seq<string>, t: seq<string>): set<seq<Hop>> {
    match Get(doc, f)
    case Success(v) => if IsContainer(v) then places + {Hops(doc, f), Hops(doc, t)} else places
    case Failure => places
  }

  // ---- Running a patch ----

  /** The operations in order, on a document with copied containers at `places`. */
  function Follow(doc: Members, places: set<seq<Hop>>, ops: seq<Op>): Run
    decreases |ops|
  {
    if ops == [] then Done(doc)
    else if !Keeps(Obj(doc), places, ops[0]) then Aliased
    else
      match Step(doc, ops[0])
      case Done(d) => Follow(d, Places(Obj(doc), places, ops[0]), ops[1..])
      case Failed(d) => Failed(d)
      case _ => if |ops| == 1 then Cyclic else Aliased
  }

  function Steps(doc: Members, ops: seq<Op>): Run {
    Follow(doc, {}, ops)
  }

  // ---- Before any container is copied ----

  lemma {:induction false} ClearOfNothing(cur: Json, segs: seq<string>, here: seq<Hop>)
    ensures Clear(cur, segs, {}, here)
  {
    if segs != [] && Child(cur, segs[0]).Some? {
      ClearOfNothing(Child(cur, segs[0]).value, segs[1..], here + [HopOf(cur, segs[0])]);
    }
  }

  lemma KeepsNothing(doc: Json, op: Op)
    ensures Keeps(doc, {}, op)
  {
    forall path ensures KeepsPath(doc, {}, path) {
      if JsonPointer.ParsePath(path).Success? { ClearOfNothing(doc, JsonPointer.ParsePath(path).value, []); }
    }
    if op.Move? {
      var f := JsonPointer.ParsePath(op.from);
      if f.Success? && Delete(doc, f.value).Success? {
        assert PlacesWithout({}, Hops(doc, f.value)) == {};
        var rest, t := Delete(doc, f.value).value.0, JsonPointer.ParsePath(op.path);
        if t.Success? { ClearOfNothing(rest, t.value, []); }
      }
    }
  }

  lemma HopsPrefix(cur: Json, segs: seq<string>, here: seq<Hop>, n: nat)
    requires segs != [] && Child(cur, segs[0]).Some? && n < |Hops(Child(cur, segs[0]).value, segs[1..])|
    ensures n + 1 < |Hops(cur, segs)|
    ensures here + Hops(cur, segs)[..n + 1] ==
              here + [HopOf(cur, segs[0])] + Hops(Child(cur, segs[0]).value, segs[1..])[..n]
  {}

  lemma {:induction false} ClearHasNone(cur: Json, segs: seq<string>, places: set<seq<Hop>>, here: seq<Hop>, n: nat)
    requires Clear(cur, segs, places, here) && n < |Hops(cur, segs)|
    ensures here + Hops(cur, segs)[..n] !in places
    decreases |segs|
  {
    if n == 0 {
      assert here + Hops(cur, segs)[..0] == here;
    } else {
      HopsPrefix(cur, segs, here, n - 1);
      ClearHasNone(Child(cur, segs[0]).value, segs[1..], places, here + [HopOf(cur, segs[0])], n - 1);
    }
  }

  lemma {:induction false} OtherHasOne(cur: Json, segs: seq<string>, places: set<seq<Hop>>, here: seq<Hop>)
      returns (n: nat)
    requires !Clear(cur, segs, places, here)
    ensures n < |Hops(cur, segs)| && here + Hops(cur, segs)[..n] in places
    decreases |segs|
  {
    if here in places {
      n := 0;
      assert here + Hops(cur, segs)[..0] == here;
    } else {
      var k := OtherHasOne(Child(cur, segs[0]).value, segs[1..], places, here + [HopOf(cur, segs[0])]);
      HopsPrefix(cur, segs, here, k);
      n := k + 1;
    }
  }

  /** A clear path: no place is a proper prefix of the location it leads to. */
  lemma ClearIsNotBelow(cur: Json, segs: seq<string>, places: set<seq<Hop>>, here: seq<Hop>)
    ensures Clear(cur, segs, places, here) <==>
              forall n: nat | n < |Hops(cur, segs)| :: here + Hops(cur, segs)[..n] !in places
  {
    if Clear(cur, segs, places, here) {
      forall n: nat | n < |Hops(cur, segs)| ensures here + Hops(cur, segs)[..n] !in places {
        ClearHasNone(cur, segs, places, here, n);
      }
    } else {
      var n := OtherHasOne(cur, segs, places, here);
    }
  }

  // ---- What an error leaves ----

  /** A failing operation changes nothing; a move whose addition fails has removed. */
  predicate LeftBy(doc: Members, op: Op, d: Members) {
    if op.Move? && JsonPointer.ParsePath(op.from).Success? && JsonPointer.ParsePath(op.path).Success?
       && Delete(Obj(doc), JsonPointer.ParsePath(op.from).value).Success?
    then Obj(d) == Delete(Obj(doc), JsonPointer.ParsePath(op.from).value).value.0
    else d == doc
  }

  lemma StepLeaves(doc: Members, op: Op, d: Members)
    requires Step(doc, op) == Failed(d)
    ensures LeftBy(doc, op, d)
  {}

  lemma {:induction false} FollowFails(doc: Members, places: set<seq<Hop>>, ops: seq<Op>, d: Members)
      returns (n: nat, before: Members)
    requires Follow(doc, places, ops) == Failed(d)
    ensures n < |ops| && Follow(doc, places, ops[..n]) == Done(before) && LeftBy(before, ops[n], d)
    decreases |ops|
  {
    n, before := 0, doc;
    if Step(doc, ops[0]).Done? {
      n, before := FollowFails(Step(doc, ops[0]).doc, Places(Obj(doc), places, ops[0]), ops[1..], d);
      assert ops[..n + 1][0] == ops[0] && ops[..n + 1][1..] == ops[1..][..n];
      n := n + 1;
    } else {
      StepLeaves(doc, ops[0], d);
    }
  }

  /** A patch that ends with an error leaves what the operations in front of the failing one made of the
      document, and a failing move's removal. */
  lemma ErrorLeaves(doc: Members, ops: seq<Op>, d: Members)
    requires Steps(doc, ops) == Failed(d)
    ensures exists n: nat, before: Members ::
              n < |ops| && Steps(doc, ops[..n]) == Done(before) && LeftBy(before, ops[n], d)
  {
    var n, before := FollowFails(doc, {}, ops, d);
    assert Steps(doc, ops[..n]) == Done(before);
  }
}
