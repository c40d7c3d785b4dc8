/** Paths on which some document tells the server and RFC 6902 apart, and the documents that do: for
    reading and writing at one path, and for move and copy, which walk two. */
module PatchMoves {
  import opened Wrappers
  import opened Text
  import opened Json
  import opened JsonPatch
  import opened Rfc6902
  import opened PatchRefinement

  // ---- Documents on which a path works, through a list wherever a segment is bad ----

  function ListWith(seg: string, child: Json): Json
    requires Index(seg)
  {
    Arr(seq(Atoi(seg).value + 2, _ => child))
  }

  lemma ListReads(seg: string, child: Json)
    requires Index(seg)
    ensures Child(ListWith(seg, child), seg) == Some(child)
    ensures seg != "-"
  {}

  function ReadDoc(segs: seq<string>, leaf: Json): Json {
    if segs == [] then leaf
    else if Bad(segs[0]) then ListWith(segs[0], ReadDoc(segs[1..], leaf))
    else Obj(map[segs[0] := ReadDoc(segs[1..], leaf)])
  }

  function WriteDoc(segs: seq<string>): Json {
    if segs == [] then Null
    else if |segs| > 1 && Bad(segs[0]) then ListWith(segs[0], WriteDoc(segs[1..]))
    else Obj(map[segs[0] := WriteDoc(segs[1..])])
  }

  lemma {:induction false} ReadDocReads(segs: seq<string>, leaf: Json)
    ensures Get(ReadDoc(segs, leaf), segs) == Success(leaf)
    ensures HasBad(segs) ==> Evaluate(ReadDoc(segs, leaf), segs).Failure?
  {
    if segs != [] {
      HasBadUnfold(segs);
      if Bad(segs[0]) { ListReads(segs[0], ReadDoc(segs[1..], leaf)); }
      ReadDocReads(segs[1..], leaf);
    }
  }

  lemma {:induction false} ReadDocDeletes(segs: seq<string>, leaf: Json)
    requires segs != []
    ensures Delete(ReadDoc(segs, leaf), segs).Success?
    ensures HasBad(segs) ==> RemoveAt(ReadDoc(segs, leaf), segs).Failure?
  {
    HasBadUnfold(segs);
    if Bad(segs[0]) { ListReads(segs[0], ReadDoc(segs[1..], leaf)); }
    if |segs| > 1 { ReadDocDeletes(segs[1..], leaf); } else { assert segs[1..] == [] && !HasBad(segs[1..]); }
  }

  lemma {:induction false} WriteDocSets(segs: seq<string>, value: Json, add: bool)
    requires segs != []
    ensures Set(WriteDoc(segs), segs, value, add).Success?
  {
    if |segs| > 1 {
      if Bad(segs[0]) { ListReads(segs[0], WriteDoc(segs[1..])); }
      WriteDocSets(segs[1..], value, add);
    }
  }

  lemma {:induction false} WriteDocRefusesAdd(segs: seq<string>, value: Json)
    requires HasBad(Inner(segs))
    ensures AddAt(WriteDoc(segs), segs, value).Failure?
  {
    if |segs| > 1 {
      InnerUnfold(segs);
      if !Bad(segs[0]) { WriteDocRefusesAdd(segs[1..], value); }
    }
  }

  lemma {:induction false} WriteDocRefusesReplace(segs: seq<string>, value: Json)
    requires HasBad(Inner(segs))
    ensures RemoveAt(WriteDoc(segs), segs).Failure?
  {
    if |segs| > 1 {
      InnerUnfold(segs);
      if !Bad(segs[0]) { WriteDocRefusesReplace(segs[1..], value); }
    }
  }

  // ---- Whether a write succeeds does not depend on the value written ----

  lemma {:induction false} AnyValueIsSet(cur: Json, segs: seq<string>, v: Json, w: Json)
    requires Set(cur, segs, v, true).Success?
    ensures Set(cur, segs, w, true).Success?
    decreases |segs|
  {
    if |segs| > 1 {
      AnyValueIsSet(Child(cur, segs[0]).value, segs[1..], v, w);
    } else {
      assert segs[1..] == [];
    }
  }

  lemma {:induction false} AnyValueIsAdded(cur: Json, segs: seq<string>, v: Json, w: Json)
    requires AddAt(cur, segs, v).Success?
    ensures AddAt(cur, segs, w).Success?
  {
    if |segs| > 1 { AnyValueIsAdded(Select(cur, segs[0]).value, segs[1..], v, w); }
  }

  // ---- Two paths that part at once ----

  /** An object, with one member to read or remove at `f` and another to write at `t`. */
  function TwoMembers(f: seq<string>, t: seq<string>): Json
    requires f != [] && t != []
  {
    Obj(map[f[0] := ReadDoc(f[1..], Null), t[0] := WriteDoc(t[1..])])
  }

  predicate SameIndexAs(s: string, u: string) {
    Index(s) && Index(u) && Atoi(s).value == Atoi(u).value
  }

  /** A list in which `first` stands at an index, and `others` elsewhere, up to the index `u` at least. */
  function ListAt(seg: string, first: Json, u: string, others: Json): Json
    requires Index(seg) && Index(u)
  {
    Arr(seq(Atoi(seg).value + Atoi(u).value + 2, _ => others)[Atoi(seg).value := first])
  }

  /** A list, with one element to read or remove at `f` and the others to write at `t`. */
  function TwoElements(f: seq<string>, t: seq<string>): Json
    requires f != [] && t != [] && Index(f[0]) && Index(t[0])
  {
    ListAt(f[0], ReadDoc(f[1..], Null), t[0], WriteDoc(t[1..]))
  }

  predicate CanSet(cur: Json, t: seq<string>) {
    Set(cur, t, Null, true).Success?
  }

  predicate CanAdd(cur: Json, t: seq<string>) {
    AddAt(cur, t, Null).Success?
  }

  lemma MemberReads(m: Members, f: seq<string>)
    requires f != [] && f[0] in m && m[f[0]] == ReadDoc(f[1..], Null)
    ensures Get(Obj(m), f).Success?
    ensures HasBad(f[1..]) ==> Evaluate(Obj(m), f).Failure?
  {
    ReadDocReads(f[1..], Null);
  }

  lemma MemberDeletes(m: Members, f: seq<string>)
    requires f != [] && f[0] in m && m[f[0]] == ReadDoc(f[1..], Null)
    ensures match Delete(Obj(m), f)
            case Success(r) => r.0.Obj? && forall k | k in m && k != f[0] :: k in r.0.members && r.0.members[k] == m[k]
            case Failure => false
    ensures match RemoveAt(Obj(m), f)
            case Success(r) => !HasBad(f[1..]) && r.Obj? &&
              forall k | k in m && k != f[0] :: k in r.members && r.members[k] == m[k]
            case Failure => true
  {
    if |f| > 1 { ReadDocDeletes(f[1..], Null); }
  }

  lemma MemberSets(m: Members, t: seq<string>)
    requires t != [] && t[0] in m && m[t[0]] == WriteDoc(t[1..])
    ensures CanSet(Obj(m), t)
    ensures HasBad(Inner(t[1..])) ==> !CanAdd(Obj(m), t)
  {
    if |t| > 1 { WriteDocSets(t[1..], Null, true); }
    if HasBad(Inner(t[1..])) { WriteDocRefusesAdd(t[1..], Null); }
  }

  lemma ElementReads(elems: seq<Json>, f: seq<string>)
    requires f != [] && IndexAt(f[0], |elems|).Some? && elems[IndexAt(f[0], |elems|).value] == ReadDoc(f[1..], Null)
    ensures Get(Arr(elems), f).Success?
    ensures HasBad(f) ==> Evaluate(Arr(elems), f).Failure?
  {
    HasBadUnfold(f);
    ReadDocReads(f[1..], Null);
    if !Bad(f[0]) { SameIndex(f[0]); }
  }

  lemma ElementDeletes(elems: seq<Json>, f: seq<string>)
    requires f != [] && IndexAt(f[0], |elems|).Some? && elems[IndexAt(f[0], |elems|).value] == ReadDoc(f[1..], Null)
    ensures Delete(Arr(elems), f).Success?
    ensures HasBad(f) ==> RemoveAt(Arr(elems), f).Failure?
  {
    HasBadUnfold(f);
    if |f| > 1 {
      ReadDocDeletes(f[1..], Null);
      if !Bad(f[0]) { SameIndex(f[0]); }
    } else {
      assert f[1..] == [];
      assert !HasBad(f[1..]);
    }
  }

  lemma ElementSets(elems: seq<Json>, t: seq<string>)
    requires |t| > 1 && IndexAt(t[0], |elems|).Some? && elems[IndexAt(t[0], |elems|).value] == WriteDoc(t[1..])
    ensures CanSet(Arr(elems), t)
    ensures HasBad(Inner(t)) ==> !CanAdd(Arr(elems), t)
  {
    InnerUnfold(t);
    WriteDocSets(t[1..], Null, true);
    if HasBad(Inner(t[1..])) {
      WriteDocRefusesAdd(t[1..], Null);
      if !Bad(t[0]) { SameIndex(t[0]); }
    }
  }

  // ---- Moves ----

  /** Below the root, some document lets the server remove at `f` and then write at `t`. */
  predicate MoveWorks(f: seq<string>, t: seq<string>) {
    f != [] && t != [] &&
    (f[0] != t[0] || |t| == 1 || (if |f| == 1 then Index(f[0]) else MoveWorks(f[1..], t[1..])))
  }

  /** Some document, an object at the root, lets the server's move from `f` to `t` succeed although it
      reads a bad index or moves a value to below itself. */
  predicate MoveDiffers(f: seq<string>, t: seq<string>, root: bool)
    decreases |f|
  {
    f != [] && t != [] && (ObjectMoveDiffers(f, t) || (!root && ListMoveDiffers(f, t)))
  }

  predicate ObjectMoveDiffers(f: seq<string>, t: seq<string>)
    requires f != [] && t != []
    decreases |f|, 0
  {
    if f[0] != t[0] then HasBad(f[1..]) || HasBad(Inner(t[1..]))
    else if |t| == 1 then HasBad(f[1..])
    else MoveDiffers(f[1..], t[1..], false)
  }

  predicate ListMoveDiffers(f: seq<string>, t: seq<string>)
    requires f != [] && t != []
    decreases |f|, 1
  {
    if |t| == 1 then Index(f[0]) && t[0] == "-" && HasBad(f)
    else Index(f[0]) && Index(t[0]) && ElementMoveDiffers(f, t)
  }

  predicate ElementMoveDiffers(f: seq<string>, t: seq<string>)
    requires f != [] && |t| > 1
    decreases |f|, 0
  {
    if |f| == 1 then HasBad(f) || HasBad(Inner(t)) || f[0] == t[0]
    else if !SameIndexAs(f[0], t[0]) then HasBad(f) || HasBad(Inner(t))
    else if Bad(f[0]) || Bad(t[0]) then MoveWorks(f[1..], t[1..])
    else MoveDiffers(f[1..], t[1..], false)
  }

  /** The server carries the move out. */
  predicate CanMove(cur: Json, f: seq<string>, t: seq<string>) {
    Delete(cur, f).Success? && CanSet(Delete(cur, f).value.0, t)
  }

  /** RFC 6902 evaluates the move alike. */
  predicate MoveAgrees(cur: Json, f: seq<string>, t: seq<string>, w: Json)
    requires CanMove(cur, f, t)
  {
    var r := Delete(cur, f).value;
    && Evaluate(cur, f) == Success(r.1) && RemoveAt(cur, f) == Success(r.0) && !ProperPrefix(f, t)
    && AddAt(r.0, t, w) == Set(r.0, t, w, true) && AddSupported(r.0, t)
  }

  /** RFC 6902 reports an error. */
  predicate MoveRefused(cur: Json, f: seq<string>, t: seq<string>) {
    RemoveAt(cur, f).Failure? || ProperPrefix(f, t) || !CanAdd(RemoveAt(cur, f).value, t)
  }

  lemma PrefixUnfold(f: seq<string>, t: seq<string>)
    requires f != [] && t != []
    ensures ProperPrefix(f, t) <==> f[0] == t[0] && ProperPrefix(f[1..], t[1..])
  {
    if f[0] == t[0] && f[1..] <= t[1..] {
      assert f == [f[0]] + f[1..] && t == [t[0]] + t[1..];
    }
    if f <= t { assert f[1..] == t[..|f|][1..]; }
  }

  lemma PartedMembersMove(f: seq<string>, t: seq<string>)
    requires f != [] && t != [] && f[0] != t[0]
    ensures CanMove(TwoMembers(f, t), f, t)
    ensures HasBad(f[1..]) || HasBad(Inner(t[1..])) ==> MoveRefused(TwoMembers(f, t), f, t)
  {
    var m := TwoMembers(f, t).members;
    MemberDeletes(m, f);
    MemberSets(Delete(Obj(m), f).value.0.members, t);
    if RemoveAt(Obj(m), f).Success? { MemberSets(RemoveAt(Obj(m), f).value.members, t); }
  }

  lemma OneMemberMoves(f: seq<string>, t: seq<string>)
    requires f != [] && |t| == 1
    ensures CanMove(Obj(map[f[0] := ReadDoc(f[1..], Null)]), f, t)
    ensures HasBad(f[1..]) ==> MoveRefused(Obj(map[f[0] := ReadDoc(f[1..], Null)]), f, t)
  {
    MemberDeletes(map[f[0] := ReadDoc(f[1..], Null)], f);
  }

  lemma MemberMoves(c: Json, f: seq<string>, t: seq<string>)
    requires |f| > 1 && |t| > 1 && f[0] == t[0] && CanMove(c, f[1..], t[1..])
    ensures CanMove(Obj(map[f[0] := c]), f, t)
    ensures MoveRefused(c, f[1..], t[1..]) ==> MoveRefused(Obj(map[f[0] := c]), f, t)
  {
    PrefixUnfold(f, t);
  }

  lemma DigitText(c: char)
    requires IsDigit(c)
    ensures DigitsValue([c]) == (c - '0') as int && Itoa((c - '0') as int) == [c]
  {
    assert [c][..0] == "";
    var v := (c - '0') as int;
    assert ('0' as int + v % 10) as char == c;
  }

  /** An index without leading zeros is the rendering of its value. */
  lemma {:induction false} IndexText(seg: string)
    requires ArrayIndex(seg).Some?
    ensures seg == Itoa(ArrayIndex(seg).value)
  {
    var front, c := seg[..|seg| - 1], seg[|seg| - 1];
    assert seg == front + [c] && IsDigit(c);
    DigitText(c);
    if |seg| == 1 {
      assert seg == [c];
    } else {
      assert front[0] == seg[0] && front[0] != '0';
      IndexText(front);
      ItoaSnoc(DigitsValue(front), c);
    }
  }

  lemma ItoaSnoc(n: nat, c: char)
    requires n > 0 && IsDigit(c)
    ensures Itoa(n * 10 + (c - '0') as int) == Itoa(n) + [c]
  {
    var v := n * 10 + (c - '0') as int;
    assert v / 10 == n && v % 10 == (c - '0') as int;
    assert ('0' as int + v % 10) as char == c;
  }

  lemma SameText(s: string, u: string)
    requires SameIndexAs(s, u) && !Bad(s) && !Bad(u)
    ensures s == u
  {
    SameIndex(s);
    SameIndex(u);
    IndexText(s);
    IndexText(u);
  }

  lemma LastElementMoves(f: seq<string>, t: seq<string>)
    requires f != [] && |t| == 1 && Index(f[0]) && t[0] == "-"
    ensures CanMove(ListAt(f[0], ReadDoc(f[1..], Null), f[0], Null), f, t)
    ensures HasBad(f) ==> MoveRefused(ListAt(f[0], ReadDoc(f[1..], Null), f[0], Null), f, t)
  {
    ElementDeletes(ListAt(f[0], ReadDoc(f[1..], Null), f[0], Null).elems, f);
  }

  /** The list that remains when an element is gone from the front or when it has lost something. */
  lemma PartedElementsMove(f: seq<string>, t: seq<string>)
    requires f != [] && |t| > 1 && Index(f[0]) && Index(t[0]) && (|f| == 1 || !SameIndexAs(f[0], t[0]))
    ensures CanMove(TwoElements(f, t), f, t)
    ensures HasBad(f) || HasBad(Inner(t)) || (|f| == 1 && f[0] == t[0]) ==> MoveRefused(TwoElements(f, t), f, t)
  {
    var elems := TwoElements(f, t).elems;
    ElementDeletes(elems, f);
    ElementSets(Delete(Arr(elems), f).value.0.elems, t);
    if !HasBad(f) && RemoveAt(Arr(elems), f).Success? {
      HasBadUnfold(f);
      SameIndex(f[0]);
      ElementSets(RemoveAt(Arr(elems), f).value.elems, t);
    }
  }

  lemma ElementMoves(c: Json, f: seq<string>, t: seq<string>)
    requires |f| > 1 && |t| > 1 && SameIndexAs(f[0], t[0]) && CanMove(c, f[1..], t[1..])
    ensures CanMove(ListAt(f[0], c, t[0], Null), f, t)
  {}

  lemma BadElementIsRefused(elems: seq<Json>, f: seq<string>, t: seq<string>)
    requires f != [] && |t| > 1 && (Bad(f[0]) || Bad(t[0]))
    ensures MoveRefused(Arr(elems), f, t)
  {}

  lemma ElementIsRefused(c: Json, f: seq<string>, t: seq<string>)
    requires |f| > 1 && |t| > 1 && SameIndexAs(f[0], t[0]) && !Bad(f[0]) && !Bad(t[0]) && MoveRefused(c, f[1..], t[1..])
    ensures MoveRefused(ListAt(f[0], c, t[0], Null), f, t)
  {
    SameText(f[0], t[0]);
    SameIndex(f[0]);
    PrefixUnfold(f, t);
  }

  lemma {:induction false} MoveWorksSomewhere(f: seq<string>, t: seq<string>) returns (d: Json)
    requires MoveWorks(f, t)
    ensures CanMove(d, f, t)
  {
    if f[0] != t[0] {
      PartedMembersMove(f, t);
      d := TwoMembers(f, t);
    } else if |t| == 1 {
      OneMemberMoves(f, t);
      d := Obj(map[f[0] := ReadDoc(f[1..], Null)]);
    } else if |f| == 1 {
      PartedElementsMove(f, t);
      d := TwoElements(f, t);
    } else {
      var c := MoveWorksSomewhere(f[1..], t[1..]);
      MemberMoves(c, f, t);
      d := Obj(map[f[0] := c]);
    }
  }

  lemma {:induction false} MoveWorksWhereItDoes(cur: Json, f: seq<string>, t: seq<string>)
    requires CanMove(cur, f, t)
    ensures MoveWorks(f, t)
    decreases |f|
  {
    if f[0] == t[0] && |t| > 1 && |f| > 1 {
      MoveWorksWhereItDoes(Child(cur, f[0]).value, f[1..], t[1..]);
    }
  }

  lemma {:induction false} MoveDiffersSomewhere(f: seq<string>, t: seq<string>, root: bool) returns (d: Json)
    requires MoveDiffers(f, t, root)
    ensures CanMove(d, f, t) && MoveRefused(d, f, t)
    ensures root ==> d.Obj?
    decreases |f|, 3
  {
    if ObjectMoveDiffers(f, t) {
      d := ObjectMoveDiffersSomewhere(f, t);
    } else {
      d := ListMoveDiffersSomewhere(f, t);
    }
  }

  lemma {:induction false} ObjectMoveDiffersSomewhere(f: seq<string>, t: seq<string>) returns (d: Json)
    requires f != [] && t != [] && ObjectMoveDiffers(f, t)
    ensures CanMove(d, f, t) && MoveRefused(d, f, t) && d.Obj?
    decreases |f|, 0
  {
    if f[0] != t[0] {
      PartedMembersMove(f, t);
      d := TwoMembers(f, t);
    } else if |t| == 1 {
      OneMemberMoves(f, t);
      d := Obj(map[f[0] := ReadDoc(f[1..], Null)]);
    } else {
      var c := MoveDiffersSomewhere(f[1..], t[1..], false);
      assert |f| > 1;
      MemberMoves(c, f, t);
      d := Obj(map[f[0] := c]);
    }
  }

  lemma {:induction false} ListMoveDiffersSomewhere(f: seq<string>, t: seq<string>) returns (d: Json)
    requires f != [] && t != [] && ListMoveDiffers(f, t)
    ensures CanMove(d, f, t) && MoveRefused(d, f, t)
    decreases |f|, 2
  {
    if |t| == 1 {
      LastElementMoves(f, t);
      d := ListAt(f[0], ReadDoc(f[1..], Null), f[0], Null);
    } else {
      d := ElementMoveDiffersSomewhere(f, t);
    }
  }

  lemma {:induction false} ElementMoveDiffersSomewhere(f: seq<string>, t: seq<string>) returns (d: Json)
    requires f != [] && |t| > 1 && Index(f[0]) && Index(t[0]) && ElementMoveDiffers(f, t)
    ensures CanMove(d, f, t) && MoveRefused(d, f, t)
    decreases |f|, 1
  {
    if |f| == 1 || !SameIndexAs(f[0], t[0]) {
      PartedElementsMove(f, t);
      d := TwoElements(f, t);
    } else {
      var c;
      if Bad(f[0]) || Bad(t[0]) {
        c := MoveWorksSomewhere(f[1..], t[1..]);
        BadElementIsRefused(ListAt(f[0], c, t[0], Null).elems, f, t);
      } else {
        c := MoveDiffersSomewhere(f[1..], t[1..], false);
        ElementIsRefused(c, f, t);
      }
      ElementMoves(c, f, t);
      d := ListAt(f[0], c, t[0], Null);
    }
  }

  // Elsewhere a move agrees.

  lemma MoveAgreesApart(cur: Json, f: seq<string>, t: seq<string>, w: Json)
    requires CanMove(cur, f, t) && !ProperPrefix(f, t)
    requires if cur.Obj? then !HasBad(f[1..]) && !HasBad(Inner(Rest(t))) else !HasBad(f) && !HasBad(Inner(t))
    ensures MoveAgrees(cur, f, t, w)
  {
    DeleteSound(cur, f);
    var r := Delete(cur, f).value;
    AnyValueIsSet(r.0, t, Null, w);
    AddSound(r.0, t, w);
  }

  lemma {:induction false} MoveSound(cur: Json, f: seq<string>, t: seq<string>, root: bool, w: Json)
    requires CanMove(cur, f, t) && !MoveDiffers(f, t, root) && (root ==> cur.Obj?)
    ensures MoveAgrees(cur, f, t, w)
    decreases |f|, 1
  {
    if cur.Obj? {
      PrefixUnfold(f, t);
      if f[0] != t[0] || |t| == 1 {
        MoveAgreesApart(cur, f, t, w);
      } else {
        CanMoveInMember(cur.members, f, t);
        MoveSound(cur.members[f[0]], f[1..], t[1..], false, w);
        MoveAgreesInMember(cur.members, f, t, w);
      }
    } else {
      ListMoveSound(cur.elems, f, t, w);
    }
  }

  lemma {:induction false} ListMoveSound(elems: seq<Json>, f: seq<string>, t: seq<string>, w: Json)
    requires CanMove(Arr(elems), f, t) && !ListMoveDiffers(f, t)
    ensures MoveAgrees(Arr(elems), f, t, w)
    decreases |f|, 0
  {
    PrefixUnfold(f, t);
    if |t| == 1 {
      OnlyAppends(Delete(Arr(elems), f).value.0.elems, t);
      MoveAgreesApart(Arr(elems), f, t, w);
    } else if |f| == 1 || !SameIndexAs(f[0], t[0]) {
      assert !ElementMoveDiffers(f, t);
      MoveAgreesApart(Arr(elems), f, t, w);
    } else {
      assert !ElementMoveDiffers(f, t);
      CanMoveInElement(elems, f, t);
      var c := elems[Atoi(f[0]).value];
      MoveWorksWhereItDoes(c, f[1..], t[1..]);
      MoveSound(c, f[1..], t[1..], false, w);
      MoveAgreesInElement(elems, f, t, w);
    }
  }

  lemma OnlyAppends(elems: seq<Json>, t: seq<string>)
    requires |t| == 1 && CanSet(Arr(elems), t)
    ensures t[0] == "-" && !HasBad(Inner(t))
  {
    assert t[1..] == [];
    assert forall i | 0 <= i < |elems| :: Set(elems[i], t[1..], Null, true).Failure?;
  }

  lemma CanMoveInMember(m: Members, f: seq<string>, t: seq<string>)
    requires f != [] && |t| > 1 && f[0] == t[0] && CanMove(Obj(m), f, t)
    ensures |f| > 1 && f[0] in m && CanMove(m[f[0]], f[1..], t[1..])
  {}

  lemma MoveAgreesInMember(m: Members, f: seq<string>, t: seq<string>, w: Json)
    requires |f| > 1 && |t| > 1 && f[0] == t[0] && f[0] in m && CanMove(Obj(m), f, t)
    requires CanMove(m[f[0]], f[1..], t[1..]) && MoveAgrees(m[f[0]], f[1..], t[1..], w)
    ensures MoveAgrees(Obj(m), f, t, w)
  {
    assert t[1..][|t| - 2] == t[|t| - 1];
    PrefixUnfold(f, t);
  }

  lemma CanMoveInElement(elems: seq<Json>, f: seq<string>, t: seq<string>)
    requires |f| > 1 && |t| > 1 && SameIndexAs(f[0], t[0]) && CanMove(Arr(elems), f, t)
    ensures Atoi(f[0]).value < |elems| && CanMove(elems[Atoi(f[0]).value], f[1..], t[1..])
  {}

  lemma MoveAgreesInElement(elems: seq<Json>, f: seq<string>, t: seq<string>, w: Json)
    requires |f| > 1 && |t| > 1 && SameIndexAs(f[0], t[0]) && !Bad(f[0]) && !Bad(t[0])
    requires var i := Atoi(f[0]).value;
             i < |elems| && CanMove(elems[i], f[1..], t[1..]) && MoveAgrees(elems[i], f[1..], t[1..], w)
    requires CanMove(Arr(elems), f, t)
    ensures MoveAgrees(Arr(elems), f, t, w)
  {
    assert t[1..][|t| - 2] == t[|t| - 1];
    SameText(f[0], t[0]);
    SameIndex(f[0]);
    PrefixUnfold(f, t);
  }

  // ---- Moves to below their own source ----

  lemma {:induction false} PrefixMoveWorks(f: seq<string>, t: seq<string>)
    requires ProperPrefix(f, t) && f != []
    ensures MoveWorks(f, t) <==> Index(f[|f| - 1])
  {
    PrefixUnfold(f, t);
    if |f| > 1 {
      PrefixMoveWorks(f[1..], t[1..]);
      assert f[1..][|f| - 2] == f[|f| - 1];
    }
  }

  /** Such a move is an error by RFC 6902. Below the root the server carries it out on some document
      exactly when the last segment of its source can be an index. */
  lemma {:induction false} PrefixMoveDiffers(f: seq<string>, t: seq<string>, root: bool)
    requires ProperPrefix(f, t) && f != []
    ensures MoveDiffers(f, t, root) <==> Index(f[|f| - 1]) && (root ==> |f| > 1)
    decreases |f|
  {
    PrefixUnfold(f, t);
    assert ObjectMoveDiffers(f, t) <==> MoveDiffers(f[1..], t[1..], false);
    assert ListMoveDiffers(f, t) <==> Index(f[0]) && ElementMoveDiffers(f, t);
    if |f| > 1 {
      PrefixMoveWorks(f[1..], t[1..]);
      PrefixMoveDiffers(f[1..], t[1..], false);
      assert f[1..][|f| - 2] == f[|f| - 1];
    } else {
      assert f[1..] == [];
    }
  }

  // ---- Copies ----

  /** Some document, an object at the root, lets the server's copy from `f` to `t` succeed although it
      reads a bad index or makes a container part of itself. */
  predicate CopyDiffers(f: seq<string>, t: seq<string>, root: bool)
    decreases |t|
  {
    t != [] && (f == [] || ObjectCopyDiffers(f, t) || (!root && ListCopyDiffers(f, t)))
  }

  predicate ObjectCopyDiffers(f: seq<string>, t: seq<string>)
    requires f != [] && t != []
    decreases |t|, 0
  {
    if f[0] != t[0] then HasBad(f[1..]) || HasBad(Inner(t[1..]))
    else if |t| == 1 then HasBad(f[1..])
    else CopyDiffers(f[1..], t[1..], false)
  }

  predicate ListCopyDiffers(f: seq<string>, t: seq<string>)
    requires f != [] && t != []
    decreases |t|, 0
  {
    if |t| == 1 then Index(f[0]) && t[0] == "-" && HasBad(f)
    else if !SameIndexAs(f[0], t[0]) then Index(f[0]) && Index(t[0]) && (HasBad(f) || HasBad(Inner(t)))
    else Bad(f[0]) || Bad(t[0]) || CopyDiffers(f[1..], t[1..], false)
  }

  /** The server carries the copy out. */
  predicate CanCopy(cur: Json, f: seq<string>, t: seq<string>) {
    Get(cur, f).Success? && CanSet(cur, t)
  }

  /** RFC 6902 evaluates the copy alike, and the value does not become part of itself. */
  predicate CopyAgrees(cur: Json, f: seq<string>, t: seq<string>, w: Json)
    requires CanCopy(cur, f, t)
  {
    && Evaluate(cur, f) == Get(cur, f)
    && AddAt(cur, t, w) == Set(cur, t, w, true) && AddSupported(cur, t)
    && !Below(cur, f, t)
  }

  /** RFC 6902 reports an error, or the value becomes part of itself. */
  predicate CopyWrong(cur: Json, f: seq<string>, t: seq<string>)
    requires Get(cur, f).Success?
  {
    Evaluate(cur, f).Failure? || !CanAdd(cur, t) || (IsContainer(Get(cur, f).value) && Below(cur, f, t))
  }

  lemma PartedMembersCopy(f: seq<string>, t: seq<string>)
    requires f != [] && t != [] && f[0] != t[0]
    ensures CanCopy(TwoMembers(f, t), f, t)
    ensures HasBad(f[1..]) || HasBad(Inner(t[1..])) ==> CopyWrong(TwoMembers(f, t), f, t)
  {
    var m := TwoMembers(f, t).members;
    MemberReads(m, f);
    MemberSets(m, t);
  }

  lemma OneMemberCopies(f: seq<string>, t: seq<string>)
    requires f != [] && |t| == 1 && f[0] == t[0]
    ensures CanCopy(Obj(map[f[0] := ReadDoc(f[1..], Null)]), f, t)
    ensures HasBad(f[1..]) ==> CopyWrong(Obj(map[f[0] := ReadDoc(f[1..], Null)]), f, t)
  {
    MemberReads(map[f[0] := ReadDoc(f[1..], Null)], f);
  }

  lemma MemberCopies(c: Json, f: seq<string>, t: seq<string>)
    requires f != [] && |t| > 1 && f[0] == t[0] && CanCopy(c, f[1..], t[1..])
    ensures CanCopy(Obj(map[f[0] := c]), f, t)
    ensures CopyWrong(c, f[1..], t[1..]) ==> CopyWrong(Obj(map[f[0] := c]), f, t)
  {}

  lemma WholeCopies(t: seq<string>)
    requires t != []
    ensures CanCopy(Obj(map[t[0] := WriteDoc(t[1..])]), [], t) && CopyWrong(Obj(map[t[0] := WriteDoc(t[1..])]), [], t)
  {
    MemberSets(map[t[0] := WriteDoc(t[1..])], t);
  }

  lemma LastElementCopies(f: seq<string>, t: seq<string>)
    requires f != [] && |t| == 1 && Index(f[0]) && t[0] == "-"
    ensures CanCopy(ListAt(f[0], ReadDoc(f[1..], Null), f[0], Null), f, t)
    ensures HasBad(f) ==> CopyWrong(ListAt(f[0], ReadDoc(f[1..], Null), f[0], Null), f, t)
  {
    ElementReads(ListAt(f[0], ReadDoc(f[1..], Null), f[0], Null).elems, f);
  }

  lemma PartedElementsCopy(f: seq<string>, t: seq<string>)
    requires f != [] && |t| > 1 && Index(f[0]) && Index(t[0]) && !SameIndexAs(f[0], t[0])
    ensures CanCopy(TwoElements(f, t), f, t)
    ensures HasBad(f) || HasBad(Inner(t)) ==> CopyWrong(TwoElements(f, t), f, t)
  {
    var elems := TwoElements(f, t).elems;
    ElementReads(elems, f);
    ElementSets(elems, t);
  }

  lemma ElementCopies(c: Json, f: seq<string>, t: seq<string>)
    requires f != [] && |t| > 1 && SameIndexAs(f[0], t[0]) && CanCopy(c, f[1..], t[1..])
    ensures CanCopy(ListAt(f[0], c, t[0], Null), f, t)
    ensures Bad(f[0]) || Bad(t[0]) || CopyWrong(c, f[1..], t[1..]) ==> CopyWrong(ListAt(f[0], c, t[0], Null), f, t)
  {
    if !Bad(f[0]) { SameIndex(f[0]); }
    if !Bad(t[0]) { SameIndex(t[0]); }
  }

  lemma {:induction false} CopyWorksSomewhere(f: seq<string>, t: seq<string>) returns (d: Json)
    requires t != []
    ensures CanCopy(d, f, t)
  {
    if f == [] {
      WholeCopies(t);
      d := Obj(map[t[0] := WriteDoc(t[1..])]);
    } else if f[0] != t[0] {
      PartedMembersCopy(f, t);
      d := TwoMembers(f, t);
    } else if |t| == 1 {
      OneMemberCopies(f, t);
      d := Obj(map[f[0] := ReadDoc(f[1..], Null)]);
    } else {
      var c := CopyWorksSomewhere(f[1..], t[1..]);
      MemberCopies(c, f, t);
      d := Obj(map[f[0] := c]);
    }
  }

  lemma {:induction false} CopyDiffersSomewhere(f: seq<string>, t: seq<string>, root: bool) returns (d: Json)
    requires CopyDiffers(f, t, root)
    ensures CanCopy(d, f, t) && CopyWrong(d, f, t)
    ensures root ==> d.Obj?
    decreases |t|, 1
  {
    if f == [] {
      WholeCopies(t);
      d := Obj(map[t[0] := WriteDoc(t[1..])]);
    } else if ObjectCopyDiffers(f, t) {
      d := ObjectCopyDiffersSomewhere(f, t);
    } else {
      d := ListCopyDiffersSomewhere(f, t);
    }
  }

  lemma {:induction false} ObjectCopyDiffersSomewhere(f: seq<string>, t: seq<string>) returns (d: Json)
    requires f != [] && t != [] && ObjectCopyDiffers(f, t)
    ensures CanCopy(d, f, t) && CopyWrong(d, f, t) && d.Obj?
    decreases |t|, 0
  {
    if f[0] != t[0] {
      PartedMembersCopy(f, t);
      d := TwoMembers(f, t);
    } else if |t| == 1 {
      OneMemberCopies(f, t);
      d := Obj(map[f[0] := ReadDoc(f[1..], Null)]);
    } else {
      var c := CopyDiffersSomewhere(f[1..], t[1..], false);
      MemberCopies(c, f, t);
      d := Obj(map[f[0] := c]);
    }
  }

  lemma {:induction false} ListCopyDiffersSomewhere(f: seq<string>, t: seq<string>) returns (d: Json)
    requires f != [] && t != [] && ListCopyDiffers(f, t)
    ensures CanCopy(d, f, t) && CopyWrong(d, f, t)
    decreases |t|, 0
  {
    if |t| == 1 {
      LastElementCopies(f, t);
      d := ListAt(f[0], ReadDoc(f[1..], Null), f[0], Null);
    } else if !SameIndexAs(f[0], t[0]) {
      PartedElementsCopy(f, t);
      d := TwoElements(f, t);
    } else {
      var c;
      if Bad(f[0]) || Bad(t[0]) {
        c := CopyWorksSomewhere(f[1..], t[1..]);
      } else {
        c := CopyDiffersSomewhere(f[1..], t[1..], false);
      }
      ElementCopies(c, f, t);
      d := ListAt(f[0], c, t[0], Null);
    }
  }

  // Elsewhere a copy agrees.

  lemma CopyAgreesApart(cur: Json, f: seq<string>, t: seq<string>, w: Json)
    requires CanCopy(cur, f, t) && !Below(cur, f, t)
    requires if cur.Obj? then !HasBad(Rest(f)) && !HasBad(Inner(Rest(t))) else !HasBad(f) && !HasBad(Inner(t))
    ensures CopyAgrees(cur, f, t, w)
  {
    GetSound(cur, f);
    AnyValueIsSet(cur, t, Null, w);
    AddSound(cur, t, w);
  }

  lemma {:induction false} CopySound(cur: Json, f: seq<string>, t: seq<string>, root: bool, w: Json)
    requires CanCopy(cur, f, t) && !CopyDiffers(f, t, root) && (root ==> cur.Obj?)
    ensures CopyAgrees(cur, f, t, w)
    decreases |t|, 1
  {
    if cur.Obj? {
      if f[0] != t[0] || |t| == 1 {
        CopyAgreesApart(cur, f, t, w);
      } else {
        CopySound(cur.members[f[0]], f[1..], t[1..], false, w);
        CopyAgreesInMember(cur.members, f, t, w);
      }
    } else {
      ListCopySound(cur.elems, f, t, w);
    }
  }

  lemma {:induction false} ListCopySound(elems: seq<Json>, f: seq<string>, t: seq<string>, w: Json)
    requires f != [] && CanCopy(Arr(elems), f, t) && !ListCopyDiffers(f, t)
    ensures CopyAgrees(Arr(elems), f, t, w)
    decreases |t|, 0
  {
    if |t| == 1 {
      OnlyAppends(elems, t);
      CopyAgreesApart(Arr(elems), f, t, w);
    } else if !SameIndexAs(f[0], t[0]) {
      CopyAgreesApart(Arr(elems), f, t, w);
    } else {
      CopySound(elems[Atoi(f[0]).value], f[1..], t[1..], false, w);
      CopyAgreesInElement(elems, f, t, w);
    }
  }

  lemma CopyAgreesInMember(m: Members, f: seq<string>, t: seq<string>, w: Json)
    requires f != [] && |t| > 1 && f[0] == t[0] && f[0] in m && CanCopy(Obj(m), f, t)
    requires CanCopy(m[f[0]], f[1..], t[1..]) && CopyAgrees(m[f[0]], f[1..], t[1..], w)
    ensures CopyAgrees(Obj(m), f, t, w)
  {
    assert t[1..][|t| - 2] == t[|t| - 1];
  }

  lemma CopyAgreesInElement(elems: seq<Json>, f: seq<string>, t: seq<string>, w: Json)
    requires f != [] && |t| > 1 && SameIndexAs(f[0], t[0]) && !Bad(f[0]) && !Bad(t[0])
    requires var i := Atoi(f[0]).value;
             i < |elems| && CanCopy(elems[i], f[1..], t[1..]) && CopyAgrees(elems[i], f[1..], t[1..], w)
    requires CanCopy(Arr(elems), f, t)
    ensures CopyAgrees(Arr(elems), f, t, w)
  {
    assert t[1..][|t| - 2] == t[|t| - 1];
    SameIndex(f[0]);
    SameIndex(t[0]);
  }
}
