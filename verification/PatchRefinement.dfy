/** Reading, removing and writing at a path, the server's way and RFC 6902's way: where a path has no
    segment that the two read apart, and where the server can write at all, they do the same. */
module PatchRefinement {
  import opened Wrappers
  import opened Text
  import opened Json
  import opened JsonPatch
  import opened Rfc6902

  // ---- Indices ----

  /** A segment the server can read as an index. */
  predicate Index(seg: string) {
    Atoi(seg).Some? && Atoi(seg).value >= 0
  }

  /** A segment the server reads as an index and RFC 6901 does not: "01", "+1", "-0". */
  predicate Bad(seg: string) {
    Index(seg) && ArrayIndex(seg).None?
  }

  predicate HasBad(segs: seq<string>) {
    exists s | s in segs :: Bad(s)
  }

  /** No index is beyond 64 bits, where the server does not read it. */
  predicate Sized(segs: seq<string>) {
    forall s | s in segs :: ArrayIndex(s).Some? ==> Atoi(s).Some?
  }

  /** A segment that strconv.Atoi and RFC 6901 read alike. */
  predicate CanonicalSegment(seg: string) {
    ArrayIndex(seg).Some? <==> Index(seg)
  }

  predicate Canonical(segs: seq<string>) {
    forall s | s in segs :: CanonicalSegment(s)
  }

  lemma SameIndex(seg: string)
    requires ArrayIndex(seg).Some? && Atoi(seg).Some?
    ensures Atoi(seg).value == ArrayIndex(seg).value
  {
    assert IsDigit(seg[0]);
  }

  lemma CanonicalIsSizedAndGood(segs: seq<string>)
    requires Canonical(segs)
    ensures Sized(segs) && !HasBad(segs)
  {}

  /** All segments but the last. */
  function Inner(segs: seq<string>): seq<string> {
    if segs == [] then [] else segs[..|segs| - 1]
  }

  function Rest(segs: seq<string>): seq<string> {
    if segs == [] then [] else segs[1..]
  }

  lemma HasBadUnfold(segs: seq<string>)
    requires segs != []
    ensures HasBad(segs) <==> Bad(segs[0]) || HasBad(segs[1..])
  {
    assert segs == [segs[0]] + segs[1..];
  }

  lemma InnerUnfold(segs: seq<string>)
    requires |segs| > 1
    ensures HasBad(Inner(segs)) <==> Bad(segs[0]) || HasBad(Inner(segs[1..]))
    ensures Inner(segs)[0] == segs[0]
  {
    assert Inner(segs)[1..] == Inner(segs[1..]);
    HasBadUnfold(Inner(segs));
  }

  lemma InnerHasLess(segs: seq<string>)
    requires !HasBad(segs)
    ensures !HasBad(Inner(segs)) && !HasBad(Rest(segs)) && !HasBad(Inner(Rest(segs)))
  {}

  lemma DashSelectsNothing(cur: Json)
    requires cur.Arr?
    ensures Select(cur, "-") == None
  {
    assert "-"[0] == '-' && !IsDigit('-');
  }

  // ---- Where the server can write ----

  /** The location's parent is a list. */
  predicate InList(doc: Json, tokens: seq<string>) {
    if tokens == [] then false
    else if |tokens| == 1 then doc.Arr?
    else match Select(doc, tokens[0]) case Some(c) => InList(c, tokens[1..]) case None => false
  }

  /** The additions the server carries out: to object members and to the end of a list. */
  predicate AddSupported(doc: Json, tokens: seq<string>) {
    tokens != [] && (InList(doc, tokens) ==> tokens[|tokens| - 1] == "-")
  }

  predicate ReplaceSupported(doc: Json, tokens: seq<string>) {
    tokens != [] && !InList(doc, tokens)
  }

  // ---- Without bad indices, what the server does the RFC does alike ----

  lemma ChildSound(cur: Json, seg: string)
    requires Child(cur, seg).Some? && (cur.Arr? ==> !Bad(seg))
    ensures Select(cur, seg) == Child(cur, seg)
    ensures cur.Arr? ==> ArrayIndex(seg) == Some(IndexAt(seg, |cur.elems|).value)
  {
    if cur.Arr? { SameIndex(seg); }
  }

  lemma {:induction false} GetSound(cur: Json, segs: seq<string>)
    requires Get(cur, segs).Success? && !HasBad(if cur.Obj? then Rest(segs) else segs)
    ensures Evaluate(cur, segs) == Get(cur, segs)
    decreases |segs|
  {
    if segs != [] {
      HasBadUnfold(segs);
      ChildSound(cur, segs[0]);
      if |segs| > 1 { HasBadUnfold(segs[1..]); }
      GetSound(Child(cur, segs[0]).value, segs[1..]);
    }
  }

  lemma {:induction false} DeleteSound(cur: Json, segs: seq<string>)
    requires Delete(cur, segs).Success? && !HasBad(if cur.Obj? then Rest(segs) else segs)
    ensures RemoveAt(cur, segs) == Success(Delete(cur, segs).value.0)
    ensures Evaluate(cur, segs) == Success(Delete(cur, segs).value.1)
    decreases |segs|
  {
    HasBadUnfold(segs);
    ChildSound(cur, segs[0]);
    if |segs| > 1 {
      HasBadUnfold(segs[1..]);
      DeleteSound(Child(cur, segs[0]).value, segs[1..]);
    } else {
      assert segs[1..] == [];
      assert Evaluate(cur, segs) == Evaluate(Select(cur, segs[0]).value, []);
    }
  }

  lemma {:induction false} AddSound(cur: Json, segs: seq<string>, value: Json)
    requires Set(cur, segs, value, true).Success? && !HasBad(if cur.Obj? then Inner(Rest(segs)) else Inner(segs))
    ensures AddAt(cur, segs, value) == Set(cur, segs, value, true) && AddSupported(cur, segs)
    decreases |segs|
  {
    if |segs| > 1 {
      InnerUnfold(segs);
      if cur.Arr? { DashSelectsNothing(cur); }
      ChildSound(cur, segs[0]);
      if |segs| > 2 { InnerUnfold(segs[1..]); }
      AddSound(Child(cur, segs[0]).value, segs[1..], value);
    } else {
      assert segs[1..] == [];
    }
  }

  lemma {:induction false} ReplaceSound(cur: Json, segs: seq<string>, value: Json)
    requires Set(cur, segs, value, false).Success? && !HasBad(if cur.Obj? then Inner(Rest(segs)) else Inner(segs))
    ensures ReplaceAt(cur, segs, value) == Set(cur, segs, value, false) && ReplaceSupported(cur, segs)
    decreases |segs|
  {
    if |segs| > 1 {
      InnerUnfold(segs);
      ChildSound(cur, segs[0]);
      var c := Child(cur, segs[0]).value;
      if |segs| > 2 { InnerUnfold(segs[1..]); }
      ReplaceSound(c, segs[1..], value);
      RemoveThenAddDeeper(cur, segs, RemoveAt(c, segs[1..]).value);
    } else {
      assert segs[1..] == [];
      assert (cur.members - {segs[0]})[segs[0] := value] == cur.members[segs[0] := value];
    }
  }

  lemma {:induction false} RemoveThenAddDeeper(cur: Json, segs: seq<string>, child: Json)
    requires |segs| > 1 && Select(cur, segs[0]).Some?
    ensures Select(Update(cur, segs[0], child), segs[0]) == Some(child)
    ensures forall c :: Update(Update(cur, segs[0], child), segs[0], c) == Update(cur, segs[0], c)
  {
    if cur.Obj? {
      forall c ensures Update(Update(cur, segs[0], child), segs[0], c) == Update(cur, segs[0], c) {
        assert cur.members[segs[0] := child][segs[0] := c] == cur.members[segs[0] := c];
      }
    } else {
      var i := ArrayIndex(segs[0]).value;
      forall c ensures Update(Update(cur, segs[0], child), segs[0], c) == Update(cur, segs[0], c) {
        assert cur.elems[i := child][i := c] == cur.elems[i := c];
      }
    }
  }

  // ---- Within 64 bits, what the RFC does the server does alike where it can write ----

  lemma SelectCovered(cur: Json, seg: string)
    requires Select(cur, seg).Some? && (ArrayIndex(seg).Some? ==> Atoi(seg).Some?)
    ensures Child(cur, seg) == Select(cur, seg)
    ensures cur.Arr? ==> IndexAt(seg, |cur.elems|) == ArrayIndex(seg)
  {
    if cur.Arr? { SameIndex(seg); }
  }

  lemma {:induction false} GetCovers(cur: Json, segs: seq<string>)
    requires Evaluate(cur, segs).Success? && Sized(segs)
    ensures Get(cur, segs) == Evaluate(cur, segs)
  {
    if segs != [] {
      SelectCovered(cur, segs[0]);
      GetCovers(Select(cur, segs[0]).value, segs[1..]);
    }
  }

  lemma {:induction false} DeleteCovers(cur: Json, segs: seq<string>)
    requires RemoveAt(cur, segs).Success? && Sized(segs)
    ensures Evaluate(cur, segs).Success?
    ensures Delete(cur, segs) == Success((RemoveAt(cur, segs).value, Evaluate(cur, segs).value))
  {
    SelectCovered(cur, segs[0]);
    if |segs| > 1 {
      DeleteCovers(Select(cur, segs[0]).value, segs[1..]);
    } else {
      assert segs[1..] == [];
      assert Evaluate(cur, segs) == Evaluate(Select(cur, segs[0]).value, []);
    }
  }

  lemma {:induction false} AddCovers(cur: Json, segs: seq<string>, value: Json)
    requires AddAt(cur, segs, value).Success? && AddSupported(cur, segs) && Sized(segs)
    ensures Set(cur, segs, value, true) == AddAt(cur, segs, value)
  {
    if |segs| > 1 {
      if cur.Arr? { DashSelectsNothing(cur); }
      SelectCovered(cur, segs[0]);
      assert segs[1..][|segs| - 2] == segs[|segs| - 1];
      AddCovers(Select(cur, segs[0]).value, segs[1..], value);
    }
  }

  lemma {:induction false} ReplaceCovers(cur: Json, segs: seq<string>, value: Json)
    requires ReplaceAt(cur, segs, value).Success? && ReplaceSupported(cur, segs) && Sized(segs)
    ensures Set(cur, segs, value, false) == ReplaceAt(cur, segs, value)
  {
    if |segs| > 1 {
      if cur.Arr? { DashSelectsNothing(cur); }
      SelectCovered(cur, segs[0]);
      var c := Select(cur, segs[0]).value;
      RemoveThenAddDeeper(cur, segs, RemoveAt(c, segs[1..]).value);
      ReplaceCovers(c, segs[1..], value);
    } else {
      assert (cur.members - {segs[0]})[segs[0] := value] == cur.members[segs[0] := value];
    }
  }

  // ---- On canonical paths, the two are the same ----

  lemma GetIsEvaluate(cur: Json, segs: seq<string>)
    requires Canonical(segs)
    ensures Get(cur, segs) == Evaluate(cur, segs)
  {
    CanonicalIsSizedAndGood(segs);
    InnerHasLess(segs);
    if Get(cur, segs).Success? { GetSound(cur, segs); }
    if Evaluate(cur, segs).Success? { GetCovers(cur, segs); }
  }

  lemma DeleteIsRemoveAt(cur: Json, segs: seq<string>)
    requires Canonical(segs)
    ensures match Delete(cur, segs)
            case Success(r) => RemoveAt(cur, segs) == Success(r.0) && Evaluate(cur, segs) == Success(r.1)
            case Failure => RemoveAt(cur, segs) == Failure
  {
    CanonicalIsSizedAndGood(segs);
    InnerHasLess(segs);
    if Delete(cur, segs).Success? { DeleteSound(cur, segs); }
    if RemoveAt(cur, segs).Success? { DeleteCovers(cur, segs); }
  }

  lemma SetIsAddAt(cur: Json, segs: seq<string>, value: Json)
    requires Canonical(segs)
    ensures Set(cur, segs, value, true) == if AddSupported(cur, segs) then AddAt(cur, segs, value) else Failure
  {
    CanonicalIsSizedAndGood(segs);
    InnerHasLess(segs);
    if Set(cur, segs, value, true).Success? { AddSound(cur, segs, value); }
    if AddSupported(cur, segs) && AddAt(cur, segs, value).Success? { AddCovers(cur, segs, value); }
  }

  lemma SetIsReplaceAt(cur: Json, segs: seq<string>, value: Json)
    requires Canonical(segs)
    ensures Set(cur, segs, value, false) == if ReplaceSupported(cur, segs) then ReplaceAt(cur, segs, value) else Failure
  {
    CanonicalIsSizedAndGood(segs);
    InnerHasLess(segs);
    if Set(cur, segs, value, false).Success? { ReplaceSound(cur, segs, value); }
    if ReplaceSupported(cur, segs) && ReplaceAt(cur, segs, value).Success? { ReplaceCovers(cur, segs, value); }
  }

  /** For every segment that Atoi accepts and RFC 6901 does not, a list where the server removes an
      element and the RFC reports an error. */
  lemma NonCanonicalIndexShows(seg: string)
    requires Bad(seg)
    ensures var list := Arr(seq(Atoi(seg).value + 1, _ => Null));
            Delete(list, [seg]).Success? && RemoveAt(list, [seg]).Failure?
  {}
}
