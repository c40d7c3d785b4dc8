/** The server's patch evaluator against RFC 6902: for which operations a success of the server is a
    success of the RFC on every document, what the server refuses besides, and whole patches. */
module PatchSoundness {
  import opened Wrappers
  import opened Text
  import opened Json
  import opened JsonPatch
  import opened Rfc6902
  import opened PatchRefinement
  import opened PatchMoves
  import JsonPointer

  // ---- One operation ----

  /** What a client must respect for a success of the server to be one of the RFC: no list index that
      only the server reads, no move of a value to below itself, no copy of a container to below
      itself. The root is an object, so the first segment is never an index; the last segment of an
      addition or a replacement is never an index to the server. */
  predicate Sound(op: Op) {
    match op
    case Add(path, _) => SoundWrite(path)
    case Replace(path, _) => SoundWrite(path)
    case Remove(path) => SoundRead(path)
    case Test(path, _) => SoundRead(path)
    case Move(from, path) =>
      (match (JsonPointer.ParsePath(from), JsonPointer.ParsePath(path))
       case (Success(f), Success(t)) => !MoveDiffers(f, t, true)
       case _ => true)
    case Copy(from, path) =>
      (match (JsonPointer.ParsePath(from), JsonPointer.ParsePath(path))
       case (Success(f), Success(t)) => !CopyDiffers(f, t, true)
       case _ => true)
    case Unsupported => true
  }

  predicate SoundWrite(path: string) {
    match JsonPointer.ParsePath(path) case Success(t) => !HasBad(Inner(Rest(t))) case Failure => true
  }

  predicate SoundRead(path: string) {
    match JsonPointer.ParsePath(path) case Success(t) => !HasBad(Rest(t)) case Failure => true
  }

  /** If the server succeeds on this document, the RFC succeeds with the same document. */
  predicate Agrees(doc: Members, op: Op) {
    match Step(doc, op)
    case Done(d) => Evaluated(Obj(doc), op) == Success(Obj(d))
    case Failed(_) => true
    case _ => false
  }

  /** The server does what the RFC does whenever it succeeds, on every document, exactly for the sound
      operations. */
  lemma SoundExactly(op: Op)
    ensures (forall doc: Members :: Agrees(doc, op)) <==> Sound(op)
  {
    if Sound(op) {
      forall doc: Members ensures Agrees(doc, op) { SoundAgrees(doc, op); }
    } else {
      var doc := UnsoundShows(op);
      assert !Agrees(doc, op);
    }
  }

  // ---- Sound operations agree ----

  /** The operation writes only where the server can write in this document. */
  predicate WriteSupported(doc: Json, op: Op) {
    match op
    case Add(path, _) => JsonPointer.ParsePath(path).Success? ==> AddSupported(doc, JsonPointer.ParsePath(path).value)
    case Copy(_, path) => JsonPointer.ParsePath(path).Success? ==> AddSupported(doc, JsonPointer.ParsePath(path).value)
    case Replace(path, _) => JsonPointer.ParsePath(path).Success? ==>
      ReplaceSupported(doc, JsonPointer.ParsePath(path).value)
    case Move(from, path) =>
      (match (JsonPointer.ParsePath(from), JsonPointer.ParsePath(path))
       case (Success(f), Success(t)) =>
         (match RemoveAt(doc, f) case Success(rest) => AddSupported(rest, t) case Failure => true)
       case _ => true)
    case _ => true
  }

  lemma MoveIsSound(doc: Members, from: string, path: string, f: seq<string>, t: seq<string>)
    requires JsonPointer.ParsePath(from) == Success(f) && JsonPointer.ParsePath(path) == Success(t)
    requires CanMove(Obj(doc), f, t) && !MoveDiffers(f, t, true)
    ensures Agrees(doc, Move(from, path)) && WriteSupported(Obj(doc), Move(from, path))
  {
    var r := Delete(Obj(doc), f).value;
    MoveSound(Obj(doc), f, t, true, r.1);
    AnyValueIsSet(r.0, t, Null, r.1);
  }

  lemma CopyIsSound(doc: Members, from: string, path: string, f: seq<string>, t: seq<string>)
    requires JsonPointer.ParsePath(from) == Success(f) && JsonPointer.ParsePath(path) == Success(t)
    requires CanCopy(Obj(doc), f, t) && !CopyDiffers(f, t, true)
    ensures Agrees(doc, Copy(from, path)) && WriteSupported(Obj(doc), Copy(from, path))
  {
    var v := Get(Obj(doc), f).value;
    CopySound(Obj(doc), f, t, true, v);
    AnyValueIsSet(Obj(doc), t, Null, v);
  }

  lemma SoundAgrees(doc: Members, op: Op)
    requires Sound(op)
    ensures Agrees(doc, op) && (Step(doc, op).Failed? || WriteSupported(Obj(doc), op))
  {
    if !Step(doc, op).Failed? {
      match op {
        case Add(path, value) => AddSound(Obj(doc), JsonPointer.ParsePath(path).value, value);
        case Replace(path, value) => ReplaceSound(Obj(doc), JsonPointer.ParsePath(path).value, value);
        case Remove(path) => DeleteSound(Obj(doc), JsonPointer.ParsePath(path).value);
        case Test(path, _) => GetSound(Obj(doc), JsonPointer.ParsePath(path).value);
        case Move(from, path) =>
          var f, t := JsonPointer.ParsePath(from).value, JsonPointer.ParsePath(path).value;
          var r := Delete(Obj(doc), f).value;
          AnyValueIsSet(r.0, t, r.1, Null);
          MoveIsSound(doc, from, path, f, t);
        case Copy(from, path) =>
          var f, t := JsonPointer.ParsePath(from).value, JsonPointer.ParsePath(path).value;
          AnyValueIsSet(Obj(doc), t, Get(Obj(doc), f).value, Null);
          CopyIsSound(doc, from, path, f, t);
      }
    }
  }

  // ---- Other operations differ somewhere ----

  lemma UnsoundWriteShows(t: seq<string>, value: Json) returns (doc: Members)
    requires HasBad(Inner(Rest(t)))
    ensures forall add :: Set(Obj(doc), t, value, add).Success?
    ensures AddAt(Obj(doc), t, value).Failure? && ReplaceAt(Obj(doc), t, value).Failure?
  {
    doc := map[t[0] := WriteDoc(t[1..])];
    forall add ensures Set(Obj(doc), t, value, add).Success? { WriteDocSets(t[1..], value, add); }
    WriteDocRefusesAdd(t[1..], value);
    WriteDocRefusesReplace(t[1..], value);
  }

  lemma UnsoundReadShows(t: seq<string>, leaf: Json) returns (doc: Members)
    requires HasBad(Rest(t))
    ensures Get(Obj(doc), t) == Success(leaf) && Delete(Obj(doc), t).Success?
    ensures Evaluate(Obj(doc), t).Failure? && RemoveAt(Obj(doc), t).Failure?
  {
    doc := map[t[0] := ReadDoc(t[1..], leaf)];
    ReadDocReads(t[1..], leaf);
    ReadDocDeletes(t[1..], leaf);
  }

  lemma UnsoundMoveShows(from: string, path: string, f: seq<string>, t: seq<string>) returns (doc: Members)
    requires JsonPointer.ParsePath(from) == Success(f) && JsonPointer.ParsePath(path) == Success(t)
    requires MoveDiffers(f, t, true)
    ensures !Agrees(doc, Move(from, path))
  {
    var d := MoveDiffersSomewhere(f, t, true);
    doc := d.members;
    var r := Delete(d, f).value;
    AnyValueIsSet(r.0, t, Null, r.1);
    assert Step(doc, Move(from, path)).Done?;
    if Evaluated(d, Move(from, path)).Success? {
      AnyValueIsAdded(RemoveAt(d, f).value, t, Evaluate(d, f).value, Null);
    }
  }

  lemma UnsoundCopyShows(from: string, path: string, f: seq<string>, t: seq<string>) returns (doc: Members)
    requires JsonPointer.ParsePath(from) == Success(f) && JsonPointer.ParsePath(path) == Success(t)
    requires CopyDiffers(f, t, true)
    ensures !Agrees(doc, Copy(from, path))
  {
    var d := CopyDiffersSomewhere(f, t, true);
    doc := d.members;
    var v := Get(d, f).value;
    AnyValueIsSet(d, t, Null, v);
    assert !Step(doc, Copy(from, path)).Failed?;
    if Evaluated(d, Copy(from, path)).Success? {
      AnyValueIsAdded(d, t, Evaluate(d, f).value, Null);
    }
  }

  lemma UnsoundShows(op: Op) returns (doc: Members)
    requires !Sound(op)
    ensures !Agrees(doc, op)
  {
    match op {
      case Add(path, value) => doc := UnsoundWriteShows(JsonPointer.ParsePath(path).value, value);
      case Replace(path, value) => doc := UnsoundWriteShows(JsonPointer.ParsePath(path).value, value);
      case Remove(path) => doc := UnsoundReadShows(JsonPointer.ParsePath(path).value, Null);
      case Test(path, value) => doc := UnsoundReadShows(JsonPointer.ParsePath(path).value, value);
      case Move(from, path) =>
        doc := UnsoundMoveShows(from, path, JsonPointer.ParsePath(from).value, JsonPointer.ParsePath(path).value);
      case Copy(from, path) =>
        doc := UnsoundCopyShows(from, path, JsonPointer.ParsePath(from).value, JsonPointer.ParsePath(path).value);
    }
  }

  /** A move to below its own source, which section 4.4 forbids, is refused on every document exactly
      when its source is the whole document or a member of it, or can be no list element. */
  lemma MoveIntoOwnChildShows(from: string, path: string, f: seq<string>, t: seq<string>)
    requires JsonPointer.ParsePath(from) == Success(f) && JsonPointer.ParsePath(path) == Success(t)
    requires ProperPrefix(f, t)
    ensures (forall doc: Members :: Step(doc, Move(from, path)).Failed?) <==> |f| <= 1 || !Index(f[|f| - 1])
  {
    SoundExactly(Move(from, path));
    forall doc: Members ensures Agrees(doc, Move(from, path)) <==> Step(doc, Move(from, path)).Failed? {
      assert Evaluated(Obj(doc), Move(from, path)).Failure?;
      assert !Step(doc, Move(from, path)).Cyclic?;
    }
    if f != [] { PrefixMoveDiffers(f, t, true); }
  }

  // ---- What the server refuses besides ----

  predicate SizedPath(path: string) {
    match JsonPointer.ParsePath(path) case Success(t) => Sized(t) case Failure => true
  }

  /** No list index beyond 64 bits. */
  predicate SizedOp(op: Op) {
    op.Unsupported? || (SizedPath(op.path) && (op.Move? || op.Copy? ==> SizedPath(op.from)))
  }

  /** What RFC 6902 evaluates and the server can write, the server carries out. */
  lemma CoversRfc6902(doc: Members, op: Op)
    requires Evaluated(Obj(doc), op).Success? && WriteSupported(Obj(doc), op) && SizedOp(op)
    ensures !Step(doc, op).Failed?
  {
    match op {
      case Add(path, value) => AddCovers(Obj(doc), JsonPointer.ParsePath(path).value, value);
      case Replace(path, value) => ReplaceCovers(Obj(doc), JsonPointer.ParsePath(path).value, value);
      case Remove(path) => DeleteCovers(Obj(doc), JsonPointer.ParsePath(path).value);
      case Test(path, _) => GetCovers(Obj(doc), JsonPointer.ParsePath(path).value);
      case Move(from, path) =>
        var f, t := JsonPointer.ParsePath(from).value, JsonPointer.ParsePath(path).value;
        DeleteCovers(Obj(doc), f);
        AddCovers(RemoveAt(Obj(doc), f).value, t, Evaluate(Obj(doc), f).value);
      case Copy(from, path) =>
        var f, t := JsonPointer.ParsePath(from).value, JsonPointer.ParsePath(path).value;
        GetCovers(Obj(doc), f);
        AddCovers(Obj(doc), t, Evaluate(Obj(doc), f).value);
    }
  }

  /** One sound operation: the server succeeds exactly when the RFC does and the write is one the server
      supports, with the same document. */
  lemma StepRefinesRfc6902(doc: Members, op: Op)
    requires Sound(op)
    ensures match Step(doc, op)
            case Done(d) => Evaluated(Obj(doc), op) == Success(Obj(d)) && WriteSupported(Obj(doc), op)
            case Failed(_) => SizedOp(op) ==> Evaluated(Obj(doc), op) == Failure || !WriteSupported(Obj(doc), op)
            case _ => false
  {
    SoundAgrees(doc, op);
    if Evaluated(Obj(doc), op).Success? && WriteSupported(Obj(doc), op) && SizedOp(op) { CoversRfc6902(doc, op); }
  }

  /** A whole patch: if the server ends with a document, it is the one RFC 6902 evaluation gives. So it
      does unless an operation fails or writes into a copied container. */
  lemma PatchRefinesRfc6902(doc: Members, ops: seq<Op>)
    requires forall op | op in ops :: Sound(op)
    ensures match Steps(doc, ops)
            case Done(d) => EvaluatedAll(Obj(doc), ops) == Success(Obj(d))
            case Cyclic => false
            case _ => true
  {
    FollowRefinesRfc6902(doc, {}, ops);
  }

  lemma {:induction false} FollowRefinesRfc6902(doc: Members, places: set<seq<Hop>>, ops: seq<Op>)
    requires forall op | op in ops :: Sound(op)
    ensures match Follow(doc, places, ops)
            case Done(d) => EvaluatedAll(Obj(doc), ops) == Success(Obj(d))
            case Cyclic => false
            case _ => true
    decreases |ops|
  {
    if ops != [] {
      assert ops[0] in ops;
      SoundAgrees(doc, ops[0]);
      var r := Step(doc, ops[0]);
      if r.Done? { FollowRefinesRfc6902(r.doc, Places(Obj(doc), places, ops[0]), ops[1..]); }
    }
  }

  // ---- Operation objects ----

  /** A well-formed operation object decodes to what it says. */
  lemma WellFormedDecodes(raw: Members)
    requires WellFormed(raw)
    ensures match Decode(raw)
            case Add(path, value) => raw["path"] == Str(path) && raw["value"] == value && raw["op"] == Str("add")
            case Replace(path, value) =>
              raw["path"] == Str(path) && raw["value"] == value && raw["op"] == Str("replace")
            case Test(path, value) => raw["path"] == Str(path) && raw["value"] == value && raw["op"] == Str("test")
            case Remove(path) => raw["path"] == Str(path) && raw["op"] == Str("remove")
            case Move(from, path) => raw["path"] == Str(path) && raw["from"] == Str(from) && raw["op"] == Str("move")
            case Copy(from, path) => raw["path"] == Str(path) && raw["from"] == Str(from) && raw["op"] == Str("copy")
            case Unsupported => raw["op"].s !in {"add", "remove", "replace", "move", "copy", "test"}
  {}

  function Default(raw: Members, key: string): Members {
    if key in raw && raw[key].Str? then raw else raw[key := Str("")]
  }

  /** The object with the members that section 4 asks for: an empty `path` and `from` where there is no
      string, a null `value` where there is none. */
  function Completed(raw: Members): Members {
    var r := Default(Default(raw, "path"), "from");
    if "value" in r then r else r["value" := Null]
  }

  /** A malformed operation object is read as its completion. */
  lemma MissingMembersDefault(raw: Members)
    requires "op" in raw && raw["op"].Str?
    ensures WellFormed(Completed(raw)) && Decode(raw) == Decode(Completed(raw))
  {
    KeysDiffer();
  }

  lemma KeysDiffer()
    ensures "op" != "path" && "op" != "from" && "op" != "value" && "path" != "from" && "path" != "value"
    ensures "from" != "value"
  {
    assert "op"[0] == 'o' && "path"[0] == 'p' && "from"[0] == 'f' && "value"[0] == 'v';
  }

  /** A path below the whole document. */
  predicate Inside(path: string) {
    JsonPointer.ParsePath(path).Success? && JsonPointer.ParsePath(path).value != []
  }

  /** The malformed objects that the server carries out: an addition or a replacement without its value,
      a copy without its source, and a test that lacks its value or lacks its path and has an object to
      compare with. */
  predicate Lenient(raw: Members) {
    var op, path := StringAt(raw, "op"), StringAt(raw, "path");
    if op == "add" || op == "replace" then "value" !in raw && Inside(path)
    else if op == "test" then if Inside(path) then "value" !in raw else path == "" && ValueAt(raw, "value").Obj?
    else op == "copy" && StringAt(raw, "from") == "" && Inside(path)
  }

  /** On which malformed objects the server can succeed at all. */
  lemma MissingValueShows(raw: Members)
    requires !WellFormed(raw)
    ensures (exists doc: Members :: !Step(doc, Decode(raw)).Failed?) <==> Lenient(raw)
  {
    if Lenient(raw) {
      var doc := LenientSucceeds(raw);
      assert !Step(doc, Decode(raw)).Failed?;
    } else {
      forall doc: Members ensures Step(doc, Decode(raw)).Failed? { OtherwiseFails(raw, doc); }
    }
  }

  lemma LenientSucceeds(raw: Members) returns (doc: Members)
    requires Lenient(raw)
    ensures !Step(doc, Decode(raw)).Failed?
  {
    var op := Decode(raw);
    if Inside(op.path) {
      var t := JsonPointer.ParsePath(op.path).value;
      if op.Test? {
        doc := map[t[0] := ReadDoc(t[1..], op.value)];
        MemberReadsLeaf(doc, t, op.value);
      } else {
        doc := map[t[0] := WriteDoc(t[1..])];
        MemberSetsAny(doc, t, if op.Copy? then Obj(doc) else op.value, !op.Replace?);
      }
    } else {
      doc := op.value.members;
    }
  }

  lemma MemberReadsLeaf(m: Members, t: seq<string>, leaf: Json)
    requires t != [] && t[0] in m && m[t[0]] == ReadDoc(t[1..], leaf)
    ensures Get(Obj(m), t) == Success(leaf)
  {
    ReadDocReads(t[1..], leaf);
  }

  lemma MemberSetsAny(m: Members, t: seq<string>, value: Json, add: bool)
    requires t != [] && t[0] in m && m[t[0]] == WriteDoc(t[1..])
    ensures Set(Obj(m), t, value, add).Success?
  {
    if |t| > 1 { WriteDocSets(t[1..], value, add); }
  }

  lemma OtherwiseFails(raw: Members, doc: Members)
    requires !WellFormed(raw) && !Lenient(raw)
    ensures Step(doc, Decode(raw)).Failed?
  {
    match Decode(raw) {
      case Test(path, value) =>
        if JsonPointer.ParsePath(path) == Success([]) { assert Get(Obj(doc), []) == Success(Obj(doc)); }
      case _ =>
    }
  }
}
