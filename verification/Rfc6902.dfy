/** JSON Patch as section 4 of RFC 6902 defines it, over the pointers of section 4 of RFC 6901. */
module Rfc6902 {
  import opened Wrappers
  import opened Text
  import opened Json
  import opened JsonPatch
  import JsonPointer

  /** RFC 6901, section 4: an array index has digits only and no leading zero. */
  function ArrayIndex(seg: string): Option<nat> {
    if seg != "" && AllDigits(seg) && (seg == "0" || seg[0] != '0') then Some(DigitsValue(seg)) else None
  }

  /** The value a reference token selects; "-" selects nothing that exists. */
  function Select(cur: Json, seg: string): Option<Json> {
    match cur
    case Obj(m) => Lookup(m, seg)
    case Arr(elems) =>
      (match ArrayIndex(seg)
       case Some(i) => if i < |elems| then Some(elems[i]) else None
       case None => None)
    case _ => None
  }

  function Evaluate(doc: Json, tokens: seq<string>): Result<Json> {
    if tokens == [] then Success(doc)
    else match Select(doc, tokens[0]) case Some(c) => Evaluate(c, tokens[1..]) case None => Failure
  }

  /** `cur` with the child that `seg` selects replaced. */
  function Update(cur: Json, seg: string, child: Json): Json
    requires Select(cur, seg).Some?
  {
    match cur
    case Obj(m) => Obj(m[seg := child])
    case Arr(elems) => Arr(elems[ArrayIndex(seg).value := child])
  }

  /** Section 4.1. */
  function AddAt(doc: Json, tokens: seq<string>, value: Json): Result<Json> {
    if tokens == [] then
      Success(value)
    else if |tokens| == 1 then
      match doc
      case Obj(m) => Success(Obj(m[tokens[0] := value]))
      case Arr(elems) =>
        if tokens[0] == "-" then Success(Arr(elems + [value]))
        else (
          match ArrayIndex(tokens[0])
          case Some(i) => if i <= |elems| then Success(Arr(elems[..i] + [value] + elems[i..])) else Failure
          case None => Failure)
      case _ => Failure
    else
      match Select(doc, tokens[0])
      case None => Failure
      case Some(c) =>
        var child :- AddAt(c, tokens[1..], value);
        Success(Update(doc, tokens[0], child))
  }

  /** Section 4.2. Removing the whole document leaves no JSON value and counts as an error. */
  function RemoveAt(doc: Json, tokens: seq<string>): Result<Json> {
    if tokens == [] then
      Failure
    else
      match Select(doc, tokens[0])
      case None => Failure
      case Some(c) =>
        if |tokens| > 1 then
          var child :- RemoveAt(c, tokens[1..]);
          Success(Update(doc, tokens[0], child))
        else
          match doc
          case Obj(m) => Success(Obj(m - {tokens[0]}))
          case Arr(elems) =>
            var i := ArrayIndex(tokens[0]).value;
            Success(Arr(elems[..i] + elems[i + 1..]))
  }

  /** Section 4.3: the target must exist; otherwise removal followed by addition at the same place. */
  function ReplaceAt(doc: Json, tokens: seq<string>, value: Json): Result<Json> {
    if tokens == [] then Success(value)
    else
      var rest :- RemoveAt(doc, tokens);
      AddAt(rest, tokens, value)
  }

  /** The pointer of one location is a proper prefix of the pointer of its descendants. */
  predicate ProperPrefix(a: seq<string>, b: seq<string>) {
    |a| < |b| && a <= b
  }

  function Evaluated(doc: Json, op: Op): Result<Json> {
    match op
    case Add(path, value) =>
      var t :- JsonPointer.ParsePath(path);
      AddAt(doc, t, value)
    case Remove(path) =>
      var t :- JsonPointer.ParsePath(path);
      RemoveAt(doc, t)
    case Replace(path, value) =>
      var t :- JsonPointer.ParsePath(path);
      ReplaceAt(doc, t, value)
    case Move(from, path) =>
      // Section 4.4: a location cannot be moved into one of its children.
      var f :- JsonPointer.ParsePath(from);
      var t :- JsonPointer.ParsePath(path);
      var v :- Evaluate(doc, f);
      if ProperPrefix(f, t) then Failure
      else
        var rest :- RemoveAt(doc, f);
        AddAt(rest, t, v)
    case Copy(from, path) =>
      var f :- JsonPointer.ParsePath(from);
      var t :- JsonPointer.ParsePath(path);
      var v :- Evaluate(doc, f);
      AddAt(doc, t, v)
    case Test(path, value) =>
      var t :- JsonPointer.ParsePath(path);
      var v :- Evaluate(doc, t);
      if v == value then Success(doc) else Failure
    case Unsupported => Failure
  }

  /** Section 5: operations apply in order and an error ends the evaluation. */
  function EvaluatedAll(doc: Json, ops: seq<Op>): Result<Json>
    decreases |ops|
  {
    if ops == [] then Success(doc)
    else
      var d :- Evaluated(doc, ops[0]);
      EvaluatedAll(d, ops[1..])
  }

  /** Section 4: the members an operation object must have. */
  predicate WellFormed(raw: Members) {
    && "op" in raw && raw["op"].Str?
    && "path" in raw && raw["path"].Str?
    && (raw["op"].s in {"add", "replace", "test"} ==> "value" in raw)
    && (raw["op"].s in {"move", "copy"} ==> "from" in raw && raw["from"].Str?)
  }
}
