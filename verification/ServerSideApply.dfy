/** Server-side apply: an applied object is compiled to a JSON Patch against the current one. */
module ServerSideApply {
  import opened Wrappers
  import opened Json
  import opened JsonPatch
  import JsonPointer

  const SECTIONS := ["spec", "data", "binaryData", "stringData"]
  const META_FIELDS := ["labels", "annotations"]
  const META := "metadata"

  function AddOp(path: string, value: Json): Members {
    map["op" := Str("add"), "path" := Str(path), "value" := value]
  }

  function RemoveOp(path: string): Members {
    map["op" := Str("remove"), "path" := Str(path)]
  }

  predicate Present(m: Members, k: string) {
    k in m && !m[k].Null?
  }

  function ObjectAt(m: Members, k: string): Option<Members> {
    if k in m && m[k].Obj? then Some(m[k].members) else None
  }

  // ---- What the compiler emits ----

  /** Additions and removals only. */
  predicate CopyFree(patch: seq<Members>) {
    forall raw | raw in patch :: !Decode(raw).Copy?
  }

  lemma AddOrRemove(path: string, value: Json)
    ensures Decode(AddOp(path, value)) == Add(path, value) && Decode(RemoveOp(path)) == Remove(path)
  {
    assert "op" != "path";
  }

  function SectionOps(current: Members, applied: Members, field: string): (ops: seq<Members>)
    ensures CopyFree(ops)
  {
    AddOrRemove("/" + field, ValueAt(applied, field));
    if field in applied then [AddOp("/" + field, applied[field])]
    else if Present(current, field) && field != "spec" then [RemoveOp("/" + field)]
    else []
  }

  function MetaFieldOps(current: Members, applied: Members, field: string): (ops: seq<Members>)
    ensures CopyFree(ops)
  {
    AddOrRemove("/" + META + "/" + field, ValueAt(applied, field));
    if Present(applied, field) then [AddOp("/" + META + "/" + field, applied[field])]
    else if Present(current, field) then [RemoveOp("/" + META + "/" + field)]
    else []
  }

  function SectionsOps(current: Members, applied: Members, fields: seq<string>): (ops: seq<Members>)
    ensures CopyFree(ops)
  {
    if fields == [] then []
    else SectionsOps(current, applied, fields[..|fields| - 1]) + SectionOps(current, applied, fields[|fields| - 1])
  }

  function MetaOps(current: Members, applied: Members, fields: seq<string>): (ops: seq<Members>)
    ensures CopyFree(ops)
  {
    if fields == [] then []
    else MetaOps(current, applied, fields[..|fields| - 1]) + MetaFieldOps(current, applied, fields[|fields| - 1])
  }

  function CurrentMeta(current: Members): Members {
    match ObjectAt(current, META) case Some(m) => m case None => map[]
  }

  function AppliedMeta(applied: Members): Members {
    match ObjectAt(applied, META) case Some(m) => m case None => map[]
  }

  function CreateMeta(current: Members): (ops: seq<Members>)
    ensures CopyFree(ops)
  {
    AddOrRemove("/" + META, Obj(map[]));
    if ObjectAt(current, META).None? then [AddOp("/" + META, Obj(map[]))] else []
  }

  function Ops(current: Members, applied: Members): seq<Members> {
    SectionsOps(current, applied, SECTIONS) +
    CreateMeta(current) +
    MetaOps(CurrentMeta(current), AppliedMeta(applied), META_FIELDS)
  }

  /** The loop over the user-owned sections. */
  method CompileSections(current: Members, applied: Members, fields: seq<string>) returns (ops: seq<Members>)
    ensures ops == SectionsOps(current, applied, fields)
  {
    ops := [];
    for i := 0 to |fields|
      invariant ops == SectionsOps(current, applied, fields[..i])
    {
      var field := fields[i];
      assert fields[..i + 1][..i] == fields[..i];
      if field in applied {
        ops := ops + [AddOp("/" + field, applied[field])];
      } else if field in current && current[field] != Null && field != "spec" {
        ops := ops + [RemoveOp("/" + field)];
      }
    }
    assert fields[..|fields|] == fields;
  }

  /** The loop over labels and annotations. */
  method CompileMeta(current: Members, applied: Members, fields: seq<string>) returns (ops: seq<Members>)
    ensures ops == MetaOps(current, applied, fields)
  {
    ops := [];
    for i := 0 to |fields|
      invariant ops == MetaOps(current, applied, fields[..i])
    {
      var field := fields[i];
      assert fields[..i + 1][..i] == fields[..i];
      if field in applied && applied[field] != Null {
        ops := ops + [AddOp("/" + META + "/" + field, applied[field])];
      } else if field in current && current[field] != Null {
        ops := ops + [RemoveOp("/" + META + "/" + field)];
      }
    }
    assert fields[..|fields|] == fields;
  }

  /** applyPatchOps: appends the operations field by field. */
  method ApplyPatchOps(current: Members, applied: Members) returns (ops: seq<Members>)
    ensures ops == Ops(current, applied)
  {
    ops := CompileSections(current, applied, SECTIONS);
    var currentMeta := CurrentMeta(current);
    var appliedMeta := AppliedMeta(applied);
    if ObjectAt(current, META).None? {
      ops := ops + [AddOp("/" + META, Obj(map[]))];
    }
    var metaOps := CompileMeta(currentMeta, appliedMeta, META_FIELDS);
    ops := ops + metaOps;
  }

  // ---- What an apply is meant to yield ----

  /** One user-owned section: applied's as a whole; omitted, a data-like section goes and a spec stays. */
  function TargetSection(current: Members, applied: Members, k: string): Option<Json> {
    if k in applied then Some(applied[k])
    else if Present(current, k) && k != "spec" then None
    else Lookup(current, k)
  }

  function TargetMetaField(current: Members, applied: Members, fields: seq<string>, k: string): Option<Json> {
    if k !in fields then Lookup(current, k)
    else if Present(applied, k) then Some(applied[k])
    else if Present(current, k) then None
    else Lookup(current, k)
  }

  function TargetMeta(current: Members, applied: Members, fields: seq<string>): Members {
    map k | k in current.Keys + applied.Keys && TargetMetaField(current, applied, fields, k).Some? ::
      TargetMetaField(current, applied, fields, k).value
  }

  /** Which top-level members and which metadata members the applier owns. */
  datatype Layout = Layout(sections: seq<string>, metaFields: seq<string>)

  const USER_OWNED := Layout(SECTIONS, META_FIELDS)

  function TargetMember(current: Members, applied: Members, layout: Layout, k: string): Option<Json> {
    if k in layout.sections then TargetSection(current, applied, k)
    else if k == META then Some(Obj(TargetMeta(CurrentMeta(current), AppliedMeta(applied), layout.metaFields)))
    else Lookup(current, k)
  }

  function TargetFor(current: Members, applied: Members, layout: Layout): Members {
    map k | k in current.Keys + applied.Keys + {META} && TargetMember(current, applied, layout, k).Some? ::
      TargetMember(current, applied, layout, k).value
  }

  /** The object after the apply: user-owned sections from `applied`, labels and annotations likewise,
      every other member as it is. */
  function Target(current: Members, applied: Members): Members {
    TargetFor(current, applied, USER_OWNED)
  }

  // ---- Running the operations ----

  lemma AddsMember(doc: Members, k: string, v: Json)
    requires JsonPointer.PlainToken(k)
    ensures Step(doc, Decode(AddOp("/" + k, v))) == Done(doc[k := v])
  {
    AddOrRemove("/" + k, v);
    JsonPointer.PathOf(k);
  }

  lemma RemovesMember(doc: Members, k: string)
    requires JsonPointer.PlainToken(k) && k in doc
    ensures Step(doc, Decode(RemoveOp("/" + k))) == Done(doc - {k})
  {
    AddOrRemove("/" + k, Null);
    JsonPointer.PathOf(k);
  }

  lemma AddsNested(doc: Members, k: string, f: string, v: Json)
    requires JsonPointer.PlainToken(k) && JsonPointer.PlainToken(f) && k in doc && doc[k].Obj?
    ensures Step(doc, Decode(AddOp("/" + k + "/" + f, v))) == Done(doc[k := Obj(doc[k].members[f := v])])
  {
    AddOrRemove("/" + k + "/" + f, v);
    JsonPointer.NestedPathOf(k, f);
    assert [k, f][1..] == [f];
    assert Set(doc[k], [f], v, true) == Success(Obj(doc[k].members[f := v]));
  }

  lemma RemovesNested(doc: Members, k: string, f: string)
    requires JsonPointer.PlainToken(k) && JsonPointer.PlainToken(f) && k in doc && doc[k].Obj? && f in doc[k].members
    ensures Step(doc, Decode(RemoveOp("/" + k + "/" + f))) == Done(doc[k := Obj(doc[k].members - {f})])
  {
    AddOrRemove("/" + k + "/" + f, Null);
    JsonPointer.NestedPathOf(k, f);
    assert [k, f][1..] == [f];
    assert Delete(doc[k], [f]) == Success((Obj(doc[k].members - {f}), doc[k].members[f]));
  }

  lemma {:induction false} StepsConcat(doc: Members, a: seq<Op>, b: seq<Op>)
    requires Steps(doc, a).Done? && forall op | op in a :: !op.Copy?
    ensures Steps(doc, a + b) == Steps(Steps(doc, a).doc, b)
    decreases |a|
  {
    if a == [] {
      assert a + b == b;
    } else {
      assert a[0] in a && (a + b)[1..] == a[1..] + b;
      assert Places(Obj(doc), {}, a[0]) == {};
      StepsConcat(Step(doc, a[0]).doc, a[1..], b);
    }
  }

  lemma DecodeConcat(a: seq<Members>, b: seq<Members>)
    ensures DecodeAll(a + b) == DecodeAll(a) + DecodeAll(b)
  {}

  lemma RunConcat(doc: Members, a: seq<Members>, b: seq<Members>)
    requires Steps(doc, DecodeAll(a)).Done? && CopyFree(a)
    ensures Steps(doc, DecodeAll(a + b)) == Steps(Steps(doc, DecodeAll(a)).doc, DecodeAll(b))
  {
    DecodeConcat(a, b);
    StepsConcat(doc, DecodeAll(a), DecodeAll(b));
  }

  lemma RunOne(doc: Members, raw: Members)
    ensures Steps(doc, DecodeAll([raw])) == Step(doc, Decode(raw))
    ensures Steps(doc, DecodeAll([])) == Done(doc)
  {
    var ops := DecodeAll([raw]);
    assert ops == [Decode(raw)] && ops[1..] == [];
    var r := Step(doc, ops[0]);
    KeepsNothing(Obj(doc), ops[0]);
    assert r.Done? ==> Follow(r.doc, Places(Obj(doc), {}, ops[0]), ops[1..]) == Done(r.doc);
  }

  /** `doc` with the sections `fields` brought to their target. */
  ghost predicate SectionsDone(doc: Members, current: Members, applied: Members, fields: seq<string>) {
    forall k: string :: Lookup(doc, k) == if k in fields then TargetSection(current, applied, k) else Lookup(current, k)
  }

  lemma SectionRuns(doc: Members, current: Members, applied: Members, k: string)
    requires JsonPointer.PlainToken(k) && Lookup(doc, k) == Lookup(current, k)
    ensures var r := Steps(doc, DecodeAll(SectionOps(current, applied, k)));
            && r.Done?
            && Lookup(r.doc, k) == TargetSection(current, applied, k)
            && forall k': string | k' != k :: Lookup(r.doc, k') == Lookup(doc, k')
  {
    var ops := SectionOps(current, applied, k);
    if k in applied {
      RunOne(doc, ops[0]);
      AddsMember(doc, k, applied[k]);
    } else if Present(current, k) && k != "spec" {
      RunOne(doc, ops[0]);
      RemovesMember(doc, k);
    } else {
      RunOne(doc, map[]);
    }
  }

  lemma {:induction false} SectionsRun(current: Members, applied: Members, fields: seq<string>)
    requires forall i, j | 0 <= i < j < |fields| :: fields[i] != fields[j]
    requires forall k | k in fields :: JsonPointer.PlainToken(k)
    ensures Steps(current, DecodeAll(SectionsOps(current, applied, fields))).Done?
    ensures SectionsDone(Steps(current, DecodeAll(SectionsOps(current, applied, fields))).doc, current, applied, fields)
  {
    if fields == [] {
      RunOne(current, map[]);
    } else {
      var front, k := fields[..|fields| - 1], fields[|fields| - 1];
      assert fields == front + [k] && k in fields && k !in front;
      SectionsRun(current, applied, front);
      var doc := Steps(current, DecodeAll(SectionsOps(current, applied, front))).doc;
      assert Lookup(doc, k) == Lookup(current, k);
      SectionRuns(doc, current, applied, k);
      RunConcat(current, SectionsOps(current, applied, front), SectionOps(current, applied, k));
    }
  }

  ghost predicate MetaDone(meta: Members, current: Members, applied: Members, fields: seq<string>) {
    forall k: string :: Lookup(meta, k) == TargetMetaField(current, applied, fields, k)
  }

  lemma MetaFieldRuns(mid: Members, current: Members, applied: Members, front: seq<string>, k: string)
    requires META in mid && mid[META].Obj? && JsonPointer.PlainToken(k) && JsonPointer.PlainToken(META) && k !in front
    requires MetaDone(mid[META].members, current, applied, front)
    ensures var r := Steps(mid, DecodeAll(MetaFieldOps(current, applied, k)));
            && r.Done?
            && META in r.doc && r.doc[META].Obj?
            && r.doc == mid[META := r.doc[META]]
            && MetaDone(r.doc[META].members, current, applied, front + [k])
  {
    var ops := MetaFieldOps(current, applied, k);
    assert Lookup(mid[META].members, k) == Lookup(current, k);
    if Present(applied, k) {
      RunOne(mid, ops[0]);
      AddsNested(mid, META, k, applied[k]);
    } else if Present(current, k) {
      RunOne(mid, ops[0]);
      RemovesNested(mid, META, k);
    } else {
      RunOne(mid, map[]);
    }
    var before, after := mid[META].members, Steps(mid, DecodeAll(ops)).doc[META].members;
    forall x ensures Lookup(after, x) == TargetMetaField(current, applied, front + [k], x) {
      assert Lookup(before, x) == TargetMetaField(current, applied, front, x);
      assert x in front + [k] <==> x in front || x == k;
    }
  }

  lemma {:induction false} MetaRun(doc: Members, applied: Members, fields: seq<string>)
    requires META in doc && doc[META].Obj? && JsonPointer.PlainToken(META)
    requires forall i, j | 0 <= i < j < |fields| :: fields[i] != fields[j]
    requires forall k | k in fields :: JsonPointer.PlainToken(k)
    ensures var current := doc[META].members;
            var r := Steps(doc, DecodeAll(MetaOps(current, applied, fields)));
            && r.Done?
            && META in r.doc && r.doc[META].Obj?
            && r.doc == doc[META := r.doc[META]]
            && MetaDone(r.doc[META].members, current, applied, fields)
  {
    var current := doc[META].members;
    if fields == [] {
      RunOne(doc, map[]);
    } else {
      var front, k := fields[..|fields| - 1], fields[|fields| - 1];
      assert fields == front + [k] && k in fields && k !in front;
      MetaRun(doc, applied, front);
      var mid := Steps(doc, DecodeAll(MetaOps(current, applied, front))).doc;
      RunConcat(doc, MetaOps(current, applied, front), MetaFieldOps(current, applied, k));
      MetaFieldRuns(mid, current, applied, front, k);
    }
  }

  lemma SameMembers(a: Members, b: Members)
    requires forall k: string :: Lookup(a, k) == Lookup(b, k)
    ensures a == b
  {
    forall k ensures (k in a <==> k in b) && (k in a ==> a[k] == b[k]) {
      assert Lookup(a, k) == Lookup(b, k);
    }
  }

  /** Distinct member names without pointer escapes, and metadata not among the sections. */
  ghost predicate Usable(layout: Layout) {
    && (forall k | k in layout.sections + layout.metaFields + [META] :: JsonPointer.PlainToken(k))
    && (forall i, j | 0 <= i < j < |layout.sections| :: layout.sections[i] != layout.sections[j])
    && (forall i, j | 0 <= i < j < |layout.metaFields| :: layout.metaFields[i] != layout.metaFields[j])
    && META !in layout.sections
  }

  lemma UserOwnedIsUsable()
    ensures Usable(USER_OWNED)
  {}

  lemma MetaExists(d1: Members, current: Members)
    requires Lookup(d1, META) == Lookup(current, META) && JsonPointer.PlainToken(META)
    ensures Steps(d1, DecodeAll(CreateMeta(current))) == Done(d1[META := Obj(CurrentMeta(current))])
  {
    if CreateMeta(current) != [] {
      RunOne(d1, CreateMeta(current)[0]);
      AddsMember(d1, META, Obj(map[]));
    } else {
      RunOne(d1, map[]);
      assert d1[META := Obj(CurrentMeta(current))] == d1;
    }
  }

  lemma ReachesTarget(current: Members, applied: Members, layout: Layout)
    requires Usable(layout)
    ensures var ops := SectionsOps(current, applied, layout.sections) + CreateMeta(current) +
                       MetaOps(CurrentMeta(current), AppliedMeta(applied), layout.metaFields);
            Steps(current, DecodeAll(ops)) == Done(TargetFor(current, applied, layout))
  {
    var cm, am := CurrentMeta(current), AppliedMeta(applied);
    SectionsRun(current, applied, layout.sections);
    var d1 := Steps(current, DecodeAll(SectionsOps(current, applied, layout.sections))).doc;
    assert Lookup(d1, META) == Lookup(current, META);
    MetaExists(d1, current);
    MetaPhase(d1, cm, am, layout.metaFields);
    var d3 := d1[META := Obj(TargetMeta(cm, am, layout.metaFields))];
    RunThree(current, SectionsOps(current, applied, layout.sections), CreateMeta(current),
             MetaOps(cm, am, layout.metaFields),
             d1, d1[META := Obj(cm)], d3);
    PartsAreTarget(d1, d3, current, applied, layout);
  }

  lemma RunThree(doc: Members, a: seq<Members>, b: seq<Members>, c: seq<Members>, d1: Members, d2: Members, d3: Members)
    requires CopyFree(a) && CopyFree(b)
    requires Steps(doc, DecodeAll(a)) == Done(d1) && Steps(d1, DecodeAll(b)) == Done(d2)
    requires Steps(d2, DecodeAll(c)) == Done(d3)
    ensures Steps(doc, DecodeAll(a + b + c)) == Done(d3)
  {
    RunConcat(doc, a, b);
    RunConcat(doc, a + b, c);
  }

  lemma MetaPhase(d1: Members, current: Members, applied: Members, fields: seq<string>)
    requires JsonPointer.PlainToken(META)
    requires forall i, j | 0 <= i < j < |fields| :: fields[i] != fields[j]
    requires forall k | k in fields :: JsonPointer.PlainToken(k)
    ensures Steps(d1[META := Obj(current)], DecodeAll(MetaOps(current, applied, fields))) ==
            Done(d1[META := Obj(TargetMeta(current, applied, fields))])
  {
    var d2 := d1[META := Obj(current)];
    MetaRun(d2, applied, fields);
    var d3 := Steps(d2, DecodeAll(MetaOps(current, applied, fields))).doc;
    MetaIsTarget(d3[META].members, current, applied, fields);
    assert d3 == d1[META := d3[META]];
  }

  /** A document whose sections are done and whose metadata is the target's is the target. */
  lemma PartsAreTarget(d1: Members, d3: Members, current: Members, applied: Members, layout: Layout)
    requires META !in layout.sections && SectionsDone(d1, current, applied, layout.sections)
    requires d3 == d1[META := Obj(TargetMeta(CurrentMeta(current), AppliedMeta(applied), layout.metaFields))]
    ensures d3 == TargetFor(current, applied, layout)
  {
    forall k ensures Lookup(d3, k) == Lookup(TargetFor(current, applied, layout), k) {
      TargetAt(current, applied, layout, k);
      assert Lookup(d1, k) == if k in layout.sections then TargetSection(current, applied, k) else Lookup(current, k);
    }
    SameMembers(d3, TargetFor(current, applied, layout));
  }

  lemma MetaIsTarget(meta: Members, current: Members, applied: Members, fields: seq<string>)
    requires MetaDone(meta, current, applied, fields)
    ensures meta == TargetMeta(current, applied, fields)
  {
    forall k ensures Lookup(meta, k) == Lookup(TargetMeta(current, applied, fields), k) {
      assert Lookup(meta, k) == TargetMetaField(current, applied, fields, k);
    }
    SameMembers(meta, TargetMeta(current, applied, fields));
  }

  lemma TargetAt(current: Members, applied: Members, layout: Layout, k: string)
    ensures Lookup(TargetFor(current, applied, layout), k) == TargetMember(current, applied, layout, k)
  {}

  lemma TargetTwice(current: Members, applied: Members, layout: Layout)
    requires Usable(layout)
    ensures var once := TargetFor(current, applied, layout); TargetFor(once, applied, layout) == once
  {
    var once := TargetFor(current, applied, layout);
    var cm, am := CurrentMeta(current), AppliedMeta(applied);
    var m := TargetMeta(cm, am, layout.metaFields);
    TargetAt(current, applied, layout, META);
    assert CurrentMeta(once) == m;
    forall k: string ensures Lookup(m, k) == TargetMetaField(m, am, layout.metaFields, k) {
      assert Lookup(m, k) == TargetMetaField(cm, am, layout.metaFields, k);
    }
    MetaIsTarget(m, m, am, layout.metaFields);
    forall k ensures Lookup(TargetFor(once, applied, layout), k) == Lookup(once, k) {
      TargetAt(current, applied, layout, k);
      TargetAt(once, applied, layout, k);
    }
    SameMembers(TargetFor(once, applied, layout), once);
  }

  /** The compiled patch never fails, and takes the current object to exactly the target. */
  lemma ApplyReachesTarget(current: Members, applied: Members)
    ensures Steps(current, DecodeAll(Ops(current, applied))) == Done(Target(current, applied))
  {
    UserOwnedIsUsable();
    ReachesTarget(current, applied, USER_OWNED);
  }

  /** Applying the same object again changes nothing. */
  lemma ReapplyIsNoOp(current: Members, applied: Members)
    ensures var once := Target(current, applied);
            Steps(once, DecodeAll(Ops(once, applied))) == Done(once)
  {
    UserOwnedIsUsable();
    ApplyReachesTarget(Target(current, applied), applied);
    TargetTwice(current, applied, USER_OWNED);
  }

  /** Member by member: what a user reads off the target. */
  lemma TargetReads(current: Members, applied: Members, k: string)
    ensures k in SECTIONS && k in applied ==> Lookup(Target(current, applied), k) == Some(applied[k])
    ensures k in SECTIONS && k !in applied && k != "spec" && Present(current, k) ==> k !in Target(current, applied)
    ensures k == "spec" && k !in applied ==> Lookup(Target(current, applied), k) == Lookup(current, k)
    ensures k !in SECTIONS && k != META ==> Lookup(Target(current, applied), k) == Lookup(current, k)
    ensures ObjectAt(Target(current, applied), META).Some?
    ensures var before, after := CurrentMeta(current), CurrentMeta(Target(current, applied));
            if k !in META_FIELDS then Lookup(after, k) == Lookup(before, k)
            else if Present(AppliedMeta(applied), k) then Lookup(after, k) == Some(AppliedMeta(applied)[k])
            else !Present(after, k)
  {
    UserOwnedIsUsable();
    TargetAt(current, applied, USER_OWNED, k);
    TargetAt(current, applied, USER_OWNED, META);
  }

  function MetaOf(doc: Members): Members {
    if "metadata" in doc && doc["metadata"].Obj? then doc["metadata"].members else map[]
  }

  /** What the patch leaves, section by section: an applied one as a whole, one left out removed, but not the
      spec; every other member as it was. */
  lemma ApplyReads(current: Members, applied: Members, k: string)
    ensures match Steps(current, DecodeAll(Ops(current, applied)))
            case Done(doc) =>
              if k in ["spec", "data", "binaryData", "stringData"] then
                if k in applied then Lookup(doc, k) == Some(applied[k])
                else if k == "spec" || k !in current || current[k] == Null then Lookup(doc, k) == Lookup(current, k)
                else k !in doc
              else if k == "metadata" then k in doc && doc[k].Obj?
              else Lookup(doc, k) == Lookup(current, k)
            case _ => false
  {
    ApplyReachesTarget(current, applied);
    TargetReads(current, applied, k);
    TargetAt(current, applied, USER_OWNED, k);
  }

  /** Of the metadata, labels and annotations are the applied ones or gone, and the rest is as it was. */
  lemma ApplyReadsMetadata(current: Members, applied: Members, k: string)
    ensures match Steps(current, DecodeAll(Ops(current, applied)))
            case Done(doc) =>
              var was, given, now := MetaOf(current), MetaOf(applied), MetaOf(doc);
              if k in ["labels", "annotations"] then
                if k in given && given[k] != Null then Lookup(now, k) == Some(given[k]) else k !in now || now[k] == Null
              else
                Lookup(now, k) == Lookup(was, k)
            case _ => false
  {
    ApplyReachesTarget(current, applied);
    TargetReads(current, applied, k);
  }
}
