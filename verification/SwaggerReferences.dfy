/** What counts as a reference of a schema and as a definition to start from, told from the document. */
module SwaggerReferences {
  import opened Text
  import opened Json
  import opened Swagger

  /** One step down a schema. */
  datatype Hop = Member(k: string) | Element(i: nat)

  predicate Below(v: Json, hop: Hop) {
    match hop
    case Member(k) => v.Obj? && k in v.members
    case Element(i) => v.Arr? && i < |v.elems|
  }

  function At(v: Json, hop: Hop): Json
    requires Below(v, hop)
  {
    match hop
    case Member(k) => v.members[k]
    case Element(i) => v.elems[i]
  }

  /** The path leads from `v` to an object that refers to `ref`, and not through a "$ref" member. */
  predicate RefAt(v: Json, path: seq<Hop>, ref: string)
    decreases |path|
  {
    if path == [] then v.Obj? && "$ref" in v.members && v.members["$ref"] == Str(ref)
    else path[0] != Member("$ref") && Below(v, path[0]) && RefAt(At(v, path[0]), path[1..], ref)
  }

  lemma RefBehind(v: Json, hop: Hop, path: seq<Hop>, ref: string)
    requires hop != Member("$ref") && Below(v, hop) && RefAt(At(v, hop), path, ref)
    ensures RefAt(v, [hop] + path, ref)
  {
    assert ([hop] + path)[1..] == path;
  }

  lemma {:induction false} RefsHavePaths(v: Json, ref: string) returns (path: seq<Hop>)
    requires ref in Refs(v)
    ensures RefAt(v, path, ref)
    decreases v
  {
    path := [];
    match v {
      case Obj(m) =>
        if !RefAt(v, [], ref) {
          var k :| k in m && k != REF && ref in Refs(m[k]);
          path := RefsHavePaths(m[k], ref);
          RefBehind(v, Member(k), path, ref);
          path := [Member(k)] + path;
        }
      case Arr(elems) =>
        var i: nat :| i < |elems| && ref in Refs(elems[i]);
        path := RefsHavePaths(elems[i], ref);
        RefBehind(v, Element(i), path, ref);
        path := [Element(i)] + path;
      case _ =>
    }
  }

  lemma {:induction false} PathsAreRefs(v: Json, path: seq<Hop>, ref: string)
    requires RefAt(v, path, ref)
    ensures ref in Refs(v)
    decreases |path|
  {
    if path != [] {
      PathsAreRefs(At(v, path[0]), path[1..], ref);
      match path[0] {
        case Member(k) => assert ref in Refs(v.members[k]);
        case Element(i) => assert ref in Refs(v.elems[i]);
      }
    }
  }

  /** A schema refers to what its "$ref" strings name, wherever they are nested in members and lists. */
  lemma RefsAreNested(v: Json, ref: string)
    ensures ref in Refs(v) <==> RefersTo(v, ref)
  {
    if ref in Refs(v) {
      var path := RefsHavePaths(v, ref);
      assert RefersTo(v, ref);
    }
    if RefersTo(v, ref) {
      var path :| RefAt(v, path, ref);
      PathsAreRefs(v, path, ref);
    }
  }

  ghost predicate RefersTo(v: Json, ref: string) {
    exists path :: RefAt(v, path, ref)
  }

  lemma PrefixedName(ref: string, name: string)
    ensures HasPrefix(ref, "#/definitions/") && ref[|"#/definitions/"|..] == name <==> ref == "#/definitions/" + name
  {
    assert ("#/definitions/" + name)[|"#/definitions/"|..] == name;
    if HasPrefix(ref, "#/definitions/") { assert ref == ref[..|"#/definitions/"|] + ref[|"#/definitions/"|..]; }
  }

  lemma LocalIsNamed(defs: Definitions, ref: string)
    ensures Local(defs, ref) <==> exists n | n in defs :: ref == "#/definitions/" + n
  {
    if Local(defs, ref) { PrefixedName(ref, ref[|PREFIX|..]); }
    if n :| n in defs && ref == "#/definitions/" + n { PrefixedName(ref, n); }
  }

  /** A definition leads to those it refers to by their place in the document. */
  lemma LinksAreReferences(defs: Definitions, a: string, b: string)
    requires a in defs
    ensures Links(defs, a, b) <==> b in defs && "#/definitions/" + b in Refs(Obj(defs[a]))
  {
    if Links(defs, a, b) {
      var ref :| ref in RefsOf(defs, a) && Local(defs, ref) && Target(ref) == b;
      PrefixedName(ref, b);
    }
    if b in defs && "#/definitions/" + b in Refs(Obj(defs[a])) {
      var ref := "#/definitions/" + b;
      PrefixedName(ref, b);
      assert ref in RefsOf(defs, a) && Local(defs, ref) && Target(ref) == b;
    }
  }

  /** Each of its references must be of that form. */
  lemma ResolvedAreReferences(defs: Definitions, a: string)
    requires a in defs
    ensures Resolved(defs, a) <==>
            forall ref | ref in Refs(Obj(defs[a])) :: exists n | n in defs :: ref == "#/definitions/" + n
  {
    assert RefsOf(defs, a) == Refs(Obj(defs[a]));
    forall ref | ref in Refs(Obj(defs[a])) { LocalIsNamed(defs, ref); }
  }

  predicate HasText(entry: Members, key: string, text: string) {
    if key in entry && entry[key].Str? then entry[key].s == text else text == ""
  }

  /** The entry says this group, version and kind; what it leaves out is empty. */
  predicate Says(entry: Json, g: Gvk) {
    && entry.Obj? && HasText(entry.members, "group", g.group) && HasText(entry.members, "version", g.version)
    && HasText(entry.members, "kind", g.kind)
  }

  predicate SaysAny(entries: Json, wanted: set<Gvk>) {
    entries.Arr? && exists e, g | e in entries.elems && g in wanted :: Says(e, g)
  }

  /** The closure starts from the extra definitions and from those an entry of which is wanted. */
  lemma SeedsAreWanted(defs: Definitions, extra: seq<string>, wanted: set<Gvk>, n: string)
    ensures n in Seeds(defs, extra, wanted) <==>
            && n in defs
            && (n in extra
                || ("x-kubernetes-group-version-kind" in defs[n]
                    && SaysAny(defs[n]["x-kubernetes-group-version-kind"], wanted)))
  {
    if n in defs {
      var entries := GvkEntries(defs[n]);
      if entries * wanted != {} {
        var g :| g in entries * wanted;
        var e :| e in defs[n][GVK_KEY].elems && e.Obj? && g == EntryGvk(e.members);
        assert Says(e, g);
      }
      if "x-kubernetes-group-version-kind" in defs[n] && SaysAny(defs[n]["x-kubernetes-group-version-kind"], wanted) {
        var e, g :| e in defs[n]["x-kubernetes-group-version-kind"].elems && g in wanted && Says(e, g);
        assert g == EntryGvk(e.members) && g in entries * wanted;
      }
    }
  }
}
