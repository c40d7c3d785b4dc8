/** The schema trimmer: which definitions of a Swagger document are kept. */
module Swagger {
  import opened Wrappers
  import opened Text
  import opened Json

  type Definitions = map<string, Members>

  const REF := "$ref"
  const PREFIX := "#/definitions/"

  /** Every $ref string of a schema, wherever it is nested. A `$ref` member is not searched further. */
  function Refs(v: Json): set<string> {
    match v
    case Obj(m) =>
      (if REF in m && m[REF].Str? then {m[REF].s} else {}) +
      (set k, r | k in m && k != REF && r in Refs(m[k]) :: r)
    case Arr(elems) => set i, r | 0 <= i < |elems| && r in Refs(elems[i]) :: r
    case _ => {}
  }

  /** definitionRefs: collects the refs, meeting object members in any order. */
  method CollectRefs(v: Json) returns (refs: seq<string>)
    ensures forall r :: r in refs <==> r in Refs(v)
    decreases v
  {
    refs := [];
    match v {
      case Obj(m) =>
        var keys := m.Keys;
        while keys != {}
          invariant keys <= m.Keys
          invariant forall r :: r in refs <==>
                      (REF in m && REF !in keys && m[REF] == Str(r)) ||
                      exists k :: k in m && k !in keys && k != REF && r in Refs(m[k])
          decreases keys
        {
          var k :| k in keys;
          if k == REF {
            if m[k].Str? {
              refs := refs + [m[k].s];
            }
          } else {
            var nested := CollectRefs(m[k]);
            refs := refs + nested;
          }
          keys := keys - {k};
        }
      case Arr(elems) =>
        for i := 0 to |elems|
          invariant forall r :: r in refs <==> exists j :: 0 <= j < i && r in Refs(elems[j])
        {
          var nested := CollectRefs(elems[i]);
          refs := refs + nested;
        }
      case _ =>
    }
  }

  // ---- The closure ----

  predicate Local(defs: Definitions, ref: string) {
    HasPrefix(ref, PREFIX) && ref[|PREFIX|..] in defs
  }

  function Target(ref: string): string
    requires HasPrefix(ref, PREFIX)
  {
    ref[|PREFIX|..]
  }

  function RefsOf(defs: Definitions, name: string): set<string> {
    if name in defs then Refs(Obj(defs[name])) else {}
  }

  predicate Links(defs: Definitions, a: string, b: string) {
    exists ref | ref in RefsOf(defs, a) :: Local(defs, ref) && Target(ref) == b
  }

  /** A chain of references. */
  ghost predicate Path(defs: Definitions, p: seq<string>) {
    p != [] && forall i | 0 < i < |p| :: Links(defs, p[i - 1], p[i])
  }

  ghost predicate Reachable(defs: Definitions, seeds: set<string>, name: string) {
    exists p :: Path(defs, p) && p[0] in seeds && p[|p| - 1] == name
  }

  /** Every reference of the definition leads to a definition of the document. */
  predicate Resolved(defs: Definitions, name: string) {
    forall ref | ref in RefsOf(defs, name) :: Local(defs, ref)
  }

  ghost predicate Closed(defs: Definitions, names: set<string>) {
    forall a, b | a in names && Links(defs, a, b) :: b in names
  }

  lemma SeedReachable(defs: Definitions, seeds: set<string>, name: string)
    requires name in seeds
    ensures Reachable(defs, seeds, name)
  {
    assert Path(defs, [name]);
  }

  lemma LinkReachable(defs: Definitions, seeds: set<string>, a: string, b: string)
    requires Reachable(defs, seeds, a) && Links(defs, a, b)
    ensures Reachable(defs, seeds, b)
  {
    var p :| Path(defs, p) && p[0] in seeds && p[|p| - 1] == a;
    assert Path(defs, p + [b]);
  }

  lemma {:induction false} PathStaysInside(defs: Definitions, names: set<string>, p: seq<string>)
    requires Closed(defs, names) && Path(defs, p) && p[0] in names
    ensures p[|p| - 1] in names
  {
    if |p| > 1 {
      var front := p[..|p| - 1];
      assert Path(defs, front);
      PathStaysInside(defs, names, front);
      assert Links(defs, p[|p| - 1 - 1], p[|p| - 1]);
    }
  }

  /** What is reachable is the least set that contains the seeds and is closed under references. */
  lemma ReachableIsLeast(defs: Definitions, seeds: set<string>, names: set<string>)
    requires seeds <= names && Closed(defs, names)
    ensures forall n | Reachable(defs, seeds, n) :: n in names
  {
    forall n | Reachable(defs, seeds, n) ensures n in names {
      var p :| Path(defs, p) && p[0] in seeds && p[|p| - 1] == n;
      PathStaysInside(defs, names, p);
    }
  }

  ghost predicate Dangling(defs: Definitions, seeds: set<string>) {
    exists n :: Reachable(defs, seeds, n) && !Resolved(defs, n)
  }

  /** The names whose references are still to be followed: `queue`; all other selected ones are done. */
  ghost predicate Progress(defs: Definitions, seeds: set<string>, selected: set<string>, pending: seq<string>) {
    && seeds <= selected <= defs.Keys
    && (forall n | n in selected :: Reachable(defs, seeds, n))
    && (forall n | n in selected && n !in pending :: Resolved(defs, n))
    && (forall a | a in selected && a !in pending :: LinksInside(defs, a, selected))
  }

  lemma ProgressDone(defs: Definitions, seeds: set<string>, selected: set<string>)
    requires Progress(defs, seeds, selected, [])
    ensures forall n :: n in selected <==> Reachable(defs, seeds, n)
    ensures !Dangling(defs, seeds)
  {
    forall a, b | a in selected && Links(defs, a, b) ensures b in selected { assert LinksInside(defs, a, selected); }
    ReachableIsLeast(defs, seeds, selected);
  }

  /** The worklist loop: follows references, breadth first, until nothing new is pulled in. It ends
      for cyclic schemas too, since every round selects a new definition or shortens the queue. */
  method FollowRefs(defs: Definitions, seeds: map<string, Members>, queue0: seq<string>)
      returns (r: Result<map<string, Members>>)
    requires Restricts(seeds, defs)
    requires forall n :: n in queue0 <==> n in seeds
    ensures r.Failure? <==> Dangling(defs, seeds.Keys)
    ensures r.Success? ==>
              && (forall n :: n in r.value <==> Reachable(defs, seeds.Keys, n))
              && (forall n | n in r.value :: n in defs && r.value[n] == defs[n])
  {
    var selected, queue := seeds, queue0;
    SeedsInLoop(defs, seeds, queue0);
    while queue != []
      invariant InLoop(defs, seeds.Keys, selected, queue)
      decreases defs.Keys - selected.Keys, |queue|
    {
      var ok;
      ok, selected, queue := FollowNext(defs, seeds.Keys, selected, queue);
      if !ok {
        return Failure;
      }
    }
    ProgressDone(defs, seeds.Keys, selected.Keys);
    r := Success(selected);
  }

  /** What every round of the worklist loop keeps. */
  ghost predicate InLoop(defs: Definitions, seeds: set<string>, selected: map<string, Members>, queue: seq<string>) {
    Restricts(selected, defs) && (forall n | n in queue :: n in selected) && Progress(defs, seeds, selected.Keys, queue)
  }

  /** A round has selected something new or shortened the queue. */
  ghost predicate Advanced(defs: Definitions, before: set<string>, after: set<string>, queued: nat, queued': nat) {
    defs.Keys - after < defs.Keys - before || (before == after && queued' < queued)
  }

  lemma SeedsInLoop(defs: Definitions, seeds: map<string, Members>, queue: seq<string>)
    requires Restricts(seeds, defs) && forall n :: n in queue <==> n in seeds
    ensures InLoop(defs, seeds.Keys, seeds, queue)
  {
    forall n | n in seeds ensures Reachable(defs, seeds.Keys, n) { SeedReachable(defs, seeds.Keys, n); }
  }

  /** One turn of the loop: takes the first name off the queue and follows its references. */
  method FollowNext(defs: Definitions, ghost seeds: set<string>, selected0: map<string, Members>, queue0: seq<string>)
    returns (ok: bool, selected: map<string, Members>, queue: seq<string>)
    requires queue0 != [] && InLoop(defs, seeds, selected0, queue0)
    ensures !ok ==> Dangling(defs, seeds)
    ensures ok ==> InLoop(defs, seeds, selected, queue)
    ensures ok ==> Advanced(defs, selected0.Keys, selected.Keys, |queue0|, |queue|)
  {
    var name := queue0[0];
    assert name in queue0;
    var refs := CollectRefs(Obj(selected0[name]));
    RestInLoop(defs, seeds, selected0, queue0);
    ok, selected, queue := Follow(defs, seeds, name, refs, selected0, queue0[1..]);
    if ok {
      RoundDone(defs, seeds, refs, selected0, queue0, selected, queue);
    }
  }

  lemma RestInLoop(defs: Definitions, seeds: set<string>, selected: map<string, Members>, queue: seq<string>)
    requires queue != [] && InLoop(defs, seeds, selected, queue)
    ensures Restricts(selected, defs) && AllReachable(defs, seeds, selected.Keys)
    ensures forall n | n in queue[1..] :: n in selected
    ensures RefsOf(defs, queue[0]) == Refs(Obj(selected[queue[0]]))
    ensures Reachable(defs, seeds, queue[0])
  {
    assert queue[0] in queue;
    assert forall n | n in queue[1..] :: n in queue;
  }

  ghost predicate AllReachable(defs: Definitions, seeds: set<string>, names: set<string>) {
    forall n | n in names :: Reachable(defs, seeds, n)
  }

  /** What following the references `refs` has done to the selection and the queue. */
  ghost predicate Followed(defs: Definitions, seeds: set<string>, refs: seq<string>,
                           selected0: map<string, Members>, queue0: seq<string>, selected: map<string, Members>,
                           queue: seq<string>)
  {
    && Restricts(selected, defs)
    && selected0.Keys <= selected.Keys
    && (forall ref | ref in refs :: Local(defs, ref) && Target(ref) in selected)
    && AllReachable(defs, seeds, selected.Keys)
    && (forall n | n in queue :: n in selected)
    && (forall n | n in selected && n !in selected0 :: n in queue)
    && (forall n | n in queue0 :: n in queue)
    && (selected.Keys == selected0.Keys ==> queue == queue0)
  }

  ghost predicate Restricts(selected: map<string, Members>, defs: Definitions) {
    forall n | n in selected :: n in defs && selected[n] == defs[n]
  }

  /** Selects and queues what one definition refers to; false when a reference leads nowhere. */
  method Follow(defs: Definitions, ghost seeds: set<string>, ghost name: string, refs: seq<string>,
                selected0: map<string, Members>, queue0: seq<string>)
    returns (ok: bool, selected: map<string, Members>, queue: seq<string>)
    requires forall ref :: ref in refs <==> ref in RefsOf(defs, name)
    requires Reachable(defs, seeds, name) && Restricts(selected0, defs) && AllReachable(defs, seeds, selected0.Keys)
    requires forall n | n in queue0 :: n in selected0
    ensures ok <==> Resolved(defs, name)
    ensures !ok ==> Dangling(defs, seeds)
    ensures ok ==> Followed(defs, seeds, refs, selected0, queue0, selected, queue)
  {
    selected, queue := selected0, queue0;
    for i := 0 to |refs|
      invariant Restricts(selected, defs) && selected0.Keys <= selected.Keys
      invariant forall j | 0 <= j < i :: Local(defs, refs[j]) && Target(refs[j]) in selected
      invariant AllReachable(defs, seeds, selected.Keys)
      invariant forall n | n in queue :: n in selected
      invariant forall n | n in selected && n !in selected0 :: n in queue
      invariant forall n | n in queue0 :: n in queue
      invariant selected.Keys == selected0.Keys ==> queue == queue0
    {
      var ref := refs[i];
      assert ref in refs;
      if !HasPrefix(ref, PREFIX) || Target(ref) !in defs {
        assert Reachable(defs, seeds, name) && !Resolved(defs, name);
        return false, selected, queue;
      }
      var refName := Target(ref);
      assert Links(defs, name, refName);
      LinkReachable(defs, seeds, name, refName);
      if refName !in selected {
        selected := selected[refName := defs[refName]];
        queue := queue + [refName];
      }
    }
    ok := true;
  }

  lemma NameDone(defs: Definitions, refs: seq<string>, name: string, selected: set<string>)
    requires forall ref :: ref in refs <==> ref in RefsOf(defs, name)
    requires forall ref | ref in refs :: Local(defs, ref) && Target(ref) in selected
    ensures Resolved(defs, name) && LinksInside(defs, name, selected)
  {}

  ghost predicate LinksInside(defs: Definitions, a: string, names: set<string>) {
    forall b | Links(defs, a, b) :: b in names
  }

  lemma DoneOrQueued(queue0: seq<string>, selected0: set<string>, selected: set<string>, queue: seq<string>)
    requires queue0 != []
    requires forall n | n in queue0[1..] :: n in queue
    requires forall n | n in selected && n !in selected0 :: n in queue
    ensures forall n | n in selected && n !in queue :: n in selected0 && (n == queue0[0] || n !in queue0)
  {
    assert queue0 == [queue0[0]] + queue0[1..];
  }

  /** After the first name has been followed, it is done and everything it refers to is selected. */
  lemma RoundDone(defs: Definitions, seeds: set<string>, refs: seq<string>, selected0: map<string, Members>,
                  queue0: seq<string>,
                  selected: map<string, Members>, queue: seq<string>)
    requires queue0 != [] && InLoop(defs, seeds, selected0, queue0)
    requires forall ref :: ref in refs <==> ref in RefsOf(defs, queue0[0])
    requires Followed(defs, seeds, refs, selected0, queue0[1..], selected, queue)
    ensures InLoop(defs, seeds, selected, queue)
    ensures Advanced(defs, selected0.Keys, selected.Keys, |queue0|, |queue|)
  {
    NameDone(defs, refs, queue0[0], selected.Keys);
    RoundKeepsProgress(defs, seeds, selected0.Keys, queue0, selected.Keys, queue);
    if selected.Keys != selected0.Keys {
      assert defs.Keys - selected.Keys < defs.Keys - selected0.Keys;
    }
  }

  lemma RoundKeepsProgress(defs: Definitions, seeds: set<string>, selected0: set<string>, queue0: seq<string>,
                           selected: set<string>, queue: seq<string>)
    requires queue0 != [] && Progress(defs, seeds, selected0, queue0)
    requires Resolved(defs, queue0[0]) && LinksInside(defs, queue0[0], selected)
    requires selected0 <= selected <= defs.Keys && AllReachable(defs, seeds, selected)
    requires forall n | n in queue0[1..] :: n in queue
    requires forall n | n in selected && n !in selected0 :: n in queue
    ensures Progress(defs, seeds, selected, queue)
  {
    DoneOrQueued(queue0, selected0, selected, queue);
    forall a | a in selected && a !in queue ensures Resolved(defs, a) && LinksInside(defs, a, selected) {
      if a != queue0[0] {
        assert Resolved(defs, a);
        assert LinksInside(defs, a, selected0);
      }
    }
  }

  // ---- The whole trimmer ----

  datatype Gvk = Gvk(group: string, version: string, kind: string)

  function StringMember(m: Members, k: string): string {
    if k in m && m[k].Str? then m[k].s else ""
  }

  const GVK_KEY := "x-kubernetes-group-version-kind"

  function EntryGvk(entry: Members): Gvk {
    Gvk(StringMember(entry, "group"), StringMember(entry, "version"), StringMember(entry, "kind"))
  }

  /** gvkEntries: the group/version/kind entries of a definition. */
  function GvkEntries(def: Members): set<Gvk> {
    if GVK_KEY in def && def[GVK_KEY].Arr? then
      set e | e in def[GVK_KEY].elems && e.Obj? :: EntryGvk(e.members)
    else {}
  }

  /** The definitions the closure starts from: the extra ones and those of a wanted kind. */
  function Seeds(defs: Definitions, extra: seq<string>, wanted: set<Gvk>): set<string> {
    set n | n in defs && (n in extra || GvkEntries(defs[n]) * wanted != {})
  }

  /** trimSwagger, from the parsed definitions to the selected ones. */
  method TrimSwagger(defs: Definitions, extra: seq<string>, wanted: set<Gvk>) returns (r: Result<map<string, Members>>)
    ensures r.Failure? <==>
              || defs == map[]
              || (exists n | n in extra :: n !in defs)
              || Dangling(defs, Seeds(defs, extra, wanted))
    ensures r.Success? ==>
              && (forall n :: n in r.value <==> Reachable(defs, Seeds(defs, extra, wanted), n))
              && (forall n | n in r.value :: n in defs && r.value[n] == defs[n])
  {
    if defs == map[] {
      return Failure;
    }
    var selected: map<string, Members> := map[];
    for i := 0 to |extra|
      invariant forall n :: n in selected <==> n in extra[..i]
      invariant forall n | n in selected :: n in defs && selected[n] == defs[n]
    {
      if extra[i] !in defs {
        return Failure;
      }
      selected := selected[extra[i] := defs[extra[i]]];
    }
    assert extra[..|extra|] == extra;
    var names := defs.Keys;
    while names != {}
      invariant names <= defs.Keys
      invariant forall n :: n in selected <==>
                  n in extra || (n in defs && n !in names && GvkEntries(defs[n]) * wanted != {})
      invariant forall n | n in selected :: n in defs && selected[n] == defs[n]
      decreases names
    {
      var n :| n in names;
      if GvkEntries(defs[n]) * wanted != {} {
        selected := selected[n := defs[n]];
      }
      names := names - {n};
    }
    assert selected.Keys == Seeds(defs, extra, wanted);
    var queue := Enumerate(selected.Keys);
    r := FollowRefs(defs, selected, queue);
  }

  method Enumerate(names: set<string>) returns (queue: seq<string>)
    ensures forall n :: n in queue <==> n in names
  {
    queue := [];
    var rest := names;
    while rest != {}
      invariant rest <= names
      invariant forall n :: n in queue <==> n in names && n !in rest
      decreases rest
    {
      var n :| n in rest;
      queue, rest := queue + [n], rest - {n};
    }
  }

  /** The selection is closed under references, contains the seeds, and lies in every such set. */
  lemma SelectionIsLeast(defs: Definitions, seeds: set<string>, selected: set<string>)
    requires forall n :: n in selected <==> Reachable(defs, seeds, n)
    ensures seeds <= selected && Closed(defs, selected)
    ensures forall names: set<string> | seeds <= names && Closed(defs, names) :: selected <= names
  {
    forall n | n in seeds ensures n in selected { SeedReachable(defs, seeds, n); }
    forall x, y | x in selected && Links(defs, x, y) ensures y in selected { LinkReachable(defs, seeds, x, y); }
    forall names: set<string> | seeds <= names && Closed(defs, names) ensures selected <= names {
      ReachableIsLeast(defs, seeds, names);
    }
  }

  /** Two selections for the same document and seeds, reached in whatever order of the maps and the
      queue, are equal. */
  lemma SelectionIsDetermined(defs: Definitions, seeds: set<string>, a: map<string, Members>, b: map<string, Members>)
    requires Restricts(a, defs) && Restricts(b, defs)
    requires forall n :: n in a.Keys <==> Reachable(defs, seeds, n)
    requires forall n :: n in b.Keys <==> Reachable(defs, seeds, n)
    ensures a == b
  {
    SelectionIsLeast(defs, seeds, a.Keys);
    SelectionIsLeast(defs, seeds, b.Keys);
    assert a.Keys <= b.Keys && b.Keys <= a.Keys;
  }
}
