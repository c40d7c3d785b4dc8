/** The store itself: an object whose methods change the maps and the version counter in place. */
module Store {
  import opened Wrappers
  import opened Json
  import opened StoreState

  class Store {
    var objects: Objects
    var resourceVer: nat

    function Content(): State
      reads this
    {
      State(objects, resourceVer)
    }

    constructor ()
      ensures Content() == Initial()
    {
      objects, resourceVer := EnsureDefault(map[]), 0;
    }

    /** Load: rebuilds the maps from a snapshot's lists. */
    constructor Load(snap: Snapshot)
      ensures Content() == Loaded(snap)
    {
      objects, resourceVer := map[], snap.resourceVer;
      new;
      for i := 0 to |snap.items|
        invariant objects == LoadItems(snap.items[..i]) && resourceVer == snap.resourceVer
      {
        var (kind, o) := snap.items[i];
        assert snap.items[..i + 1][..i] == snap.items[..i];
        objects := objects[RefOf(kind, o) := Normalized(kind, o)];
      }
      assert snap.items[..|snap.items|] == snap.items;
      if DEFAULT_REF !in objects {
        objects := objects[DEFAULT_REF := DEFAULT_NAMESPACE];
      }
    }

    method IncRV() returns (rv: nat)
      modifies this`resourceVer
      ensures rv == resourceVer == old(resourceVer) + 1
    {
      resourceVer := resourceVer + 1;
      rv := resourceVer;
    }

    method Create(kind: Kind, o: Object) returns (r: Result<Object>)
      modifies this
      ensures Content() == Apply(old(Content()), Op.Create(kind, o))
      ensures r.Failure? <==> Rejected(old(Content()), Op.Create(kind, o))
      ensures r.Success? ==> RefOf(kind, o) in objects && r.value == objects[RefOf(kind, o)]
    {
      var ref := RefOf(kind, o);
      if ref in objects {
        return Failure;
      }
      var rv := IncRV();
      var stored := o.(rv := rv, uid := DerivedFrom(ref));
      if kind.Deployment? {
        stored := stored.(generation := 1);
      }
      objects := objects[ref := stored];
      r := Success(stored);
    }

    method Update(kind: Kind, o: Object) returns (r: Result<Object>)
      modifies this
      ensures Content() == Apply(old(Content()), Op.Update(kind, o))
      ensures r.Failure? <==> Rejected(old(Content()), Op.Update(kind, o))
      ensures r.Success? ==> RefOf(kind, o) in objects && r.value == objects[RefOf(kind, o)]
    {
      var ref := RefOf(kind, o);
      if ref !in objects {
        return Failure;
      }
      var existing := objects[ref];
      var rv := IncRV();
      var stored := o.(uid := existing.uid, rv := rv);
      if kind.Deployment? {
        if o.spec == existing.spec {
          stored := stored.(generation := existing.generation);
        } else {
          stored := stored.(generation := existing.generation + 1);
        }
      }
      objects := objects[ref := stored];
      r := Success(stored);
    }

    method Delete(ref: Ref) returns (ok: bool)
      modifies this
      ensures Content() == Apply(old(Content()), Op.Delete(ref))
      ensures ok <==> !Rejected(old(Content()), Op.Delete(ref))
    {
      if ref !in objects {
        return false;
      }
      objects := objects - {ref};
      ok := true;
    }

    /** PurgeNamespace: deletes, map entry by map entry and in any order, what lies in the namespace. */
    method PurgeNamespace(ns: string)
      modifies this
      ensures Content() == Apply(old(Content()), Purge(ns))
    {
      var refs := objects.Keys;
      while refs != {}
        invariant refs <= old(objects).Keys
        invariant objects == map r | r in old(objects) && (r in refs || !InNamespace(r, ns)) :: old(objects)[r]
        invariant resourceVer == old(resourceVer)
        decreases refs
      {
        var r :| r in refs;
        if InNamespace(r, ns) {
          objects := objects - {r};
        }
        refs := refs - {r};
      }
      resourceVer := resourceVer + 1;
    }

    method SyncPodTemplate(o: Object) returns (found: bool)
      modifies this
      ensures Content() == Apply(old(Content()), Op.SyncPodTemplate(o))
      ensures found <==> RefOf(Pod, o) in old(objects)
    {
      var ref := RefOf(Pod, o);
      if ref !in objects {
        return false;
      }
      var existing := objects[ref];
      if existing.spec == o.spec && existing.template == o.template {
        return true;
      }
      var rv := IncRV();
      objects := objects[ref := existing.(spec := o.spec, template := o.template, rv := rv)];
      found := true;
    }

    /** The status updates: a changed status takes a new version, an unchanged one does not. */
    method SetStatus(ref: Ref, status: Json)
      modifies this
      ensures Content() == Apply(old(Content()), Op.SetStatus(ref, status))
    {
      if ref !in objects || objects[ref].status == status {
        return;
      }
      var rv := IncRV();
      objects := objects[ref := objects[ref].(status := status, rv := rv)];
    }

    /** snapshot: lists the maps in whatever order they are met. */
    method TakeSnapshot() returns (snap: Snapshot)
      ensures snap.resourceVer == resourceVer && ListsAll(snap.items, objects)
    {
      var items: seq<(Kind, Object)>, refs := [], objects.Keys;
      ghost var listed: seq<Ref> := [];
      while refs != {}
        invariant refs <= objects.Keys
        invariant |listed| == |items|
        invariant forall i, j | 0 <= i < j < |listed| :: listed[i] != listed[j]
        invariant forall r :: r in listed <==> r in objects && r !in refs
        invariant forall i | 0 <= i < |listed| ::
                    listed[i] in objects && items[i] == (listed[i].kind, objects[listed[i]])
        decreases refs
      {
        var r :| r in refs;
        items, listed, refs := items + [(r.kind, objects[r])], listed + [r], refs - {r};
      }
      snap := Snapshot(resourceVer, items);
      assert ListedBy(items, objects, listed);
    }
  }
}
