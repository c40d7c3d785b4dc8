/** What each operation of the store leaves stored, field by field, and that it stays so until another
    operation is about the same object. */
module StoreOperations {
  import opened Json
  import opened StoreState
  import StoreHistory

  /** The place of an object: Namespaces lie in no namespace. */
  function PlaceOf(kind: Kind, o: Object): Ref {
    Ref(kind, Key(if kind == Namespace then "" else o.ns, o.name))
  }

  /** Everything that is in a request's hands. */
  predicate SameContent(stored: Object, o: Object) {
    && stored.ns == o.ns && stored.name == o.name && stored.template == o.template
    && stored.spec == o.spec && stored.status == o.status && stored.data == o.data && stored.stringData == o.stringData
  }

  ghost predicate SameAt(s: State, t: State, r: Ref) {
    (r in t.objects <==> r in s.objects) && (r in s.objects ==> t.objects[r] == s.objects[r])
  }

  /** `t` differs from `s` at `place`, where it has an object, and has counted one version. */
  ghost predicate Stores(s: State, t: State, place: Ref) {
    && place in t.objects && t.resourceVer == s.resourceVer + 1 && t.objects[place].rv == s.resourceVer + 1
    && forall r | r != place :: SameAt(s, t, r)
  }

  /** A creation is refused where there is an object, and otherwise stores what it was given under a UID made
      from its place. */
  lemma CreateStores(s: State, kind: Kind, o: Object)
    ensures var place, t := PlaceOf(kind, o), Apply(s, Create(kind, o));
            if place in s.objects then t == s
            else
              && Stores(s, t, place) && SameContent(t.objects[place], o)
              && t.objects[place].uid == DerivedFrom(place)
              && t.objects[place].generation == if kind == Deployment then 1 else o.generation
  {}

  /** An update is refused where there is none, and otherwise stores what it was given under the old UID; the
      generation of a Deployment goes up by one exactly when its spec is another. */
  lemma UpdateStores(s: State, kind: Kind, o: Object)
    ensures var place, t := PlaceOf(kind, o), Apply(s, Update(kind, o));
            if place !in s.objects then t == s
            else
              var was, stored := s.objects[place], t.objects[place];
              && Stores(s, t, place) && SameContent(stored, o) && stored.uid == was.uid
              && (if kind != Deployment then stored.generation == o.generation
                  else stored.generation == was.generation + if o.spec == was.spec then 0 else 1)
  {}

  /** Replacing a pod's spec and template keeps everything else; equal ones cost no version. */
  lemma SyncStores(s: State, o: Object)
    ensures var place, t := PlaceOf(Pod, o), Apply(s, SyncPodTemplate(o));
            if place !in s.objects || (s.objects[place].spec == o.spec && s.objects[place].template == o.template) then
              t == s
            else
              var was, stored := s.objects[place], t.objects[place];
              && Stores(s, t, place) && stored.spec == o.spec && stored.template == o.template
              && SameContent(stored.(spec := was.spec, template := was.template), was)
              && stored.uid == was.uid && stored.generation == was.generation
  {}

  /** A status that is another one is stored under a new version, and nothing else changes. */
  lemma StatusStores(s: State, place: Ref, status: Json)
    ensures var t := Apply(s, SetStatus(place, status));
            if place !in s.objects || s.objects[place].status == status then t == s
            else
              var was, stored := s.objects[place], t.objects[place];
              && Stores(s, t, place) && stored.status == status && SameContent(stored.(status := was.status), was)
              && stored.uid == was.uid && stored.generation == was.generation
  {}

  /** A pod's status filled in without a new version. */
  lemma FillStores(s: State, key: Key, status: Json)
    ensures var place, t := Ref(Pod, key), Apply(s, FillStatus(key, status));
            if place !in s.objects then t == s
            else
              && t.resourceVer == s.resourceVer && (forall r | r != place :: SameAt(s, t, r))
              && place in t.objects && t.objects[place] == s.objects[place].(status := status)
  {}

  /** A deletion removes the one object and counts no version. */
  lemma DeleteRemoves(s: State, place: Ref)
    ensures var t := Apply(s, Delete(place));
            place !in t.objects && t.resourceVer == s.resourceVer && forall r | r != place :: SameAt(s, t, r)
  {}

  /** After a purge nothing lies in the namespace, and all that lay outside is as it was, the Namespace
      object itself included. */
  lemma PurgeEmpties(s: State, ns: string)
    ensures var t := Apply(s, Purge(ns));
            && (forall r: Ref | r in t.objects :: r.kind == Namespace || r.key.ns != ns)
            && (forall r: Ref | r.kind == Namespace || r.key.ns != ns :: SameAt(s, t, r))
            && t.resourceVer == s.resourceVer + 1
  {}

  /** A restart keeps every object; a Secret's StringData goes over into its Data. If it was missing, the
      default namespace is there again. */
  lemma ReloadKeeps(s: State)
    ensures var t := Reloaded(s);
            && t.resourceVer == s.resourceVer
            && t.objects.Keys == s.objects.Keys + {Ref(Namespace, Key("", "default"))}
            && (Ref(Namespace, Key("", "default")) !in s.objects ==>
                  t.objects[Ref(Namespace, Key("", "default"))] ==
                  Object("", "default", OfDefaultNamespace, 0, 0, Null, Null, Null, map[], map[]))
            && (forall r | r in s.objects && r.kind != Secret :: t.objects[r] == s.objects[r])
            && (forall r | r in s.objects && r.kind == Secret ::
                  var was, now := s.objects[r], t.objects[r];
                  && SameContent(now.(data := was.data, stringData := was.stringData), was)
                  && now.uid == was.uid && now.rv == was.rv && now.generation == was.generation
                  && now.stringData == map[] && now.data.Keys == was.data.Keys + was.stringData.Keys
                  && forall k | k in now.data ::
                       now.data[k] == if k in was.stringData then was.stringData[k] else was.data[k])
  {}

  // ---- Until the next operation ----

  /** The step is about the object at `place`. */
  predicate Touches(step: StoreHistory.Step, place: Ref) {
    match step
    case Operation(Create(kind, o)) => PlaceOf(kind, o) == place
    case Operation(Update(kind, o)) => PlaceOf(kind, o) == place
    case Operation(Delete(r)) => r == place
    case Operation(Purge(ns)) => place.kind != Namespace && place.key.ns == ns
    case Operation(SyncPodTemplate(o)) => PlaceOf(Pod, o) == place
    case Operation(SetStatus(r, _)) => r == place
    case Operation(FillStatus(key, _)) => Ref(Pod, key) == place
    case Restart => place.kind == Secret
  }

  lemma StepLeaves(s: State, step: StoreHistory.Step, place: Ref)
    requires place in s.objects && !Touches(step, place)
    ensures var t := StoreHistory.After(s, step);
            place in t.objects && t.objects[place] == s.objects[place]
  {}

  /** What is stored stays as it is, over restarts too, while no step is about it. */
  lemma {:induction false} StaysStored(states: seq<State>, steps: seq<StoreHistory.Step>, i: nat, j: nat, place: Ref)
    requires StoreHistory.Run(states, steps) && i <= j < |states| && place in states[i].objects
    requires forall k | i <= k < j :: !Touches(steps[k], place)
    ensures place in states[j].objects && states[j].objects[place] == states[i].objects[place]
    decreases j - i
  {
    if i < j {
      StaysStored(states, steps, i, j - 1, place);
      StepLeaves(states[j - 1], steps[j - 1], place);
      assert states[j - 1 + 1] == StoreHistory.After(states[j - 1], steps[j - 1]);
    }
  }

  /** So what an update was given can be read until the next operation on the object. */
  lemma LastUpdateIsRead(states: seq<State>, steps: seq<StoreHistory.Step>, kind: Kind, o: Object, i: nat, j: nat)
    requires StoreHistory.Run(states, steps) && i < j < |states|
    requires steps[i] == StoreHistory.Operation(Update(kind, o)) && PlaceOf(kind, o) in states[i].objects
    requires forall k | i < k < j :: !Touches(steps[k], PlaceOf(kind, o))
    ensures PlaceOf(kind, o) in states[j].objects && SameContent(states[j].objects[PlaceOf(kind, o)], o)
    ensures states[j].objects[PlaceOf(kind, o)].uid == states[i].objects[PlaceOf(kind, o)].uid
  {
    UpdateStores(states[i], kind, o);
    StaysStored(states, steps, i + 1, j, PlaceOf(kind, o));
  }
}
