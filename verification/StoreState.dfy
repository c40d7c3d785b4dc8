/** The content of the store and what each operation does to it. The twelve typed maps of the program
    are one map here, keyed by kind and object key. */
module StoreState {
  import opened Wrappers
  import opened Json

  datatype Kind =
    | Pod | Service | PersistentVolumeClaim | ConfigMap | Secret | Namespace
    | Job | CronJob | Deployment | Ingress | Middleware | IngressRouteTCP

  datatype Key = Key(ns: string, name: string)

  datatype Ref = Ref(kind: Kind, key: Key)

  /** A UID. The program derives it from kind, namespace and name when it creates an object. */
  datatype Uid = NoUid | OfDefaultNamespace | DerivedFrom(ref: Ref)

  /** A stored object. `rv` is the number in resourceVersion, 0 for the empty string. `template` is
      what SyncPodTemplate replaces besides the spec: labels, annotations and owner references. */
  datatype Object = Object(
    ns: string,
    name: string,
    uid: Uid,
    rv: nat,
    generation: nat,
    template: Json,
    spec: Json,
    status: Json,
    data: map<string, string>,
    stringData: map<string, string>)

  type Objects = map<Ref, Object>

  datatype State = State(objects: Objects, resourceVer: nat)

  /** The map key an object is stored under: its own namespace and name; namespaces have no namespace. */
  function KeyOf(kind: Kind, o: Object): Key {
    if kind.Namespace? then Key("", o.name) else Key(o.ns, o.name)
  }

  function RefOf(kind: Kind, o: Object): Ref {
    Ref(kind, KeyOf(kind, o))
  }

  const DEFAULT_REF := Ref(Namespace, Key("", "default"))
  const DEFAULT_NAMESPACE := Object("", "default", OfDefaultNamespace, 0, 0, Null, Null, Null, map[], map[])

  function EnsureDefault(objects: Objects): Objects {
    if DEFAULT_REF in objects then objects else objects[DEFAULT_REF := DEFAULT_NAMESPACE]
  }

  /** A new store. */
  function Initial(): State {
    State(EnsureDefault(map[]), 0)
  }

  // ---- Operations ----

  datatype Op =
    | Create(kind: Kind, o: Object)
    | Update(kind: Kind, o: Object)
    | Delete(ref: Ref)
    | Purge(ns: string)
    | SyncPodTemplate(o: Object)
    | SetStatus(ref: Ref, status: Json)
    | FillStatus(key: Key, status: Json)

  /** What is stored for a created object under version `rv`. */
  function Created(kind: Kind, o: Object, rv: nat): Object {
    o.(rv := rv, uid := DerivedFrom(RefOf(kind, o)), generation := if kind.Deployment? then 1 else o.generation)
  }

  /** What is stored for an update of `existing` under version `rv`: the UID stays, and a Deployment's
      generation counts spec changes. */
  function Updated(kind: Kind, existing: Object, o: Object, rv: nat): Object {
    var stored := o.(rv := rv, uid := existing.uid);
    if !kind.Deployment? then stored
    else if o.spec == existing.spec then stored.(generation := existing.generation)
    else stored.(generation := existing.generation + 1)
  }

  predicate Rejected(s: State, op: Op) {
    match op
    case Create(kind, o) => RefOf(kind, o) in s.objects
    case Update(kind, o) => RefOf(kind, o) !in s.objects
    case Delete(ref) => ref !in s.objects
    case SyncPodTemplate(o) => RefOf(Pod, o) !in s.objects
    case SetStatus(ref, _) => ref !in s.objects
    case FillStatus(key, _) => Ref(Pod, key) !in s.objects
    case Purge(_) => false
  }

  /** The operation asks for what is already stored; the store then leaves the version alone. */
  predicate Unneeded(s: State, op: Op)
    requires !Rejected(s, op)
  {
    match op
    case SyncPodTemplate(o) =>
      var existing := s.objects[RefOf(Pod, o)];
      existing.spec == o.spec && existing.template == o.template
    case SetStatus(ref, status) => s.objects[ref].status == status
    case _ => false
  }

  function Put(s: State, ref: Ref, o: Object): State {
    State(s.objects[ref := o], s.resourceVer + 1)
  }

  predicate InNamespace(r: Ref, ns: string) {
    !r.kind.Namespace? && r.key.ns == ns
  }

  function Apply(s: State, op: Op): State {
    if Rejected(s, op) || Unneeded(s, op) then s
    else
      var rv := s.resourceVer + 1;
      match op
      case Create(kind, o) => Put(s, RefOf(kind, o), Created(kind, o, rv))
      case Update(kind, o) => Put(s, RefOf(kind, o), Updated(kind, s.objects[RefOf(kind, o)], o, rv))
      case Delete(ref) => s.(objects := s.objects - {ref})
      case Purge(ns) => State(map r | r in s.objects && !InNamespace(r, ns) :: s.objects[r], rv)
      case SyncPodTemplate(o) =>
        var existing := s.objects[RefOf(Pod, o)];
        Put(s, RefOf(Pod, o), existing.(spec := o.spec, template := o.template, rv := rv))
      case SetStatus(ref, status) => Put(s, ref, s.objects[ref].(status := status, rv := rv))
      case FillStatus(key, status) =>
        s.(objects := s.objects[Ref(Pod, key) := s.objects[Ref(Pod, key)].(status := status)])
  }

  // ---- Snapshots ----

  /** What is on disk: the counter and, per kind, the objects in whatever order the map gave them. */
  datatype Snapshot = Snapshot(resourceVer: nat, items: seq<(Kind, Object)>)

  /** normalizeSecret: StringData is folded into Data and cleared. */
  function Normalized(kind: Kind, o: Object): Object {
    if kind.Secret? then o.(data := o.data + o.stringData, stringData := map[]) else o
  }

  function LoadItems(items: seq<(Kind, Object)>): Objects {
    if items == [] then map[]
    else
      var (kind, o) := items[|items| - 1];
      LoadItems(items[..|items| - 1])[RefOf(kind, o) := Normalized(kind, o)]
  }

  function Loaded(snap: Snapshot): State {
    State(EnsureDefault(LoadItems(snap.items)), snap.resourceVer)
  }

  /** `items` lists every object of the store once, in some order. */
  ghost predicate ListsAll(items: seq<(Kind, Object)>, objects: Objects) {
    exists refs: seq<Ref> :: ListedBy(items, objects, refs)
  }

  ghost predicate ListedBy(items: seq<(Kind, Object)>, objects: Objects, refs: seq<Ref>) {
    && |refs| == |items|
    && (forall i, j | 0 <= i < j < |refs| :: refs[i] != refs[j])
    && (forall r :: r in refs <==> r in objects)
    && (forall i | 0 <= i < |refs| :: items[i] == (refs[i].kind, objects[refs[i]]))
  }

  /** What a restart leaves of a store. */
  function Reloaded(s: State): State {
    State(EnsureDefault(map r | r in s.objects :: Normalized(r.kind, s.objects[r])), s.resourceVer)
  }
}
