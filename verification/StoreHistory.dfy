/** What holds of the store over every run of operations and restarts. */
module StoreHistory {
  import opened Wrappers
  import opened Json
  import opened StoreState

  datatype Step = Operation(op: Op) | Restart

  function After(s: State, step: Step): State {
    match step
    case Operation(op) => Apply(s, op)
    case Restart => Reloaded(s)
  }

  /** A run: the store's states and the steps between them. */
  ghost predicate Run(states: seq<State>, steps: seq<Step>) {
    && |states| == |steps| + 1
    && states[0] == Initial()
    && forall i | 0 <= i < |steps| :: states[i + 1] == After(states[i], steps[i])
  }

  // ---- The invariant ----

  predicate UntouchedDefault(r: Ref, o: Object) {
    r == DEFAULT_REF && o == DEFAULT_NAMESPACE
  }

  ghost predicate Inv(s: State) {
    // every object lies under its own namespace and name
    && (forall r | r in s.objects :: r == RefOf(r.kind, s.objects[r]))
    // every version was handed out, the default namespace as created excepted
    && (forall r | r in s.objects :: 1 <= s.objects[r].rv <= s.resourceVer || UntouchedDefault(r, s.objects[r]))
    // no two objects, of whatever kinds, have the same version
    && (forall r, r' | r in s.objects && r' in s.objects && r != r' :: s.objects[r].rv != s.objects[r'].rv)
  }

  lemma InitialInv()
    ensures Inv(Initial())
  {}

  lemma PutInv(s: State, ref: Ref, o: Object)
    requires Inv(s) && ref == RefOf(ref.kind, o) && o.rv == s.resourceVer + 1
    ensures Inv(Put(s, ref, o))
  {}

  /** Taking objects away, or changing what the invariant does not look at, keeps it. */
  lemma SubsetInv(s: State, t: State)
    requires Inv(s) && s.resourceVer <= t.resourceVer
    requires forall r | r in t.objects :: r in s.objects && SameIdentity(s.objects[r], t.objects[r])
    requires forall r | r in t.objects && UntouchedDefault(r, s.objects[r]) :: t.objects[r] == s.objects[r]
    ensures Inv(t)
  {
    forall r | r in t.objects
      ensures r == RefOf(r.kind, t.objects[r])
      ensures 1 <= t.objects[r].rv <= t.resourceVer || UntouchedDefault(r, t.objects[r])
    {
      assert r == RefOf(r.kind, s.objects[r]);
    }
    forall r, r' | r in t.objects && r' in t.objects && r != r' ensures t.objects[r].rv != t.objects[r'].rv {
      assert s.objects[r].rv != s.objects[r'].rv;
    }
  }

  predicate SameIdentity(o: Object, o': Object) {
    o.ns == o'.ns && o.name == o'.name && o.rv == o'.rv
  }

  /** A new version of a stored object. */
  lemma RestampInv(s: State, ref: Ref, o: Object)
    requires Inv(s) && ref in s.objects
    requires o.ns == s.objects[ref].ns && o.name == s.objects[ref].name && o.rv == s.resourceVer + 1
    ensures Inv(Put(s, ref, o))
  {
    assert ref == RefOf(ref.kind, s.objects[ref]);
    PutInv(s, ref, o);
  }

  lemma CreatedKeepsRef(kind: Kind, o: Object, rv: nat)
    ensures RefOf(kind, Created(kind, o, rv)) == RefOf(kind, o) && Created(kind, o, rv).rv == rv
  {}

  lemma CreateInv(s: State, kind: Kind, o: Object)
    requires Inv(s)
    ensures Inv(Apply(s, Create(kind, o)))
  {
    var ref, stored := RefOf(kind, o), Created(kind, o, s.resourceVer + 1);
    if ref !in s.objects {
      CreatedKeepsRef(kind, o, s.resourceVer + 1);
      assert Apply(s, Create(kind, o)) == Put(s, ref, stored);
      PutInv(s, ref, stored);
    }
  }

  lemma RemovalInv(s: State, op: Op)
    requires Inv(s) && (op.Delete? || op.Purge? || op.FillStatus?)
    ensures Inv(Apply(s, op))
  {
    if !Rejected(s, op) { SubsetInv(s, Apply(s, op)); }
  }

  lemma UpdateInv(s: State, kind: Kind, o: Object)
    requires Inv(s)
    ensures Inv(Apply(s, Update(kind, o)))
  {
    var ref := RefOf(kind, o);
    if ref in s.objects {
      var stored := Updated(kind, s.objects[ref], o, s.resourceVer + 1);
      assert stored.ns == o.ns && stored.name == o.name && stored.rv == s.resourceVer + 1;
      assert Apply(s, Update(kind, o)) == Put(s, ref, stored);
      PutInv(s, ref, stored);
    }
  }

  lemma SyncInv(s: State, o: Object)
    requires Inv(s)
    ensures Inv(Apply(s, SyncPodTemplate(o)))
  {
    var ref := RefOf(Pod, o);
    var t := Apply(s, SyncPodTemplate(o));
    if t != s { RestampInv(s, ref, t.objects[ref]); }
  }

  lemma StatusInv(s: State, ref: Ref, status: Json)
    requires Inv(s)
    ensures Inv(Apply(s, SetStatus(ref, status)))
  {
    var t := Apply(s, SetStatus(ref, status));
    if t != s { RestampInv(s, ref, t.objects[ref]); }
  }

  lemma ApplyInv(s: State, op: Op)
    requires Inv(s)
    ensures Inv(Apply(s, op))
  {
    match op {
      case Create(kind, o) => CreateInv(s, kind, o);
      case Update(kind, o) => UpdateInv(s, kind, o);
      case SyncPodTemplate(o) => SyncInv(s, o);
      case SetStatus(ref, status) => StatusInv(s, ref, status);
      case _ => RemovalInv(s, op);
    }
  }

  lemma ReloadInv(s: State)
    requires Inv(s)
    ensures Inv(Reloaded(s))
  {
    var t := State(map r | r in s.objects :: Normalized(r.kind, s.objects[r]), s.resourceVer);
    SubsetInv(s, t);
    if DEFAULT_REF !in t.objects {
      DefaultAddedInv(t);
    }
  }

  lemma DefaultAddedInv(t: State)
    requires Inv(t) && DEFAULT_REF !in t.objects
    ensures Inv(t.(objects := EnsureDefault(t.objects)))
  {
    assert DEFAULT_REF == RefOf(Namespace, DEFAULT_NAMESPACE);
  }

  lemma {:induction false} RunInv(states: seq<State>, steps: seq<Step>, i: nat)
    requires Run(states, steps) && i < |states|
    ensures Inv(states[i])
  {
    if i == 0 {
      InitialInv();
    } else {
      RunInv(states, steps, i - 1);
      assert states[i - 1 + 1] == After(states[i - 1], steps[i - 1]);
      match steps[i - 1] {
        case Operation(op) => ApplyInv(states[i - 1], op);
        case Restart => ReloadInv(states[i - 1]);
      }
    }
  }

  /** Over every run: versions lie between 1 and the counter and are pairwise distinct across all
      kinds, the untouched default namespace excepted. */
  lemma VersionsAreDistinct(states: seq<State>, steps: seq<Step>, i: nat)
    requires Run(states, steps) && i < |states|
    ensures forall r | r in states[i].objects ::
              1 <= states[i].objects[r].rv <= states[i].resourceVer || UntouchedDefault(r, states[i].objects[r])
    ensures forall r, r' | r in states[i].objects && r' in states[i].objects && r != r' ::
              states[i].objects[r].rv != states[i].objects[r'].rv
  {
    RunInv(states, steps, i);
  }

  // ---- The life of an object ----

  /** `ref` is stored in all states from `i` to `j`: one incarnation. */
  ghost predicate Lives(states: seq<State>, ref: Ref, i: nat, j: nat)
    requires i <= j < |states|
  {
    forall k | i <= k <= j :: ref in states[k].objects
  }

  /** How an object may change in one step of its life. */
  predicate Successor(kind: Kind, o: Object, o': Object) {
    && o'.uid == o.uid
    && o.rv <= o'.rv
    && (kind.Deployment? ==> o.generation <= o'.generation && (o.generation == o'.generation ==> o.spec == o'.spec))
  }

  lemma OperationKeepsIdentity(s: State, op: Op, ref: Ref)
    requires Inv(s) && ref in s.objects && ref in Apply(s, op).objects
    ensures Successor(ref.kind, s.objects[ref], Apply(s, op).objects[ref])
  {
    assert s.objects[ref].rv <= s.resourceVer;
    if !Rejected(s, op) && !Unneeded(s, op) {
      match op {
        case Update(kind, o) => assert ref != RefOf(kind, o) || ref.kind == kind;
        case _ =>
      }
    }
  }

  /** One step while an object lives. */
  lemma StepKeepsIdentity(s: State, step: Step, ref: Ref)
    requires Inv(s) && ref in s.objects && ref in After(s, step).objects
    ensures Successor(ref.kind, s.objects[ref], After(s, step).objects[ref])
  {
    if step.Operation? { OperationKeepsIdentity(s, step.op, ref); }
  }

  lemma SuccessorTransitive(kind: Kind, o: Object, o': Object, o'': Object)
    requires Successor(kind, o, o') && Successor(kind, o', o'')
    ensures Successor(kind, o, o'')
  {}

  /** While an object lives its UID is the same and its version never goes down; a Deployment's
      generation never goes down, and two states with the same generation have the same spec. */
  lemma {:induction false} ObjectLife(states: seq<State>, steps: seq<Step>, ref: Ref, i: nat, j: nat)
    requires Run(states, steps) && i <= j < |states| && Lives(states, ref, i, j)
    ensures Successor(ref.kind, states[i].objects[ref], states[j].objects[ref])
    decreases j - i
  {
    if i < j {
      ObjectLife(states, steps, ref, i, j - 1);
      RunInv(states, steps, j - 1);
      assert states[j - 1 + 1] == After(states[j - 1], steps[j - 1]);
      assert ref in states[j - 1].objects && ref in states[j].objects;
      StepKeepsIdentity(states[j - 1], steps[j - 1], ref);
      SuccessorTransitive(ref.kind, states[i].objects[ref], states[j - 1].objects[ref], states[j].objects[ref]);
    }
  }

  // ---- Versions identify contents ----

  /** The steps that change content only under a new version: all but the lazily created container
      statuses, and restarts. */
  predicate Versioned(step: Step) {
    step.Operation? && !step.op.FillStatus?
  }

  /** Whatever carries a version that `a` already knew was stored in `a`, as it is in `b`. */
  ghost predicate KeepsVersions(a: State, b: State) {
    && a.resourceVer <= b.resourceVer
    && forall r | r in b.objects && b.objects[r].rv <= a.resourceVer :: r in a.objects && a.objects[r] == b.objects[r]
  }

  lemma StepKeepsVersions(s: State, step: Step)
    requires Versioned(step)
    ensures KeepsVersions(s, After(s, step))
  {}

  lemma {:induction false} VersionsKept(states: seq<State>, i: nat, j: nat)
    requires i <= j < |states|
    requires forall k | i <= k < j :: KeepsVersions(states[k], states[k + 1])
    ensures KeepsVersions(states[i], states[j])
    decreases j - i
  {
    if i < j {
      VersionsKept(states, i, j - 1);
      assert KeepsVersions(states[j - 1], states[j - 1 + 1]);
    }
  }

  /** Two states of one run that agree on a key's version agree on its object, even if it was deleted
      and created again in between: an object whose version state `i` already knew was there, unchanged. */
  lemma VersionIdentifies(states: seq<State>, steps: seq<Step>, i: nat, j: nat)
    requires Run(states, steps) && i <= j < |states|
    requires forall k | i <= k < j :: Versioned(steps[k])
    ensures KeepsVersions(states[i], states[j])
  {
    forall k | i <= k < j ensures KeepsVersions(states[k], states[k + 1]) {
      StepKeepsVersions(states[k], steps[k]);
    }
    VersionsKept(states, i, j);
  }

  // ---- Snapshot and load ----

  lemma {:induction false} LoadItemsOf(items: seq<(Kind, Object)>, objects: Objects, refs: seq<Ref>)
    requires |refs| == |items|
    requires forall i, j | 0 <= i < j < |refs| :: refs[i] != refs[j]
    requires forall r | r in refs :: r in objects && r == RefOf(r.kind, objects[r])
    requires forall i | 0 <= i < |refs| :: items[i] == (refs[i].kind, objects[refs[i]])
    ensures LoadItems(items) == map r | r in refs :: Normalized(r.kind, objects[r])
  {
    if items != [] {
      var n := |items| - 1;
      LoadItemsOf(items[..n], objects, refs[..n]);
      assert refs == refs[..n] + [refs[n]];
      assert refs[n] in refs;
    }
  }

  /** Loading a snapshot rebuilds the store, whatever the order of its lists: same keys, same objects
      up to the folding of StringData, same counter, plus the default namespace if it was deleted. */
  lemma SnapshotLoadRoundTrip(s: State, snap: Snapshot)
    requires Inv(s) && snap.resourceVer == s.resourceVer && ListsAll(snap.items, s.objects)
    ensures Loaded(snap) == Reloaded(s)
  {
    var refs :| ListedBy(snap.items, s.objects, refs);
    LoadItemsOf(snap.items, s.objects, refs);
    SameKeys(s.objects, refs);
  }

  lemma SameKeys(objects: Objects, refs: seq<Ref>)
    requires forall r :: r in refs <==> r in objects
    ensures (map r | r in refs :: Normalized(r.kind, objects[r])) ==
              (map r | r in objects :: Normalized(r.kind, objects[r]))
  {}

  /** From then on snapshot and load are exact inverses. */
  lemma ReloadTwice(s: State)
    requires Inv(s)
    ensures Reloaded(Reloaded(s)) == Reloaded(s)
  {
    var once := Reloaded(s);
    forall r | r in once.objects ensures Normalized(r.kind, once.objects[r]) == once.objects[r] {
      var o := once.objects[r];
      assert o.data + map[] == o.data;
    }
  }
}
