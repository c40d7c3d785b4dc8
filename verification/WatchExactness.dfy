/** For which watch requests the client's mirror is exactly the listing, in every session. */
module WatchExactness {
  import opened Wrappers
  import opened Text
  import opened Json
  import opened StoreState
  import opened Watch
  import StoreHistory

  ghost predicate History(states: seq<State>, steps: seq<StoreHistory.Step>) {
    StoreHistory.Run(states, steps) && forall k | 0 <= k < |steps| :: StoreHistory.Versioned(steps[k])
  }

  /** After every wake-up of every session on the request the mirror is what is listed at that moment. */
  ghost predicate Exact(q: Request) {
    forall states, steps, at, currents, seens, n: nat |
      History(states, steps) && Session(states, q, at, currents, seens) && n < |at| :: seens[n] == currents[n]
  }

  // ---- Listings of what is stored ----

  /** Such a listing has everything its versions stand for. */
  lemma StoredIsExact(q: Request)
    requires !q.kind.Namespace? && !DerivesStatus(q)
    ensures Exact(q)
  {
    forall states, steps, at, currents, seens, n: nat |
      History(states, steps) && Session(states, q, at, currents, seens) && n < |at|
      ensures seens[n] == currents[n]
    {
      SessionFollowsStore(states, steps, q, at, currents, seens, n);
      SameMirror(seens[n], currents[n], q);
    }
  }

  lemma SameMirror(m: Mirror, current: Mirror, q: Request)
    requires Follows(m, current, q) && !q.kind.Namespace? && !DerivesStatus(q)
    ensures m == current
  {}

  // ---- Namespaces ----

  /** The request selects objects without labels, as the untouched default namespace and every phantom are. */
  predicate SeesPhantoms(q: Request) {
    q.select(Null) && (q.ns.None? || q.ns.value == "")
  }

  /** A watch of namespaces is exact if and only if it does not select objects without labels. */
  lemma NamespacesExactly(q: Request)
    requires q.kind.Namespace?
    ensures Exact(q) <==> !SeesPhantoms(q)
  {
    if SeesPhantoms(q) {
      PhantomShows(q);
    } else {
      forall states, steps, at, currents, seens, n: nat |
        History(states, steps) && Session(states, q, at, currents, seens) && n < |at|
        ensures seens[n] == currents[n]
      {
        SessionFollowsStore(states, steps, q, at, currents, seens, n);
        StoreHistory.RunInv(states, steps, at[n]);
        LabelledMirror(seens[n], currents[n], states[at[n]], q);
      }
    }
  }

  lemma LabelledMirror(m: Mirror, current: Mirror, s: State, q: Request)
    requires q.kind.Namespace? && !SeesPhantoms(q) && StoreHistory.Inv(s)
    requires Mirrors(current, s, q) && Follows(m, current, q)
    ensures m == current
  {
    forall k | k in current ensures m[k] == current[k] {
      var r := Source(s, q, current, k);
      assert r.key.ns == "";
    }
  }

  const DEFAULT_KEY := Key("", "default")

  lemma DefaultListed(s: State, q: Request)
    requires s.objects == map[DEFAULT_REF := DEFAULT_NAMESPACE] && q.kind.Namespace? && SeesPhantoms(q)
    ensures Mirrors(map[DEFAULT_KEY := DEFAULT_NAMESPACE], s, q)
  {
    assert Listed(s, q, DEFAULT_REF) && WatchKey(Candidate(s, q, DEFAULT_REF)) == DEFAULT_KEY;
    forall r | Listed(s, q, r) ensures r == DEFAULT_REF { assert r in s.objects; }
  }

  lemma PhantomListed(s: State, q: Request, r: Ref)
    requires s.objects.Keys == {r} && r.kind.Pod? && r.key.ns == "default" && q.kind.Namespace? && SeesPhantoms(q)
    ensures Mirrors(map[DEFAULT_KEY := Phantom("default")], s, q)
  {
    assert r in s.objects && IsPhantom(s, DEFAULT_REF);
    assert Listed(s, q, DEFAULT_REF) && WatchKey(Candidate(s, q, DEFAULT_REF)) == DEFAULT_KEY;
    forall r' | Listed(s, q, r') ensures r' == DEFAULT_REF { assert IsPhantom(s, r'); }
  }

  /** The default namespace is deleted and a pod is posted into it between two rounds: the listing then
      has the namespace's phantom, which has no version either, so the client keeps the old object. */
  lemma PhantomShows(q: Request)
    requires q.kind.Namespace? && SeesPhantoms(q)
    ensures !Exact(q)
  {
    var pod := Object("default", "p", NoUid, 0, 0, Null, Null, Null, map[], map[]);
    var deletion := StoreHistory.Operation(Delete(DEFAULT_REF));
    var creation := StoreHistory.Operation(Create(Pod, pod));
    var s0 := Initial();
    var s1 := StoreHistory.After(s0, deletion);
    var s2 := StoreHistory.After(s1, creation);
    assert s1.objects == map[] && s2.objects == map[RefOf(Pod, pod) := Created(Pod, pod, 1)];
    DefaultListed(s0, q);
    PhantomListed(s2, q, RefOf(Pod, pod));
    StaleDefault();
    TwoRounds([s0, s1, s2], [deletion, creation], q, 0, 2,
              map[DEFAULT_KEY := DEFAULT_NAMESPACE], map[DEFAULT_KEY := Phantom("default")]);
  }

  lemma StaleDefault()
    ensures var seen, current := map[DEFAULT_KEY := DEFAULT_NAMESPACE], map[DEFAULT_KEY := Phantom("default")];
            Round(seen, current) == seen && seen != current
  {
    var seen, current := map[DEFAULT_KEY := DEFAULT_NAMESPACE], map[DEFAULT_KEY := Phantom("default")];
    assert seen[DEFAULT_KEY] != current[DEFAULT_KEY];
  }

  /** One round after the initial listing is a session. */
  lemma TwoRounds(states: seq<State>, steps: seq<StoreHistory.Step>, q: Request, i: nat, j: nat, first: Mirror,
                  second: Mirror)
    requires History(states, steps) && i <= j < |states|
    requires Mirrors(first, states[i], q) && Mirrors(second, states[j], q) && Round(first, second) != second
    ensures !Exact(q)
  {
    var at: seq<nat>, currents, seens := [i, j], [first, second], [first, Round(first, second)];
    forall n | 0 <= n < |at| ensures at[n] < |states| && Mirrors(currents[n], states[at[n]], q) {
      assert n == 0 || n == 1;
    }
    LeftBehind(states, steps, q, at, currents, seens, 1);
  }

  lemma LeftBehind(states: seq<State>, steps: seq<StoreHistory.Step>, q: Request, at: seq<nat>, currents: seq<Mirror>,
                   seens: seq<Mirror>, n: nat)
    requires History(states, steps) && Session(states, q, at, currents, seens) && n < |at| && seens[n] != currents[n]
    ensures !Exact(q)
  {}

  // ---- The Deployments of one namespace ----

  /** The derived status of a listed Deployment stays the same while its version does. */
  ghost predicate Steady(q: Request) {
    forall states: seq<State>, steps, i: nat, j: nat, r: Ref |
      History(states, steps) && i <= j < |states| && SameListed(states[i], states[j], q, r) ::
      q.derive(states[i], states[i].objects[r]) == q.derive(states[j], states[j].objects[r])
  }

  /** The object is stored and listed in both states, in one version. */
  ghost predicate SameListed(s: State, t: State, q: Request, r: Ref) {
    && r in s.objects && r in t.objects && s.objects[r].rv == t.objects[r].rv
    && Listed(s, q, r) && Listed(t, q, r)
  }

  /** A watch of the Deployments of one namespace is exact if and only if the derived status is steady. */
  lemma DeploymentsExactly(q: Request)
    requires DerivesStatus(q)
    ensures Exact(q) <==> Steady(q)
  {
    if Steady(q) {
      forall states, steps, at, currents, seens, n: nat |
        History(states, steps) && Session(states, q, at, currents, seens) && n < |at|
        ensures seens[n] == currents[n]
      {
        SteadyMirrors(states, steps, q, at, currents, seens, n);
      }
    } else {
      var states: seq<State>, steps, i: nat, j: nat, r: Ref :|
        History(states, steps) && i <= j < |states| && SameListed(states[i], states[j], q, r) &&
        q.derive(states[i], states[i].objects[r]) != q.derive(states[j], states[j].objects[r]);
      UnsteadyShows(states, steps, q, i, j, r);
    }
  }

  lemma {:induction false} SteadyMirrors(states: seq<State>, steps: seq<StoreHistory.Step>, q: Request,
                                         at: seq<nat>, currents: seq<Mirror>, seens: seq<Mirror>, n: nat)
    requires DerivesStatus(q) && Steady(q) && History(states, steps)
    requires Session(states, q, at, currents, seens) && n < |at|
    ensures seens[n] == currents[n]
  {
    if n > 0 {
      SteadyMirrors(states, steps, q, at, currents, seens, n - 1);
      var previous, current := currents[n - 1], currents[n];
      forall k | k in current && Unchanged(previous, current, k) ensures previous[k] == current[k] {
        SteadyAt(states, steps, q, at[n - 1], at[n], previous, current, k);
      }
    }
  }

  /** A listed Deployment is stored under its own key. */
  lemma DeploymentAt(s: State, q: Request, m: Mirror, k: Key) returns (r: Ref)
    requires DerivesStatus(q) && StoreHistory.Inv(s) && Mirrors(m, s, q) && k in m
    ensures r == Ref(Deployment, k) && r in s.objects && Listed(s, q, r)
    ensures m[k] == s.objects[r].(status := q.derive(s, s.objects[r]))
  {
    r := Source(s, q, m, k);
  }

  lemma SteadyAt(states: seq<State>, steps: seq<StoreHistory.Step>, q: Request, i: nat, j: nat, previous: Mirror,
                 current: Mirror, k: Key)
    requires DerivesStatus(q) && Steady(q) && History(states, steps) && i <= j < |states|
    requires Mirrors(previous, states[i], q) && Mirrors(current, states[j], q) && Unchanged(previous, current, k)
    ensures previous[k] == current[k]
  {
    StoreHistory.VersionIdentifies(states, steps, i, j);
    StoreHistory.RunInv(states, steps, i);
    StoreHistory.RunInv(states, steps, j);
    var r := DeploymentAt(states[i], q, previous, k);
    var r' := DeploymentAt(states[j], q, current, k);
    assert SameListed(states[i], states[j], q, r);
    SameVersionSameObject(states[i], states[j], r, r);
  }

  /** The listing of the Deployments of one namespace. */
  ghost function Deployments(s: State, q: Request): Mirror
    requires DerivesStatus(q)
  {
    map k | k in (set r | r in s.objects :: r.key) && Listed(s, q, Ref(Deployment, k)) ::
      Candidate(s, q, Ref(Deployment, k))
  }

  lemma DeploymentsListed(s: State, q: Request)
    requires DerivesStatus(q) && StoreHistory.Inv(s)
    ensures Mirrors(Deployments(s, q), s, q)
  {
    var m := Deployments(s, q);
    forall r | Listed(s, q, r)
      ensures WatchKey(Candidate(s, q, r)) in m && m[WatchKey(Candidate(s, q, r))] == Candidate(s, q, r)
    {
      assert r in s.objects && WatchKey(Candidate(s, q, r)) == r.key;
    }
    forall k | k in m ensures exists r | Listed(s, q, r) :: WatchKey(Candidate(s, q, r)) == k {
      assert WatchKey(Candidate(s, q, Ref(Deployment, k))) == k;
    }
  }

  lemma UnsteadyShows(states: seq<State>, steps: seq<StoreHistory.Step>, q: Request, i: nat, j: nat, r: Ref)
    requires DerivesStatus(q) && History(states, steps) && i <= j < |states| && SameListed(states[i], states[j], q, r)
    requires q.derive(states[i], states[i].objects[r]) != q.derive(states[j], states[j].objects[r])
    ensures !Exact(q)
  {
    StoreHistory.RunInv(states, steps, i);
    StoreHistory.RunInv(states, steps, j);
    DeploymentsListed(states[i], q);
    DeploymentsListed(states[j], q);
    var first, second := Deployments(states[i], q), Deployments(states[j], q);
    assert r.key in first && r.key in second && first[r.key] != second[r.key];
    assert Unchanged(first, second, r.key);
    assert Round(first, second)[r.key] == first[r.key];
    TwoRounds(states, steps, q, i, j, first, second);
  }

  // ---- All listings of the stored kinds ----

  /** The listings whose versions stand for all there is to see. */
  ghost predicate Faithful(q: Request) {
    if q.kind.Namespace? then !SeesPhantoms(q)
    else DerivesStatus(q) ==> Steady(q)
  }

  /** A watch is exact if and only if its listing is faithful. */
  lemma WatchesExactly(q: Request)
    ensures Exact(q) <==> Faithful(q)
  {
    if q.kind.Namespace? {
      NamespacesExactly(q);
    } else if DerivesStatus(q) {
      DeploymentsExactly(q);
    } else {
      StoredIsExact(q);
    }
  }

  /** In a session on a faithful listing the mirror holds exactly the objects listed. */
  lemma SessionMirrorsStore(states: seq<State>, steps: seq<StoreHistory.Step>, q: Request,
                            at: seq<nat>, currents: seq<Mirror>, seens: seq<Mirror>, n: nat)
    requires History(states, steps) && Session(states, q, at, currents, seens) && n < |at| && Faithful(q)
    ensures seens[n] == currents[n] && Mirrors(seens[n], states[at[n]], q)
  {
    WatchesExactly(q);
  }

  // ---- What the server derives ----

  /** deploymentReplicas: an omitted number is one, a negative one none. */
  function Replicas(spec: Json): nat {
    if spec.Obj? && "replicas" in spec.members && spec.members["replicas"].Number? then
      var n := spec.members["replicas"].n.Floor;
      if n < 0 then 0 else n
    else 1
  }

  predicate Running(s: State, ns: string, name: string) {
    var r := Ref(Pod, Key(ns, name));
    r in s.objects && s.objects[r].status.Obj? && Lookup(s.objects[r].status.members, "phase") == Some(Str("Running"))
  }

  /** How many of the first `n` instances of a Deployment are running. */
  function Ready(s: State, ns: string, name: string, n: nat): nat {
    if n == 0 then 0
    else Ready(s, ns, name, n - 1) + if Running(s, ns, name + "-" + Itoa(n - 1)) then 1 else 0
  }

  /** The running instances among the first `n`. */
  function RunningOnes(s: State, ns: string, name: string, n: nat): set<nat> {
    set i: nat | i < n && Running(s, ns, name + "-" + Itoa(i))
  }

  lemma {:induction false} ReadyCounts(s: State, ns: string, name: string, n: nat)
    ensures Ready(s, ns, name, n) == |RunningOnes(s, ns, name, n)|
  {
    if n == 0 {
      assert RunningOnes(s, ns, name, n) == {};
    } else {
      ReadyCounts(s, ns, name, n - 1);
      var front, last: nat := RunningOnes(s, ns, name, n - 1), n - 1;
      assert RunningOnes(s, ns, name, n) == if Running(s, ns, name + "-" + Itoa(last)) then front + {last} else front;
    }
  }

  function Count(n: nat): Json {
    Number(n as real)
  }

  /** withDeploymentStatus: the counts are those of the moment. */
  function LiveStatus(s: State, o: Object): Json {
    var stored := if o.status.Obj? then o.status.members else map[];
    var desired := Replicas(o.spec);
    var ready := Ready(s, o.ns, o.name, desired);
    Obj(stored["observedGeneration" := Count(o.generation)]
        ["replicas" := Count(desired)]["availableReplicas" := Count(ready)]
        ["updatedReplicas" := Count(desired)]["readyReplicas" := Count(ready)])
  }

  /** With the status the server derives, a watch of the Deployments of one namespace is exact if and only
      if it can select none. */
  lemma LiveWatchExactly(q: Request)
    requires DerivesStatus(q) && forall s, o :: q.derive(s, o) == LiveStatus(s, o)
    ensures Exact(q) <==> forall template :: !q.select(template)
  {
    DeploymentsExactly(q);
    if template :| q.select(template) {
      StartedPodShows(q, template);
    }
  }

  /** The one pod of a Deployment starts to run: the Deployment's version stays, its status does not. */
  lemma StartedPodShows(q: Request, template: Json)
    requires DerivesStatus(q) && q.select(template) && forall s, o :: q.derive(s, o) == LiveStatus(s, o)
    ensures !Steady(q)
  {
    var ns := q.ns.value;
    var d := Object(ns, "d", NoUid, 0, 0, template, Null, Null, map[], map[]);
    var p := Object(ns, "d" + "-" + Itoa(0), NoUid, 0, 0, Null, Null,
                   Obj(map["phase" := Str("Running")]), map[], map[]);
    var posting, starting := StoreHistory.Operation(Create(Deployment, d)), StoreHistory.Operation(Create(Pod, p));
    var s0 := Initial();
    var s1 := StoreHistory.After(s0, posting);
    var s2 := StoreHistory.After(s1, starting);
    var r := RefOf(Deployment, d);
    var states, steps := [s0, s1, s2], [posting, starting];
    assert History(states, steps);
    assert SameListed(states[1], states[2], q, r);
    OneReady(s1, ns, "d");
    OneReady(s2, ns, "d");
    var before, after := LiveStatus(s1, s1.objects[r]), LiveStatus(s2, s2.objects[r]);
    assert before.members["readyReplicas"] == Count(0) && after.members["readyReplicas"] == Count(1);
    assert q.derive(states[1], states[1].objects[r]) != q.derive(states[2], states[2].objects[r]);
  }

  lemma OneReady(s: State, ns: string, name: string)
    ensures Ready(s, ns, name, 1) == if Running(s, ns, name + "-" + Itoa(0)) then 1 else 0
  {
    assert Ready(s, ns, name, 0) == 0;
  }
}
