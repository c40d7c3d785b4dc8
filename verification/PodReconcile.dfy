/** Keeping the store's Pods in step with the live containers. */
module PodReconcile {
  import opened Wrappers
  import opened StoreState

  /** A live container's q8s labels, "" when absent, its image, and the phase and health-derived
      readiness its state stands for. */
  datatype Container =
    Container(ns: string, pod: string, deployment: string, container: string, image: string, phase: string)

  datatype PodObject = PodObject(owned: bool, container: string, image: string, phase: string, rv: nat)

  datatype DeploymentObject = DeploymentObject(image: string, rv: nat)

  datatype World = World(
    namespaces: set<string>,
    deployments: map<Key, DeploymentObject>,
    pods: map<Key, PodObject>,
    resourceVer: nat)

  /** isValidObjectName: a lower-case label of at most 253 characters, no dash at either end. */
  predicate ValidName(s: string) {
    && 0 < |s| <= 253
    && forall i | 0 <= i < |s| ::
         'a' <= s[i] <= 'z' || '0' <= s[i] <= '9' || (s[i] == '-' && 0 < i < |s| - 1)
  }

  predicate Labelled(c: Container) {
    ValidName(c.pod) && ValidName(c.ns)
  }

  function PodKey(c: Container): Key {
    Key(c.ns, c.pod)
  }

  function UnitName(k: Key): string {
    k.ns + "-" + k.name + ".service"
  }

  // ---- One pass ----

  /** The Deployment a container names is restored when it is missing. */
  function RestoreDeployment(w: World, c: Container): World {
    var k := Key(c.ns, c.deployment);
    if c.deployment == "" || k in w.deployments then w
    else
      w.(deployments := w.deployments[k := DeploymentObject(c.image, w.resourceVer + 1)],
         resourceVer := w.resourceVer + 1)
  }

  /** The Pod of a container is created when it is missing; a phase other than the empty one it is
      created with costs a second version. */
  function CreatePodFor(w: World, c: Container): World {
    if PodKey(c) in w.pods then w
    else
      var rv := if c.phase == "" then w.resourceVer + 1 else w.resourceVer + 2;
      var name := if ValidName(c.container) then c.container else c.pod;
      w.(pods := w.pods[PodKey(c) := PodObject(c.deployment != "", name, c.image, c.phase, rv)], resourceVer := rv)
  }

  function Import(w: World, c: Container): World {
    if !Labelled(c) || c.ns !in w.namespaces then w else CreatePodFor(RestoreDeployment(w, c), c)
  }

  function ImportAll(w: World, cs: seq<Container>): World {
    if cs == [] then w else Import(ImportAll(w, cs[..|cs| - 1]), cs[|cs| - 1])
  }

  /** The pods that have a validly labelled container. */
  function Live(cs: seq<Container>): set<Key> {
    if cs == [] then {} else Live(cs[..|cs| - 1]) + if Labelled(cs[|cs| - 1]) then {PodKey(cs[|cs| - 1])} else {}
  }

  predicate Pruned(w: World, live: set<Key>, units: set<string>, k: Key)
    requires k in w.pods
  {
    w.pods[k].owned && k !in live && UnitName(k) !in units
  }

  function Prune(w: World, live: set<Key>, units: set<string>): World {
    w.(pods := map k | k in w.pods && !Pruned(w, live, units, k) :: w.pods[k])
  }

  function Pass(w: World, cs: seq<Container>, units: set<string>): World {
    Prune(ImportAll(w, cs), Live(cs), units)
  }

  // ---- As the daemon runs it ----

  class Reconciler {
    var world: World

    /** reconcilePodmanPods: imports container by container, then goes through all pods, in any order,
        and prunes. `units` are the unit names systemd knows. Returns the pods with live containers. */
    method Reconcile(cs: seq<Container>, units: set<string>) returns (live: set<Key>)
      modifies this
      ensures world == Pass(old(world), cs, units)
      ensures live == Live(cs)
    {
      live := {};
      for i := 0 to |cs|
        invariant world == ImportAll(old(world), cs[..i])
        invariant live == Live(cs[..i])
      {
        var c := cs[i];
        assert cs[..i + 1][..i] == cs[..i];
        if !Labelled(c) {
          continue;
        }
        live := live + {PodKey(c)};
        if c.ns !in world.namespaces {
          continue;
        }
        world := RestoreDeployment(world, c);
        if PodKey(c) in world.pods {
          continue;
        }
        world := CreatePodFor(world, c);
      }
      assert cs[..|cs|] == cs;
      ghost var imported := world;
      var keys := world.pods.Keys;
      while keys != {}
        invariant keys <= imported.pods.Keys
        invariant world == imported.(pods :=
                    map k | k in imported.pods && (k in keys || !Pruned(imported, live, units, k)) :: imported.pods[k])
        decreases keys
      {
        var k :| k in keys;
        if world.pods[k].owned && k !in live && UnitName(k) !in units {
          world := world.(pods := world.pods - {k});
        }
        keys := keys - {k};
      }
    }
  }

  // ---- What a pass reaches ----

  predicate Importable(w: World, cs: seq<Container>, k: Key) {
    exists c | c in cs :: Labelled(c) && c.ns in w.namespaces && PodKey(c) == k
  }

  lemma {:induction false} ImportAllReaches(w: World, cs: seq<Container>)
    ensures var t := ImportAll(w, cs);
            && t.namespaces == w.namespaces
            && (forall k :: k in t.pods <==> k in w.pods || Importable(w, cs, k))
            && (forall k | k in w.pods :: t.pods[k] == w.pods[k])
            && (forall k | k in w.deployments :: k in t.deployments && t.deployments[k] == w.deployments[k])
            && (forall c | c in cs && Labelled(c) && c.ns in w.namespaces && c.deployment != "" ::
                  Key(c.ns, c.deployment) in t.deployments)
  {
    if cs != [] {
      var front, last := cs[..|cs| - 1], cs[|cs| - 1];
      ImportAllReaches(w, front);
      assert cs == front + [last];
      var mid, t := ImportAll(w, front), ImportAll(w, cs);
      forall k ensures k in t.pods <==> k in w.pods || Importable(w, cs, k) {
        assert k in mid.pods <==> k in w.pods || Importable(w, front, k);
        assert Importable(w, cs, k) <==>
             Importable(w, front, k) || (Labelled(last) && last.ns in w.namespaces && PodKey(last) == k);
      }
    }
  }

  lemma {:induction false} LiveMembers(cs: seq<Container>, k: Key)
    ensures k in Live(cs) <==> exists c | c in cs :: Labelled(c) && PodKey(c) == k
  {
    if cs != [] {
      var front, last := cs[..|cs| - 1], cs[|cs| - 1];
      LiveMembers(front, k);
      assert cs == front + [last];
    }
  }

  /** One pass reaches its target: a pod is there afterwards exactly when a validly labelled container
      of an existing namespace calls for it, or it was there and is standalone, live or has a unit.
      Pods that were there and stay are unchanged; standalone pods always stay. */
  lemma PassReachesTarget(w: World, cs: seq<Container>, units: set<string>)
    ensures var t := Pass(w, cs, units);
            && (forall k :: k in t.pods <==>
                  Importable(w, cs, k) ||
                  (k in w.pods && (!w.pods[k].owned || k in Live(cs) || UnitName(k) in units)))
            && (forall k | k in w.pods && k in t.pods :: t.pods[k] == w.pods[k])
            && (forall k | k in t.pods && t.pods[k].owned :: k in Live(cs) || UnitName(k) in units)
            && (forall c | c in cs && Labelled(c) && c.ns in w.namespaces && c.deployment != "" ::
                  Key(c.ns, c.deployment) in t.deployments)
  {
    ImportAllReaches(w, cs);
    forall k | Importable(w, cs, k) ensures k in Live(cs) { LiveMembers(cs, k); }
  }

  lemma {:induction false} NothingToImport(w: World, cs: seq<Container>)
    requires forall c | c in cs && Labelled(c) && c.ns in w.namespaces ::
               PodKey(c) in w.pods && (c.deployment != "" ==> Key(c.ns, c.deployment) in w.deployments)
    ensures ImportAll(w, cs) == w
  {
    if cs != [] {
      NothingToImport(w, cs[..|cs| - 1]);
      assert cs[|cs| - 1] in cs;
    }
  }

  /** A second pass over the same containers and units changes nothing, not even the version counter. */
  lemma SecondPassIsNoOp(w: World, cs: seq<Container>, units: set<string>)
    ensures Pass(Pass(w, cs, units), cs, units) == Pass(w, cs, units)
  {
    var t := Pass(w, cs, units);
    PassReachesTarget(w, cs, units);
    ImportAllReaches(w, cs);
    forall c | c in cs && Labelled(c) && c.ns in t.namespaces
      ensures PodKey(c) in t.pods && (c.deployment != "" ==> Key(c.ns, c.deployment) in t.deployments)
    {
      assert Importable(w, cs, PodKey(c));
    }
    NothingToImport(t, cs);
    assert Prune(t, Live(cs), units) == t;
  }
}
