/** NodePort Services: allocating ports and keeping them apart, over runs of service and pod requests. */
module NodePorts {
  import opened Wrappers
  import opened StoreState

  const MIN := 30000
  const MAX := 32767

  /** What matters of a Service: its type, its selector and the nodePort of each port, 0 when unset. */
  datatype Svc = Svc(key: Key, isNodePort: bool, selector: map<string, string>, ports: seq<int>)

  /** What matters of a Pod: its labels and the hostPort of each container port, 0 when unset. */
  datatype PodInfo = PodInfo(key: Key, labels: map<string, string>, hostPorts: seq<int>)

  datatype Host = Host(services: map<Key, Svc>, pods: map<Key, PodInfo>)

  // ---- Which ports are taken ----

  predicate ServiceClaims(services: map<Key, Svc>, port: int, except: Key) {
    exists k | k in services :: k != except && port in services[k].ports
  }

  predicate PodClaims(pods: map<Key, PodInfo>, port: int) {
    exists k | k in pods :: port in pods[k].hostPorts
  }

  predicate InUse(h: Host, port: int, except: Key) {
    ServiceClaims(h.services, port, except) || PodClaims(h.pods, port)
  }

  predicate Available(h: Host, port: int, except: Key) {
    MIN <= port <= MAX && !InUse(h, port, except)
  }

  function FirstFree(h: Host, except: Key, p: int): int
    decreases MAX - p
  {
    if p > MAX then 0 else if !InUse(h, p, except) then p else FirstFree(h, except, p + 1)
  }

  function Allocate(h: Host, except: Key): int {
    FirstFree(h, except, MIN)
  }

  lemma {:induction false} FirstFreeIsLeast(h: Host, except: Key, p: int)
    requires p >= MIN
    ensures var r := FirstFree(h, except, p);
            && (r != 0 ==> p <= r && Available(h, r, except))
            && (forall q | p <= q <= MAX && (r == 0 || q < r) :: InUse(h, q, except))
    decreases MAX - p
  {
    if p <= MAX && InUse(h, p, except) { FirstFreeIsLeast(h, except, p + 1); }
  }

  /** The allocator returns the least free port of the range, or 0 exactly when the range is exhausted. */
  lemma AllocateIsLeastFree(h: Host, except: Key)
    ensures var r := Allocate(h, except);
            && (r == 0 <==> forall q | MIN <= q <= MAX :: InUse(h, q, except))
            && (r != 0 ==> Available(h, r, except) && forall q | MIN <= q < r :: InUse(h, q, except))
  {
    FirstFreeIsLeast(h, except, MIN);
    if Allocate(h, except) != 0 {
      assert !InUse(h, Allocate(h, except), except);
    }
  }

  // ---- Requests ----

  function AssignPorts(h: Host, key: Key, ports: seq<int>): Result<seq<int>> {
    if ports == [] then
      Success([])
    else
      var front :- AssignPorts(h, key, ports[..|ports| - 1]);
      var p := ports[|ports| - 1];
      if p != 0 then
        if Available(h, p, key) then Success(front + [p]) else Failure
      else if Allocate(h, key) == 0 then Failure
      else Success(front + [Allocate(h, key)])
  }

  function Assign(h: Host, svc: Svc): Result<Svc> {
    if !svc.isNodePort then Success(svc)
    else
      var ports :- AssignPorts(h, svc.key, svc.ports);
      Success(svc.(ports := ports))
  }

  /** serviceNodePortConflict: a nodePort equals the hostPort of some pod. */
  predicate ServiceConflicts(h: Host, svc: Svc) {
    svc.isNodePort && exists p | p in svc.ports :: p != 0 && PodClaims(h.pods, p)
  }

  /** podNodePortConflict: a hostPort equals the nodePort of some NodePort Service. */
  predicate PodConflicts(h: Host, pod: PodInfo) {
    exists p | p in pod.hostPorts :: p != 0 &&
      exists k | k in h.services :: h.services[k].isNodePort && p in h.services[k].ports
  }

  predicate Selects(selector: map<string, string>, labels: map<string, string>) {
    selector != map[] && forall k | k in selector :: (if k in labels then labels[k] else "") == selector[k]
  }

  function BackingPods(h: Host, svc: Svc): set<Key> {
    set k | k in h.pods && k.ns == svc.key.ns && Selects(svc.selector, h.pods[k].labels)
  }

  /** The Service as it is finally stored, or the error that makes the request fail after creation. */
  function Reconciled(h: Host, svc: Svc): Result<Svc> {
    if ServiceConflicts(h, svc) then Failure
    else
      var filled :- Assign(h, svc);
      if ServiceConflicts(h, filled) then Failure
      else
        var again :- Assign(h, filled);
        if svc.isNodePort && |BackingPods(h, again)| > 1 then Failure else Success(again)
  }

  /** POST of a Service to the collection of namespace `urlNs`. A failure after the object was stored
      deletes by the namespace of the URL, whatever namespace the object has. */
  function PostService(h: Host, urlNs: string, svc: Svc): Host {
    if svc.key in h.services then h
    else
      var stored := h.(services := h.services[svc.key := svc]);
      match Reconciled(stored, svc)
      case Success(final) => stored.(services := stored.services[svc.key := final])
      case Failure => stored.(services := stored.services - {Key(urlNs, svc.key.name)})
  }

  function DeleteService(h: Host, key: Key): Host {
    h.(services := h.services - {key})
  }

  function PostPod(h: Host, pod: PodInfo): Host {
    if PodConflicts(h, pod) || pod.key in h.pods then h else h.(pods := h.pods[pod.key := pod])
  }

  function DeletePod(h: Host, key: Key): Host {
    h.(pods := h.pods - {key})
  }

  datatype Request =
    | CreateService(urlNs: string, svc: Svc)
    | RemoveService(key: Key)
    | CreatePod(pod: PodInfo)
    | RemovePod(key: Key)

  function Handle(h: Host, r: Request): Host {
    match r
    case CreateService(urlNs, svc) => PostService(h, urlNs, svc)
    case RemoveService(key) => DeleteService(h, key)
    case CreatePod(pod) => PostPod(h, pod)
    case RemovePod(key) => DeletePod(h, key)
  }

  function HandleAll(h: Host, rs: seq<Request>): Host {
    if rs == [] then h else Handle(HandleAll(h, rs[..|rs| - 1]), rs[|rs| - 1])
  }

  // ---- Safety ----

  ghost predicate Safe(h: Host) {
    && (forall k | k in h.services :: h.services[k].key == k)
    && (forall k, p | k in h.services && h.services[k].isNodePort && p in h.services[k].ports :: MIN <= p <= MAX)
    && (forall k, k', p | k in h.services && k' in h.services && k != k'
          && h.services[k].isNodePort && h.services[k'].isNodePort ::
          !(p in h.services[k].ports && p in h.services[k'].ports))
    && (forall k, p | k in h.services && h.services[k].isNodePort && p in h.services[k].ports :: !PodClaims(h.pods, p))
  }

  lemma {:induction false} AssignedAreAvailable(h: Host, key: Key, ports: seq<int>)
    requires AssignPorts(h, key, ports).Success?
    ensures forall p | p in AssignPorts(h, key, ports).value :: Available(h, p, key)
  {
    if ports != [] {
      AssignedAreAvailable(h, key, ports[..|ports| - 1]);
      AllocateIsLeastFree(h, key);
    }
  }

  lemma FinalPortsAvailable(h: Host, svc: Svc)
    requires Reconciled(h, svc).Success? && svc.isNodePort
    ensures var final := Reconciled(h, svc).value;
            && final.key == svc.key && final.isNodePort
            && forall p | p in final.ports :: Available(h, p, svc.key)
  {
    var filled := Assign(h, svc).value;
    AssignedAreAvailable(h, svc.key, filled.ports);
  }

  lemma AddServiceSafe(h: Host, svc: Svc)
    requires Safe(h) && svc.key !in h.services
    requires svc.isNodePort ==> forall p | p in svc.ports :: Available(h, p, svc.key)
    ensures Safe(h.(services := h.services[svc.key := svc]))
  {
    var t := h.services[svc.key := svc];
    forall k, k', p | k in t && k' in t && k != k' && t[k].isNodePort && t[k'].isNodePort
      ensures !(p in t[k].ports && p in t[k'].ports)
    {
      assert k == svc.key && p in t[k'].ports ==> ServiceClaims(h.services, p, svc.key);
      assert k' == svc.key && p in t[k].ports ==> ServiceClaims(h.services, p, svc.key);
    }
  }

  lemma RemoveServiceSafe(h: Host, key: Key)
    requires Safe(h)
    ensures Safe(DeleteService(h, key))
  {}

  lemma PodsSafe(h: Host, pods: map<Key, PodInfo>)
    requires Safe(h)
    requires forall p, k | k in h.services && h.services[k].isNodePort && p in h.services[k].ports ::
               PodClaims(pods, p) ==> PodClaims(h.pods, p)
    ensures Safe(h.(pods := pods))
  {}

  /** The port a Service is about to store does not clash with itself, so availability is the same
      before and after it is first stored. */
  lemma AvailableBeforeStored(h: Host, svc: Svc, p: int)
    requires svc.key !in h.services
    requires Available(h.(services := h.services[svc.key := svc]), p, svc.key)
    ensures Available(h, p, svc.key)
  {
    ClaimsRemain(h.services, svc, p);
  }

  lemma ClaimsRemain(services: map<Key, Svc>, svc: Svc, p: int)
    requires svc.key !in services
    ensures ServiceClaims(services, p, svc.key) ==> ServiceClaims(services[svc.key := svc], p, svc.key)
  {
    var stored := services[svc.key := svc];
    assert forall k | k in services && k != svc.key :: k in stored && stored[k] == services[k];
  }

  lemma PostServiceSafe(h: Host, urlNs: string, svc: Svc)
    requires Safe(h) && svc.key.ns == urlNs
    ensures Safe(PostService(h, urlNs, svc))
  {
    if svc.key !in h.services {
      var stored := h.(services := h.services[svc.key := svc]);
      match Reconciled(stored, svc) {
        case Success(final) =>
          NonNodePortUnchanged(stored, svc);
          if svc.isNodePort {
            FinalPortsAvailable(stored, svc);
            forall p | p in final.ports ensures Available(h, p, svc.key) { AvailableBeforeStored(h, svc, p); }
          }
          AddServiceSafe(h, final);
          assert stored.services[svc.key := final] == h.services[svc.key := final];
        case Failure =>
          assert Key(urlNs, svc.key.name) == svc.key;
          assert stored.services - {svc.key} == h.services;
      }
    }
  }

  lemma NonNodePortUnchanged(h: Host, svc: Svc)
    requires Reconciled(h, svc).Success?
    ensures Reconciled(h, svc).value.key == svc.key && Reconciled(h, svc).value.isNodePort == svc.isNodePort
  {}

  lemma PostPodSafe(h: Host, pod: PodInfo)
    requires Safe(h)
    ensures Safe(PostPod(h, pod))
  {
    if !PodConflicts(h, pod) && pod.key !in h.pods {
      var pods := h.pods[pod.key := pod];
      forall p, k | k in h.services && h.services[k].isNodePort && p in h.services[k].ports && PodClaims(pods, p)
        ensures PodClaims(h.pods, p)
      {
        var x :| x in pods && p in pods[x].hostPorts;
        if x != pod.key { assert x in h.pods && p in h.pods[x].hostPorts; }
      }
      PodsSafe(h, pods);
    }
  }

  /** The requests the property is claimed for: a Service names the namespace it is posted to. */
  predicate NamesItsNamespace(r: Request) {
    r.CreateService? ==> r.svc.key.ns == r.urlNs
  }

  lemma HandleSafe(h: Host, r: Request)
    requires Safe(h) && NamesItsNamespace(r)
    ensures Safe(Handle(h, r))
  {
    match r {
      case CreateService(urlNs, svc) => PostServiceSafe(h, urlNs, svc);
      case RemoveService(key) => RemoveServiceSafe(h, key);
      case CreatePod(pod) => PostPodSafe(h, pod);
      case RemovePod(key) =>
        forall p, k | k in h.services && h.services[k].isNodePort
          && p in h.services[k].ports && PodClaims(h.pods - {key}, p)
          ensures PodClaims(h.pods, p)
        {
          var x :| x in h.pods - {key} && p in h.pods[x].hostPorts;
          assert x in h.pods;
        }
        PodsSafe(h, h.pods - {key});
    }
  }

  /** Over every sequence of such requests from an empty host: all nodePorts lie in the range, no two
      NodePort Services share one, and none equals a stored pod's hostPort. */
  lemma {:induction false} RunsAreSafe(rs: seq<Request>)
    requires forall r | r in rs :: NamesItsNamespace(r)
    ensures Safe(HandleAll(Host(map[], map[]), rs))
  {
    if rs != [] {
      RunsAreSafe(rs[..|rs| - 1]);
      assert rs[|rs| - 1] in rs;
      HandleSafe(HandleAll(Host(map[], map[]), rs[..|rs| - 1]), rs[|rs| - 1]);
    }
  }

  // ---- When a Service names another namespace ----

  const GREEDY := Key("default", "greedy")

  /** A pod that takes every port of the range. */
  function Greedy(): PodInfo {
    PodInfo(GREEDY, map[], seq(MAX - MIN + 1, i => MIN + i))
  }

  lemma GreedyTakesAll(h: Host, p: int)
    requires h.pods == map[GREEDY := Greedy()] && MIN <= p <= MAX
    ensures PodClaims(h.pods, p)
  {
    var ports := h.pods[GREEDY].hostPorts;
    assert ports[p - MIN] == p;
  }

  lemma AssignFailsWhenFull(h: Host, key: Key, ports: seq<int>)
    requires ports != [] && forall q | MIN <= q <= MAX :: InUse(h, q, key)
    ensures AssignPorts(h, key, ports).Failure?
  {
    AllocateIsLeastFree(h, key);
  }

  /** A NodePort Service that is rejected after creation but names another namespace stays stored,
      with whatever ports it asked for: on a host whose pod takes the whole range, each of them is out
      of the range or the pod's. */
  lemma ForeignNamespaceIsUnsafe(urlNs: string, svc: Svc) returns (h: Host)
    requires svc.isNodePort && svc.ports != [] && svc.key.ns != urlNs
    ensures Safe(h) && !Safe(PostService(h, urlNs, svc))
  {
    h := Host(map[], map[GREEDY := Greedy()]);
    var stored := h.(services := h.services[svc.key := svc]);
    forall q | MIN <= q <= MAX ensures InUse(stored, q, svc.key) { GreedyTakesAll(stored, q); }
    AssignFailsWhenFull(stored, svc.key, svc.ports);
    var after := PostService(h, urlNs, svc);
    assert after.services[svc.key] == svc;
    var p := svc.ports[0];
    assert p in svc.ports;
    if MIN <= p <= MAX { GreedyTakesAll(after, p); }
  }

  lemma HarmlessServiceSafe(h: Host, urlNs: string, svc: Svc)
    requires Safe(h) && (!svc.isNodePort || svc.ports == [])
    ensures Safe(PostService(h, urlNs, svc))
  {
    if svc.key !in h.services {
      var stored := h.(services := h.services[svc.key := svc]);
      AddServiceSafe(h, svc);
      var r := Reconciled(stored, svc);
      if r.Success? {
        NonNodePortUnchanged(stored, svc);
        assert r.value.isNodePort ==> r.value.ports == [];
        AddServiceSafe(h, r.value);
        assert stored.services[svc.key := r.value] == h.services[svc.key := r.value];
      } else {
        RemoveServiceSafe(stored, Key(urlNs, svc.key.name));
      }
    }
  }

  /** A POST of a Service keeps every safe host safe if and only if the Service names the namespace of
      the URL, or has no node ports at all. */
  lemma PostServiceSafety(urlNs: string, svc: Svc)
    ensures (forall h: Host | Safe(h) :: Safe(PostService(h, urlNs, svc)))
            <==> svc.key.ns == urlNs || !svc.isNodePort || svc.ports == []
  {
    if svc.key.ns == urlNs || !svc.isNodePort || svc.ports == [] {
      forall h: Host | Safe(h) ensures Safe(PostService(h, urlNs, svc)) {
        if svc.key.ns == urlNs { PostServiceSafe(h, urlNs, svc); } else { HarmlessServiceSafe(h, urlNs, svc); }
      }
    } else {
      var h := ForeignNamespaceIsUnsafe(urlNs, svc);
    }
  }
}
