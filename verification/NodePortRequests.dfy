/** What the requests on Services and Pods answer and store: which ports are given, which requests are
    refused, and what is left in either case. */
module NodePortRequests {
  import opened Wrappers
  import opened StoreState
  import opened NodePorts

  /** Another Service or some pod has the port. */
  predicate Taken(h: Host, port: int, svc: Key) {
    (exists k | k in h.services :: k != svc && port in h.services[k].ports)
    || exists k | k in h.pods :: port in h.pods[k].hostPorts
  }

  predicate Free(h: Host, port: int, svc: Key) {
    30000 <= port <= 32767 && !Taken(h, port, svc)
  }

  predicate LeastFree(h: Host, port: int, svc: Key) {
    Free(h, port, svc) && forall q | 30000 <= q < port :: Taken(h, q, svc)
  }

  /** Each port asked for is as asked, and each other one the least free one. */
  predicate Given(h: Host, svc: Key, asked: seq<int>, ports: seq<int>) {
    |ports| == |asked| && forall i | 0 <= i < |asked| :: GivenOne(h, svc, asked[i], ports[i])
  }

  predicate GivenOne(h: Host, svc: Key, asked: int, port: int) {
    if asked != 0 then port == asked else LeastFree(h, port, svc)
  }

  ghost predicate CanGive(h: Host, svc: Key, asked: seq<int>) {
    (forall p | p in asked && p != 0 :: Free(h, p, svc)) && (0 in asked ==> exists q :: Free(h, q, svc))
  }

  lemma AvailableIsFree(h: Host, svc: Key)
    ensures forall p :: Available(h, p, svc) <==> Free(h, p, svc)
    ensures Allocate(h, svc) == 0 <==> forall q :: !Free(h, q, svc)
    ensures Allocate(h, svc) != 0 ==> LeastFree(h, Allocate(h, svc), svc)
  {
    assert forall p :: InUse(h, p, svc) <==> Taken(h, p, svc);
    AllocateIsLeastFree(h, svc);
  }

  /** The ports of a Service are given if and only if each one asked for is free and, if one is not asked for,
      some port is. */
  lemma {:induction false} PortsAreGiven(h: Host, svc: Key, asked: seq<int>)
    ensures AssignPorts(h, svc, asked).Success? <==> CanGive(h, svc, asked)
    ensures AssignPorts(h, svc, asked).Success? ==> Given(h, svc, asked, AssignPorts(h, svc, asked).value)
  {
    if asked != [] {
      var front, last := asked[..|asked| - 1], asked[|asked| - 1];
      assert asked == front + [last];
      PortsAreGiven(h, svc, front);
      AvailableIsFree(h, svc);
      assert CanGive(h, svc, asked) <==> CanGive(h, svc, front) && CanGive(h, svc, [last]);
    }
  }

  // ---- Posting a Service ----

  /** The pods that the Service selects, in its own namespace. */
  function Selected(h: Host, svc: Svc): set<Key> {
    set k | k in h.pods && k.ns == svc.key.ns && svc.selector != map[] &&
      forall l | l in svc.selector :: svc.selector[l] == if l in h.pods[k].labels then h.pods[k].labels[l] else ""
  }

  ghost predicate Acceptable(h: Host, svc: Svc) {
    svc.isNodePort ==> CanGive(h, svc.key, svc.ports) && |Selected(h, svc)| <= 1
  }

  lemma StoringItselfTakesNothing(h: Host, svc: Svc, p: int)
    requires svc.key !in h.services
    ensures Taken(h.(services := h.services[svc.key := svc]), p, svc.key) <==> Taken(h, p, svc.key)
  {
    var t := h.services[svc.key := svc];
    assert forall k | k in h.services :: t[k] == h.services[k] && k != svc.key;
  }

  lemma GivesTheSame(h: Host, svc: Svc)
    requires svc.key !in h.services
    ensures var h' := h.(services := h.services[svc.key := svc]);
            && (CanGive(h', svc.key, svc.ports) <==> CanGive(h, svc.key, svc.ports))
            && forall ports :: Given(h', svc.key, svc.ports, ports) <==> Given(h, svc.key, svc.ports, ports)
  {
    var h' := h.(services := h.services[svc.key := svc]);
    forall p ensures Taken(h', p, svc.key) <==> Taken(h, p, svc.key) { StoringItselfTakesNothing(h, svc, p); }
    assert forall p :: Free(h', p, svc.key) <==> Free(h, p, svc.key);
    assert forall p :: LeastFree(h', p, svc.key) <==> LeastFree(h, p, svc.key);
    assert forall a, p :: GivenOne(h', svc.key, a, p) <==> GivenOne(h, svc.key, a, p);
    if q :| Free(h, q, svc.key) { assert Free(h', q, svc.key); }
    if q :| Free(h', q, svc.key) { assert Free(h, q, svc.key); }
  }

  /** Ports that are given are given again. */
  lemma {:induction false} GivenAgain(h: Host, svc: Key, ports: seq<int>)
    requires forall p | p in ports :: Free(h, p, svc)
    ensures AssignPorts(h, svc, ports) == Success(ports)
  {
    if ports != [] {
      var front, last := ports[..|ports| - 1], ports[|ports| - 1];
      assert ports == front + [last];
      GivenAgain(h, svc, front);
      AvailableIsFree(h, svc);
      assert last in ports && Available(h, last, svc);
      assert AssignPorts(h, svc, ports) == Success(front + [last]);
    }
  }

  lemma GivenAreFree(h: Host, svc: Key, asked: seq<int>, ports: seq<int>)
    requires CanGive(h, svc, asked) && Given(h, svc, asked, ports)
    ensures forall p | p in ports :: Free(h, p, svc)
  {
    forall i | 0 <= i < |ports| ensures Free(h, ports[i], svc) { assert asked[i] in asked; }
  }

  lemma ReconciledIsGiven(h: Host, svc: Svc)
    requires svc.isNodePort
    ensures Reconciled(h, svc).Success? <==> CanGive(h, svc.key, svc.ports) && |BackingPods(h, svc)| <= 1
    ensures Reconciled(h, svc).Success? ==>
              var final := Reconciled(h, svc).value;
              final == svc.(ports := final.ports) && Given(h, svc.key, svc.ports, final.ports)
  {
    PortsAreGiven(h, svc.key, svc.ports);
    assert ServiceConflicts(h, svc) ==> !CanGive(h, svc.key, svc.ports);
    if CanGive(h, svc.key, svc.ports) {
      var ports := AssignPorts(h, svc.key, svc.ports).value;
      GivenAreFree(h, svc.key, svc.ports, ports);
      GivenAgain(h, svc.key, ports);
      var filled := svc.(ports := ports);
      assert Assign(h, svc) == Success(filled) && Assign(h, filled) == Success(filled);
      assert !ServiceConflicts(h, filled);
      assert BackingPods(h, filled) == BackingPods(h, svc);
    }
  }

  lemma SelectedAreBacking(h: Host, svc: Svc, services: map<Key, Svc>)
    ensures BackingPods(h.(services := services), svc) == Selected(h, svc)
  {}

  /** A POST of a Service: refused where there is one; stored as it is if it asks for no node ports; else, if its
      ports can be given and it selects at most one pod, stored with the ports given. One that is refused for
      its ports or pods leaves the host as it was if it names the namespace of the URL. */
  lemma ServicePosted(h: Host, urlNs: string, svc: Svc)
    ensures var t := PostService(h, urlNs, svc);
            if svc.key in h.services then t == h
            else if Acceptable(h, svc) then
              && t.pods == h.pods && t.services.Keys == h.services.Keys + {svc.key}
              && (forall k | k in h.services :: t.services[k] == h.services[k])
              && t.services[svc.key] == svc.(ports := t.services[svc.key].ports)
              && (if svc.isNodePort then Given(h, svc.key, svc.ports, t.services[svc.key].ports)
                  else t.services[svc.key] == svc)
            else
              && (svc.key.ns == urlNs ==> t == h)
              && (svc.key.ns != urlNs ==>
                    t == h.(services := h.services[svc.key := svc] - {Key(urlNs, svc.key.name)}))
  {
    if svc.key !in h.services {
      var h' := h.(services := h.services[svc.key := svc]);
      SelectedAreBacking(h, svc, h'.services);
      if svc.isNodePort {
        GivesTheSame(h, svc);
        ReconciledIsGiven(h', svc);
      } else {
        assert Reconciled(h', svc) == Success(svc);
      }
      assert h.services[svc.key := svc] - {svc.key} == h.services;
    }
  }

  // ---- The other requests ----

  /** A POST of a Pod is refused where there is one and where a port it takes on the host is the node port of a
      Service, and is stored otherwise. */
  lemma PodPosted(h: Host, pod: PodInfo)
    ensures var t := PostPod(h, pod);
            if pod.key in h.pods || exists k, p | k in h.services && p in pod.hostPorts ::
                 p != 0 && h.services[k].isNodePort && p in h.services[k].ports
            then t == h
            else t == h.(pods := h.pods[pod.key := pod])
  {}

  /** Deleting removes the one object. */
  lemma Deleted(h: Host, key: Key)
    ensures var t := DeleteService(h, key);
            && t.pods == h.pods && t.services.Keys == h.services.Keys - {key}
            && forall k | k in t.services :: t.services[k] == h.services[k]
    ensures var t := DeletePod(h, key);
            && t.services == h.services && t.pods.Keys == h.pods.Keys - {key}
            && forall k | k in t.pods :: t.pods[k] == h.pods[k]
  {}
}
