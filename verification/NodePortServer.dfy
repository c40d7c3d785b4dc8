/** The handlers and store methods behind NodePorts, with their loops over the store's maps. */
module NodePortServer {
  import opened Wrappers
  import opened StoreState
  import opened NodePorts

  class Server {
    var services: map<Key, Svc>
    var pods: map<Key, PodInfo>

    function Content(): Host
      reads this
    {
      Host(services, pods)
    }

    /** nodePortInUse. */
    method NodePortInUse(port: int, except: Key) returns (used: bool)
      ensures used <==> InUse(Content(), port, except)
    {
      var keys := services.Keys;
      while keys != {}
        invariant keys <= services.Keys
        invariant forall k | k in services && k !in keys :: k == except || port !in services[k].ports
        decreases keys
      {
        var k :| k in keys;
        if k != except && port in services[k].ports {
          return true;
        }
        keys := keys - {k};
      }
      var podKeys := pods.Keys;
      while podKeys != {}
        invariant podKeys <= pods.Keys
        invariant forall k | k in pods && k !in podKeys :: port !in pods[k].hostPorts
        decreases podKeys
      {
        var k :| k in podKeys;
        if port in pods[k].hostPorts {
          return true;
        }
        podKeys := podKeys - {k};
      }
      used := false;
    }

    /** AllocateNodePort. */
    method AllocateNodePort(svc: Key) returns (port: int)
      ensures port == Allocate(Content(), svc)
    {
      var p := MIN;
      while p <= MAX
        invariant FirstFree(Content(), svc, p) == Allocate(Content(), svc)
        decreases MAX - p
      {
        var used := NodePortInUse(p, svc);
        if !used {
          return p;
        }
        p := p + 1;
      }
      port := 0;
    }

    method NodePortAvailable(port: int, svc: Key) returns (ok: bool)
      ensures ok <==> Available(Content(), port, svc)
    {
      if port < MIN || port > MAX {
        return false;
      }
      var used := NodePortInUse(port, svc);
      ok := !used;
    }

    /** assignNodePorts: port by port, explicit ones checked, unset ones allocated. */
    method AssignNodePorts(svc: Svc) returns (r: Result<Svc>)
      ensures r == Assign(Content(), svc)
    {
      if !svc.isNodePort {
        return Success(svc);
      }
      var ports: seq<int> := [];
      for i := 0 to |svc.ports|
        invariant AssignPorts(Content(), svc.key, svc.ports[..i]) == Success(ports)
      {
        assert svc.ports[..i + 1][..i] == svc.ports[..i];
        var p := svc.ports[i];
        if p != 0 {
          var ok := NodePortAvailable(p, svc.key);
          if !ok {
            AssignFails(Content(), svc.key, svc.ports, i + 1);
            return Failure;
          }
          ports := ports + [p];
        } else {
          var alloc := AllocateNodePort(svc.key);
          if alloc == 0 {
            AssignFails(Content(), svc.key, svc.ports, i + 1);
            return Failure;
          }
          ports := ports + [alloc];
        }
      }
      assert svc.ports[..|svc.ports|] == svc.ports;
      r := Success(svc.(ports := ports));
    }

    /** serviceNodePortConflict. */
    method ServiceNodePortConflict(svc: Svc) returns (conflict: bool)
      ensures conflict <==> ServiceConflicts(Content(), svc)
    {
      if !svc.isNodePort {
        return false;
      }
      var keys := pods.Keys;
      while keys != {}
        invariant keys <= pods.Keys
        invariant forall k, p | k in pods && k !in keys && p in svc.ports && p != 0 :: p !in pods[k].hostPorts
        decreases keys
      {
        var k :| k in keys;
        if p :| p in svc.ports && p != 0 && p in pods[k].hostPorts {
          assert PodClaims(pods, p);
          return true;
        }
        keys := keys - {k};
      }
      conflict := false;
    }

    /** The POST handler for Services. */
    method PostService(urlNs: string, svc: Svc) returns (status: nat)
      modifies this
      ensures Content() == NodePorts.PostService(old(Content()), urlNs, svc)
      ensures status in {201, 409}
      ensures status == 201 ==> svc.key !in old(services) && svc.key in services
    {
      if svc.key in services {
        return 409;
      }
      services := services[svc.key := svc];
      var urlKey := Key(urlNs, svc.key.name);
      var conflict := ServiceNodePortConflict(svc);
      if conflict {
        services := services - {urlKey};
        return 409;
      }
      var created := AssignNodePorts(svc);
      if created.Failure? {
        services := services - {urlKey};
        return 409;
      }
      conflict := ServiceNodePortConflict(created.value);
      if conflict {
        services := services - {urlKey};
        return 409;
      }
      created := AssignNodePorts(created.value);
      if created.Failure? || (svc.isNodePort && |BackingPods(Content(), created.value)| > 1) {
        services := services - {urlKey};
        return 409;
      }
      services := services[svc.key := created.value];
      status := 201;
    }

    /** The POST handler for Pods, past validation. */
    method PostPod(pod: PodInfo) returns (status: nat)
      modifies this
      ensures Content() == NodePorts.PostPod(old(Content()), pod)
    {
      var conflict := PodNodePortConflict(pod);
      if conflict || pod.key in pods {
        return 409;
      }
      pods := pods[pod.key := pod];
      status := 201;
    }

    /** podNodePortConflict. */
    method PodNodePortConflict(pod: PodInfo) returns (conflict: bool)
      ensures conflict <==> PodConflicts(Content(), pod)
    {
      var keys := services.Keys;
      while keys != {}
        invariant keys <= services.Keys
        invariant forall k, p | k in services && k !in keys && services[k].isNodePort && p in pod.hostPorts && p != 0 ::
                  p !in services[k].ports
        decreases keys
      {
        var k :| k in keys;
        if services[k].isNodePort {
          if p :| p in pod.hostPorts && p != 0 && p in services[k].ports {
            return true;
          }
        }
        keys := keys - {k};
      }
      conflict := false;
    }
  }

  lemma {:induction false} AssignFails(h: Host, key: Key, ports: seq<int>, n: nat)
    requires n <= |ports| && AssignPorts(h, key, ports[..n]).Failure?
    ensures AssignPorts(h, key, ports).Failure?
    decreases |ports|
  {
    if n < |ports| {
      assert ports[..|ports| - 1][..n] == ports[..n];
      AssignFails(h, key, ports[..|ports| - 1], n);
    } else {
      assert ports[..n] == ports;
    }
  }
}
