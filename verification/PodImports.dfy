/** What a pass of the reconciliation imports: which containers it goes by, and what it makes of them. */
module PodImports {
  import opened StoreState
  import opened PodReconcile

  /** A label value that can name an object: lower-case letters, digits and dashes, no dash at either end. */
  predicate NameLike(s: string) {
    && 1 <= |s| <= 253 && s[0] != '-' && s[|s| - 1] != '-'
    && forall ch | ch in s :: 'a' <= ch <= 'z' || '0' <= ch <= '9' || ch == '-'
  }

  lemma NamesAreNameLike(s: string)
    ensures ValidName(s) <==> NameLike(s)
  {
    if NameLike(s) {
      forall i | 0 <= i < |s| ensures 'a' <= s[i] <= 'z' || '0' <= s[i] <= '9' || (s[i] == '-' && 0 < i < |s| - 1) {
        assert s[i] in s;
      }
    }
  }

  /** The container belongs to a pod of a namespace there is. */
  predicate Names(w: World, c: Container, k: Key) {
    NameLike(c.pod) && NameLike(c.ns) && c.ns in w.namespaces && k == Key(c.ns, c.pod)
  }

  /** The container names a Deployment that would have to be there. */
  predicate NamesOwner(w: World, c: Container, k: Key) {
    NameLike(c.pod) && NameLike(c.ns) && c.ns in w.namespaces && c.deployment != "" && k == Key(c.ns, c.deployment)
  }

  // ---- One container ----

  /** What one container adds: its Deployment and its pod, each if it is missing, and as many versions. */
  lemma ImportAdds(w: World, c: Container)
    ensures var t, k, d := Import(w, c), Key(c.ns, c.pod), Key(c.ns, c.deployment);
            var newPod := Names(w, c, k) && k !in w.pods;
            var newOwner := NamesOwner(w, c, d) && d !in w.deployments;
            && t.namespaces == w.namespaces
            && t.pods.Keys == w.pods.Keys + (if newPod then {k} else {})
            && t.deployments.Keys == w.deployments.Keys + (if newOwner then {d} else {})
            && (forall key | key in w.pods :: t.pods[key] == w.pods[key])
            && (forall key | key in w.deployments :: t.deployments[key] == w.deployments[key])
            && (newOwner ==> t.deployments[d] == DeploymentObject(c.image, w.resourceVer + 1))
            && (newPod ==> Imported(t.pods[k], c) && t.pods[k].rv == t.resourceVer)
            && t.resourceVer == w.resourceVer + (if newOwner then 1 else 0)
                                + (if !newPod then 0 else if c.phase == "" then 1 else 2)
  {
    NamesAreNameLike(c.pod);
    NamesAreNameLike(c.ns);
    NamesAreNameLike(c.container);
  }

  /** A pod as it is made of a container: a Deployment's if the container names one, and standalone if not. */
  predicate Imported(p: PodObject, c: Container) {
    && p.owned == (c.deployment != "") && p.image == c.image && p.phase == c.phase
    && p.container == if NameLike(c.container) then c.container else c.pod
  }

  // ---- A pass ----

  /** The first container for the key. */
  predicate First(cs: seq<Container>, i: nat, about: Container -> bool) {
    i < |cs| && about(cs[i]) && forall j | 0 <= j < i :: !about(cs[j])
  }

  lemma ImportsOnce(w: World, front: seq<Container>, c: Container)
    ensures ImportAll(w, front + [c]) == Import(ImportAll(w, front), c)
  {
    assert (front + [c])[..|front|] == front;
  }

  lemma {:induction false} ImportedFromFirst(w: World, cs: seq<Container>, k: Key, i: nat)
    requires k !in w.pods && First(cs, i, c => Names(w, c, k))
    ensures k in ImportAll(w, cs).pods && Imported(ImportAll(w, cs).pods[k], cs[i])
  {
    var front, last := cs[..|cs| - 1], cs[|cs| - 1];
    assert cs == front + [last];
    ImportsOnce(w, front, last);
    ImportAllReaches(w, front);
    ImportAdds(ImportAll(w, front), last);
    if i < |front| {
      ImportedFromFirst(w, front, k, i);
    } else {
      NotYet(w, front, k);
    }
  }

  lemma {:induction false} NotYet(w: World, cs: seq<Container>, k: Key)
    requires k !in w.pods && forall c | c in cs :: !Names(w, c, k)
    ensures k !in ImportAll(w, cs).pods
  {
    if cs != [] {
      var front, last := cs[..|cs| - 1], cs[|cs| - 1];
      assert cs == front + [last];
      assert !Names(w, last, k);
      NotYet(w, front, k);
      ImportsOnce(w, front, last);
      ImportAllReaches(w, front);
      ImportAdds(ImportAll(w, front), last);
    }
  }

  lemma {:induction false} RestoredFromFirst(w: World, cs: seq<Container>, d: Key, i: nat)
    requires d !in w.deployments && First(cs, i, c => NamesOwner(w, c, d))
    ensures d in ImportAll(w, cs).deployments && ImportAll(w, cs).deployments[d].image == cs[i].image
  {
    var front, last := cs[..|cs| - 1], cs[|cs| - 1];
    assert cs == front + [last];
    ImportsOnce(w, front, last);
    ImportAllReaches(w, front);
    ImportAdds(ImportAll(w, front), last);
    if i < |front| {
      RestoredFromFirst(w, front, d, i);
    } else {
      NotYetRestored(w, front, d);
    }
  }

  lemma {:induction false} NotYetRestored(w: World, cs: seq<Container>, d: Key)
    requires d !in w.deployments && forall c | c in cs :: !NamesOwner(w, c, d)
    ensures d !in ImportAll(w, cs).deployments
  {
    if cs != [] {
      var front, last := cs[..|cs| - 1], cs[|cs| - 1];
      assert cs == front + [last];
      assert !NamesOwner(w, last, d);
      NotYetRestored(w, front, d);
      ImportsOnce(w, front, last);
      ImportAllReaches(w, front);
      ImportAdds(ImportAll(w, front), last);
    }
  }

  /** A pod that a pass adds is what the first container for it says. */
  lemma PassImports(w: World, cs: seq<Container>, units: set<string>, k: Key, i: nat)
    requires k !in w.pods && First(cs, i, c => Names(w, c, k))
    ensures k in Pass(w, cs, units).pods && Imported(Pass(w, cs, units).pods[k], cs[i])
  {
    ImportedFromFirst(w, cs, k, i);
    NamesAreNameLike(cs[i].pod);
    NamesAreNameLike(cs[i].ns);
    assert Importable(w, cs, k);
    PassReachesTarget(w, cs, units);
  }

  /** A Deployment that a pass restores has the image of the first container that names it; the Deployments
      that were there stay as they are, and no others appear. */
  lemma PassRestores(w: World, cs: seq<Container>, units: set<string>, d: Key)
    ensures var t := Pass(w, cs, units);
            && (d in w.deployments ==> d in t.deployments && t.deployments[d] == w.deployments[d])
            && (d !in w.deployments && d in t.deployments ==>
                  exists i: nat :: First(cs, i, c => NamesOwner(w, c, d)) && t.deployments[d].image == cs[i].image)
            && ((exists c | c in cs :: NamesOwner(w, c, d)) ==> d in t.deployments)
  {
    ImportAllReaches(w, cs);
    if d !in w.deployments {
      if c :| c in cs && NamesOwner(w, c, d) {
        var i := FirstOf(cs, c => NamesOwner(w, c, d));
        RestoredFromFirst(w, cs, d, i);
      } else {
        NotYetRestored(w, cs, d);
      }
    }
  }

  lemma {:induction false} FirstOf(cs: seq<Container>, about: Container -> bool) returns (i: nat)
    requires exists c | c in cs :: about(c)
    ensures First(cs, i, about)
  {
    if about(cs[0]) {
      i := 0;
    } else {
      assert cs == [cs[0]] + cs[1..];
      i := FirstOf(cs[1..], about);
      i := i + 1;
    }
  }

  /** Which of the pods that were there a pass leaves: the standalone ones, and of the others those with a
      container or a unit. */
  lemma PassPrunes(w: World, cs: seq<Container>, units: set<string>, k: Key)
    requires k in w.pods
    ensures var t := Pass(w, cs, units);
            && (k in t.pods <==>
                  || !w.pods[k].owned
                  || (exists c | c in cs :: NameLike(c.pod) && NameLike(c.ns) && k == Key(c.ns, c.pod))
                  || k.ns + "-" + k.name + ".service" in units)
            && (k in t.pods ==> t.pods[k] == w.pods[k])
  {
    forall c: Container ensures Labelled(c) <==> NameLike(c.pod) && NameLike(c.ns) {
      NamesAreNameLike(c.pod);
      NamesAreNameLike(c.ns);
    }
    LiveMembers(cs, k);
    PassReachesTarget(w, cs, units);
  }

  /** A pod imported from a container without a Deployment is there after every later pass, and one of a
      Deployment goes with its container and its unit. */
  lemma ImportedThenGone(w: World, cs: seq<Container>, units: set<string>, k: Key, i: nat)
    requires k !in w.pods && First(cs, i, c => Names(w, c, k))
    ensures k in Pass(Pass(w, cs, units), [], {}).pods <==> cs[i].deployment == ""
  {
    PassImports(w, cs, units, k, i);
    PassPrunes(Pass(w, cs, units), [], {}, k);
  }
}
