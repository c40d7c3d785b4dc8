/** The watch endpoint: diffs successive listings and streams events from which a client keeps a
    mirror of the store. */
module Watch {
  import opened Wrappers
  import opened Text
  import opened Json
  import opened StoreState
  import StoreHistory

  datatype Event = Added(o: Object) | Modified(o: Object) | Deleted(o: Object)

  type Mirror = map<Key, Object>

  /** How the watch loop identifies an object. The program joins the two with a slash, which neither
      contains (JoinedKeyIsUnique). */
  function WatchKey(o: Object): Key {
    Key(o.ns, o.name)
  }

  lemma JoinedKeyIsUnique(a: Key, b: Key)
    requires '/' !in a.ns && '/' !in b.ns && a.ns + "/" + a.name == b.ns + "/" + b.name
    ensures a == b
  {
    SplitCons(a.ns, a.name, '/');
    SplitCons(b.ns, b.name, '/');
    var k := a.ns + "/" + a.name;
    assert k == a.ns + ['/'] + a.name && k == b.ns + ['/'] + b.name;
    assert Split(k, '/')[0] == a.ns && Split(k, '/')[0] == b.ns;
    assert a.name == k[|a.ns| + 1..] && b.name == k[|b.ns| + 1..];
  }

  // ---- The client ----

  /** A client's mirror after one event; None when the event makes no sense to the client: adding
      what it has, modifying what it lacks or has in that version, deleting what it lacks. */
  function Receive(m: Mirror, e: Event): Option<Mirror> {
    var k := WatchKey(e.o);
    match e
    case Added(o) => if k in m then None else Some(m[k := o])
    case Modified(o) => if k in m && m[k].rv != o.rv then Some(m[k := o]) else None
    case Deleted(o) => if k in m && m[k] == o then Some(m - {k}) else None
  }

  function Replay(m: Mirror, events: seq<Event>): Option<Mirror> {
    if events == [] then Some(m)
    else
      match Replay(m, events[..|events| - 1])
      case None => None
      case Some(m') => Receive(m', events[|events| - 1])
  }

  // ---- The server ----

  ghost predicate DistinctKeys(list: seq<Object>) {
    forall i, j | 0 <= i < j < |list| :: WatchKey(list[i]) != WatchKey(list[j])
  }

  function Listing(list: seq<Object>): Mirror {
    if list == [] then map[] else Listing(list[..|list| - 1])[WatchKey(list[|list| - 1]) := list[|list| - 1]]
  }

  predicate Unchanged(seen: Mirror, current: Mirror, k: Key) {
    k in seen && k in current && seen[k].rv == current[k].rv
  }

  /** The mirror after a round: what is listed, an unchanged version kept as it was first seen. */
  function Round(seen: Mirror, current: Mirror): Mirror {
    map k | k in current :: if Unchanged(seen, current, k) then seen[k] else current[k]
  }

  /** `seen` with the listed objects of new or changed version put in. */
  function Overlay(seen: Mirror, current: Mirror): Mirror {
    seen + Round(seen, current)
  }

  ghost predicate Keyed(m: Mirror) {
    forall k | k in m :: WatchKey(m[k]) == k
  }

  ghost predicate DistinctReports(events: seq<Event>) {
    forall i, j | 0 <= i < j < |events| :: WatchKey(events[i].o) != WatchKey(events[j].o)
  }

  lemma {:induction false} ReplayConcat(m: Mirror, a: seq<Event>, b: seq<Event>)
    ensures Replay(m, a + b) == match Replay(m, a) case None => None case Some(m') => Replay(m', b)
  {
    if b == [] {
      assert a + b == a;
    } else {
      ReplayConcat(m, a, b[..|b| - 1]);
      assert (a + b)[..|a + b| - 1] == a + b[..|b| - 1];
    }
  }

  lemma {:induction false} ListingMembers(list: seq<Object>)
    requires DistinctKeys(list)
    ensures forall k :: k in Listing(list) <==> exists i | 0 <= i < |list| :: WatchKey(list[i]) == k
    ensures forall i | 0 <= i < |list| ::
              WatchKey(list[i]) in Listing(list) && Listing(list)[WatchKey(list[i])] == list[i]
  {
    if list != [] {
      var front := list[..|list| - 1];
      ListingMembers(front);
      forall k ensures k in Listing(list) <==> exists i | 0 <= i < |list| :: WatchKey(list[i]) == k {
        if i :| 0 <= i < |list| && WatchKey(list[i]) == k {
          if i < |front| { assert front[i] == list[i]; }
        }
        if k in Listing(front) {
          var i :| 0 <= i < |front| && WatchKey(front[i]) == k;
          assert list[i] == front[i];
        }
      }
      forall i | 0 <= i < |list|
        ensures WatchKey(list[i]) in Listing(list) && Listing(list)[WatchKey(list[i])] == list[i]
      {
        if i < |front| { assert front[i] == list[i]; }
      }
    }
  }

  lemma ReplaySnoc(m: Mirror, events: seq<Event>, e: Event)
    ensures Replay(m, events + [e]) == match Replay(m, events) case None => None case Some(m') => Receive(m', e)
  {
    assert (events + [e])[..|events|] == events;
  }

  /** Keys a round reports: new, gone, or in another version. */
  predicate Reported(seen: Mirror, current: Mirror, k: Key) {
    (k in seen || k in current) && !Unchanged(seen, current, k)
  }

  /** What the client makes of the events so far. */
  ghost predicate Told(start: Mirror, events: seq<Event>, seen: Mirror) {
    Replay(start, events) == Some(seen) && DistinctReports(events)
  }

  lemma TellOne(start: Mirror, events: seq<Event>, seen: Mirror, e: Event)
    requires Told(start, events, seen) && Receive(seen, e).Some?
    requires forall e' | e' in events :: WatchKey(e'.o) != WatchKey(e.o)
    ensures Told(start, events + [e], Receive(seen, e).value)
  {
    ReplaySnoc(start, events, e);
  }

  /** `seen` while the keys `keys` are still to be looked at. */
  ghost function Remaining(start: Mirror, keys: set<Key>, currentKeys: set<Key>): Mirror {
    map k | k in start && (k in keys || k in currentKeys) :: start[k]
  }

  lemma DropOne(start: Mirror, keys: set<Key>, currentKeys: set<Key>, k: Key)
    requires k in keys
    ensures Remaining(start, keys - {k}, currentKeys) ==
            if k in currentKeys then Remaining(start, keys, currentKeys) else Remaining(start, keys, currentKeys) - {k}
  {}

  class Watcher {
    var seen: Mirror

    /** The watch starts from an initial listing. */
    constructor (list: seq<Object>)
      requires DistinctKeys(list)
      ensures seen == Listing(list)
    {
      seen := map[];
      new;
      for i := 0 to |list|
        invariant seen == Listing(list[..i])
      {
        assert list[..i + 1][..i] == list[..i];
        seen := seen[WatchKey(list[i]) := list[i]];
      }
      assert list[..|list|] == list;
    }

    /** One wake-up: reports additions and changes in list order, then deletions in any order. The
        events, replayed by a client that mirrors the previous state of `seen`, are all meaningful and
        give exactly the new state; nothing is reported twice, and nothing for an unchanged version. */
    method WakeUp(current: seq<Object>) returns (events: seq<Event>)
      requires DistinctKeys(current) && Keyed(seen)
      modifies this
      ensures seen == Round(old(seen), Listing(current)) && Keyed(seen)
      ensures Replay(old(seen), events) == Some(seen)
      ensures forall e | e in events :: Reported(old(seen), Listing(current), WatchKey(e.o))
      ensures DistinctReports(events)
    {
      var listed := ReportListed(current);
      ghost var mid := seen;
      var currentKeys := KeysOf(current);
      var gone := ReportGone(currentKeys);
      ReplayConcat(old(seen), listed, gone);
      events := listed + gone;
      assert Replay(old(seen), listed) == Some(mid);
    }

    method ReportGone(currentKeys: set<Key>) returns (events: seq<Event>)
      requires Keyed(seen)
      modifies this
      ensures seen == map k | k in old(seen) && k in currentKeys :: old(seen)[k]
      ensures Replay(old(seen), events) == Some(seen)
      ensures forall e | e in events :: WatchKey(e.o) in old(seen) && WatchKey(e.o) !in currentKeys
      ensures DistinctReports(events)
    {
      ghost var start := seen;
      var keys := seen.Keys;
      events := [];
      while keys != {}
        invariant keys <= seen.Keys
        invariant seen == Remaining(start, keys, currentKeys)
        invariant Told(start, events, seen)
        invariant forall e | e in events ::
                  WatchKey(e.o) in start && WatchKey(e.o) !in currentKeys && WatchKey(e.o) !in keys
        decreases keys
      {
        var k :| k in keys;
        DropOne(start, keys, currentKeys, k);
        if k !in currentKeys {
          assert WatchKey(seen[k]) == k;
          TellOne(start, events, seen, Deleted(seen[k]));
          events := events + [Deleted(seen[k])];
          seen := seen - {k};
        }
        keys := keys - {k};
      }
    }

    method ReportListed(current: seq<Object>) returns (events: seq<Event>)
      requires DistinctKeys(current) && Keyed(seen)
      modifies this
      ensures seen == Overlay(old(seen), Listing(current)) && Keyed(seen)
      ensures Replay(old(seen), events) == Some(seen)
      ensures forall e | e in events ::
                  WatchKey(e.o) in Listing(current) && !Unchanged(old(seen), Listing(current), WatchKey(e.o))
      ensures DistinctReports(events)
    {
      events := [];
      ghost var start := seen;
      for n := 0 to |current|
        invariant ListedSoFar(start, current, n, seen)
        invariant Told(start, events, seen)
        invariant forall e | e in events ::
                  WatchKey(e.o) in Listing(current[..n]) && !Unchanged(start, Listing(current[..n]), WatchKey(e.o))
      {
        var o := current[n];
        var k := WatchKey(o);
        NextListed(current, n);
        NextSeen(start, current, n, seen);
        if k in seen && seen[k].rv == o.rv {
          continue;
        }
        var e := if k in seen then Modified(o) else Added(o);
        TellOne(start, events, seen, e);
        events := events + [e];
        seen := seen[k := o];
      }
      assert current[..|current|] == current;
    }
  }

  ghost predicate ListedSoFar(start: Mirror, current: seq<Object>, n: nat, seen: Mirror)
    requires n <= |current|
  {
    Keyed(seen) && seen == Overlay(start, Listing(current[..n]))
  }

  lemma NextSeen(start: Mirror, current: seq<Object>, n: nat, seen: Mirror)
    requires DistinctKeys(current) && n < |current| && ListedSoFar(start, current, n, seen)
    ensures var o, k := current[n], WatchKey(current[n]);
            && (k in seen <==> k in start)
            && (k in seen ==> seen[k] == start[k])
            && if k in seen && seen[k].rv == o.rv then ListedSoFar(start, current, n + 1, seen)
               else ListedSoFar(start, current, n + 1, seen[k := o])
  {
    NextListed(current, n);
    OverlayStep(start, Listing(current[..n]), WatchKey(current[n]), current[n]);
  }

  lemma OverlayStep(start: Mirror, before: Mirror, k: Key, o: Object)
    requires k !in before
    ensures k in Overlay(start, before) <==> k in start
    ensures k in start ==> Overlay(start, before)[k] == start[k]
    ensures Overlay(start, before[k := o]) ==
            if k in start && start[k].rv == o.rv then Overlay(start, before) else Overlay(start, before)[k := o]
  {}

  lemma NextListed(current: seq<Object>, n: nat)
    requires DistinctKeys(current) && n < |current|
    ensures Listing(current[..n + 1]) == Listing(current[..n])[WatchKey(current[n]) := current[n]]
    ensures WatchKey(current[n]) !in Listing(current[..n])
  {
    var front := current[..n];
    assert current[..n + 1][..n] == front;
    assert forall i | 0 <= i < n :: front[i] == current[i];
    ListingMembers(front);
  }

  method KeysOf(current: seq<Object>) returns (keys: set<Key>)
    requires DistinctKeys(current)
    ensures keys == Listing(current).Keys
  {
    keys := {};
    for n := 0 to |current|
      invariant keys == Listing(current[..n]).Keys
    {
      assert current[..n + 1][..n] == current[..n];
      keys := keys + {WatchKey(current[n])};
    }
    assert current[..|current|] == current;
  }

  // ---- Against the store ----

  /** A watch: the kind, in one namespace or in all of them, the labels it selects, and how a Deployment's
      status is derived from the store when it is read in its namespace. */
  datatype Request = Request(kind: Kind, ns: Option<string>, select: Json -> bool, derive: (State, Object) -> Json)

  predicate DerivesStatus(q: Request) {
    q.kind.Deployment? && q.ns.Some?
  }

  function Shown(s: State, q: Request, o: Object): Object {
    if DerivesStatus(q) then o.(status := q.derive(s, o)) else o
  }

  /** What is listed for a namespace that has objects but is not stored itself. */
  function Phantom(name: string): Object {
    Object("", name, NoUid, 0, 0, Null, Null, Null, map[], map[])
  }

  ghost predicate IsPhantom(s: State, r: Ref) {
    && r.kind.Namespace? && r.key.ns == "" && r !in s.objects
    && exists r' | r' in s.objects :: !r'.kind.Namespace? && r'.key.ns == r.key.name
  }

  ghost predicate Requested(s: State, q: Request, r: Ref) {
    r.kind == q.kind && (q.ns.Some? ==> r.key.ns == q.ns.value) && (r in s.objects || IsPhantom(s, r))
  }

  ghost function Candidate(s: State, q: Request, r: Ref): Object
    requires Requested(s, q, r)
  {
    if r in s.objects then Shown(s, q, s.objects[r]) else Phantom(r.key.name)
  }

  /** `r` is in the listing the watch compares. */
  ghost predicate Listed(s: State, q: Request, r: Ref) {
    Requested(s, q, r) && q.select(Candidate(s, q, r).template)
  }

  /** What a listing shows: the stored objects of the kind, in the namespace if one is asked for, and of
      namespaces also those that only have objects, with nothing but their name. A Deployment listed in its
      namespace has its stored content but for the status. */
  lemma ListingShows(s: State, q: Request, r: Ref)
    ensures Listed(s, q, r) <==>
            && r.kind == q.kind && (q.ns.Some? ==> r.key.ns == q.ns.value)
            && (r in s.objects
                || (r.kind == Namespace && r.key.ns == ""
                    && exists other | other in s.objects :: other.kind != Namespace && other.key.ns == r.key.name))
            && q.select(Candidate(s, q, r).template)
    ensures Listed(s, q, r) ==>
              var o := Candidate(s, q, r);
              if r !in s.objects then o == Object("", r.key.name, NoUid, 0, 0, Null, Null, Null, map[], map[])
              else if q.kind == Deployment && q.ns.Some? then
                o == s.objects[r].(status := o.status) && o.status == q.derive(s, s.objects[r])
              else o == s.objects[r]
  {}

  /** `m` holds exactly the listed objects. */
  ghost predicate Mirrors(m: Mirror, s: State, q: Request) {
    && (forall r | Listed(s, q, r) ::
          WatchKey(Candidate(s, q, r)) in m && m[WatchKey(Candidate(s, q, r))] == Candidate(s, q, r))
    && (forall k | k in m :: exists r | Listed(s, q, r) :: WatchKey(Candidate(s, q, r)) == k)
  }

  /** What of an object its version stands for: everything, but for a status derived on reading, and for
      the untouched default namespace and its phantom, which both have no version. */
  function ContentOf(q: Request, o: Object): Object {
    if DerivesStatus(q) then o.(status := Null)
    else if q.kind.Namespace? && o == Phantom("default") then DEFAULT_NAMESPACE
    else o
  }

  /** `m` has the keys and versions of the listing, and of every object what its version stands for. */
  ghost predicate Follows(m: Mirror, current: Mirror, q: Request) {
    && m.Keys == current.Keys
    && forall k | k in m :: m[k].rv == current[k].rv && ContentOf(q, m[k]) == ContentOf(q, current[k])
  }

  lemma Source(s: State, q: Request, m: Mirror, k: Key) returns (r: Ref)
    requires Mirrors(m, s, q) && k in m
    ensures Listed(s, q, r) && WatchKey(Candidate(s, q, r)) == k && m[k] == Candidate(s, q, r)
  {
    r :| Listed(s, q, r) && WatchKey(Candidate(s, q, r)) == k;
  }

  /** Two stored objects of one version, an earlier and a later one. */
  lemma SameVersionSameObject(s: State, t: State, r: Ref, r': Ref)
    requires StoreHistory.Inv(s) && StoreHistory.KeepsVersions(s, t)
    requires r in s.objects && r' in t.objects && s.objects[r].rv == t.objects[r'].rv
    ensures s.objects[r] == t.objects[r']
  {
    assert s.objects[r].rv <= s.resourceVer;
  }

  /** A stored object without a version is the untouched default namespace. */
  lemma NoVersionIsDefault(s: State, r: Ref)
    requires StoreHistory.Inv(s) && r in s.objects && s.objects[r].rv == 0
    ensures s.objects[r] == DEFAULT_NAMESPACE
  {
    assert StoreHistory.UntouchedDefault(r, s.objects[r]);
  }

  /** The listed objects of one key and version, an earlier and a later one. */
  lemma SameVersionSameContent(s: State, t: State, q: Request, r: Ref, r': Ref)
    requires StoreHistory.Inv(s) && StoreHistory.Inv(t) && StoreHistory.KeepsVersions(s, t)
    requires Requested(s, q, r) && Requested(t, q, r')
    requires var o, o' := Candidate(s, q, r), Candidate(t, q, r'); o.rv == o'.rv && WatchKey(o) == WatchKey(o')
    ensures ContentOf(q, Candidate(s, q, r)) == ContentOf(q, Candidate(t, q, r'))
  {
    if r in s.objects && r' in t.objects {
      SameVersionSameObject(s, t, r, r');
    } else if r in s.objects {
      NoVersionIsDefault(s, r);
    } else if r' in t.objects {
      NoVersionIsDefault(t, r');
    }
  }

  /** A client that follows state `i` of the store follows state `j` after the round at `j`, also in the
      objects deleted and created again in between. */
  lemma MirrorFollowsStore(states: seq<State>, steps: seq<StoreHistory.Step>, i: nat, j: nat, q: Request,
                           seen: Mirror, previous: Mirror, current: Mirror)
    requires StoreHistory.Run(states, steps) && i <= j < |states|
    requires forall n | i <= n < j :: StoreHistory.Versioned(steps[n])
    requires Mirrors(previous, states[i], q) && Follows(seen, previous, q)
    requires Mirrors(current, states[j], q)
    ensures Follows(Round(seen, current), current, q)
  {
    StoreHistory.VersionIdentifies(states, steps, i, j);
    StoreHistory.RunInv(states, steps, i);
    StoreHistory.RunInv(states, steps, j);
    forall k | k in current && Unchanged(seen, current, k) ensures ContentOf(q, seen[k]) == ContentOf(q, current[k]) {
      UnchangedAt(states[i], states[j], q, seen, previous, current, k);
    }
    RoundFollows(seen, current, q);
  }

  lemma UnchangedAt(s: State, t: State, q: Request, seen: Mirror, previous: Mirror, current: Mirror, k: Key)
    requires StoreHistory.Inv(s) && StoreHistory.Inv(t) && StoreHistory.KeepsVersions(s, t)
    requires Mirrors(previous, s, q) && Follows(seen, previous, q) && Mirrors(current, t, q)
    requires Unchanged(seen, current, k)
    ensures ContentOf(q, seen[k]) == ContentOf(q, current[k])
  {
    var r := Source(s, q, previous, k);
    var r' := Source(t, q, current, k);
    SameVersionSameContent(s, t, q, r, r');
  }

  lemma RoundFollows(seen: Mirror, current: Mirror, q: Request)
    requires forall k | k in current && Unchanged(seen, current, k) :: ContentOf(q, seen[k]) == ContentOf(q, current[k])
    ensures Follows(Round(seen, current), current, q)
  {}

  /** A watch session: `at` are the states it was listed in, `currents` the listings, `seens` its
      bookkeeping, which replayed events keep equal to the client's mirror (WakeUp). */
  ghost predicate Session(states: seq<State>, q: Request, at: seq<nat>, currents: seq<Mirror>, seens: seq<Mirror>) {
    && |at| == |currents| == |seens| > 0
    && (forall n | 0 <= n < |at| :: at[n] < |states| && Mirrors(currents[n], states[at[n]], q))
    && (forall n | 0 < n < |at| :: at[n - 1] <= at[n])
    && seens[0] == currents[0]
    && (forall n | 0 < n < |at| :: seens[n] == Round(seens[n - 1], currents[n]))
  }

  /** After every wake-up of a session the client's mirror has exactly the keys and versions listed at
      that moment, and what those versions stand for. */
  lemma {:induction false} SessionFollowsStore(states: seq<State>, steps: seq<StoreHistory.Step>, q: Request,
                                               at: seq<nat>, currents: seq<Mirror>, seens: seq<Mirror>, n: nat)
    requires StoreHistory.Run(states, steps) && (forall k | 0 <= k < |steps| :: StoreHistory.Versioned(steps[k]))
    requires Session(states, q, at, currents, seens) && n < |at|
    ensures Follows(seens[n], currents[n], q)
  {
    if n > 0 {
      SessionFollowsStore(states, steps, q, at, currents, seens, n - 1);
      MirrorFollowsStore(states, steps, at[n - 1], at[n], q, seens[n - 1], currents[n - 1], currents[n]);
    }
  }
}
