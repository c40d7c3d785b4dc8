/** Persistence under concurrency. Every mutation of the store spawns a saver after it has released
    the store lock; savers run in any interleaving. The model is a state machine over the savers'
    steps; S is the content of the store. */
module SaveProtocol {
  import opened Wrappers

  /** Where one goroutine is. Owed: its mutation is done, the `go s.save()` has not run yet. Started:
      waiting for saveMu. Holding: has saveMu. Captured: holds a snapshot, by its position in the
      history. Staged: has written the snapshot to the temporary file. */
  datatype Saver = Owed | Started | Holding | Captured(version: nat) | Staged(version: nat)

  /** `history` lists every content the store has had, the current one last. `lastSaving` is the
      position of the last mutation that spawned a saver. The two files are named by position too;
      `torn` says that the temporary file is what a failed write left, `failed` that the saver that
      left the critical section last did not get its snapshot to the data file. */
  datatype State<S> = State(
    history: seq<S>,
    lastSaving: nat,
    savers: map<nat, Saver>,
    temp: Option<nat>,
    torn: bool,
    disk: Option<nat>,
    failed: bool)

  predicate HoldsMutex(s: Saver) {
    s.Holding? || s.Captured? || s.Staged?
  }

  predicate MutexFree<S>(s: State<S>) {
    forall id | id in s.savers :: !HoldsMutex(s.savers[id])
  }

  ghost predicate Init<S>(s: State<S>) {
    |s.history| == 1 && s.lastSaving == 0 && s.savers == map[]
    && s.temp == None && !s.torn && s.disk == None && !s.failed
  }

  datatype Step<S> =
    | Mutate(content: S, id: nat)
    | MutateSilently(content: S)
    | Start(id: nat)
    | Lock(id: nat)
    | Capture(id: nat)
    | WriteTemp(id: nat)
    | WriteFails(id: nat)
    | Rename(id: nat)
    | RenameFails(id: nat)

  /** One step of the system. A saver that fails gives up its turn and releases the mutex. */
  ghost predicate Next<S>(s: State<S>, t: State<S>, step: Step<S>) {
    match step
    case Mutate(content, id) =>
      && id !in s.savers
      && t == s.(history := s.history + [content], lastSaving := |s.history|, savers := s.savers[id := Owed])
    case MutateSilently(content) =>
      t == s.(history := s.history + [content])
    case Start(id) =>
      && id in s.savers && s.savers[id] == Owed
      && t == s.(savers := s.savers[id := Started])
    case Lock(id) =>
      && id in s.savers && s.savers[id] == Started && MutexFree(s)
      && t == s.(savers := s.savers[id := Holding])
    case Capture(id) =>
      && id in s.savers && s.savers[id] == Holding && s.history != []
      && t == s.(savers := s.savers[id := Captured(|s.history| - 1)])
    case WriteTemp(id) =>
      && id in s.savers && s.savers[id].Captured?
      && t == s.(savers := s.savers[id := Staged(s.savers[id].version)],
                temp := Some(s.savers[id].version), torn := false)
    case WriteFails(id) =>
      && id in s.savers && s.savers[id].Captured?
      && t == s.(savers := s.savers - {id}, torn := true, failed := true)
    case Rename(id) =>
      && id in s.savers && s.savers[id].Staged?
      && t == s.(savers := s.savers - {id}, disk := s.temp, temp := None, failed := false)
    case RenameFails(id) =>
      && id in s.savers && s.savers[id].Staged?
      && t == s.(savers := s.savers - {id}, failed := true)
  }

  ghost predicate CanStep<S(!new)>(s: State<S>, t: State<S>) {
    exists step :: Next(s, t, step)
  }

  ghost predicate Run<S(!new)>(run: seq<State<S>>) {
    && run != []
    && Init(run[0])
    && forall i | 0 < i < |run| :: CanStep(run[i - 1], run[i])
  }

  // ---- What every step keeps ----

  predicate DiskVersion<S>(s: State<S>, v: nat) {
    v < |s.history| && (s.disk.Some? ==> s.disk.value <= v)
  }

  ghost predicate Safe<S>(s: State<S>) {
    && s.history != []
    && s.lastSaving < |s.history|
    && (s.disk.Some? ==> s.disk.value < |s.history|)
    // one saver at a time is inside the critical section
    && (forall a, b | a in s.savers && b in s.savers && HoldsMutex(s.savers[a]) && HoldsMutex(s.savers[b]) :: a == b)
    // what it carries is a state of the store, no older than the file
    && (forall a | a in s.savers && s.savers[a].Captured? :: DiskVersion(s, s.savers[a].version))
    && (forall a | a in s.savers && s.savers[a].Staged? ::
          DiskVersion(s, s.savers[a].version) && s.temp == Some(s.savers[a].version) && !s.torn)
  }

  /** The saver's snapshot will include, or already includes, the last saving mutation. */
  predicate WillSave<S>(s: State<S>, a: Saver) {
    match a
    case Captured(v) => v >= s.lastSaving
    case Staged(v) => v >= s.lastSaving
    case _ => true
  }

  predicate OnDisk<S>(s: State<S>) {
    s.disk.Some? && s.disk.value >= s.lastSaving
  }

  /** The last saving mutation is on disk, or some saver will still put it there, or the last attempt
      failed; and as long as any saver is pending, one will. */
  ghost predicate Covered<S>(s: State<S>) {
    && (s.lastSaving > 0 ==> s.failed || OnDisk(s) || s.savers != map[])
    && (s.savers != map[] ==> exists a | a in s.savers :: WillSave(s, s.savers[a]))
  }

  ghost predicate Inv<S>(s: State<S>) {
    Safe(s) && Covered(s)
  }

  lemma MutationIsSafe<S>(s: State<S>, t: State<S>, step: Step<S>)
    requires Safe(s) && Next(s, t, step) && (step.Mutate? || step.MutateSilently?)
    ensures Safe(t)
  {}

  lemma EntryIsSafe<S>(s: State<S>, t: State<S>, step: Step<S>)
    requires Safe(s) && Next(s, t, step) && (step.Start? || step.Lock?)
    ensures Safe(t)
  {
    if step.Lock? { assert forall a | a in s.savers :: !HoldsMutex(s.savers[a]); }
  }

  lemma ProgressIsSafe<S>(s: State<S>, t: State<S>, step: Step<S>)
    requires Safe(s) && Next(s, t, step) && (step.Capture? || step.WriteTemp?)
    ensures Safe(t)
  {
    assert forall a | a in s.savers && a != step.id :: !HoldsMutex(s.savers[a]);
  }

  lemma ExitIsSafe<S>(s: State<S>, t: State<S>, step: Step<S>)
    requires Safe(s) && Next(s, t, step) && (step.WriteFails? || step.Rename? || step.RenameFails?)
    ensures Safe(t)
  {
    assert forall a | a in s.savers && a != step.id :: !HoldsMutex(s.savers[a]);
  }

  lemma StepIsSafe<S>(s: State<S>, t: State<S>, step: Step<S>)
    requires Safe(s) && Next(s, t, step)
    ensures Safe(t)
  {
    match step {
      case Mutate(_, _) => MutationIsSafe(s, t, step);
      case MutateSilently(_) => MutationIsSafe(s, t, step);
      case Start(_) => EntryIsSafe(s, t, step);
      case Lock(_) => EntryIsSafe(s, t, step);
      case Capture(_) => ProgressIsSafe(s, t, step);
      case WriteTemp(_) => ProgressIsSafe(s, t, step);
      case _ => ExitIsSafe(s, t, step);
    }
  }

  /** The saver that moves still covers, or what it did does. When one leaves the critical section every
      other is outside it, so whichever is left will save the latest state. */
  lemma StepIsCovered<S>(s: State<S>, t: State<S>, step: Step<S>)
    requires Safe(s) && Covered(s) && Next(s, t, step)
    ensures Covered(t)
  {
    match step {
      case Mutate(_, id) => assert WillSave(t, t.savers[id]);
      case MutateSilently(_) => SameSavers(s, t);
      case WriteFails(id) => LeavingIsCovered(s, t, id);
      case Rename(id) => LeavingIsCovered(s, t, id);
      case RenameFails(id) => LeavingIsCovered(s, t, id);
      case _ => MovingIsCovered(s, t, step.id);
    }
  }

  lemma SameSavers<S>(s: State<S>, t: State<S>)
    requires Covered(s) && s.savers == t.savers && s.lastSaving == t.lastSaving && s.disk == t.disk
    requires s.failed == t.failed
    ensures Covered(t)
  {
    if s.savers != map[] {
      var a :| a in s.savers && WillSave(s, s.savers[a]);
      assert WillSave(t, t.savers[a]);
    }
  }

  lemma MovingIsCovered<S>(s: State<S>, t: State<S>, id: nat)
    requires Covered(s) && s.lastSaving == t.lastSaving && s.lastSaving < |s.history|
    requires id in s.savers && id in t.savers && t.savers == s.savers[id := t.savers[id]]
    requires WillSave(s, s.savers[id]) ==> WillSave(t, t.savers[id])
    ensures Covered(t)
  {
    var a :| a in s.savers && WillSave(s, s.savers[a]);
    assert WillSave(t, t.savers[a]);
  }

  lemma LeavingIsCovered<S>(s: State<S>, t: State<S>, id: nat)
    requires Safe(s) && Covered(s) && id in s.savers && HoldsMutex(s.savers[id])
    requires t.savers == s.savers - {id} && s.lastSaving == t.lastSaving
    requires t.failed || (s.savers[id].Staged? && t.disk == Some(s.savers[id].version))
    ensures Covered(t)
  {
    if t.savers != map[] {
      var a :| a in t.savers;
      assert !HoldsMutex(s.savers[a]) && WillSave(t, t.savers[a]);
    } else if !t.failed {
      var a :| a in s.savers && WillSave(s, s.savers[a]);
      assert a != id ==> a in t.savers;
    }
  }

  lemma StepKeepsInv<S>(s: State<S>, t: State<S>, step: Step<S>)
    requires Inv(s) && Next(s, t, step)
    ensures Inv(t)
  {
    StepIsSafe(s, t, step);
    StepIsCovered(s, t, step);
  }

  /** One step never takes the file back to an older content, and never rewrites history. */
  lemma StepIsMonotone<S>(s: State<S>, t: State<S>, step: Step<S>)
    requires Safe(s) && Next(s, t, step)
    ensures s.history <= t.history
    ensures s.disk.Some? ==> t.disk.Some? && s.disk.value <= t.disk.value
  {}

  lemma {:induction false} RunKeepsInv<S(!new)>(run: seq<State<S>>, i: nat)
    requires Run(run) && i < |run|
    ensures Inv(run[i])
  {
    if i > 0 {
      RunKeepsInv(run, i - 1);
      assert CanStep(run[i - 1], run[i]);
      var step :| Next(run[i - 1], run[i], step);
      StepKeepsInv(run[i - 1], run[i], step);
    }
  }

  lemma {:induction false} RunIsMonotone<S(!new)>(run: seq<State<S>>, i: nat, j: nat)
    requires Run(run) && i <= j < |run|
    ensures run[i].history <= run[j].history
    ensures run[i].disk.Some? ==> run[j].disk.Some? && run[i].disk.value <= run[j].disk.value
    decreases j - i
  {
    if i < j {
      RunIsMonotone(run, i, j - 1);
      RunKeepsInv(run, j - 1);
      assert CanStep(run[j - 1], run[j]);
      var step :| Next(run[j - 1], run[j], step);
      StepIsMonotone(run[j - 1], run[j], step);
    }
  }

  /** The content of the data file. */
  function FileContent<S>(s: State<S>): Option<S>
    requires s.disk.Some? ==> s.disk.value < |s.history|
  {
    match s.disk case Some(v) => Some(s.history[v]) case None => None
  }

  /** Safety over all interleavings, with or without failing writes: the file always holds a state
      the store was really in, and later contents are never from an older store state. */
  lemma FileNeverGoesBack<S(!new)>(run: seq<State<S>>, i: nat, j: nat)
    requires Run(run) && i <= j < |run|
    ensures run[i].disk.Some? ==>
              && run[j].disk.Some?
              && run[i].disk.value <= run[j].disk.value < |run[j].history|
              && run[i].disk.value < |run[i].history|
              && FileContent(run[i]) == Some(run[j].history[run[i].disk.value])
              && FileContent(run[j]) == Some(run[j].history[run[j].disk.value])
  {
    RunKeepsInv(run, i);
    RunKeepsInv(run, j);
    RunIsMonotone(run, i, j);
  }

  /** When no saver is pending and the last one in the critical section succeeded, whatever failed
      before, the file holds the state the last saving mutation produced, or a later one; the store's
      current state if nothing changed it silently since. */
  lemma QuiescentFileIsCurrent<S(!new)>(run: seq<State<S>>, i: nat)
    requires Run(run) && i < |run|
    requires run[i].savers == map[] && !run[i].failed && run[i].lastSaving > 0
    ensures run[i].disk.Some? && run[i].lastSaving <= run[i].disk.value < |run[i].history|
    ensures run[i].lastSaving == |run[i].history| - 1 ==>
              FileContent(run[i]) == Some(run[i].history[|run[i].history| - 1])
  {
    RunKeepsInv(run, i);
  }

  /** Mutual exclusion: at no time do two savers stand between taking and releasing saveMu, so the
      temporary file a saver renames is its own. */
  lemma RenamesOwnSnapshot<S(!new)>(run: seq<State<S>>, i: nat, id: nat)
    requires Run(run) && i < |run| - 1 && Next(run[i], run[i + 1], Rename(id))
    ensures run[i + 1].disk == Some(run[i].savers[id].version)
    ensures forall a | a in run[i].savers && a != id :: !HoldsMutex(run[i].savers[a])
  {
    RunKeepsInv(run, i);
  }
}
