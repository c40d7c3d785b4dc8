/** A saver is never stuck: whatever state the system is in, the pending savers can all finish, and what
    they leave on disk is then current. */
module SaveProgress {
  import opened Wrappers
  import opened SaveProtocol

  /** Steps from state to state. */
  ghost predicate Path<S(!new)>(run: seq<State<S>>) {
    run != [] && forall i | 0 < i < |run| :: CanStep(run[i - 1], run[i])
  }

  ghost predicate Leads<S(!new)>(run: seq<State<S>>, s: State<S>, t: State<S>) {
    Path(run) && run[0] == s && run[|run| - 1] == t
  }

  lemma OneStep<S(!new)>(s: State<S>, t: State<S>, step: Step<S>)
    requires Next(s, t, step)
    ensures Leads([s, t], s, t)
  {
    assert CanStep(s, t);
  }

  lemma Chain<S(!new)>(a: seq<State<S>>, b: seq<State<S>>, s: State<S>, t: State<S>, u: State<S>)
    requires Leads(a, s, t) && Leads(b, t, u)
    ensures Leads(a + b[1..], s, u)
  {
    var run := a + b[1..];
    forall i | 0 < i < |run| ensures CanStep(run[i - 1], run[i]) {
      if i >= |a| {
        assert run[i] == b[i - |a| + 1] && run[i - 1] == b[i - |a|];
      }
    }
  }

  /** The position in the history that a saver writes or has yet to read. */
  function Target<S>(s: State<S>, saver: Saver): int {
    match saver
    case Captured(v) => v
    case Staged(v) => v
    case _ => |s.history| - 1
  }

  /** The saver is done: its snapshot is on disk, and it alone is gone. */
  ghost predicate Saved<S>(s: State<S>, t: State<S>, id: nat, v: int) {
    && Safe(t) && t.savers == s.savers - {id} && t.history == s.history && t.lastSaving == s.lastSaving
    && t.disk.Some? && t.disk.value == v && !t.failed
  }

  lemma FinishStaged<S(!new)>(s: State<S>, id: nat) returns (t: State<S>, run: seq<State<S>>)
    requires Safe(s) && id in s.savers && s.savers[id].Staged?
    ensures Leads(run, s, t) && Saved(s, t, id, s.savers[id].version)
  {
    t := s.(savers := s.savers - {id}, disk := s.temp, temp := None, failed := false);
    StepIsSafe(s, t, Rename(id));
    OneStep(s, t, Rename(id));
    run := [s, t];
  }

  lemma FinishCaptured<S(!new)>(s: State<S>, id: nat) returns (t: State<S>, run: seq<State<S>>)
    requires Safe(s) && id in s.savers && s.savers[id].Captured?
    ensures Leads(run, s, t) && Saved(s, t, id, s.savers[id].version)
  {
    var v := s.savers[id].version;
    var next := s.(savers := s.savers[id := Staged(v)], temp := Some(v), torn := false);
    StepIsSafe(s, next, WriteTemp(id));
    OneStep(s, next, WriteTemp(id));
    t, run := FinishStaged(next, id);
    assert next.savers - {id} == s.savers - {id};
    Chain([s, next], run, s, next, t);
    run := [s, next] + run[1..];
  }

  lemma FinishHolding<S(!new)>(s: State<S>, id: nat) returns (t: State<S>, run: seq<State<S>>)
    requires Safe(s) && id in s.savers && s.savers[id] == Holding
    ensures Leads(run, s, t) && Saved(s, t, id, |s.history| - 1)
  {
    var next := s.(savers := s.savers[id := Captured(|s.history| - 1)]);
    StepIsSafe(s, next, Capture(id));
    OneStep(s, next, Capture(id));
    t, run := FinishCaptured(next, id);
    assert next.savers - {id} == s.savers - {id};
    Chain([s, next], run, s, next, t);
    run := [s, next] + run[1..];
  }

  lemma FinishStarted<S(!new)>(s: State<S>, id: nat) returns (t: State<S>, run: seq<State<S>>)
    requires Safe(s) && id in s.savers && s.savers[id] == Started && MutexFree(s)
    ensures Leads(run, s, t) && Saved(s, t, id, |s.history| - 1)
  {
    var next := s.(savers := s.savers[id := Holding]);
    StepIsSafe(s, next, Lock(id));
    OneStep(s, next, Lock(id));
    t, run := FinishHolding(next, id);
    assert next.savers - {id} == s.savers - {id};
    Chain([s, next], run, s, next, t);
    run := [s, next] + run[1..];
  }

  lemma FinishOwed<S(!new)>(s: State<S>, id: nat) returns (t: State<S>, run: seq<State<S>>)
    requires Safe(s) && id in s.savers && s.savers[id] == Owed && MutexFree(s)
    ensures Leads(run, s, t) && Saved(s, t, id, |s.history| - 1)
  {
    var next := s.(savers := s.savers[id := Started]);
    StepIsSafe(s, next, Start(id));
    OneStep(s, next, Start(id));
    t, run := FinishStarted(next, id);
    assert next.savers - {id} == s.savers - {id};
    Chain([s, next], run, s, next, t);
    run := [s, next] + run[1..];
  }

  /** A saver that may go on can finish, alone and without a failure. */
  lemma FinishOne<S(!new)>(s: State<S>, id: nat) returns (t: State<S>, run: seq<State<S>>)
    requires Safe(s) && id in s.savers && (HoldsMutex(s.savers[id]) || MutexFree(s))
    ensures Leads(run, s, t) && Saved(s, t, id, Target(s, s.savers[id]))
  {
    match s.savers[id] {
      case Owed => t, run := FinishOwed(s, id);
      case Started => t, run := FinishStarted(s, id);
      case Holding => t, run := FinishHolding(s, id);
      case Captured(_) => t, run := FinishCaptured(s, id);
      case Staged(_) => t, run := FinishStaged(s, id);
    }
  }

  /** Who may go on: the one that holds the mutex, or anyone. */
  lemma NextToFinish<S>(s: State<S>) returns (id: nat)
    requires s.savers != map[]
    ensures id in s.savers && (HoldsMutex(s.savers[id]) || MutexFree(s))
  {
    if MutexFree(s) {
      id :| id in s.savers;
    } else {
      id :| id in s.savers && HoldsMutex(s.savers[id]);
    }
  }

  /** From every state of a run the pending savers can all finish, and the file then covers the last saving
      mutation: no interleaving so far, and no failed write, has left the system unable to save. */
  lemma {:induction false} SaversCanFinish<S(!new)>(s: State<S>) returns (t: State<S>, run: seq<State<S>>)
    requires Inv(s)
    ensures Leads(run, s, t) && Inv(t)
    ensures t.savers == map[] && t.history == s.history && t.lastSaving == s.lastSaving
    ensures if s.savers == map[] then t == s else !t.failed && (s.lastSaving > 0 ==> OnDisk(t))
    decreases |s.savers|
  {
    t, run := s, [s];
    if s.savers != map[] {
      var id := NextToFinish(s);
      var mid, first := FinishOne(s, id);
      FinishedIsCovered(s, mid, id);
      assert |mid.savers| < |s.savers|;
      var rest;
      t, rest := SaversCanFinish(mid);
      Chain(first, rest, s, mid, t);
      run := first + rest[1..];
    }
  }

  lemma FinishedIsCovered<S>(s: State<S>, t: State<S>, id: nat)
    requires Inv(s) && id in s.savers && (HoldsMutex(s.savers[id]) || MutexFree(s))
    requires Saved(s, t, id, Target(s, s.savers[id]))
    ensures Inv(t) && !t.failed
  {
    if t.savers != map[] {
      var a :| a in t.savers;
      assert !HoldsMutex(s.savers[a]) && WillSave(t, t.savers[a]);
    } else {
      var a :| a in s.savers && WillSave(s, s.savers[a]);
      assert a != id ==> a in t.savers;
    }
  }
}
