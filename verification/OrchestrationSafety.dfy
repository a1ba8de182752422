/** What holds in every run, what holds while no finished task is undone, and what keeps that from happening. */
module OrchestrationSafety {
  import opened Prelude
  import opened Readiness
  import opened Tasks
  import opened Leases
  import opened Jobs
  import opened Propagation
  import opened JobAdvance
  import opened Orchestration

  // ----- what may be staged -----

  lemma SweptChange(t: Table, t': Table, id: TaskId, w: Staged)
    requires Marked(t, t') && id in Changed(t, t') && (t[id].worker.Some? <==> t[id].lease.Some?)
    ensures GoodChange(w, RowChange(t[id], t'[id]))
  {
    var s :| Terminal(s) && t'[id] == Mark(t[id], s);
  }

  /** A sweep stages good changes only. */
  lemma SweepGood(s: Sys, t': Table)
    requires Sane(s) && Marked(s.tasks, t')
    ensures GoodStaged(s, Staged(Diff(s.tasks, t'), map[], {}))
  {
    hide Marked, GoodChange, JobsKnown, StagedGood;
    var w := Staged(Diff(s.tasks, t'), map[], {});
    forall id | id in w.rows ensures GoodChange(w, w.rows[id]) { SweptChange(s.tasks, t', id, w); }
  }

  lemma ResumeGood(s: Sys, job: string)
    requires Sane(s) && CanResume(s.jobs, s.tasks, job)
    ensures job in s.jobs
    ensures GoodStaged(s, Staged(Diff(s.tasks, ResumeTasks(s.tasks, job)), JobDiff(s.jobs, s.jobs[job := ResumeJob(s.jobs[job])]), {}))
  {
    hide JobsKnown, StagedGood, GoodChange, CanResume;
    assert job in s.jobs && Resettable(s.jobs[job].status) by { Resumable(s.jobs, s.tasks, job); }
    var w := Staged(Diff(s.tasks, ResumeTasks(s.tasks, job)), JobDiff(s.jobs, s.jobs[job := ResumeJob(s.jobs[job])]), {});
    assert job in w.jobs && Revives(w.jobs[job]);
    forall id | id in w.rows ensures GoodChange(w, w.rows[id]) && w.rows[id].before.job == job {
      ResetGood(s.tasks[id], w, job);
    }
  }

  lemma Resumable(jobs: JobTable, t: Table, job: string)
    requires CanResume(jobs, t, job)
    ensures job in jobs && Resettable(jobs[job].status)
  {
  }

  lemma ResetGood(row: Task, w: Staged, job: string)
    requires row.job == job && Resettable(row.status) && (row.worker.Some? <==> row.lease.Some?)
    requires job in w.jobs && Revives(w.jobs[job])
    ensures GoodChange(w, RowChange(row, ResetTask(row)))
  {
  }

  /** Whatever a reading step stages is good. */
  lemma ReadsGood(s: Sys, a: Action)
    requires Sane(s) && ReadStep(a) && Reads(s, a).Some?
    ensures GoodStaged(s, Reads(s, a).value)
  {
    hide Sane, GoodStaged, Marked, Sweep, Advance, CanResume, ResumeTasks, Collectable, Finalize;
    match a
    case ReadSweep(order, _) =>
      SweepMarks(s.tasks, order);
      SweepGood(s, Sweep(s.tasks, order));
    case ReadAdvance(job, ids, _) =>
      AdvanceMarks(s.tasks, job, ids);
      SweepGood(s, Advance(s.tasks, job, ids));
    case ReadRollUp(job, now, _) =>
      RollUpGood(s, job, now);
    case ReadResume(job, _) =>
      ResumeGood(s, job);
    case ReadCollect(cutoff, _) =>
      NothingChanges(s, Reads(s, a).value);
  }

  lemma RollUpGood(s: Sys, job: string, now: int)
    ensures GoodStaged(s, Staged(map[], JobDiff(s.jobs, Finalize(s.jobs, s.tasks, job, now)), {}))
  {
  }

  lemma NothingChanges(s: Sys, w: Staged)
    requires w.rows == map[] && w.jobs == map[]
    ensures GoodStaged(s, w)
  {
  }

  lemma DoomedRowGood(s: Sys, id: TaskId)
    requires Sane(s) && id in s.tasks
    ensures GoodStaged(s, Staged(Diff(s.tasks, Visit(s.tasks, id)), map[], {}))
  {
    hide Sane, GoodStaged, Marked, Visit;
    VisitMarks(s.tasks, id);
    SweepGood(s, Visit(s.tasks, id));
  }

  /** What is staged stays good while rows keep their jobs. */
  lemma GoodStays(s: Sys, s': Sys, w: Staged)
    requires GoodStaged(s, w) && s.issued <= s'.issued
    requires forall id :: id in s.issued && id in s'.tasks ==> id in s.tasks && s'.tasks[id].job == s.tasks[id].job
    ensures GoodStaged(s', w)
  {
    hide GoodChange;
  }

  // ----- rows keep their identity -----

  /** Ids are not handed out again, and a row keeps its job and its dependencies. */
  ghost predicate KeepsRows(s: Sys, s': Sys) {
    && s.issued <= s'.issued && s'.tasks.Keys <= s'.issued
    && (forall id :: id in s.issued && id in s'.tasks ==>
          id in s.tasks && s'.tasks[id].job == s.tasks[id].job && s'.tasks[id].deps == s.tasks[id].deps)
  }

  lemma StepKeepsRows(s: Sys, a: Action)
    requires s.tasks.Keys <= s.issued && Enabled(s, a)
    ensures KeepsRows(s, Next(s, a))
  {
    hide Reads, Diff, StepCheckDependencies, StepPick, StepCheckLease, StepCommit, Refresh;
    if WorkerStep(a) {
      WorkerKeepsRows(s, a);
    }
  }

  lemma WorkerKeepsRows(s: Sys, a: Action)
    requires s.tasks.Keys <= s.issued && WorkerStep(a)
    ensures KeepsRows(s, Next(s, a))
  {
    hide StateIn, Diff, Visit;
  }

  // ----- steps that leave finished work alone -----

  /** Nothing that is done becomes undone. */
  ghost predicate KeepsDone(s: Sys, s': Sys) {
    s.issued <= s'.issued && forall d :: Done(s, d) ==> Done(s', d)
  }

  /** A done task is undone by a step exactly when the step writes another status over its reusable one. */
  lemma DoneUnlessUndone(s: Sys, a: Action, d: TaskId)
    requires s.tasks.Keys <= s.issued && Enabled(s, a) && Done(s, d)
    ensures Done(Next(s, a), d) <==> !UndoesAt(s, a, d)
  {
    hide StateIn, Reads, Diff, Collectable;
  }

  /** So a step leaves all finished work alone exactly when it makes no such write. */
  lemma KeepsDoneUnlessUndoes(s: Sys, a: Action)
    requires s.tasks.Keys <= s.issued && Enabled(s, a)
    ensures KeepsDone(s, Next(s, a)) <==> !Undoes(s, a)
  {
    hide Next, UndoesAt, Enabled;
    StepKeepsRows(s, a);
    forall d | Done(s, d) ensures Done(Next(s, a), d) <==> !UndoesAt(s, a, d) { DoneUnlessUndone(s, a, d); }
    if Undoes(s, a) {
      var d :| d in s.tasks && UndoesAt(s, a, d);
      UndoneIsDone(s, a, d);
    } else {
      forall d | Done(s, d) ensures Done(Next(s, a), d) {
        if UndoesAt(s, a, d) { UndoneIsDone(s, a, d); }
      }
    }
  }

  lemma UndoneIsDone(s: Sys, a: Action, d: TaskId)
    requires s.tasks.Keys <= s.issued && UndoesAt(s, a, d)
    ensures d in s.tasks && Done(s, d)
  {
  }

  lemma DependenciesStayDone(s: Sys, s': Sys, id: TaskId)
    requires KeepsDone(s, s') && KeepsRows(s, s') && DependenciesDone(s, id) && id in s.issued
    ensures DependenciesDone(s', id)
  {
    hide Done;
  }

  // ----- what every step keeps -----

  predicate WorkerStep(a: Action) {
    a.CheckDependencies? || a.Pick? || a.Heartbeat? || a.CheckLease? || a.Commit?
  }

  lemma KeepsRunningLeased(s: Sys, a: Action)
    requires RunningLeased(s) && StagedGood(s) && Enabled(s, a)
    ensures RunningLeased(Next(s, a))
  {
    hide Reads, Diff, StepCheckDependencies, StepPick, StepCheckLease, StepCommit, StepWrite, Refresh;
    if a.Write? {
      WriteKeepsRunningLeased(s, a.txn);
    } else if WorkerStep(a) {
      WorkerKeepsRunningLeased(s, a);
    } else {
      hide StagedGood;
    }
  }

  lemma WorkerKeepsRunningLeased(s: Sys, a: Action)
    requires RunningLeased(s) && Enabled(s, a) && WorkerStep(a)
    ensures RunningLeased(Next(s, a))
  {
    hide StateIn, Diff, Visit;
  }

  lemma WriteKeepsRunningLeased(s: Sys, txn: nat)
    requires RunningLeased(s) && StagedGood(s)
    ensures RunningLeased(StepWrite(s, txn))
  {
    if txn in s.staged {
      assert GoodStaged(s, s.staged[txn]);
    }
  }

  lemma KeepsJobsKnown(s: Sys, a: Action)
    requires JobsKnown(s) && Enabled(s, a)
    ensures JobsKnown(Next(s, a))
  {
    hide StateIn, Reads, Diff;
  }

  lemma KeepsStagedGood(s: Sys, a: Action)
    requires Sane(s) && Enabled(s, a)
    ensures StagedGood(Next(s, a))
  {
    var s' := Next(s, a);
    StepKeepsRows(s, a);
    forall txn | txn in s'.staged ensures GoodStaged(s', s'.staged[txn]) {
      NewlyStaged(s, a, txn);
      hide Next;
      GoodStays(s, s', s'.staged[txn]);
    }
  }

  lemma ReadStages(s: Sys, a: Action, w: Staged)
    requires ReadStep(a) && Reads(s, a) == Some(w)
    ensures Next(s, a) == s.(staged := s.staged[a.txn := w])
  {
    hide Reads;
  }

  lemma NewlyStaged(s: Sys, a: Action, txn: nat)
    requires Sane(s) && txn in Next(s, a).staged
    ensures GoodStaged(s, Next(s, a).staged[txn])
  {
    hide GoodStaged, StateIn, Reads, RunningLeased, JobsKnown;
    if txn !in s.staged || Next(s, a).staged[txn] != s.staged[txn] {
      if a.CheckDependencies? {
        DoomedRowGood(s, a.who.id);
      } else {
        ReadsGood(s, a);
      }
    }
  }

  lemma KeepsClockPast(s: Sys, a: Action)
    requires Sane(s) && Enabled(s, a)
    ensures var s' := Next(s, a); s.clock <= s'.clock && (s'.sweep.Some? ==> s'.sweep.value.1 <= s'.clock)
  {
    hide StateIn, Reads, RunningLeased, JobsKnown, StagedGood;
  }

  lemma StepKeepsSane(s: Sys, a: Action)
    requires Sane(s) && Enabled(s, a)
    ensures Sane(Next(s, a))
  {
    KeepsRunningLeased(s, a);
    KeepsJobsKnown(s, a);
    KeepsStagedGood(s, a);
    KeepsClockPast(s, a);
    StepKeepsRows(s, a);
    hide Next, RunningLeased, JobsKnown, StagedGood;
  }

  // ----- what is kept while nothing is undone -----

  /** Rows that run after a step ran before, or were just picked by a worker that had found them ready. */
  lemma NewlyRunning(s: Sys, a: Action, id: TaskId)
    requires Sane(s) && Enabled(s, a) && id in Next(s, a).tasks && Next(s, a).tasks[id].status == Running
    ensures id in s.tasks && (s.tasks[id].status == Running || exists p :: p in s.checked && p.id == id)
  {
    hide StateIn, Reads, Diff, RunningLeased, JobsKnown, StepWrite;
    if a.Write? {
      WriteStartsNothing(s, a.txn);
    } else {
      hide StagedGood;
    }
  }

  lemma WriteStartsNothing(s: Sys, txn: nat)
    requires StagedGood(s)
    ensures var s' := StepWrite(s, txn); forall id :: id in s'.tasks && s'.tasks[id].status == Running ==>
              id in s.tasks && s.tasks[id] == s'.tasks[id]
  {
    if txn in s.staged {
      assert GoodStaged(s, s.staged[txn]);
    }
  }

  lemma NewlyChecked(s: Sys, a: Action, p: Attempt)
    requires s.tasks.Keys <= s.issued && p in Next(s, a).checked
    ensures p in s.checked || (p.id in s.tasks && DependenciesDone(s, p.id))
  {
    hide Reads, Diff, Visit;
    if p !in s.checked {
      ReadyIsReady(s.tasks[p.id].deps, StatusesOf(s.tasks));
      ReadyInIff(s.tasks, p.id);
    }
  }

  lemma StepKeepsRunningReady(s: Sys, a: Action)
    requires Sane(s) && RunningReady(s) && Enabled(s, a) && !Undoes(s, a)
    ensures RunningReady(Next(s, a))
  {
    var s' := Next(s, a);
    hide Next, Enabled, Undoes, DependenciesDone, JobsKnown, RunningLeased, StagedGood;
    KeepsDoneUnlessUndoes(s, a);
    StepKeepsRows(s, a);
    forall id | id in s'.tasks && s'.tasks[id].status == Running ensures DependenciesDone(s', id) {
      NewlyRunning(s, a, id);
      DependenciesStayDone(s, s', id);
    }
    forall p | p in s'.checked ensures p.id in s'.issued && DependenciesDone(s', p.id) {
      NewlyChecked(s, a, p);
      assert p.id in s.issued && DependenciesDone(s, p.id);
      DependenciesStayDone(s, s', p.id);
    }
  }

  // ----- what careful steps keep -----

  lemma StepKeepsCommitOwned(s: Sys, a: Action)
    requires Sane(s) && CommitOwned(s) && Enabled(s, a) && Careful(s, a)
    ensures CommitOwned(Next(s, a))
  {
    hide StateIn, RunningLeased, JobsKnown, Reads, Diff, StepCheckDependencies, StepPick, StepCheckLease, StepCommit, Refresh,
         StepWrite;
    if WorkerStep(a) {
      WorkerKeepsCommitOwned(s, a);
    } else if a.Write? {
      WriteKeepsCommitOwned(s, a);
    } else {
      hide StagedGood, Holds;
    }
  }

  lemma WriteKeepsCommitOwned(s: Sys, a: Action)
    requires Sane(s) && CommitOwned(s) && a.Write? && Careful(s, a)
    ensures CommitOwned(Next(s, a))
  {
    if a.txn in s.staged {
      assert GoodStaged(s, s.staged[a.txn]);
    }
  }

  lemma WorkerKeepsCommitOwned(s: Sys, a: Action)
    requires CommitOwned(s) && s.tasks.Keys <= s.issued && Enabled(s, a) && Careful(s, a) && WorkerStep(a)
    ensures CommitOwned(Next(s, a))
  {
    hide StepCheckDependencies, StepPick, StepCheckLease, StepCommit, Refresh, CommitOwned;
    match a
    case CheckLease(_, _) => CheckKeepsCommitOwned(s, a);
    case Commit(_, _) => CommitKeepsCommitOwned(s, a);
    case _ => RowKeepsCommitOwned(s, a);
  }

  lemma CheckKeepsCommitOwned(s: Sys, a: Action)
    requires CommitOwned(s) && s.tasks.Keys <= s.issued && Enabled(s, a) && Careful(s, a) && a.CheckLease?
    ensures CommitOwned(Next(s, a))
  {
  }

  lemma CommitKeepsCommitOwned(s: Sys, a: Action)
    requires CommitOwned(s) && s.tasks.Keys <= s.issued && Enabled(s, a) && Careful(s, a) && a.Commit?
    ensures CommitOwned(Next(s, a))
  {
  }

  lemma RowKeepsCommitOwned(s: Sys, a: Action)
    requires CommitOwned(s) && s.tasks.Keys <= s.issued && Enabled(s, a) && (a.CheckDependencies? || a.Pick? || a.Heartbeat?)
    ensures CommitOwned(Next(s, a))
  {
    hide StateIn, Diff, Visit;
  }

  /** Careful writers undo nothing. */
  lemma CarefulUndoesNothing(s: Sys, a: Action)
    requires StagedGood(s) && CommitOwned(s) && Careful(s, a)
    ensures !Undoes(s, a)
  {
    if a.Write? && a.txn in s.staged {
      assert GoodStaged(s, s.staged[a.txn]);
    }
  }

  // ----- over whole runs -----

  lemma PossiblePrefix(s: Sys, trace: seq<Action>)
    requires trace != [] && Possible(s, trace)
    ensures Possible(s, trace[..|trace| - 1])
    ensures Enabled(Run(s, trace[..|trace| - 1]), trace[|trace| - 1])
  {
    hide Enabled, Next;
    var before := trace[..|trace| - 1];
    forall k | 0 <= k < |before| ensures Enabled(Run(s, before[..k]), before[k]) {
      assert before[..k] == trace[..k];
    }
  }

  /** In every run, careful or not: running tasks have an owner and a lease, tasks have their jobs, and what is
      staged only makes pending tasks terminal or revives a job with its failed and cancelled tasks. */
  lemma {:induction false} RunSane(trace: seq<Action>)
    requires Possible(INITIAL, trace)
    ensures Sane(Run(INITIAL, trace))
    decreases |trace|
  {
    hide Sane, Next, Enabled, Possible;
    if trace == [] {
      InitiallySane();
    } else {
      PossiblePrefix(INITIAL, trace);
      RunSane(trace[..|trace| - 1]);
      StepKeepsSane(Run(INITIAL, trace[..|trace| - 1]), trace[|trace| - 1]);
    }
  }

  lemma InitiallySane()
    ensures Sane(INITIAL) && RunningReady(INITIAL) && CommitOwned(INITIAL)
  {
  }

  lemma UndonePrefix(s: Sys, trace: seq<Action>)
    requires trace != [] && NothingUndone(s, trace)
    ensures NothingUndone(s, trace[..|trace| - 1])
    ensures !Undoes(Run(s, trace[..|trace| - 1]), trace[|trace| - 1])
  {
    hide Undoes, Next;
    var before := trace[..|trace| - 1];
    forall k | 0 <= k < |before| ensures !Undoes(Run(s, before[..k]), before[k]) {
      assert before[..k] == trace[..k];
    }
  }

  /** In every run in which no finished task is undone, whatever runs has its dependencies done. */
  lemma {:induction false} RunSafe(trace: seq<Action>)
    requires Possible(INITIAL, trace) && NothingUndone(INITIAL, trace)
    ensures RunningReady(Run(INITIAL, trace))
    decreases |trace|
  {
    hide Sane, RunningReady, Next, Enabled, Possible, Undoes, NothingUndone;
    if trace == [] {
      InitiallySane();
    } else {
      var before := trace[..|trace| - 1];
      PossiblePrefix(INITIAL, trace);
      UndonePrefix(INITIAL, trace);
      RunSafe(before);
      RunSane(before);
      StepKeepsRunningReady(Run(INITIAL, before), trace[|trace| - 1]);
    }
  }

  lemma CarefulPrefix(s: Sys, trace: seq<Action>)
    requires trace != [] && CarefulRun(s, trace)
    ensures CarefulRun(s, trace[..|trace| - 1])
    ensures Careful(Run(s, trace[..|trace| - 1]), trace[|trace| - 1])
  {
    hide Careful, Next;
    var before := trace[..|trace| - 1];
    forall k | 0 <= k < |before| ensures Careful(Run(s, before[..k]), before[k]) {
      assert before[..k] == trace[..k];
    }
  }

  /** In a run of careful writers nothing is ever undone, and who may commit owns the row. */
  lemma {:induction false} CarefulRunSafe(trace: seq<Action>)
    requires Possible(INITIAL, trace) && CarefulRun(INITIAL, trace)
    ensures NothingUndone(INITIAL, trace) && CommitOwned(Run(INITIAL, trace))
    decreases |trace|
  {
    hide Sane, CommitOwned, Next, Enabled, Possible, Undoes, Careful, CarefulRun;
    if trace == [] {
      InitiallySane();
    } else {
      var before := trace[..|trace| - 1];
      PossiblePrefix(INITIAL, trace);
      CarefulPrefix(INITIAL, trace);
      CarefulRunSafe(before);
      RunSane(before);
      SaneStaged(Run(INITIAL, before));
      CarefulUndoesNothing(Run(INITIAL, before), trace[|trace| - 1]);
      StepKeepsCommitOwned(Run(INITIAL, before), trace[|trace| - 1]);
      forall k | 0 <= k < |trace| ensures !Undoes(Run(INITIAL, trace[..k]), trace[k]) {
        if k < |before| {
          assert trace[..k] == before[..k] && trace[k] == before[k];
        }
      }
    }
  }

  lemma SaneStaged(s: Sys)
    requires Sane(s)
    ensures StagedGood(s)
  {
  }

  // ----- a finished task stays finished -----

  ghost predicate DoneThroughout(s: Sys, trace: seq<Action>, d: TaskId) {
    forall k :: 0 <= k <= |trace| ==> Done(Run(s, trace[..k]), d)
  }

  ghost predicate NeverUndone(s: Sys, trace: seq<Action>, d: TaskId) {
    forall k :: 0 <= k < |trace| ==> !UndoesAt(Run(s, trace[..k]), trace[k], d)
  }

  /** In any possible run a task that is done stays done, or goes with its job, exactly when no step writes another
      result over its reusable row. */
  lemma {:induction false} DoneForever(s: Sys, trace: seq<Action>, d: TaskId)
    requires Sane(s) && Possible(s, trace) && Done(s, d)
    ensures Sane(Run(s, trace))
    ensures DoneThroughout(s, trace, d) <==> NeverUndone(s, trace, d)
    decreases |trace|
  {
    hide Sane, Next, Enabled, Possible, Done, UndoesAt, DoneThroughout, NeverUndone;
    if trace == [] {
      assert DoneThroughout(s, trace, d) && NeverUndone(s, trace, d) by { EmptyRun(s, d); }
    } else {
      var before, a := trace[..|trace| - 1], trace[|trace| - 1];
      PossiblePrefix(s, trace);
      DoneForever(s, before, d);
      StepKeepsSane(Run(s, before), a);
      OneMoreStep(s, trace, d);
      if DoneThroughout(s, before, d) {
        LastIsDone(s, before, d);
        assert Run(s, before).tasks.Keys <= Run(s, before).issued by { SaneIds(Run(s, before)); }
        DoneUnlessUndone(Run(s, before), a, d);
      }
    }
  }

  lemma SaneIds(s: Sys)
    requires Sane(s)
    ensures s.tasks.Keys <= s.issued
  {
  }

  lemma EmptyRun(s: Sys, d: TaskId)
    requires Done(s, d)
    ensures DoneThroughout(s, [], d) && NeverUndone(s, [], d)
  {
  }

  lemma LastIsDone(s: Sys, trace: seq<Action>, d: TaskId)
    requires DoneThroughout(s, trace, d)
    ensures Done(Run(s, trace), d)
  {
    assert trace[..|trace|] == trace;
  }

  lemma OneMoreStep(s: Sys, trace: seq<Action>, d: TaskId)
    requires trace != []
    ensures var before := trace[..|trace| - 1];
            && (DoneThroughout(s, trace, d) <==> DoneThroughout(s, before, d) && Done(Next(Run(s, before), trace[|trace| - 1]), d))
            && (NeverUndone(s, trace, d) <==> NeverUndone(s, before, d) && !UndoesAt(Run(s, before), trace[|trace| - 1], d))
  {
    hide Next, Done, UndoesAt;
    var before := trace[..|trace| - 1];
    assert trace[..|trace|] == trace;
    assert Run(s, trace) == Next(Run(s, before), trace[|trace| - 1]);
    assert forall k :: 0 <= k <= |before| ==> before[..k] == trace[..k];
  }

  // ----- the writes of a worker, spelled out -----

  /** Reading a task makes an attempt ready to pick it up exactly if the task is pending and all its dependencies have
      succeeded or were skipped; it stages a marking exactly if the task is pending and one of them is missing, failed or
      cancelled; and it changes no row. */
  lemma ReadExact(s: Sys, a: Action)
    requires a.CheckDependencies? && a.who !in s.checked && a.txn !in s.staged
    ensures a.who in Next(s, a).checked <==>
              && a.who.id in s.tasks && s.tasks[a.who.id].status == Pending
              && forall d :: d in s.tasks[a.who.id].deps ==> d in s.tasks && s.tasks[d].status in [Succeeded, Skipped]
    ensures a.txn in Next(s, a).staged <==>
              && a.who.id in s.tasks && s.tasks[a.who.id].status == Pending
              && exists d :: d in s.tasks[a.who.id].deps && (d !in s.tasks || s.tasks[d].status in [Failed, Cancelled, CancelledDirty])
    ensures Next(s, a).tasks == s.tasks && Next(s, a).jobs == s.jobs
  {
    if a.who.id in s.tasks {
      StatesOfRow(s.tasks, a.who.id);
    }
    hide StateIn, Diff, Visit;
  }

  lemma StatesOfRow(t: Table, id: TaskId)
    requires id in t
    ensures StateIn(t, id) == Ready <==> forall d :: d in t[id].deps ==> d in t && t[d].status in [Succeeded, Skipped]
    ensures StateIn(t, id) != Ready && StateIn(t, id) != Blocked <==>
              exists d :: d in t[id].deps && (d !in t || t[d].status in [Failed, Cancelled, CancelledDirty])
  {
    ReadyIsReady(t[id].deps, StatusesOf(t));
    TerminalInIff(t, id);
    hide StateOf;
  }

  /** An attempt passes the check exactly if it was started, the row is running under its worker's id, and the lease has
      not run out; the check lasts as long as that lease. */
  lemma CheckExact(s: Sys, a: Action)
    requires a.CheckLease? && a.who !in s.committing
    ensures a.who in Next(s, a).committing <==>
              && a.who in s.started && a.who.id in s.tasks && s.tasks[a.who.id].status == Running
              && s.tasks[a.who.id].worker == Some(a.who.worker)
              && s.tasks[a.who.id].lease.Some? && a.now < s.tasks[a.who.id].lease.value
    ensures a.who in Next(s, a).committing ==> Some(Next(s, a).committing[a.who]) == s.tasks[a.who.id].lease
    ensures Next(s, a).tasks == s.tasks
  {
  }

  /** A commit of an attempt past the check writes its outcome, a failure with its error, whatever the row is by then. */
  lemma CommitExact(s: Sys, a: Action)
    requires a.Commit? && a.who in s.committing && a.who.id in s.tasks
    ensures Next(s, a).tasks == s.tasks[a.who.id := s.tasks[a.who.id].(
              status := a.outcome, error := if a.outcome == Failed then Some(WorkerError) else s.tasks[a.who.id].error)]
    ensures a.who !in Next(s, a).committing
  {
  }

  // ----- what the invariants buy -----

  /** A task starts running only when every dependency is done, although the worker looked earlier. */
  lemma StartsReady(s: Sys, a: Action)
    requires RunningReady(s) && a.Pick? && Picks(s, a.who, a.now) && Next(s, a).tasks[a.who.id].status == Running
    ensures forall d :: d in s.tasks[a.who.id].deps && d in s.tasks ==> Reusable(s.tasks[d].status)
  {
    assert a.who in s.checked;
  }

  /** A careful commit only ever writes to a running row that the committing worker owns. */
  lemma CommitterOwns(s: Sys, a: Action)
    requires CommitOwned(s) && a.Commit? && Careful(s, a) && Next(s, a).tasks != s.tasks
    ensures a.who.id in s.tasks && s.tasks[a.who.id].status == Running && s.tasks[a.who.id].worker == Some(a.who.worker)
  {
  }

  /** An orphaned running task is found: once its lease is over, one sweep makes it pending again. */
  lemma OrphanReclaimed(s: Sys, id: TaskId, now: int)
    requires Sane(s) && id in s.tasks && s.tasks[id].status == Running && s.clock <= now
    requires s.tasks[id].lease.Some? ==> s.tasks[id].lease.value < now
    ensures var s' := Next(Next(Next(s, Tick(now)), SelectExpired(now)), UpdateExpired);
            s'.tasks[id] == s.tasks[id].(status := Pending, worker := None, lease := None)
  {
  }
}
