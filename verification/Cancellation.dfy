/** What a cancellation request does: from then on no task of the job starts to run, until a resume of the job is
    written. */
module Cancellation {
  import opened Prelude
  import opened Readiness
  import opened Tasks
  import opened Leases
  import opened Jobs
  import opened Orchestration
  import opened OrchestrationSafety
  import opened FinishedJobs

  /** A pick-up succeeds exactly if the row is pending and its lease is free; it then runs, unless its job is to be
      cancelled: then it is cancelled on the spot, dirtily if that was forced. */
  lemma PickExact(s: Sys, a: Action)
    requires a.Pick? && a.who in s.checked && a.who.id in s.tasks
    ensures var row, row' := s.tasks[a.who.id], Next(s, a).tasks[a.who.id];
            if row.status != Pending || (row.lease.Some? && row.lease.value >= a.now) then row' == row
            else if row.job in s.jobs && s.jobs[row.job].cancelRequested then
              row' == row.(status := if s.jobs[row.job].cancelForce then CancelledDirty else Cancelled,
                           worker := Some(a.who.worker), lease := Some(a.expiry))
            else row' == row.(status := Running, worker := Some(a.who.worker), lease := Some(a.expiry))
  {
  }

  /** The request sets the flag, and force once asked for stays asked for. */
  lemma RequestExact(s: Sys, job: string, force: bool)
    requires job in s.jobs
    ensures var j := Next(s, RequestCancel(job, force)).jobs[job];
            && j.cancelRequested && (j.cancelForce <==> force || s.jobs[job].cancelForce)
            && j.status == s.jobs[job].status && j.pinned == s.jobs[job].pinned && j.finishedAt == s.jobs[job].finishedAt
  {
  }

  ghost predicate ToBeCancelled(s: Sys, job: string) {
    job in s.named && (job in s.jobs ==> s.jobs[job].cancelRequested)
  }

  /** A staged change that is not a resume leaves the flag alone. */
  ghost predicate FlagsKept(s: Sys) {
    forall txn, j :: txn in s.staged && j in s.staged[txn].jobs && !Revives(s.staged[txn].jobs[j]) ==>
      s.staged[txn].jobs[j].after.cancelRequested == s.staged[txn].jobs[j].before.cancelRequested
  }

  lemma StepKeepsFlags(s: Sys, a: Action)
    requires FlagsKept(s)
    ensures FlagsKept(Next(s, a))
  {
    hide StateIn, Diff, RollUp;
    if ReadStep(a) {
      ReadKeepsFlags(s, a);
    }
  }

  lemma ReadKeepsFlags(s: Sys, a: Action)
    requires FlagsKept(s) && ReadStep(a)
    ensures FlagsKept(Next(s, a))
  {
    hide Diff, RollUp, Collectable, ResumeTasks, Reads;
    var w := Reads(s, a);
    if w.Some? {
      ReadStages(s, a, w.value);
      forall j | j in w.value.jobs && !Revives(w.value.jobs[j])
        ensures w.value.jobs[j].after.cancelRequested == w.value.jobs[j].before.cancelRequested
      {
        ReadFlags(s, a, j);
      }
    }
  }

  lemma ReadFlags(s: Sys, a: Action, j: string)
    requires ReadStep(a) && Reads(s, a).Some? && j in Reads(s, a).value.jobs && !Revives(Reads(s, a).value.jobs[j])
    ensures Reads(s, a).value.jobs[j].after.cancelRequested == Reads(s, a).value.jobs[j].before.cancelRequested
  {
    hide Diff, RollUp, Collectable, ResumeTasks;
  }

  lemma {:induction false} FlagsKeptThroughout(trace: seq<Action>)
    ensures FlagsKept(Run(INITIAL, trace))
    decreases |trace|
  {
    hide Next, FlagsKept;
    if trace == [] {
      assert FlagsKept(INITIAL) by { NothingStaged(); }
    } else {
      FlagsKeptThroughout(trace[..|trace| - 1]);
      StepKeepsFlags(Run(INITIAL, trace[..|trace| - 1]), trace[|trace| - 1]);
    }
  }

  lemma NothingStaged()
    ensures FlagsKept(INITIAL)
  {
  }

  lemma StaysToBeCancelled(s: Sys, a: Action, job: string)
    requires FlagsKept(s) && Enabled(s, a) && ToBeCancelled(s, job) && !Resumes(s, a, job)
    ensures ToBeCancelled(Next(s, a), job)
  {
    hide StateIn, Diff, Reads;
  }

  /** The step makes a task of the job run. */
  ghost predicate Starts(s: Sys, a: Action, job: string) {
    exists id :: id in Next(s, a).tasks && Next(s, a).tasks[id].job == job && Next(s, a).tasks[id].status == Running
                 && (id in s.tasks ==> s.tasks[id].status != Running)
  }

  lemma OnlyPicksStart(s: Sys, a: Action, id: TaskId)
    requires Sane(s) && Enabled(s, a) && id in Next(s, a).tasks && Next(s, a).tasks[id].status == Running
    ensures id in s.tasks
    ensures s.tasks[id].status != Running ==> a.Pick? && a.who.id == id && Picks(s, a.who, a.now)
  {
    hide StateIn, Diff, Reads, JobsKnown, StepWrite;
    if a.Write? {
      WriteStartsNothing(s, a.txn);
    } else {
      hide StagedGood;
    }
  }

  lemma NoStart(s: Sys, a: Action, job: string)
    requires Sane(s) && Enabled(s, a) && ToBeCancelled(s, job)
    ensures !Starts(s, a, job)
  {
    hide Next, Enabled, RunningLeased, JobsKnown, StagedGood;
    if id :| id in Next(s, a).tasks && Next(s, a).tasks[id].job == job && Next(s, a).tasks[id].status == Running
             && (id in s.tasks ==> s.tasks[id].status != Running) {
      OnlyPicksStart(s, a, id);
      PickedIsCancelled(s, a);
    }
  }

  lemma PickedIsCancelled(s: Sys, a: Action)
    requires a.Pick? && Picks(s, a.who, a.now) && JobsKnown(s)
    ensures a.who.id in s.tasks && Next(s, a).tasks[a.who.id].job == s.tasks[a.who.id].job
    ensures ToBeCancelled(s, s.tasks[a.who.id].job) ==> Next(s, a).tasks[a.who.id].status != Running
  {
  }

  ghost predicate NeverStarts(s: Sys, trace: seq<Action>, job: string) {
    forall k :: 0 <= k < |trace| ==> !Starts(Run(s, trace[..k]), trace[k], job)
  }

  /** Once a cancellation is requested, no task of the job starts to run in any continuation in which no resume of the
      job is written. */
  lemma {:induction false} CancelledNeverStarts(s: Sys, trace: seq<Action>, job: string)
    requires Sane(s) && FlagsKept(s) && ToBeCancelled(s, job) && Possible(s, trace) && NotResumed(s, trace, job)
    ensures NeverStarts(s, trace, job)
    ensures var r := Run(s, trace); Sane(r) && FlagsKept(r) && ToBeCancelled(r, job)
    decreases |trace|
  {
    hide Sane, FlagsKept, ToBeCancelled, Next, Enabled, Possible, NotResumed, Resumes, Starts;
    if trace != [] {
      var before, a := trace[..|trace| - 1], trace[|trace| - 1];
      PossiblePrefix(s, trace);
      NotResumedPrefix(s, trace, job);
      CancelledNeverStarts(s, before, job);
      NoStart(Run(s, before), a, job);
      StepKeepsSane(Run(s, before), a);
      StepKeepsFlags(Run(s, before), a);
      StaysToBeCancelled(Run(s, before), a, job);
      forall k | 0 <= k < |trace| ensures !Starts(Run(s, trace[..k]), trace[k], job) {
        if k < |before| {
          assert trace[..k] == before[..k] && trace[k] == before[k];
        }
      }
    }
  }

  /** A resume takes the request back, so the job's tasks can run again. */
  lemma ResumeForgetsCancellation(j: Job)
    ensures ResumeJob(j) == Job(Pending, false, false, j.pinned, None)
  {
  }
}
