/** Jobs that count as finished: when they have no task in flight, and what retention may take with them. */
module FinishedJobs {
  import opened Readiness
  import opened Tasks
  import opened Jobs
  import opened Propagation
  import opened Orchestration
  import opened OrchestrationSafety

  // ----- finished jobs -----

  lemma WorkerKeepsJobsIdle(s: Sys, a: Action)
    requires FinishedJobsIdle(s) && JobsKnown(s) && Enabled(s, a) && !a.Write?
    ensures FinishedJobsIdle(Next(s, a))
  {
    hide StateIn, Reads, Diff;
  }

  lemma WriteKeepsJobsIdle(s: Sys, a: Action)
    requires FinishedJobsIdle(s) && JobsKnown(s) && StagedGood(s) && a.Write? && !Strands(s, a)
    ensures FinishedJobsIdle(Next(s, a))
  {
    if a.txn in s.staged {
      var w, s' := s.staged[a.txn], Next(s, a);
      assert GoodStaged(s, w);
      forall id | id in s'.tasks && InFlight(s'.tasks[id].status) && s'.tasks[id].job in s'.jobs
        ensures !TerminalJob(s'.jobs[s'.tasks[id].job].status)
      {
        var j := s.tasks[id].job;
        if id !in w.rows && j in w.jobs {
          assert !StrandsJob(s, a.txn, j);
        }
      }
    }
  }

  lemma StrandsAtLeastOne(s: Sys, a: Action)
    requires JobsKnown(s) && StagedGood(s) && Strands(s, a)
    ensures !FinishedJobsIdle(Next(s, a))
  {
    var w, s' := s.staged[a.txn], Next(s, a);
    assert GoodStaged(s, w);
    var j :| j in w.jobs && StrandsJob(s, a.txn, j);
    var id :| id in s.tasks && s.tasks[id].job == j && InFlight(s.tasks[id].status);
    assert !Revives(w.jobs[j]);
    assert id in s'.tasks && s'.tasks[id] == s.tasks[id];
  }

  /** A step leaves finished jobs idle exactly when it does not roll a job up while one of its tasks is in flight. */
  lemma JobsIdleUnlessStranded(s: Sys, a: Action)
    requires Sane(s) && FinishedJobsIdle(s) && Enabled(s, a)
    ensures FinishedJobsIdle(Next(s, a)) <==> !Strands(s, a)
  {
    hide Next, FinishedJobsIdle, RunningLeased, JobsKnown, StagedGood;
    if Strands(s, a) {
      StrandsAtLeastOne(s, a);
    } else if a.Write? {
      WriteKeepsJobsIdle(s, a);
    } else {
      WorkerKeepsJobsIdle(s, a);
    }
  }

  // ----- finished jobs stay idle -----

  ghost predicate IdleThroughout(s: Sys, trace: seq<Action>) {
    forall k :: 0 <= k <= |trace| ==> FinishedJobsIdle(Run(s, trace[..k]))
  }

  /** In any possible run finished jobs have nothing in flight throughout exactly when no roll-up is written while a
      task of its job is in flight. */
  lemma {:induction false} FinishedJobsStayIdle(trace: seq<Action>)
    requires Possible(INITIAL, trace)
    ensures IdleThroughout(INITIAL, trace) <==> NothingStranded(INITIAL, trace)
    decreases |trace|
  {
    hide Sane, Next, Enabled, Possible, FinishedJobsIdle, Strands, IdleThroughout, NothingStranded;
    if trace == [] {
      assert IdleThroughout(INITIAL, trace) && NothingStranded(INITIAL, trace) by { EmptyRunIdle(); }
    } else {
      var before, a := trace[..|trace| - 1], trace[|trace| - 1];
      PossiblePrefix(INITIAL, trace);
      FinishedJobsStayIdle(before);
      RunSane(before);
      OneMoreIdle(INITIAL, trace);
      if IdleThroughout(INITIAL, before) {
        LastIsIdle(INITIAL, before);
        JobsIdleUnlessStranded(Run(INITIAL, before), a);
      }
    }
  }

  lemma EmptyRunIdle()
    ensures IdleThroughout(INITIAL, []) && NothingStranded(INITIAL, [])
  {
  }

  lemma LastIsIdle(s: Sys, trace: seq<Action>)
    requires IdleThroughout(s, trace)
    ensures FinishedJobsIdle(Run(s, trace))
  {
    assert trace[..|trace|] == trace;
  }

  lemma OneMoreIdle(s: Sys, trace: seq<Action>)
    requires trace != []
    ensures var before := trace[..|trace| - 1];
            && (IdleThroughout(s, trace) <==> IdleThroughout(s, before) && FinishedJobsIdle(Next(Run(s, before), trace[|trace| - 1])))
            && (NothingStranded(s, trace) <==> NothingStranded(s, before) && !Strands(Run(s, before), trace[|trace| - 1]))
  {
    hide Next, FinishedJobsIdle, Strands;
    var before := trace[..|trace| - 1];
    assert trace[..|trace|] == trace;
    assert Run(s, trace) == Next(Run(s, before), trace[|trace| - 1]);
    assert forall k :: 0 <= k <= |before| ==> before[..k] == trace[..k];
  }

  // ----- retention -----

  ghost predicate TerminalIfThere(s: Sys, j: string) {
    j in s.named && (j in s.jobs ==> TerminalJob(s.jobs[j].status))
  }

  /** A finished job stays finished until a resume of it is written. */
  lemma JobStaysTerminal(s: Sys, a: Action, j: string)
    requires Sane(s) && Enabled(s, a) && TerminalIfThere(s, j) && !Resumes(s, a, j)
    ensures TerminalIfThere(Next(s, a), j)
  {
    hide StateIn, Reads, Diff, RunningLeased, JobsKnown;
    if a.Write? && a.txn in s.staged {
      assert GoodStaged(s, s.staged[a.txn]);
    } else {
      hide StagedGood;
    }
  }

  ghost predicate NotResumed(s: Sys, trace: seq<Action>, j: string) {
    forall k :: 0 <= k < |trace| ==> !Resumes(Run(s, trace[..k]), trace[k], j)
  }

  lemma NotResumedPrefix(s: Sys, trace: seq<Action>, j: string)
    requires trace != [] && NotResumed(s, trace, j)
    ensures NotResumed(s, trace[..|trace| - 1], j)
    ensures !Resumes(Run(s, trace[..|trace| - 1]), trace[|trace| - 1], j)
  {
    hide Next, Resumes;
    var before := trace[..|trace| - 1];
    forall k | 0 <= k < |before| ensures !Resumes(Run(s, before[..k]), before[k], j) {
      assert before[..k] == trace[..k];
    }
  }

  lemma {:induction false} TerminalThroughout(s: Sys, trace: seq<Action>, j: string)
    requires Sane(s) && Possible(s, trace) && TerminalIfThere(s, j) && NotResumed(s, trace, j)
    ensures Sane(Run(s, trace)) && TerminalIfThere(Run(s, trace), j)
    decreases |trace|
  {
    hide Sane, Next, Enabled, Possible, TerminalIfThere, NotResumed, Resumes;
    if trace != [] {
      PossiblePrefix(s, trace);
      NotResumedPrefix(s, trace, j);
      TerminalThroughout(s, trace[..|trace| - 1], j);
      JobStaysTerminal(Run(s, trace[..|trace| - 1]), trace[|trace| - 1], j);
      StepKeepsSane(Run(s, trace[..|trace| - 1]), trace[|trace| - 1]);
    }
  }

  lemma {:induction false} StagedStays(s: Sys, trace: seq<Action>, txn: nat)
    requires Possible(s, trace) && txn in s.staged && Write(txn) !in trace
    ensures txn in Run(s, trace).staged && Run(s, trace).staged[txn] == s.staged[txn]
    decreases |trace|
  {
    hide Next, Enabled, Possible;
    if trace != [] {
      var before, a := trace[..|trace| - 1], trace[|trace| - 1];
      PossiblePrefix(s, trace);
      assert a in trace && Write(txn) !in before;
      StagedStays(s, before, txn);
      StepKeepsStaged(Run(s, before), a, txn);
    }
  }

  lemma StepKeepsStaged(s: Sys, a: Action, txn: nat)
    requires Enabled(s, a) && txn in s.staged && a != Write(txn)
    ensures txn in Next(s, a).staged && Next(s, a).staged[txn] == s.staged[txn]
  {
    hide StateIn, Reads, Diff;
  }

  /** Jobs are selected for deletion, anything happens, then they and their tasks are deleted: a task in flight is spared
      if its job was not resumed in between, and finished jobs are idle then. */
  lemma CollectSparesInFlight(s: Sys, cutoff: int, txn: nat, trace: seq<Action>, id: TaskId)
    requires Sane(s) && txn !in s.staged && Possible(Next(s, ReadCollect(cutoff, txn)), trace) && Write(txn) !in trace
    requires var r := Run(Next(s, ReadCollect(cutoff, txn)), trace);
             && id in r.tasks && InFlight(r.tasks[id].status) && FinishedJobsIdle(r)
             && NotResumed(Next(s, ReadCollect(cutoff, txn)), trace, r.tasks[id].job)
    ensures var r := Run(Next(s, ReadCollect(cutoff, txn)), trace);
            var after := Next(r, Write(txn));
            id in after.tasks && after.tasks[id] == r.tasks[id] && r.tasks[id].job in after.jobs
  {
    var s1 := Next(s, ReadCollect(cutoff, txn));
    var w := Staged(map[], map[], Collectable(s.jobs, cutoff));
    hide Next, Enabled, Possible, NotResumed, Sane, FinishedJobsIdle, TerminalIfThere, Collectable, Run, InFlight;
    ReadStages(s, ReadCollect(cutoff, txn), w);
    ReadCollectEnabled(s, cutoff, txn);
    StepKeepsSane(s, ReadCollect(cutoff, txn));
    StagedStays(s1, trace, txn);
    SaneAfter(s1, trace);
    var r := Run(s1, trace);
    var j := r.tasks[id].job;
    if j in w.drop {
      SelectedIsTerminal(s, cutoff, j, s1);
      TerminalThroughout(s1, trace, j);
      NotInFlight(r, id);
    }
    Spared(r, txn, id);
  }

  lemma ReadCollectEnabled(s: Sys, cutoff: int, txn: nat)
    requires txn !in s.staged
    ensures Enabled(s, ReadCollect(cutoff, txn))
  {
  }

  lemma SelectedIsTerminal(s: Sys, cutoff: int, j: string, s1: Sys)
    requires Sane(s) && j in Collectable(s.jobs, cutoff) && s1 == s.(staged := s1.staged)
    ensures TerminalIfThere(s1, j)
  {
  }

  lemma NotInFlight(s: Sys, id: TaskId)
    requires Sane(s) && FinishedJobsIdle(s) && id in s.tasks && TerminalIfThere(s, s.tasks[id].job)
    ensures !InFlight(s.tasks[id].status)
  {
  }

  lemma {:induction false} SaneAfter(s: Sys, trace: seq<Action>)
    requires Sane(s) && Possible(s, trace)
    ensures Sane(Run(s, trace))
    decreases |trace|
  {
    hide Sane, Next, Enabled, Possible;
    if trace != [] {
      PossiblePrefix(s, trace);
      SaneAfter(s, trace[..|trace| - 1]);
      StepKeepsSane(Run(s, trace[..|trace| - 1]), trace[|trace| - 1]);
    }
  }

  lemma Spared(s: Sys, txn: nat, id: TaskId)
    requires Sane(s) && txn in s.staged && id in s.tasks && s.staged[txn].rows == map[] && s.staged[txn].jobs == map[]
    requires s.tasks[id].job !in s.staged[txn].drop
    ensures var after := Next(s, Write(txn));
            id in after.tasks && after.tasks[id] == s.tasks[id] && s.tasks[id].job in after.jobs
  {
  }
}
