/** A transaction that writes before anything else happens does what the store's methods do. */
module Transactions {
  import opened Prelude
  import opened Readiness
  import opened Tasks
  import opened Leases
  import opened Jobs
  import opened Propagation
  import opened JobAdvance
  import opened Orchestration
  import opened OrchestrationSafety

  // ----- reading and writing without anything in between -----

  lemma WrittenAtOnce(s: Sys, txn: nat, w: Staged)
    requires txn !in s.staged
    ensures Next(s.(staged := s.staged[txn := w]), Write(txn)) == s.(tasks := WriteRows(s.tasks, w), jobs := WriteJobs(s.jobs, w))
  {
    assert s.staged[txn := w] - {txn} == s.staged;
  }

  lemma AtOnce(s: Sys, a: Action, w: Staged)
    requires ReadStep(a) && Reads(s, a) == Some(w) && a.txn !in s.staged
    ensures Next(Next(s, a), Write(a.txn)) == s.(tasks := WriteRows(s.tasks, w), jobs := WriteJobs(s.jobs, w))
  {
    hide Next, Reads;
    ReadStages(s, a, w);
    WrittenAtOnce(s, a.txn, w);
  }

  lemma DiffWrites(t: Table, t': Table, w: Staged)
    requires t'.Keys == t.Keys && w.rows == Diff(t, t') && w.drop == {}
    requires forall id :: id in t ==> t'[id].job == t[id].job && t'[id].deps == t[id].deps && t'[id].hasState == t[id].hasState
    ensures WriteRows(t, w) == t'
  {
    forall id | id in t ensures WriteRows(t, w)[id] == t'[id] {
      if id !in w.rows { assert t[id] == t'[id]; }
    }
  }

  lemma JobDiffWrites(jobs: JobTable, jobs': JobTable, w: Staged)
    requires jobs'.Keys == jobs.Keys && w.jobs == JobDiff(jobs, jobs') && w.drop == {}
    requires forall j :: j in jobs ==> jobs'[j].pinned == jobs[j].pinned
    ensures WriteJobs(jobs, w) == jobs'
  {
    forall j | j in jobs ensures WriteJobs(jobs, w)[j] == jobs'[j] {
      if j !in w.jobs { assert jobs[j] == jobs'[j]; }
    }
  }

  lemma NothingWrites(t: Table, jobs: JobTable, w: Staged)
    requires w.drop == {}
    ensures w.rows == map[] ==> WriteRows(t, w) == t
    ensures w.jobs == map[] ==> WriteJobs(jobs, w) == jobs
  {
  }

  lemma MarkedWrites(t: Table, t': Table, jobs: JobTable)
    requires Marked(t, t')
    ensures var w := Staged(Diff(t, t'), map[], {}); WriteRows(t, w) == t' && WriteJobs(jobs, w) == jobs
  {
    var w := Staged(Diff(t, t'), map[], {});
    MarkedKeeps(t, t');
    hide Marked, Diff, WriteRows, WriteJobs;
    NothingWrites(t, jobs, w);
    DiffWrites(t, t', w);
  }

  lemma MarkedKeeps(t: Table, t': Table)
    requires Marked(t, t')
    ensures t'.Keys == t.Keys
    ensures forall id :: id in t ==> t'[id].job == t[id].job && t'[id].deps == t[id].deps && t'[id].hasState == t[id].hasState
  {
  }

  lemma ResumeKeeps(t: Table, job: string)
    ensures var t' := ResumeTasks(t, job);
            forall id :: id in t ==> t'[id].job == t[id].job && t'[id].deps == t[id].deps && t'[id].hasState == t[id].hasState
  {
  }

  // ----- is what the methods of the store do -----

  lemma UndisturbedSweep(s: Sys, order: seq<TaskId>, txn: nat)
    requires (forall id :: id in order ==> id in s.tasks) && txn !in s.staged
    ensures Next(Next(s, ReadSweep(order, txn)), Write(txn)) == s.(tasks := Sweep(s.tasks, order))
  {
    hide Sweep, Diff, Next, Marked, WriteRows, WriteJobs;
    var w := Staged(Diff(s.tasks, Sweep(s.tasks, order)), map[], {});
    SweepMarks(s.tasks, order);
    MarkedWrites(s.tasks, Sweep(s.tasks, order), s.jobs);
    AtOnce(s, ReadSweep(order, txn), w);
  }

  lemma UndisturbedAdvance(s: Sys, job: string, ids: seq<TaskId>, txn: nat)
    requires (forall id :: id in ids ==> id in s.tasks && s.tasks[id].job == job) && txn !in s.staged
    ensures Next(Next(s, ReadAdvance(job, ids, txn)), Write(txn)) == s.(tasks := Advance(s.tasks, job, ids))
  {
    hide Advance, Diff, Next, Marked, WriteRows, WriteJobs;
    var w := Staged(Diff(s.tasks, Advance(s.tasks, job, ids)), map[], {});
    AdvanceMarks(s.tasks, job, ids);
    MarkedWrites(s.tasks, Advance(s.tasks, job, ids), s.jobs);
    AtOnce(s, ReadAdvance(job, ids, txn), w);
  }

  lemma UndisturbedRollUp(s: Sys, job: string, now: int, txn: nat)
    requires txn !in s.staged
    ensures Next(Next(s, ReadRollUp(job, now, txn)), Write(txn)) == s.(jobs := Finalize(s.jobs, s.tasks, job, now))
  {
    hide RollUp, JobDiff, Next, WriteRows, WriteJobs;
    var jobs := Finalize(s.jobs, s.tasks, job, now);
    var w := Staged(map[], JobDiff(s.jobs, jobs), {});
    NothingWrites(s.tasks, s.jobs, w);
    JobDiffWrites(s.jobs, jobs, w);
    AtOnce(s, ReadRollUp(job, now, txn), w);
  }

  /** The jobs after a resume of `job`. */
  function ResumedJobs(jobs: JobTable, job: string): JobTable
    requires job in jobs
  {
    jobs[job := ResumeJob(jobs[job])]
  }

  lemma ResumeReads(s: Sys, job: string, txn: nat)
    requires CanResume(s.jobs, s.tasks, job)
    ensures job in s.jobs
    ensures Reads(s, ReadResume(job, txn))
         == Some(Staged(Diff(s.tasks, ResumeTasks(s.tasks, job)), JobDiff(s.jobs, ResumedJobs(s.jobs, job)), {}))
  {
    hide Diff, JobDiff, ResumeTasks, ResumeJob;
  }

  lemma ResumedJobsWrite(jobs: JobTable, job: string, w: Staged)
    requires job in jobs && w.jobs == JobDiff(jobs, ResumedJobs(jobs, job)) && w.drop == {}
    ensures WriteJobs(jobs, w) == ResumedJobs(jobs, job)
  {
    hide JobDiff, WriteJobs;
    JobDiffWrites(jobs, ResumedJobs(jobs, job), w);
  }

  lemma UndisturbedResume(s: Sys, job: string, txn: nat)
    requires CanResume(s.jobs, s.tasks, job) && txn !in s.staged
    ensures job in s.jobs
    ensures Next(Next(s, ReadResume(job, txn)), Write(txn))
         == s.(tasks := ResumeTasks(s.tasks, job), jobs := ResumedJobs(s.jobs, job))
  {
    ResumeReads(s, job, txn);
    ResumeKeeps(s.tasks, job);
    hide Diff, JobDiff, Next, WriteRows, WriteJobs, CanResume, ResumeTasks, ResumedJobs, Reads;
    var w := Staged(Diff(s.tasks, ResumeTasks(s.tasks, job)), JobDiff(s.jobs, ResumedJobs(s.jobs, job)), {});
    DiffWrites(s.tasks, ResumeTasks(s.tasks, job), w);
    ResumedJobsWrite(s.jobs, job, w);
    AtOnce(s, ReadResume(job, txn), w);
  }

  lemma UndisturbedCollect(s: Sys, cutoff: int, txn: nat)
    requires txn !in s.staged
    ensures var gone := Collectable(s.jobs, cutoff);
            Next(Next(s, ReadCollect(cutoff, txn)), Write(txn)) == s.(tasks := DropTasks(s.tasks, gone), jobs := s.jobs - gone)
  {
    hide Collectable, Next;
    var w := Staged(map[], map[], Collectable(s.jobs, cutoff));
    assert WriteRows(s.tasks, w) == DropTasks(s.tasks, w.drop);
    assert WriteJobs(s.jobs, w) == s.jobs - w.drop;
    AtOnce(s, ReadCollect(cutoff, txn), w);
  }

  /** A worker that marks a doomed task at once does what one visit of the sweep does. */
  lemma UndisturbedMark(s: Sys, who: Attempt, txn: nat)
    requires txn !in s.staged && who.id in PendingIds(s.tasks) && Terminal(StateIn(s.tasks, who.id))
    ensures Next(Next(s, CheckDependencies(who, txn)), Write(txn)) == s.(tasks := Visit(s.tasks, who.id))
  {
    hide StateIn, Visit, Diff, Marked, WriteRows, WriteJobs;
    var w := Staged(Diff(s.tasks, Visit(s.tasks, who.id)), map[], {});
    VisitMarks(s.tasks, who.id);
    MarkedWrites(s.tasks, Visit(s.tasks, who.id), s.jobs);
    assert Next(s, CheckDependencies(who, txn)) == s.(staged := s.staged[txn := w]);
    WrittenAtOnce(s, txn, w);
  }
}
