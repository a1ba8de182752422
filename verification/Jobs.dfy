/** Job rows: the roll-up of their tasks, resuming, retention. */
module Jobs {
  import opened Prelude
  import opened Readiness
  import opened Tasks

  datatype Job = Job(status: Status, cancelRequested: bool, cancelForce: bool, pinned: bool, finishedAt: Option<int>)

  function NewJob(): Job { Job(Pending, false, false, false, None) }

  type JobTable = map<string, Job>

  predicate InFlight(s: Status) { s == Pending || s == Running }

  function TasksOf(t: Table, job: string): set<TaskId> {
    set id | id in t && t[id].job == job
  }

  // ----- roll-up -----

  /** What the statuses of its tasks say about a job, once none is in flight. */
  function RollUp(t: Table, job: string): Option<Status> {
    if TasksOf(t, job) == {} || exists id | id in TasksOf(t, job) :: InFlight(t[id].status) then None
    else if exists id | id in TasksOf(t, job) :: t[id].status == Failed then Some(Failed)
    else if exists id | id in TasksOf(t, job) :: t[id].status == Cancelled || t[id].status == CancelledDirty then
      Some(Cancelled)
    else Some(Succeeded)
  }

  function Finalize(jobs: JobTable, t: Table, job: string, now: int): JobTable {
    var status := RollUp(t, job);
    if status.None? || job !in jobs || jobs[job].status == status.value then jobs
    else jobs[job := jobs[job].(status := status.value, finishedAt := Some(now))]
  }

  /** The status that a job's rows call for: none is pending or running, and a failed one outweighs cancelled ones. */
  ghost predicate Calls(t: Table, job: string, status: Status) {
    && (exists id :: id in t && t[id].job == job)
    && (forall id :: id in t && t[id].job == job ==> t[id].status != Pending && t[id].status != Running)
    && if exists id :: id in t && t[id].job == job && t[id].status == Failed then status == Failed
       else if exists id :: id in t && t[id].job == job && (t[id].status == Cancelled || t[id].status == CancelledDirty)
       then status == Cancelled
       else status == Succeeded
  }

  lemma RollUpExact(t: Table, job: string)
    ensures forall status :: RollUp(t, job) == Some(status) <==> Calls(t, job, status)
    ensures RollUp(t, job) == None <==>
              || (forall id :: id in t ==> t[id].job != job)
              || (exists id :: id in t && t[id].job == job && (t[id].status == Pending || t[id].status == Running))
  {
    var rows := TasksOf(t, job);
    assert forall id :: id in rows <==> id in t && t[id].job == job;
    if rows != {} {
      var id :| id in rows;
    }
  }

  /** What a roll-up leaves behind: the status called for, with the time if it is news, and nothing else changed. */
  ghost predicate RollsUp(jobs: JobTable, jobs': JobTable, t: Table, job: string, now: int) {
    && jobs'.Keys == jobs.Keys
    && (forall j :: j in jobs && j != job ==> jobs'[j] == jobs[j])
    && (job in jobs ==>
          && (forall status :: Calls(t, job, status) ==>
                jobs'[job] == if jobs[job].status == status then jobs[job]
                              else jobs[job].(status := status, finishedAt := Some(now)))
          && ((forall status :: !Calls(t, job, status)) ==> jobs'[job] == jobs[job]))
  }

  /** Of the jobs, those that `affected` names are rolled up and the others are left alone. */
  ghost predicate RollUpsOf(jobs: JobTable, jobs': JobTable, t: Table, affected: set<string>, now: int) {
    && jobs'.Keys == jobs.Keys
    && forall job :: job in jobs ==>
         if job in affected then RollsUp(jobs, jobs[job := jobs'[job]], t, job, now) else jobs'[job] == jobs[job]
  }

  lemma FinalizeRollsUp(jobs: JobTable, t: Table, job: string, now: int)
    ensures RollsUp(jobs, Finalize(jobs, t, job, now), t, job, now)
  {
    RollUpExact(t, job);
    hide RollUp, Calls;
  }

  /** The jobs in `affected` rolled up, each on its own. */
  function FinalizeAll(jobs: JobTable, t: Table, affected: set<string>, now: int): (r: JobTable)
    ensures r.Keys == jobs.Keys
  {
    map job | job in jobs :: if job in affected then Finalize(jobs, t, job, now)[job] else jobs[job]
  }

  lemma FinalizeAllRollsUp(jobs: JobTable, t: Table, affected: set<string>, now: int)
    ensures RollUpsOf(jobs, FinalizeAll(jobs, t, affected, now), t, affected, now)
  {
    hide RollUp, RollsUp;
    var jobs' := FinalizeAll(jobs, t, affected, now);
    forall job | job in jobs && job in affected ensures RollsUp(jobs, jobs[job := jobs'[job]], t, job, now) {
      FinalizeRollsUp(jobs, t, job, now);
      assert jobs[job := jobs'[job]] == Finalize(jobs, t, job, now);
    }
  }

  // ----- resume -----

  predicate Resettable(s: Status) { s == Failed || s == Cancelled || s == CancelledDirty }

  function ResetTask(task: Task): Task {
    task.(status := Pending, error := None, lease := None, worker := None)
  }

  function ResumeTasks(t: Table, job: string): (r: Table)
    ensures r.Keys == t.Keys
  {
    map id | id in t :: if t[id].job == job && Resettable(t[id].status) then ResetTask(t[id]) else t[id]
  }

  predicate CanResume(jobs: JobTable, t: Table, job: string) {
    && job in jobs && Resettable(jobs[job].status)
    && exists id | id in TasksOf(t, job) :: Resettable(t[id].status)
  }

  function ResumeJob(j: Job): Job {
    j.(status := Pending, cancelRequested := false, cancelForce := false, finishedAt := None)
  }

  /** What a resume leaves behind: failed and cancelled rows of the job pending again, without a lease and without an
      error, and the job pending, unfinished, and no longer to be cancelled. */
  ghost predicate Resumed(t: Table, t': Table, jobs: JobTable, jobs': JobTable, job: string) {
    && t'.Keys == t.Keys && jobs'.Keys == jobs.Keys
    && (forall id :: id in t ==>
          t'[id] == if t[id].job == job && t[id].status in [Failed, Cancelled, CancelledDirty]
                    then Task(job, Pending, None, None, t[id].deps, t[id].hasState, None) else t[id])
    && (forall j :: j in jobs ==> jobs'[j] == if j == job then Job(Pending, false, false, jobs[j].pinned, None) else jobs[j])
  }

  // ----- retention -----

  predicate TerminalJob(s: Status) { s == Succeeded || s == Failed || s == Cancelled || s == CancelledDirty }

  predicate PastRetention(j: Job, cutoff: int) {
    TerminalJob(j.status) && !j.pinned && j.finishedAt.Some? && j.finishedAt.value < cutoff
  }

  function Collectable(jobs: JobTable, cutoff: int): set<string> {
    set j | j in jobs && PastRetention(jobs[j], cutoff)
  }

  function DropTasks(t: Table, jobs: set<string>): (r: Table)
    ensures forall id :: id in r <==> id in t && t[id].job !in jobs
    ensures forall id :: id in r ==> r[id] == t[id]
  {
    map id | id in t && t[id].job !in jobs :: t[id]
  }

  /** A job is gone exactly when it was succeeded, failed or cancelled before the cutoff and not pinned; a task is gone
      exactly when its job is; and nothing else changed. */
  ghost predicate Collected(t: Table, t': Table, jobs: JobTable, jobs': JobTable, cutoff: int) {
    && jobs'.Keys <= jobs.Keys && t'.Keys <= t.Keys
    && (forall j :: j in jobs ==>
          (j !in jobs' <==> && jobs[j].status in [Succeeded, Failed, Cancelled, CancelledDirty] && jobs[j].pinned == false
                            && jobs[j].finishedAt.Some? && jobs[j].finishedAt.value < cutoff))
    && (forall j :: j in jobs' ==> jobs'[j] == jobs[j])
    && (forall id :: id in t ==> (id !in t' <==> t[id].job in jobs && t[id].job !in jobs'))
    && (forall id :: id in t' ==> t'[id] == t[id])
  }

  lemma CollectExact(t: Table, jobs: JobTable, cutoff: int)
    ensures Collected(t, DropTasks(t, Collectable(jobs, cutoff)), jobs, jobs - Collectable(jobs, cutoff), cutoff)
  {
  }
}
