/** The orchestrator as a step system: workers, the janitor and clients act on the shared tables in any
    interleaving. Whoever reads rows and writes them back does so in two steps: the writes go by primary key, so they
    land on whatever the rows have become in between. */
module Orchestration {
  import opened Prelude
  import opened Readiness
  import opened Tasks
  import opened Leases
  import opened Jobs
  import opened Propagation
  import opened JobAdvance

  // ----- writing back what was read -----

  /** The columns in which `after` differs from the row that was read are written, the others are not. */
  datatype RowChange = RowChange(before: Task, after: Task) {
    function Apply(row: Task): Task {
      row.(status := if after.status != before.status then after.status else row.status,
           error := if after.error != before.error then after.error else row.error,
           worker := if after.worker != before.worker then after.worker else row.worker,
           lease := if after.lease != before.lease then after.lease else row.lease)
    }
  }

  datatype JobChange = JobChange(before: Job, after: Job) {
    function Apply(row: Job): Job {
      row.(status := if after.status != before.status then after.status else row.status,
           cancelRequested := if after.cancelRequested != before.cancelRequested then after.cancelRequested else row.cancelRequested,
           cancelForce := if after.cancelForce != before.cancelForce then after.cancelForce else row.cancelForce,
           finishedAt := if after.finishedAt != before.finishedAt then after.finishedAt else row.finishedAt)
    }
  }

  /** What a transaction has read and is going to write: task and job rows, and jobs to delete with their tasks. */
  datatype Staged = Staged(rows: map<TaskId, RowChange>, jobs: map<string, JobChange>, drop: set<string>)

  function Diff(t: Table, t': Table): (d: map<TaskId, RowChange>)
    ensures d.Keys == Changed(t, t')
    ensures forall id :: id in d ==> id in t && id in t' && d[id] == RowChange(t[id], t'[id])
  {
    map id | id in Changed(t, t') :: RowChange(t[id], t'[id])
  }

  function JobDiff(jobs: JobTable, jobs': JobTable): (d: map<string, JobChange>)
    ensures forall j :: j in d <==> j in jobs && j in jobs' && jobs[j] != jobs'[j]
    ensures forall j :: j in d ==> d[j] == JobChange(jobs[j], jobs'[j])
  {
    map j | j in jobs && j in jobs' && jobs[j] != jobs'[j] :: JobChange(jobs[j], jobs'[j])
  }

  function WriteRows(t: Table, w: Staged): (r: Table)
    ensures forall id :: id in r <==> id in t && t[id].job !in w.drop
    ensures forall id :: id in r ==> r[id] == if id in w.rows then w.rows[id].Apply(t[id]) else t[id]
  {
    map id | id in t && t[id].job !in w.drop :: if id in w.rows then w.rows[id].Apply(t[id]) else t[id]
  }

  function WriteJobs(jobs: JobTable, w: Staged): (r: JobTable)
    ensures forall j :: j in r <==> j in jobs && j !in w.drop
    ensures forall j :: j in r ==> r[j] == if j in w.jobs then w.jobs[j].Apply(jobs[j]) else jobs[j]
  {
    map j | j in jobs && j !in w.drop :: if j in w.jobs then w.jobs[j].Apply(jobs[j]) else jobs[j]
  }

  // ----- states and actions -----

  /** One execution of a task. A worker process has one id but may have several executions under way, of the same
      task even: it may pick up again what it lost. */
  datatype Attempt = Attempt(worker: string, number: nat, id: TaskId)

  datatype Sys = Sys(
    tasks: Table, jobs: JobTable, clock: int,
    issued: set<TaskId>, named: set<string>,   // every task id and job id handed out so far; ids are never reused
    sweep: Option<(set<TaskId>, int)>,         // the janitor between the two statements of a reclaim
    staged: map<nat, Staged>,                  // transactions that have read and not yet written
    checked: set<Attempt>,                     // has seen the task's dependencies ready
    started: set<Attempt>,                     // has acquired the lease and started the task
    committing: map<Attempt, int>)             // has seen its worker's lease on the task live, until then

  datatype Action =
    | Tick(to: int)
    | Submit(job: string, added: Table)
    | CheckDependencies(who: Attempt, txn: nat)
    | Pick(who: Attempt, expiry: int, now: int)
    | Heartbeat(worker: string, id: TaskId, expiry: int)
    | CheckLease(who: Attempt, now: int)
    | Commit(who: Attempt, outcome: Status)
    | SelectExpired(now: int)
    | UpdateExpired
    | ReadSweep(order: seq<TaskId>, txn: nat)
    | ReadAdvance(job: string, ids: seq<TaskId>, txn: nat)
    | ReadRollUp(job: string, now: int, txn: nat)
    | ReadResume(job: string, txn: nat)
    | ReadCollect(cutoff: int, txn: nat)
    | Write(txn: nat)
    | RequestCancel(job: string, force: bool)

  // ----- single steps -----

  /** The worker owns a live running lease on the task; which of its attempts acquired it is not recorded. */
  predicate OwnsLive(t: Table, worker: string, id: TaskId, now: int) {
    id in t && t[id].status == Running && t[id].worker == Some(worker) && t[id].lease.Some? && t[id].lease.value > now
  }

  /** Reading the task and its dependencies: a ready task is remembered, a doomed one is going to be marked. */
  function StepCheckDependencies(s: Sys, who: Attempt, txn: nat): Sys {
    if who.id !in s.tasks || s.tasks[who.id].status != Pending then s
    else
      var state := StateIn(s.tasks, who.id);
      if state == Ready then s.(checked := s.checked + {who})
      else if state == Blocked then s
      else s.(staged := s.staged[txn := Staged(Diff(s.tasks, Visit(s.tasks, who.id)), map[], {})])
  }

  predicate Picks(s: Sys, who: Attempt, now: int) {
    who in s.checked && Acquires(s.tasks, who.id, now, true)
  }

  /** Acquiring and, in the same transaction, honouring a pending cancellation or starting to run. */
  function StepPick(s: Sys, who: Attempt, expiry: int, now: int): Sys {
    if !Picks(s, who, now) then s.(checked := s.checked - {who})
    else
      var task := Acquire(s.tasks, who.id, who.worker, expiry, now, true)[who.id];
      var cancelled := task.job in s.jobs && s.jobs[task.job].cancelRequested;
      var status :=
        if !cancelled then Running else if s.jobs[task.job].cancelForce then CancelledDirty else Cancelled;
      s.(tasks := s.tasks[who.id := task.(status := status)], checked := s.checked - {who},
         started := if cancelled then s.started else s.started + {who})
  }

  function StepCheckLease(s: Sys, who: Attempt, now: int): Sys {
    if who in s.started && OwnsLive(s.tasks, who.worker, who.id, now)
    then s.(committing := s.committing[who := s.tasks[who.id].lease.value])
    else s
  }

  /** The final UPDATE of a finished task goes by primary key alone. */
  function StepCommit(s: Sys, who: Attempt, outcome: Status): Sys {
    if who !in s.committing then s
    else
      var s' := s.(committing := s.committing - {who});
      if who.id !in s.tasks then s'
      else s'.(tasks := s.tasks[who.id := s.tasks[who.id].(
                 status := outcome, error := if outcome == Failed then Some(WorkerError) else s.tasks[who.id].error)])
  }

  /** What the reading half of a transaction is going to write, if anything. */
  function Reads(s: Sys, a: Action): Option<Staged> {
    match a
    case ReadSweep(order, _) =>
      if forall id | id in order :: id in s.tasks then Some(Staged(Diff(s.tasks, Sweep(s.tasks, order)), map[], {})) else None
    case ReadAdvance(job, ids, _) =>
      if forall id | id in ids :: id in s.tasks && s.tasks[id].job == job
      then Some(Staged(Diff(s.tasks, Advance(s.tasks, job, ids)), map[], {})) else None
    case ReadRollUp(job, now, _) => Some(Staged(map[], JobDiff(s.jobs, Finalize(s.jobs, s.tasks, job, now)), {}))
    case ReadResume(job, _) =>
      if CanResume(s.jobs, s.tasks, job)
      then Some(Staged(Diff(s.tasks, ResumeTasks(s.tasks, job)), JobDiff(s.jobs, s.jobs[job := ResumeJob(s.jobs[job])]), {}))
      else None
    case ReadCollect(cutoff, _) => Some(Staged(map[], map[], Collectable(s.jobs, cutoff)))
    case _ => None
  }

  predicate ReadStep(a: Action) { a.ReadSweep? || a.ReadAdvance? || a.ReadRollUp? || a.ReadResume? || a.ReadCollect? }

  function StepRead(s: Sys, a: Action): Sys
    requires ReadStep(a)
  {
    var w := Reads(s, a);
    if w.Some? then s.(staged := s.staged[a.txn := w.value]) else s
  }

  function StepWrite(s: Sys, txn: nat): Sys {
    if txn !in s.staged then s
    else s.(tasks := WriteRows(s.tasks, s.staged[txn]), jobs := WriteJobs(s.jobs, s.staged[txn]), staged := s.staged - {txn})
  }

  function Next(s: Sys, a: Action): Sys {
    match a
    case Tick(to) => s.(clock := to)
    case Submit(job, added) =>
      s.(tasks := s.tasks + added, jobs := s.jobs[job := NewJob()], issued := s.issued + added.Keys, named := s.named + {job})
    case CheckDependencies(who, txn) => StepCheckDependencies(s, who, txn)
    case Pick(who, expiry, now) => StepPick(s, who, expiry, now)
    case Heartbeat(w, id, expiry) => s.(tasks := Refresh(s.tasks, id, w, expiry))
    case CheckLease(who, now) => StepCheckLease(s, who, now)
    case Commit(who, outcome) => StepCommit(s, who, outcome)
    case SelectExpired(now) => s.(sweep := Some((ExpiredIds(s.tasks, now), now)))
    case UpdateExpired =>
      if s.sweep.None? then s
      else s.(tasks := ResetExpired(s.tasks, s.sweep.value.0, s.sweep.value.1), sweep := None)
    case Write(txn) => StepWrite(s, txn)
    case RequestCancel(job, force) =>
      if job !in s.jobs then s
      else s.(jobs := s.jobs[job := s.jobs[job].(cancelRequested := true, cancelForce := force || s.jobs[job].cancelForce)])
    case _ => StepRead(s, a)
  }

  /** What the environment guarantees about a step: the clock does not run backwards, clock readings
      are not from the future, ids are new, a granted expiry still lies ahead when the statement runs
      (statement delay stays below the TTL), and a worker's successive grants do not shrink. */
  predicate Enabled(s: Sys, a: Action) {
    match a
    case Tick(to) => s.clock <= to
    case Submit(job, added) =>
      && job !in s.named && added.Keys !! s.issued
      && (forall id | id in added :: added[id].job == job && added[id].worker.None? && added[id].lease.None?
                                     && (added[id].status == Pending || added[id].status == Succeeded))
    case CheckDependencies(_, txn) => txn !in s.staged
    case Pick(who, expiry, now) => now <= s.clock < expiry
    case Heartbeat(w, id, expiry) =>
      s.clock < expiry && (Refreshes(s.tasks, id, w) && s.tasks[id].lease.Some? ==> s.tasks[id].lease.value <= expiry)
    case CheckLease(who, now) => now <= s.clock
    case Commit(who, outcome) => outcome == Succeeded || outcome == Failed || outcome == CancelledDirty
    case SelectExpired(now) => now <= s.clock
    case _ => ReadStep(a) ==> a.txn !in s.staged
  }

  // ----- which writes are dangerous -----

  /** The step writes, by primary key, a status that is not reusable over the reusable one of row `d`. */
  predicate UndoesAt(s: Sys, a: Action, d: TaskId) {
    d in s.tasks && Reusable(s.tasks[d].status) &&
    match a
    case Commit(who, outcome) => who in s.committing && who.id == d && !Reusable(outcome)
    case Write(txn) => txn in s.staged && WritesRow(s, txn, d) && !Reusable(s.staged[txn].rows[d].Apply(s.tasks[d]).status)
    case _ => false
  }

  predicate WritesRow(s: Sys, txn: nat, d: TaskId)
    requires txn in s.staged
  {
    d in s.staged[txn].rows && d in s.tasks && s.tasks[d].job !in s.staged[txn].drop
  }

  predicate Undoes(s: Sys, a: Action) {
    exists d | d in s.tasks :: UndoesAt(s, a, d)
  }

  /** The step rolls a job up to a terminal status although one of its tasks is in flight. */
  predicate Strands(s: Sys, a: Action) {
    a.Write? && a.txn in s.staged &&
    exists j | j in s.staged[a.txn].jobs :: StrandsJob(s, a.txn, j)
  }

  predicate StrandsJob(s: Sys, txn: nat, j: string)
    requires txn in s.staged && j in s.staged[txn].jobs
  {
    && j in s.jobs && j !in s.staged[txn].drop && TerminalJob(s.staged[txn].jobs[j].Apply(s.jobs[j]).status)
    && exists id | id in s.tasks :: s.tasks[id].job == j && InFlight(s.tasks[id].status)
  }

  /** The step writes the resume of job `j`. */
  predicate Resumes(s: Sys, a: Action, j: string) {
    a.Write? && a.txn in s.staged && j in s.staged[a.txn].jobs && Revives(s.staged[a.txn].jobs[j])
  }

  /** Three conditions on the writers of tasks. */
  datatype Condition = Promptness | Exclusivity | Timeliness

  predicate Holds(c: Condition, s: Sys, a: Action) {
    match c
    // a commit lands before the lease that was checked runs out
    case Promptness => a.Commit? && a.who in s.committing ==> s.clock <= s.committing[a.who]
    // an attempt does not pass the check while another of the same worker at the same task may still commit
    case Exclusivity =>
      a.CheckLease? ==>
        forall p | p in s.committing :: LiveCheck(s, p) && p.worker == a.who.worker && p.id == a.who.id ==> p == a.who
    // a row is written only while it has the status it was read in
    case Timeliness =>
      a.Write? && a.txn in s.staged ==>
        forall id | id in s.staged[a.txn].rows :: WritesRow(s, a.txn, id) ==>
                    s.tasks[id].status == s.staged[a.txn].rows[id].before.status
  }

  predicate Careful(s: Sys, a: Action) {
    Holds(Promptness, s, a) && Holds(Exclusivity, s, a) && Holds(Timeliness, s, a)
  }

  // ----- runs -----

  function Run(s: Sys, trace: seq<Action>): Sys {
    if trace == [] then s else Next(Run(s, trace[..|trace| - 1]), trace[|trace| - 1])
  }

  /** Every step of the run is enabled where it happens. */
  ghost predicate Possible(s: Sys, trace: seq<Action>) {
    forall k :: 0 <= k < |trace| ==> Enabled(Run(s, trace[..k]), trace[k])
  }

  ghost predicate CarefulRun(s: Sys, trace: seq<Action>) {
    forall k :: 0 <= k < |trace| ==> Careful(Run(s, trace[..k]), trace[k])
  }

  /** No step of the run undoes anything. */
  ghost predicate NothingUndone(s: Sys, trace: seq<Action>) {
    forall k :: 0 <= k < |trace| ==> !Undoes(Run(s, trace[..k]), trace[k])
  }

  /** No step of the run strands a task. */
  ghost predicate NothingStranded(s: Sys, trace: seq<Action>) {
    forall k :: 0 <= k < |trace| ==> !Strands(Run(s, trace[..k]), trace[k])
  }

  const INITIAL := Sys(map[], map[], 0, {}, {}, None, map[], {}, {}, map[])

  // ----- what runs keep -----

  /** Known to be done once and for all, or gone with its job. */
  predicate Done(s: Sys, d: TaskId) {
    d in s.issued && (d in s.tasks ==> Reusable(s.tasks[d].status))
  }

  predicate DependenciesDone(s: Sys, id: TaskId) {
    id in s.tasks ==> forall d | d in s.tasks[id].deps :: Done(s, d)
  }

  /** A running task has an owner and a lease, so an orphan will be found; a row has both or neither. */
  ghost predicate RunningLeased(s: Sys) {
    forall id :: id in s.tasks ==>
      (s.tasks[id].worker.Some? <==> s.tasks[id].lease.Some?) && (s.tasks[id].status == Running ==> s.tasks[id].worker.Some?)
  }

  /** Every task has its job. */
  ghost predicate JobsKnown(s: Sys) {
    s.jobs.Keys <= s.named && forall id :: id in s.tasks ==> s.tasks[id].job in s.jobs
  }

  /** A staged row change makes something terminal of a pending row, or a pending row, without a lease, of a failed or
      cancelled one; in the second case the job is going to be pending, too. */
  ghost predicate GoodChange(w: Staged, c: RowChange) {
    && c.after.status != c.before.status && (c.before.worker.Some? <==> c.before.lease.Some?)
    && if c.before.status == Pending
       then Dooming(c.after.status) && c.after.worker == c.before.worker && c.after.lease == c.before.lease
       else && Dooming(c.before.status) && c.after.status == Pending && c.after.worker.None? && c.after.lease.None?
            && c.before.job in w.jobs && Revives(w.jobs[c.before.job])
  }

  ghost predicate GoodStaged(s: Sys, w: Staged) {
    && (forall id :: id in w.rows ==>
          GoodChange(w, w.rows[id]) && id in s.issued && (id in s.tasks ==> s.tasks[id].job == w.rows[id].before.job))
    && (forall j :: j in w.jobs ==> Revives(w.jobs[j]) || (TerminalJob(w.jobs[j].after.status) && w.rows == map[]))
  }

  /** The job was finished and is going to be pending. */
  predicate Revives(c: JobChange) { c.before.status != Pending && c.after.status == Pending }

  ghost predicate StagedGood(s: Sys) { forall txn :: txn in s.staged ==> GoodStaged(s, s.staged[txn]) }

  /** What every run keeps. */
  ghost predicate Sane(s: Sys) {
    && s.tasks.Keys <= s.issued
    && (s.sweep.Some? ==> s.sweep.value.1 <= s.clock)
    && RunningLeased(s) && JobsKnown(s) && StagedGood(s)
  }

  /** A job that counts as finished has no task in flight: kept while nothing is stranded. */
  ghost predicate FinishedJobsIdle(s: Sys) {
    forall id :: id in s.tasks && InFlight(s.tasks[id].status) && s.tasks[id].job in s.jobs ==>
                 !TerminalJob(s.jobs[s.tasks[id].job].status)
  }

  /** Whatever runs, or was found ready, has its dependencies done: kept while nothing is undone. */
  ghost predicate RunningReady(s: Sys) {
    && (forall id :: id in s.tasks && s.tasks[id].status == Running ==> DependenciesDone(s, id))
    && (forall p :: p in s.checked ==> p.id in s.issued && DependenciesDone(s, p.id))
  }

  /** While a check lasts, it is the only one of its worker for the task, and the row, if it is still there, is running
      for that worker: kept by careful runs. */
  ghost predicate CommitOwned(s: Sys) {
    && (forall p :: LiveCheck(s, p) ==> p.id in s.issued && OwnedUntil(s, p, s.committing[p]))
    && (forall p, q :: LiveCheck(s, p) && LiveCheck(s, q) && p.worker == q.worker && p.id == q.id ==> p == q)
  }

  predicate LiveCheck(s: Sys, p: Attempt) { p in s.committing && s.clock <= s.committing[p] }

  ghost predicate OwnedUntil(s: Sys, p: Attempt, until: int) {
    p.id in s.tasks ==>
      && s.tasks[p.id].status == Running && s.tasks[p.id].worker == Some(p.worker)
      && s.tasks[p.id].lease.Some? && until <= s.tasks[p.id].lease.value
  }
}
