/** The database the orchestrator works on, with the statements it runs against it. */
module TaskStore {
  import opened Prelude
  import opened Readiness
  import opened Tasks
  import opened Leases
  import opened Jobs
  import opened Propagation
  import opened JobAdvance

  /** The ids that pending rows depend on. */
  function Referenced(t: Table): set<TaskId> {
    set id, d | id in PendingIds(t) && d in t[id].deps :: d
  }

  /** The rows the dependency sweeps load: pending ones and what they refer to. */
  function Loaded(t: Table): Statuses {
    map id | id in t && (id in PendingIds(t) || id in Referenced(t)) :: t[id].status
  }

  /** On what was loaded, a pending row's dependencies look as they do in the whole table. */
  lemma LoadedSuffices(t0: Table, t: Table, st: Statuses, id: TaskId)
    requires t.Keys == t0.Keys && id in PendingIds(t0) && id in t && t[id].deps == t0[id].deps
    requires st.Keys == Loaded(t0).Keys && forall d :: d in st ==> st[d] == t[d].status
    ensures StateOf(t[id].deps, st) == StateIn(t, id)
    ensures DependenciesReady(t[id].deps, st) <==> ReadyIn(t, id)
  {
    forall d | d in t[id].deps
      ensures (d in st <==> d in StatusesOf(t)) && (d in st ==> st[d] == StatusesOf(t)[d])
    {
      assert d in Referenced(t0);
    }
    StateDependsOnDeps(t[id].deps, st, StatusesOf(t));
  }

  /** The entries of `ids` that are ready in `t` and satisfy the caller's own filter. */
  function ReadyAmong(ids: seq<TaskId>, n: nat, eligible: set<TaskId>, t: Table): seq<TaskId>
    requires n <= |ids| && eligible <= t.Keys
  {
    if n == 0 then []
    else ReadyAmong(ids, n - 1, eligible, t)
         + (if ids[n - 1] in eligible && ReadyIn(t, ids[n - 1]) then [ids[n - 1]] else [])
  }

  function Startable(t: Table): set<TaskId> {
    set id | id in PendingIds(t) && t[id].hasState
  }

  function InStatusOtherThan(t: Table, s: Status): set<TaskId> {
    set id | id in t && t[id].status != s
  }

  /** `dict.fromkeys([*a, *b])`: the first occurrence of each id, in order. */
  function FirstOccurrences(s: seq<TaskId>): seq<TaskId> {
    if s == [] then []
    else
      var rest := FirstOccurrences(s[..|s| - 1]);
      if s[|s| - 1] in rest then rest else rest + [s[|s| - 1]]
  }

  class Store {
    var tasks: Table
    var jobs: JobTable

    constructor ()
      ensures tasks == map[] && jobs == map[]
    {
      tasks, jobs := map[], map[];
    }

    // ----- leases -----

    /** The expiry is computed from one reading of the clock, the predicate from a later one. */
    method TryAcquireLease(id: TaskId, worker: string, now: int, later: int, ttl: int, pendingOnly: bool) returns (ok: bool)
      modifies this`tasks
      ensures ok <==> Acquires(old(tasks), id, later, pendingOnly)
      ensures tasks == Acquire(old(tasks), id, worker, now + ttl, later, pendingOnly)
    {
      ok := id in tasks && (tasks[id].lease.None? || tasks[id].lease.value < later)
            && (pendingOnly ==> tasks[id].status == Pending);
      if ok {
        tasks := tasks[id := tasks[id].(lease := Some(now + ttl), worker := Some(worker))];
      }
    }

    method RefreshLease(id: TaskId, worker: string, now: int, ttl: int) returns (ok: bool)
      modifies this`tasks
      ensures ok <==> Refreshes(old(tasks), id, worker)
      ensures tasks == Refresh(old(tasks), id, worker, now + ttl)
    {
      ok := id in tasks && tasks[id].worker == Some(worker);
      if ok {
        tasks := tasks[id := tasks[id].(lease := Some(now + ttl))];
      }
    }

    /** First statement of a reclaim. */
    method SelectExpired(now: int) returns (ids: set<TaskId>)
      ensures ids == ExpiredIds(tasks, now)
    {
      ids := set id | id in tasks && tasks[id].status == Running
                      && tasks[id].lease.Some? && tasks[id].lease.value < now;
    }

    /** Second statement of a reclaim. */
    method UpdateExpired(ids: set<TaskId>, now: int)
      modifies this`tasks
      ensures tasks == ResetExpired(old(tasks), ids, now)
    {
      if ids != {} {
        tasks := map id | id in tasks ::
          if id in ids && tasks[id].status == Running && tasks[id].lease.Some? && tasks[id].lease.value < now
          then tasks[id].(status := Pending, worker := None, lease := None) else tasks[id];
      }
    }

    // ----- dependency sweeps -----

    /** The janitor's sweep, followed by the roll-up of the jobs it changed a task of. */
    method PropagateTerminalDependencies(order: seq<TaskId>, now: int) returns (changed: seq<TaskId>)
      requires ListsPending(order, tasks)
      modifies this
      ensures tasks == Sweep(old(tasks), order)
      ensures NoDup(changed) && Elements(changed) == Changed(old(tasks), tasks)
      ensures jobs == FinalizeAll(old(jobs), tasks, JobsAmong(tasks, Changed(old(tasks), tasks)), now)
      ensures RollUpsOf(old(jobs), jobs, tasks, JobsAmong(tasks, Changed(old(tasks), tasks)), now)
    {
      changed := SweepTasks(order);
      assert forall id :: id in Elements(changed) ==> id in tasks;
      FinalizeAllRollsUp(jobs, tasks, JobsAmong(tasks, Elements(changed)), now);
      jobs := FinalizeJobs(jobs, tasks, JobsAmong(tasks, Elements(changed)), now);
    }

    /** One job rolled up, by the set of its rows' statuses. */
    static method FinalizeJobIfReady(jobs: JobTable, t: Table, job: string, now: int) returns (rolled: JobTable)
      ensures rolled == Finalize(jobs, t, job, now)
      ensures RollsUp(jobs, rolled, t, job, now)
    {
      FinalizeRollsUp(jobs, t, job, now);
      hide RollsUp;
      var rows := TasksOf(t, job);
      if rows == {} {
        return jobs;
      }
      var statuses := set id | id in rows :: t[id].status;
      if statuses * {Pending, Running} != {} {
        SomeStatus(t, rows, statuses, Pending, Running);
        return jobs;
      }
      SomeStatus(t, rows, statuses, Pending, Running);
      SomeStatus(t, rows, statuses, Failed, Failed);
      SomeStatus(t, rows, statuses, Cancelled, CancelledDirty);
      var status := if Failed in statuses then Failed
                    else if statuses * {Cancelled, CancelledDirty} != {} then Cancelled else Succeeded;
      if job !in jobs {
        return jobs;
      }
      rolled := jobs;
      if jobs[job].status != status {
        rolled := jobs[job := jobs[job].(status := status, finishedAt := Some(now))];
      }
    }

    static method FinalizeJobs(jobs: JobTable, t: Table, affected: set<string>, now: int) returns (rolled: JobTable)
      ensures rolled == FinalizeAll(jobs, t, affected, now)
    {
      hide RollUp;
      rolled := jobs;
      var left := affected;
      while left != {}
        invariant left <= affected && rolled == FinalizeAll(jobs, t, affected - left, now)
      {
        var job :| job in left;
        left := left - {job};
        rolled := FinalizeJobIfReady(rolled, t, job, now);
      }
    }

    method SweepTasks(order: seq<TaskId>) returns (changed: seq<TaskId>)
      requires ListsPending(order, tasks)
      modifies this`tasks
      ensures tasks == Sweep(old(tasks), order)
      ensures NoDup(changed) && Elements(changed) == Changed(old(tasks), tasks)
    {
      hide Pass, Loaded, Tracks, Changed, NoDup, Elements, Marked, Sweep;
      ghost var t0 := tasks;
      var statusById := Loaded(tasks);
      changed := [];
      var progressed := true;
      SweepStarts(t0);
      while progressed
        invariant tasks.Keys == t0.Keys && Marked(t0, tasks) && Sweep(tasks, order) == Sweep(t0, order)
        invariant Tracks(t0, tasks, statusById)
        invariant NoDup(changed) && Elements(changed) == Changed(t0, tasks)
        invariant !progressed ==> Pass(tasks, order, |order|) == tasks
        decreases |PendingIds(tasks)|, progressed
      {
        ghost var start := tasks;
        PassProgress(start, order, |order|);
        SweepUnfolds(start, order);
        tasks, statusById, changed, progressed := VisitRows(t0, order, tasks, statusById, changed);
        if !progressed {
          IdlePass(start, order, |order|);
        }
      }
      SweepUnfolds(tasks, order);
    }

    /** One pass over the pending rows. */
    static method VisitRows(ghost t0: Table, order: seq<TaskId>, tasks: Table, statusById: Statuses, changed: seq<TaskId>)
      returns (tasks': Table, statusById': Statuses, changed': seq<TaskId>, progressed: bool)
      requires ListsPending(order, t0) && tasks.Keys == t0.Keys && Marked(t0, tasks) && Tracks(t0, tasks, statusById)
      requires NoDup(changed) && Elements(changed) == Changed(t0, tasks)
      ensures tasks' == Pass(tasks, order, |order|) && Marked(t0, tasks') && Tracks(t0, tasks', statusById')
      ensures NoDup(changed') && Elements(changed') == Changed(t0, tasks')
      ensures progressed <==> PendingIds(tasks') != PendingIds(tasks)
    {
      hide Visit, Loaded, Tracks, Changed, Elements, Marked;
      tasks', statusById', changed', progressed := tasks, statusById, changed, false;
      for k := 0 to |order|
        invariant tasks' == Pass(tasks, order, k) && Marked(t0, tasks')
        invariant Tracks(t0, tasks', statusById')
        invariant NoDup(changed') && Elements(changed') == Changed(t0, tasks')
        invariant progressed <==> PendingIds(tasks') != PendingIds(tasks)
        invariant PendingIds(tasks') <= PendingIds(tasks)
      {
        tasks', statusById', changed', progressed := VisitRow(t0, order[k], tasks', statusById', changed', progressed, tasks);
      }
    }

    /** The body of the sweep's inner loop. */
    static method VisitRow(ghost t0: Table, id: TaskId, tasks: Table, statusById: Statuses, changed: seq<TaskId>,
                           progressed: bool, ghost start: Table)
      returns (tasks': Table, statusById': Statuses, changed': seq<TaskId>, progressed': bool)
      requires id in PendingIds(t0) && Marked(t0, tasks) && Tracks(t0, tasks, statusById)
      requires NoDup(changed) && Elements(changed) == Changed(t0, tasks)
      requires (progressed <==> PendingIds(tasks) != PendingIds(start)) && PendingIds(tasks) <= PendingIds(start)
      ensures tasks' == Visit(tasks, id) && Marked(t0, tasks') && Tracks(t0, tasks', statusById')
      ensures NoDup(changed') && Elements(changed') == Changed(t0, tasks')
      ensures progressed' <==> PendingIds(tasks') != PendingIds(start)
      ensures PendingIds(tasks') <= PendingIds(start)
    {
      hide StateIn, Loaded, PendingIds, Changed, Elements, NoDup, Mark, Marked;
      tasks', statusById', changed', progressed' := tasks, statusById, changed, progressed;
      RowKnown(t0, tasks, statusById, id);
      if statusById[id] == Pending {
        LoadedSuffices(t0, tasks, statusById, id);
        var state := StateOf(tasks[id].deps, statusById);
        if state != Ready && state != Blocked {
          var marked := Mark(tasks[id], state);
          tasks' := tasks[id := marked];
          statusById' := statusById[id := marked.status];
          changed' := changed + [id];
          progressed' := true;
          VisitMarksOne(tasks, id, state);
          NewlyChanged(t0, tasks, tasks', id, changed);
          StillTracks(t0, tasks, statusById, id, marked);
          FewerPending(tasks, id, marked, PendingIds(start));
        } else {
          assert tasks' == Visit(tasks, id);
        }
      } else {
        assert tasks' == Visit(tasks, id);
      }
    }

    /** After a task of `job` has finished: the job's own rows are swept, the job is rolled up, and the rows that
        became ready by the job's own statuses are returned. `ids` lists the job's rows. */
    method AdvanceJob(job: string, ids: seq<TaskId>, now: int) returns (ready: seq<TaskId>)
      requires ListsJob(ids, tasks, job)
      modifies this
      ensures tasks == Advance(old(tasks), job, ids)
      ensures jobs == Finalize(old(jobs), tasks, job, now) && RollsUp(old(jobs), jobs, tasks, job, now)
      ensures forall id :: id in ids ==> id in tasks
      ensures ready == FollowUps(ids, |ids|, job, tasks)
    {
      hide Sweep, Finalize, RollsUp;
      var rows, statusById := SweepOwnRows(OwnRows(tasks, job), ids);
      tasks := tasks + rows;
      jobs := FinalizeJobIfReady(jobs, tasks, job, now);
      AdvancedRows(old(tasks), job, ids);
      ready := [];
      for k := 0 to |ids|
        invariant ready == FollowUps(ids, k, job, tasks)
      {
        var task := tasks[ids[k]];
        if task.status != Pending {
          continue;
        }
        if task.deps != [] && DependenciesReady(task.deps, statusById) {
          ready := ready + [ids[k]];
        }
      }
    }

    static method SweepOwnRows(start: Table, ids: seq<TaskId>) returns (rows: Table, statusById: Statuses)
      requires forall id :: id in ids ==> id in start
      ensures rows == Sweep(start, ids) && statusById == StatusesOf(rows)
    {
      hide Sweep, Pass;
      rows, statusById := start, StatusesOf(start);
      var changed := true;
      while changed
        invariant rows.Keys == start.Keys && Sweep(rows, ids) == Sweep(start, ids) && statusById == StatusesOf(rows)
        invariant !changed ==> Pass(rows, ids, |ids|) == rows
        decreases |PendingIds(rows)|, changed
      {
        ghost var before := rows;
        PassProgress(before, ids, |ids|);
        SweepUnfolds(before, ids);
        rows, statusById, changed := PassOwnRows(rows, statusById, ids);
        if !changed {
          IdlePass(before, ids, |ids|);
        }
      }
      SweepUnfolds(rows, ids);
    }

    static method PassOwnRows(start: Table, known: Statuses, ids: seq<TaskId>)
      returns (rows: Table, statusById: Statuses, changed: bool)
      requires (forall id :: id in ids ==> id in start) && known == StatusesOf(start)
      ensures rows == Pass(start, ids, |ids|) && statusById == StatusesOf(rows)
      ensures changed <==> PendingIds(rows) != PendingIds(start)
    {
      hide Visit, PendingIds;
      rows, statusById, changed := start, known, false;
      for k := 0 to |ids|
        invariant rows == Pass(start, ids, k) && statusById == StatusesOf(rows)
        invariant PendingIds(rows) <= PendingIds(start) && (changed <==> PendingIds(rows) != PendingIds(start))
      {
        var marks;
        rows, statusById, marks := VisitOwnRow(rows, statusById, ids[k], PendingIds(start));
        changed := changed || marks;
      }
    }

    static method VisitOwnRow(rows: Table, statusById: Statuses, id: TaskId, ghost start: set<TaskId>)
      returns (rows': Table, statusById': Statuses, marks: bool)
      requires id in rows && statusById == StatusesOf(rows) && PendingIds(rows) <= start
      ensures rows' == Visit(rows, id) && statusById' == StatusesOf(rows')
      ensures PendingIds(rows') <= start && (marks <==> rows' != rows)
      ensures if marks then PendingIds(rows') != start else rows' == rows
    {
      hide StateOf;
      rows', statusById', marks := rows, statusById, false;
      var task := rows[id];
      if task.status == Pending && task.deps != [] {
        var state := StateOf(task.deps, statusById);
        if state != Ready && state != Blocked {
          rows' := rows[id := Mark(task, state)];
          statusById' := statusById[id := rows'[id].status];
          marks := true;
          FewerPending(rows, id, rows'[id], start);
          assert statusById' == StatusesOf(rows');
        }
      } else if task.status == Pending {
        NoDependenciesReady(statusById);
      }
    }

    method FindReadyPendingTasks(order: seq<TaskId>) returns (ready: seq<TaskId>)
      requires ListsPending(order, tasks)
      ensures ready == ReadyAmong(order, |order|, Startable(tasks), tasks)
    {
      hide ReadyIn;
      var statusById := Loaded(tasks);
      ready := [];
      for k := 0 to |order|
        invariant ready == ReadyAmong(order, k, Startable(tasks), tasks)
      {
        assert order[k] in PendingIds(tasks);
        var task := tasks[order[k]];
        LoadedSuffices(tasks, tasks, statusById, order[k]);
        if task.hasState {
          if DependenciesReady(task.deps, statusById) {
            ready := ready + [order[k]];
          }
        }
      }
    }

    // ----- submit and resume -----

    /** Persists a job's rows and returns the ids to enqueue. `ids` lists the new rows in node order. */
    method SubmitJobDag(job: string, ids: seq<TaskId>, added: Table, now: int) returns (ready: seq<TaskId>)
      requires job !in jobs && added.Keys !! tasks.Keys && NoDup(ids) && forall id :: id in ids <==> id in added
      requires forall id :: id in added ==> added[id].job == job && (added[id].status == Pending || added[id].status == Succeeded)
      modifies this
      ensures tasks == old(tasks) + added
      ensures jobs == var created := old(jobs)[job := NewJob()];
                      if InStatusOtherThan(added, Succeeded) == {} then Finalize(created, tasks, job, now) else created
      ensures var created := old(jobs)[job := Job(Pending, false, false, false, None)];
              if forall id :: id in added ==> added[id].status == Succeeded
              then RollsUp(created, jobs, tasks, job, now) else jobs == created
      ensures ready == ReadyAmong(ids, |ids|, InStatusOtherThan(added, Succeeded), tasks)
    {
      hide Finalize, RollsUp, ReadyAmong, ReadyIn;
      jobs := jobs[job := NewJob()];
      tasks := tasks + added;
      var pending := InStatusOtherThan(added, Succeeded);
      assert forall id :: id in pending <==> id in added && added[id].status != Succeeded;
      if pending == {} {
        jobs := FinalizeJobIfReady(jobs, tasks, job, now);
        NobodyReady(ids, |ids|, tasks);
        return [];
      }
      var statusById := ResolveExternal(pending, added, tasks);
      ready := ReadyBy(ids, pending, added, tasks, statusById);
    }

    /** Merges in the statuses of dependencies outside the submission; the ones missing stay absent. */
    static method ResolveExternal(pending: set<TaskId>, added: Table, t: Table) returns (statusById: Statuses)
      requires pending <= added.Keys <= t.Keys && (forall id :: id in added ==> t[id] == added[id])
      ensures forall id, d :: id in pending && d in added[id].deps ==>
                (d in statusById <==> d in t) && (d in statusById ==> statusById[d] == t[d].status)
    {
      var external := set id, d | id in pending && d in added[id].deps && d !in added :: d;
      statusById := StatusesOf(added) + (map d | d in external && d in t :: t[d].status);
    }

    /** The entries of `ids` that are ready by what the submission knows: its own rows and the external ones they refer to. */
    static method ReadyBy(ids: seq<TaskId>, pending: set<TaskId>, added: Table, ghost t: Table, statusById: Statuses)
      returns (ready: seq<TaskId>)
      requires pending <= added.Keys <= t.Keys && (forall id :: id in added ==> t[id] == added[id])
      requires forall id, d :: id in pending && d in added[id].deps ==>
                 (d in statusById <==> d in t) && (d in statusById ==> statusById[d] == t[d].status)
      ensures ready == ReadyAmong(ids, |ids|, pending, t)
    {
      ready := [];
      for k := 0 to |ids|
        invariant ready == ReadyAmong(ids, k, pending, t)
      {
        if ids[k] in pending {
          StateDependsOnDeps(added[ids[k]].deps, statusById, StatusesOf(t));
          if DependenciesReady(added[ids[k]].deps, statusById) {
            ready := ready + [ids[k]];
          }
        }
      }
    }

    /** Resets a job's failed and cancelled tasks; `None` where the source raises. `ids` lists the job's rows.
        Only the job's own statuses are consulted for readiness. */
    method ResumeJobTasks(job: string, ids: seq<TaskId>) returns (ready: Option<seq<TaskId>>)
      requires NoDup(ids) && forall id :: id in ids <==> id in TasksOf(tasks, job)
      modifies this
      ensures ready.Some? <==> CanResume(old(jobs), old(tasks), job)
      ensures ready.None? ==> tasks == old(tasks) && jobs == old(jobs)
      ensures ready.Some? ==> tasks == ResumeTasks(old(tasks), job) && jobs == old(jobs)[job := ResumeJob(old(jobs)[job])]
      ensures ready.Some? ==> Resumed(old(tasks), tasks, old(jobs), jobs, job)
      ensures ready.Some? ==> (forall id :: id in ids ==> id in tasks) && ready.value == OwnReady(ids, |ids|, job, tasks)
    {
      if job !in jobs || !Resettable(jobs[job].status) {
        return None;
      }
      var rows, resetCount := ResetRows(job, ids, tasks);
      if resetCount == 0 {
        return None;
      }
      jobs := jobs[job := jobs[job].(status := Pending, cancelRequested := false, cancelForce := false, finishedAt := None)];
      tasks := rows;
      var found := OwnReadyRows(job, ids, tasks);
      return Some(found);
    }

    static method ResetRows(job: string, ids: seq<TaskId>, t: Table) returns (rows: Table, resetCount: nat)
      requires NoDup(ids) && forall id :: id in ids <==> id in TasksOf(t, job)
      ensures rows == ResumeTasks(t, job)
      ensures resetCount > 0 <==> exists id :: id in TasksOf(t, job) && Resettable(t[id].status)
    {
      rows, resetCount := t, 0;
      for k := 0 to |ids|
        invariant rows.Keys == t.Keys
        invariant forall id :: id in t && id !in ids[..k] ==> rows[id] == t[id]
        invariant forall id :: id in t && id in ids[..k] ==>
                    rows[id] == if Resettable(t[id].status) then ResetTask(t[id]) else t[id]
        invariant resetCount > 0 <==> exists id :: id in ids[..k] && id in t && Resettable(t[id].status)
      {
        var id := ids[k];
        assert id in TasksOf(t, job);
        assert ids[..k + 1] == ids[..k] + [id];
        assert id !in ids[..k];
        if Resettable(rows[id].status) {
          resetCount := resetCount + 1;
          rows := rows[id := ResetTask(rows[id])];
        }
      }
      assert ids[..|ids|] == ids;
      assert forall id :: id in ids <==> id in t && t[id].job == job;
    }

    static method OwnReadyRows(job: string, ids: seq<TaskId>, t: Table) returns (found: seq<TaskId>)
      requires forall id :: id in ids ==> id in t
      ensures found == OwnReady(ids, |ids|, job, t)
    {
      found := [];
      var statusById := OwnStatuses(t, job);
      for k := 0 to |ids|
        invariant found == OwnReady(ids, k, job, t)
      {
        if t[ids[k]].status == Pending && DependenciesReady(t[ids[k]].deps, statusById) {
          found := found + [ids[k]];
        }
      }
    }

    // ----- retention -----

    static method SelectCollectable(jobs: JobTable, cutoff: int) returns (ids: set<string>)
      ensures ids == Collectable(jobs, cutoff) && ids <= jobs.Keys
    {
      ids := set j | j in jobs && jobs[j].status in {Succeeded, Failed, Cancelled, CancelledDirty} && !jobs[j].pinned
                     && jobs[j].finishedAt.Some? && jobs[j].finishedAt.value < cutoff;
    }

    method GcExpiredJobRecords(cutoff: int) returns (removed: nat)
      modifies this
      ensures tasks == DropTasks(old(tasks), Collectable(old(jobs), cutoff))
      ensures jobs == old(jobs) - Collectable(old(jobs), cutoff)
      ensures removed == |Collectable(old(jobs), cutoff)|
      ensures Collected(old(tasks), tasks, old(jobs), jobs, cutoff)
      ensures removed == |old(jobs).Keys - jobs.Keys|
    {
      CollectExact(tasks, jobs, cutoff);
      hide Collected, Collectable, DropTasks;
      var ids := SelectCollectable(jobs, cutoff);
      Removed(jobs, ids);
      tasks, jobs := DeleteJobs(tasks, jobs, ids);
      removed := |ids|;
    }

    static method DeleteJobs(t: Table, jobs: JobTable, ids: set<string>) returns (t': Table, jobs': JobTable)
      ensures t' == DropTasks(t, ids) && jobs' == jobs - ids
    {
      t', jobs' := t, jobs;
      if ids != {} {
        t' := map id | id in t && t[id].job !in ids :: t[id];
        jobs' := jobs - ids;
      }
    }
  }

  lemma NoDependenciesReady(st: Statuses)
    ensures StateOf([], st) == Ready
  {
  }

  /** The job's rows in the advanced table are the swept ones. */
  lemma AdvancedRows(t: Table, job: string, ids: seq<TaskId>)
    requires forall id :: id in ids ==> id in t && t[id].job == job
    ensures OwnStatuses(Advance(t, job, ids), job) == StatusesOf(Sweep(OwnRows(t, job), ids))
    ensures forall id :: id in ids ==> Advance(t, job, ids)[id] == Sweep(OwnRows(t, job), ids)[id]
  {
    hide Sweep;
    SweepMarks(OwnRows(t, job), ids);
    AdvanceMarks(t, job, ids);
  }

  function JobsAmong(t: Table, ids: set<TaskId>): set<string>
    requires forall id :: id in ids ==> id in t
  {
    set id | id in ids :: t[id].job
  }

  lemma Removed(jobs: JobTable, ids: set<string>)
    requires ids <= jobs.Keys
    ensures jobs.Keys - (jobs - ids).Keys == ids
  {
  }

  lemma SomeStatus(t: Table, rows: set<TaskId>, statuses: set<Status>, a: Status, b: Status)
    requires rows <= t.Keys && statuses == set id | id in rows :: t[id].status
    ensures statuses * {a, b} != {} <==> exists id :: id in rows && (t[id].status == a || t[id].status == b)
    ensures a in statuses <==> exists id :: id in rows && t[id].status == a
  {
    if id :| id in rows && (t[id].status == a || t[id].status == b) {
      assert t[id].status in statuses * {a, b};
    }
    if statuses * {a, b} != {} {
      var s :| s in statuses * {a, b};
    }
  }

  lemma SweepUnfolds(t: Table, order: seq<TaskId>)
    requires forall id :: id in order ==> id in t
    ensures Sweep(t, order) == Sweep(Pass(t, order, |order|), order)
    ensures Pass(t, order, |order|) == t ==> Sweep(t, order) == t
  {
  }

  lemma SweepStarts(t: Table)
    ensures Marked(t, t) && Tracks(t, t, Loaded(t))
    ensures Elements<TaskId>([]) == Changed(t, t) && NoDup<TaskId>([])
  {
  }

  lemma RowKnown(t0: Table, t: Table, st: Statuses, id: TaskId)
    requires id in PendingIds(t0) && Marked(t0, t) && Tracks(t0, t, st)
    ensures id in t && id in st && t[id].deps == t0[id].deps && (st[id] == Pending <==> id in PendingIds(t))
  {
  }

  lemma VisitMarksOne(t: Table, id: TaskId, state: DependencyState)
    requires id in PendingIds(t) && state == StateIn(t, id) && Terminal(state)
    ensures Visit(t, id) == t[id := Mark(t[id], state)] && Marked(t, Visit(t, id)) && Mark(t[id], state).status != Pending
  {
    hide StateIn;
  }

  lemma StillTracks(t0: Table, t: Table, st: Statuses, id: TaskId, marked: Task)
    requires Tracks(t0, t, st) && id in t && id in st
    ensures Tracks(t0, t[id := marked], st[id := marked.status])
  {
    hide Loaded;
  }

  lemma FewerPending(t: Table, id: TaskId, marked: Task, start: set<TaskId>)
    requires id in PendingIds(t) && marked.status != Pending && PendingIds(t) <= start
    ensures PendingIds(t[id := marked]) <= start && PendingIds(t[id := marked]) != start
  {
    assert id in start && id !in PendingIds(t[id := marked]);
  }

  lemma OneMoreChanged(t0: Table, t: Table, t': Table, id: TaskId)
    requires Marked(t0, t) && id in PendingIds(t) && id in t' && t' == t[id := t'[id]] && t'[id] != t[id]
    ensures id !in Changed(t0, t) && Changed(t0, t') == Changed(t0, t) + {id}
  {
    assert t[id] == t0[id];
  }

  /** The row just marked had not been changed before. */
  lemma NewlyChanged(t0: Table, t: Table, t': Table, id: TaskId, changed: seq<TaskId>)
    requires Marked(t0, t) && Marked(t, t') && id in PendingIds(t) && t' == t[id := t'[id]] && t'[id] != t[id]
    requires NoDup(changed) && Elements(changed) == Changed(t0, t)
    ensures Marked(t0, t')
    ensures NoDup(changed + [id]) && Elements(changed + [id]) == Changed(t0, t')
  {
    MarkedTrans(t0, t, t');
    ElementsSnoc(changed, id);
    OneMoreChanged(t0, t, t', id);
    assert id in changed <==> id in Elements(changed);
  }

  /** The status map follows the table on the rows that were loaded. */
  ghost predicate Tracks(t0: Table, t: Table, st: Statuses) {
    && st.Keys == Loaded(t0).Keys && t.Keys == t0.Keys && PendingIds(t0) <= st.Keys
    && forall d :: d in st ==> d in t && st[d] == t[d].status
  }

  lemma {:induction false} NobodyReady(ids: seq<TaskId>, n: nat, t: Table)
    requires n <= |ids|
    ensures ReadyAmong(ids, n, {}, t) == []
  {
    if n > 0 {
      NobodyReady(ids, n - 1, t);
    }
  }

  function OwnStatuses(t: Table, job: string): Statuses {
    map id | id in t && t[id].job == job :: t[id].status
  }

  /** Readiness as a resumed job sees it: by the statuses of its own tasks. */
  predicate OwnReadyIn(t: Table, id: TaskId, job: string)
    requires id in t
  {
    DependenciesReady(t[id].deps, OwnStatuses(t, job))
  }

  function OwnReady(ids: seq<TaskId>, n: nat, job: string, t: Table): seq<TaskId>
    requires n <= |ids| && forall id :: id in ids ==> id in t
  {
    if n == 0 then []
    else OwnReady(ids, n - 1, job, t)
         + (if t[ids[n - 1]].status == Pending && OwnReadyIn(t, ids[n - 1], job) then [ids[n - 1]] else [])
  }

  /** The rows of the job that became ready, rows without dependencies having been so before. */
  function FollowUps(ids: seq<TaskId>, n: nat, job: string, t: Table): seq<TaskId>
    requires n <= |ids| && forall id :: id in ids ==> id in t
  {
    if n == 0 then []
    else FollowUps(ids, n - 1, job, t)
         + (if t[ids[n - 1]].status == Pending && t[ids[n - 1]].deps != [] && OwnReadyIn(t, ids[n - 1], job)
            then [ids[n - 1]] else [])
  }
}
