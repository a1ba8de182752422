/** Who holds a task's lease, and how long, told from the history of a run alone. */
module LeaseHistory {
  import opened Prelude
  import opened Readiness
  import opened Tasks
  import opened Leases
  import opened Jobs
  import opened Propagation
  import opened JobAdvance
  import opened Orchestration
  import opened OrchestrationSafety

  /** The step `a` in state `s` resets the lease of `id`: reclaimed, resumed, or newly submitted. */
  predicate Resets(s: Sys, a: Action, id: TaskId) {
    match a
    case UpdateExpired =>
      s.sweep.Some? && id in s.sweep.value.0 && id in s.tasks && Expired(s.tasks[id], s.sweep.value.1)
    case _ => Clears(s, a, id)
  }

  /** ... without waiting for the lease to expire: the row is new, or a resume that read it with a lease is written. */
  predicate Clears(s: Sys, a: Action, id: TaskId) {
    match a
    case Submit(_, added) => id in added
    case Write(txn) =>
      txn in s.staged && WritesRow(s, txn, id) && s.staged[txn].rows[id].before.worker.Some?
      && s.staged[txn].rows[id].after.worker.None?
    case _ => false
  }

  predicate AcquiresAt(s: Sys, a: Action, id: TaskId) {
    a.Pick? && a.who.id == id && Picks(s, a.who, a.now)
  }

  predicate RefreshesAt(s: Sys, a: Action, id: TaskId) {
    a.Heartbeat? && a.id == id && Refreshes(s.tasks, id, a.worker)
  }

  /** The worker of the latest acquire, unless a reset came after it. */
  function Owner(s: Sys, trace: seq<Action>, id: TaskId): Option<string> {
    if trace == [] then None
    else
      var before, a := trace[..|trace| - 1], trace[|trace| - 1];
      if AcquiresAt(Run(s, before), a, id) then Some(a.who.worker)
      else if Resets(Run(s, before), a, id) then None
      else Owner(s, before, id)
  }

  /** The end of the latest window granted by an acquire or a refresh, unless a resume or submit came after it.
      A reclaim does not revoke what was granted. */
  function GrantedUntil(s: Sys, trace: seq<Action>, id: TaskId): Option<int> {
    if trace == [] then None
    else
      var before, a := trace[..|trace| - 1], trace[|trace| - 1];
      if AcquiresAt(Run(s, before), a, id) || RefreshesAt(Run(s, before), a, id) then Some(a.expiry)
      else if Clears(Run(s, before), a, id) then None
      else GrantedUntil(s, before, id)
  }

  // ----- what one step does to the lease columns -----

  lemma WorkerColumn(s: Sys, a: Action, id: TaskId)
    requires Sane(s) && Enabled(s, a) && id in Next(s, a).tasks
    ensures id in s.tasks || Resets(s, a, id)
    ensures Next(s, a).tasks[id].worker ==
            if AcquiresAt(s, a, id) then Some(a.who.worker) else if Resets(s, a, id) then None else s.tasks[id].worker
  {
    hide Reads, StepCheckDependencies, StepPick, StepCheckLease, StepCommit, Refresh, RunningLeased, JobsKnown, StagedGood;
    if WorkerStep(a) {
      WorkerColumnWorker(s, a, id);
    } else if a.Write? {
      WriteColumns(s, a, id);
    }
  }

  lemma WorkerColumnWorker(s: Sys, a: Action, id: TaskId)
    requires WorkerStep(a)
    requires id in Next(s, a).tasks
    ensures id in s.tasks
    ensures Next(s, a).tasks[id].worker == if AcquiresAt(s, a, id) then Some(a.who.worker) else s.tasks[id].worker
  {
    hide StateIn, Diff, Visit;
  }

  /** A written row loses its lease or keeps it, the worker with it; only a resume takes it. */
  lemma WriteColumns(s: Sys, a: Action, id: TaskId)
    requires StagedGood(s) && a.Write? && id in Next(s, a).tasks
    ensures id in s.tasks
    ensures var row := Next(s, a).tasks[id];
            && row.worker == (if Clears(s, a, id) then None else s.tasks[id].worker)
            && row.lease == (if Clears(s, a, id) then None else s.tasks[id].lease)
            && (row.status == Running ==> row == s.tasks[id])
  {
    if a.txn in s.staged {
      assert GoodStaged(s, s.staged[a.txn]);
    }
  }

  function NextLease(s: Sys, a: Action, id: TaskId): Option<int> {
    if AcquiresAt(s, a, id) || RefreshesAt(s, a, id) then Some(a.expiry)
    else if Resets(s, a, id) then None
    else if id in s.tasks then s.tasks[id].lease else None
  }

  lemma LeaseColumnWorker(s: Sys, a: Action, id: TaskId)
    requires WorkerStep(a)
    requires Enabled(s, a) && s.tasks.Keys <= s.issued && id in Next(s, a).tasks
    ensures Next(s, a).tasks[id].lease == NextLease(s, a, id)
  {
    hide StateIn, Diff, Visit;
  }

  lemma LeaseColumn(s: Sys, a: Action, id: TaskId)
    requires Sane(s) && Enabled(s, a) && id in Next(s, a).tasks
    ensures Next(s, a).tasks[id].lease == NextLease(s, a, id)
  {
    hide Reads, StepCheckDependencies, StepPick, StepCheckLease, StepCommit, Refresh, RunningLeased, JobsKnown, StagedGood;
    if WorkerStep(a) {
      LeaseColumnWorker(s, a, id);
    } else if a.Write? {
      WriteColumns(s, a, id);
    }
  }

  // ----- history invariants, over every possible run -----

  lemma {:induction false} WorkerIsOwner(trace: seq<Action>, id: TaskId)
    requires Possible(INITIAL, trace) && id in Run(INITIAL, trace).tasks
    ensures Run(INITIAL, trace).tasks[id].worker == Owner(INITIAL, trace, id)
    decreases |trace|
  {
    hide Next, Enabled, Possible, Resets, AcquiresAt, Sane;
    if trace != [] {
      var before := trace[..|trace| - 1];
      PossiblePrefix(INITIAL, trace);
      RunSane(before);
      WorkerColumn(Run(INITIAL, before), trace[|trace| - 1], id);
      if id in Run(INITIAL, before).tasks {
        WorkerIsOwner(before, id);
      }
    }
  }

  /** A heartbeat of `w` succeeds exactly when the latest acquire-or-reset of the task was an acquire by `w`:
      after a reclaim or resume a worker's heartbeats fail, until it picks the task up itself again. */
  lemma HeartbeatSucceedsIffOwner(trace: seq<Action>, id: TaskId, w: string)
    requires Possible(INITIAL, trace) && id in Run(INITIAL, trace).tasks
    ensures Refreshes(Run(INITIAL, trace).tasks, id, w) <==> Owner(INITIAL, trace, id) == Some(w)
  {
    WorkerIsOwner(trace, id);
  }

  /** The lease column is the granted window, or was cleared by a reclaim after that window had passed. */
  ghost predicate LeaseGranted(s: Sys, lease: Option<int>, granted: Option<int>) {
    lease == granted || (lease.None? && granted.Some? && granted.value < s.clock)
  }

  lemma {:induction false} LeaseIsGrant(trace: seq<Action>, id: TaskId)
    requires Possible(INITIAL, trace) && id in Run(INITIAL, trace).tasks
    ensures LeaseGranted(Run(INITIAL, trace), Run(INITIAL, trace).tasks[id].lease, GrantedUntil(INITIAL, trace, id))
    decreases |trace|
  {
    hide Next, Enabled, Possible, AcquiresAt, RefreshesAt, RunningLeased, JobsKnown, StagedGood;
    if trace != [] {
      var before, a := trace[..|trace| - 1], trace[|trace| - 1];
      var s := Run(INITIAL, before);
      PossiblePrefix(INITIAL, trace);
      RunSane(before);
      WorkerColumn(s, a, id);
      LeaseColumn(s, a, id);
      KeepsClockPast(s, a);
      if id in s.tasks {
        LeaseIsGrant(before, id);
      }
    }
  }

  /** No acquire succeeds inside a granted window that has not run out, reclaims notwithstanding; only a
      resume (or the row being new) can end a window early. */
  lemma NoAcquireInsideWindow(trace: seq<Action>, a: Action, id: TaskId)
    requires Possible(INITIAL, trace) && Enabled(Run(INITIAL, trace), a) && AcquiresAt(Run(INITIAL, trace), a, id)
    ensures var granted := GrantedUntil(INITIAL, trace, id);
            granted.Some? ==> granted.value < Run(INITIAL, trace).clock
  {
    LeaseIsGrant(trace, id);
  }

  // ----- the two statements of a reclaim -----

  /** From a selection on, a row that is not expired by the selection's clock never becomes so. */
  lemma NotExpiredStays(s: Sys, a: Action, id: TaskId, now: int)
    requires Sane(s) && Enabled(s, a) && now <= s.clock
    requires id in s.issued && (id in s.tasks ==> !Expired(s.tasks[id], now))
    ensures id in Next(s, a).tasks ==> !Expired(Next(s, a).tasks[id], now)
  {
    hide Reads, StepCheckDependencies, StepPick, StepCheckLease, StepCommit, Refresh, RunningLeased, JobsKnown, StagedGood;
    if id in Next(s, a).tasks {
      if WorkerStep(a) {
        WorkerExpiresNothing(s, a, id, now);
      } else if a.Write? {
        WriteColumns(s, a, id);
      }
    }
  }

  lemma WorkerExpiresNothing(s: Sys, a: Action, id: TaskId, now: int)
    requires WorkerStep(a) && Enabled(s, a) && now <= s.clock && id in Next(s, a).tasks
    requires id in s.tasks ==> !Expired(s.tasks[id], now)
    ensures !Expired(Next(s, a).tasks[id], now)
  {
    hide StateIn, Diff, Visit;
  }

  lemma {:induction false} NotExpiredThroughout(s: Sys, trace: seq<Action>, id: TaskId, now: int)
    requires Possible(s, trace) && now <= s.clock && Sane(s)
    requires id in s.issued && (id in s.tasks ==> !Expired(s.tasks[id], now))
    ensures var r := Run(s, trace);
            && now <= r.clock && Sane(r) && id in r.issued && (id in r.tasks ==> !Expired(r.tasks[id], now))
    decreases |trace|
  {
    hide Next, Enabled, Possible, Expired, Sane;
    if trace != [] {
      var before, a := trace[..|trace| - 1], trace[|trace| - 1];
      PossiblePrefix(s, trace);
      NotExpiredThroughout(s, before, id, now);
      NotExpiredStays(Run(s, before), a, id, now);
      StepKeepsSane(Run(s, before), a);
      KeepsClockPast(Run(s, before), a);
      IssuedGrows(Run(s, before), a);
    }
  }

  lemma IssuedGrows(s: Sys, a: Action)
    requires Sane(s) && Enabled(s, a)
    ensures s.issued <= Next(s, a).issued
  {
    StepKeepsRows(s, a);
  }

  /** Between SELECT and UPDATE anything may happen. If at some point a task is refreshed, picked up anew,
      finished, resumed, or otherwise no longer expired, then it is not reset, whatever follows. */
  lemma ReclaimSparesRevived(s: Sys, trace: seq<Action>, id: TaskId, ids: set<TaskId>, now: int)
    requires Possible(s, trace) && now <= s.clock && Sane(s)
    requires id in s.tasks && !Expired(s.tasks[id], now) && id in Run(s, trace).tasks
    ensures var r := Run(s, trace).tasks; ResetExpired(r, ids, now)[id] == r[id]
  {
    NotExpiredThroughout(s, trace, id, now);
  }

  /** A successful heartbeat or pick-up revives a task for a selection made before it. */
  lemma TouchedIsNotExpired(s: Sys, a: Action, id: TaskId, now: int)
    requires Enabled(s, a) && now <= s.clock && (AcquiresAt(s, a, id) || RefreshesAt(s, a, id))
    ensures id in Next(s, a).tasks && !Expired(Next(s, a).tasks[id], now)
  {
  }

  lemma {:induction false} RunAppend(s: Sys, a: seq<Action>, b: seq<Action>)
    ensures Run(s, a + b) == Run(Run(s, a), b)
    decreases |b|
  {
    hide Next;
    if b == [] {
      assert a + b == a;
    } else {
      var front := b[..|b| - 1];
      assert (a + b)[..|a + b| - 1] == a + front;
      RunAppend(s, a, front);
    }
  }

  lemma PossibleSuffix(s: Sys, trace: seq<Action>, k: nat)
    requires Possible(s, trace) && k <= |trace|
    ensures Possible(Run(s, trace[..k]), trace[k..]) && Run(Run(s, trace[..k]), trace[k..]) == Run(s, trace)
  {
    hide Enabled, Next;
    var rest := trace[k..];
    forall j | 0 <= j < |rest| ensures Enabled(Run(Run(s, trace[..k]), rest[..j]), rest[j]) {
      RunAppend(s, trace[..k], rest[..j]);
      assert trace[..k] + rest[..j] == trace[..k + j];
    }
    RunAppend(s, trace[..k], rest);
    assert trace[..k] + rest == trace;
  }

  lemma {:induction false} IssuedThroughout(s: Sys, trace: seq<Action>)
    requires Possible(s, trace) && Sane(s)
    ensures var r := Run(s, trace); s.issued <= r.issued && Sane(r) && s.clock <= r.clock
    decreases |trace|
  {
    hide Next, Enabled, Possible, Sane;
    if trace != [] {
      var before, a := trace[..|trace| - 1], trace[|trace| - 1];
      PossiblePrefix(s, trace);
      IssuedThroughout(s, before);
      IssuedGrows(Run(s, before), a);
      StepKeepsSane(Run(s, before), a);
      KeepsClockPast(Run(s, before), a);
    }
  }

  /** At every moment of the run the row is there, running, and past its lease by the clock reading `now`. */
  ghost predicate ExpiredThroughout(s: Sys, trace: seq<Action>, id: TaskId, now: int) {
    forall k :: 0 <= k <= |trace| ==> ExpiredIn(Run(s, trace[..k]), id, now)
  }

  ghost predicate ExpiredIn(s: Sys, id: TaskId, now: int) { id in s.tasks && Expired(s.tasks[id], now) }

  /** Whatever happens between SELECT and UPDATE, the two together reset exactly the rows that were expired from the
      one to the other without a break. */
  lemma ReclaimExact(s: Sys, trace: seq<Action>, id: TaskId, now: int)
    requires Possible(s, trace) && now <= s.clock && Sane(s) && id in s.issued
    requires id in Run(s, trace).tasks
    ensures var t := Run(s, trace).tasks;
            ResetExpired(t, ExpiredIds(s.tasks, now), now)[id] ==
            if ExpiredThroughout(s, trace, id, now) then t[id].(status := Pending, worker := None, lease := None) else t[id]
  {
    hide Next, Enabled, Possible, Expired, Sane;
    assert trace[..0] == [] && trace[..|trace|] == trace;
    if ExpiredThroughout(s, trace, id, now) {
      assert ExpiredIn(Run(s, trace[..0]), id, now) && ExpiredIn(Run(s, trace[..|trace|]), id, now);
    } else {
      var k :| 0 <= k <= |trace| && !ExpiredIn(Run(s, trace[..k]), id, now);
      PossibleSuffix(s, trace, k);
      PossibleTake(s, trace, k);
      IssuedThroughout(s, trace[..k]);
      NotExpiredThroughout(Run(s, trace[..k]), trace[k..], id, now);
    }
  }

  lemma PossibleTake(s: Sys, trace: seq<Action>, k: nat)
    requires Possible(s, trace) && k <= |trace|
    ensures Possible(s, trace[..k])
  {
    hide Enabled, Next;
    forall j | 0 <= j < k ensures Enabled(Run(s, trace[..k][..j]), trace[..k][j]) {
      assert trace[..k][..j] == trace[..j];
    }
  }
}
