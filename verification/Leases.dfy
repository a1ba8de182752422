/** Conditional updates of a task row's lease: acquire, refresh, reset after expiry. Each is one SQL
    statement, hence atomic; success is judged by the number of rows it matched. */
module Leases {
  import opened Prelude
  import opened Readiness
  import opened Tasks

  predicate Free(task: Task, now: int) { task.lease.None? || task.lease.value < now }

  /** The WHERE clause of an acquire; the dispatcher adds the status gate. */
  predicate Acquires(t: Table, id: TaskId, now: int, pendingOnly: bool) {
    id in t && Free(t[id], now) && (pendingOnly ==> t[id].status == Pending)
  }

  function Acquire(t: Table, id: TaskId, worker: string, expiry: int, now: int, pendingOnly: bool): Table {
    if Acquires(t, id, now, pendingOnly) then t[id := t[id].(lease := Some(expiry), worker := Some(worker))] else t
  }

  predicate Refreshes(t: Table, id: TaskId, worker: string) { id in t && t[id].worker == Some(worker) }

  function Refresh(t: Table, id: TaskId, worker: string, expiry: int): Table {
    if Refreshes(t, id, worker) then t[id := t[id].(lease := Some(expiry))] else t
  }

  predicate Expired(task: Task, now: int) {
    task.status == Running && task.lease.Some? && task.lease.value < now
  }

  function ExpiredIds(t: Table, now: int): set<TaskId> {
    set id | id in t && Expired(t[id], now)
  }

  /** The UPDATE of a reclaim: it re-applies the predicate of the SELECT to the selected rows. */
  function ResetExpired(t: Table, ids: set<TaskId>, now: int): (r: Table)
    ensures r.Keys == t.Keys
  {
    map id | id in t ::
      if id in ids && Expired(t[id], now) then t[id].(status := Pending, worker := None, lease := None) else t[id]
  }
}
