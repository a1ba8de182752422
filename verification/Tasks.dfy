/** The task table, as far as orchestration reads and writes it. */
module Tasks {
  import opened Prelude
  import opened Readiness

  datatype ErrorClass = DependencyFailed | DependencyCancelled | WorkerError

  datatype Task = Task(
    job: string, status: Status, worker: Option<string>, lease: Option<int>,
    deps: seq<TaskId>, hasState: bool, error: Option<ErrorClass>)

  type Table = map<TaskId, Task>

  function StatusesOf(t: Table): (st: Statuses)
    ensures st.Keys == t.Keys && forall id :: id in t ==> st[id] == t[id].status
  {
    map id | id in t :: t[id].status
  }

  function PendingIds(t: Table): set<TaskId> {
    set id | id in t && t[id].status == Pending
  }

  /** `order` lists the pending rows, each once, in whatever order the database returns them. */
  ghost predicate ListsPending(order: seq<TaskId>, t: Table) {
    NoDup(order) && forall id :: id in order <==> id in PendingIds(t)
  }

  /** The state of a task's dependencies in its table. */
  function StateIn(t: Table, id: TaskId): DependencyState
    requires id in t
  {
    StateOf(t[id].deps, StatusesOf(t))
  }

  predicate ReadyIn(t: Table, id: TaskId)
    requires id in t
  {
    DependenciesReady(t[id].deps, StatusesOf(t))
  }

  lemma ReadyInIff(t: Table, id: TaskId)
    requires id in t
    ensures ReadyIn(t, id) <==> forall d :: d in t[id].deps ==> d in t && Reusable(t[d].status)
  {
  }

  lemma TerminalInIff(t: Table, id: TaskId)
    requires id in t
    ensures Terminal(StateIn(t, id)) <==> exists d :: d in t[id].deps && (d !in t || Dooming(t[d].status))
  {
    TerminalIsDoomed(t[id].deps, StatusesOf(t));
    var st := StatusesOf(t);
    assert forall d :: DoomedEdge(d, st) <==> d !in t || Dooming(t[d].status);
  }
}
