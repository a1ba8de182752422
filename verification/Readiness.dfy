/** When a task's dependencies let it run, and when they doom it. */
module Readiness {
  type TaskId = string

  /** Statuses are strings in the database; the ones nobody reserved are `Other`. */
  datatype Status =
    | Pending | Running | Succeeded | Skipped | Failed | Cancelled | CancelledDirty
    | Other(name: string)

  type Statuses = map<TaskId, Status>

  /** An upstream in this status satisfies the edge. */
  predicate Reusable(s: Status) { s.Succeeded? || s.Skipped? }

  /** An upstream in this status makes the downstream task terminal too. */
  predicate Dooming(s: Status) { s.Failed? || s.Cancelled? || s.CancelledDirty? }

  datatype DependencyState = Ready | Blocked | UpstreamFailed | UpstreamCancelled | UpstreamCancelledDirty

  predicate DependenciesReady(deps: seq<TaskId>, st: Statuses) {
    forall d | d in deps :: d in st && Reusable(st[d])
  }

  function StateOf(deps: seq<TaskId>, st: Statuses): DependencyState {
    if exists d | d in deps :: d !in st then UpstreamFailed
    else if exists d | d in deps :: d in st && st[d] == Failed then UpstreamFailed
    else if exists d | d in deps :: d in st && st[d] == CancelledDirty then UpstreamCancelledDirty
    else if exists d | d in deps :: d in st && st[d] == Cancelled then UpstreamCancelled
    else if exists d | d in deps :: d in st && !Reusable(st[d]) then Blocked
    else Ready
  }

  // ----- one notion of readiness -----

  lemma ReadyIsReady(deps: seq<TaskId>, st: Statuses)
    ensures StateOf(deps, st) == Ready <==> DependenciesReady(deps, st)
    ensures DependenciesReady(deps, st) <==> forall d :: d in deps ==> d in st && (st[d] == Succeeded || st[d] == Skipped)
  {
  }

  /** The state by the statuses of the dependencies: missing or failed ones outweigh `cancelled_dirty` ones, these
      outweigh cancelled ones, and any other status that is not a success blocks. */
  lemma StateExact(deps: seq<TaskId>, st: Statuses)
    ensures var failed := exists d :: d in deps && (d !in st || st[d] == Failed);
            var dirty := exists d :: d in deps && d in st && st[d] == CancelledDirty;
            var cancelled := exists d :: d in deps && d in st && st[d] == Cancelled;
            var ready := forall d :: d in deps ==> d in st && (st[d] == Succeeded || st[d] == Skipped);
            && (StateOf(deps, st) == UpstreamFailed <==> failed)
            && (StateOf(deps, st) == UpstreamCancelledDirty <==> !failed && dirty)
            && (StateOf(deps, st) == UpstreamCancelled <==> !failed && !dirty && cancelled)
            && (StateOf(deps, st) == Ready <==> ready)
            && (StateOf(deps, st) == Blocked <==> !failed && !dirty && !cancelled && !ready)
  {
  }

  /** A missing or dooming upstream, and nothing else, makes the state terminal. */
  ghost predicate DoomedEdge(d: TaskId, st: Statuses) { d !in st || Dooming(st[d]) }

  ghost predicate Terminal(s: DependencyState) {
    s.UpstreamFailed? || s.UpstreamCancelled? || s.UpstreamCancelledDirty?
  }

  lemma TerminalIsDoomed(deps: seq<TaskId>, st: Statuses)
    ensures Terminal(StateOf(deps, st)) <==> exists d :: d in deps && DoomedEdge(d, st)
    ensures forall d :: DoomedEdge(d, st) <==>
                        d !in st || st[d] == Failed || st[d] == Cancelled || st[d] == CancelledDirty
  {
    if d :| d in deps && DoomedEdge(d, st) {
      assert d !in st || st[d] == Failed || st[d] == CancelledDirty || st[d] == Cancelled;
    }
  }

  /** The documented precedence, edge by edge: missing or failed over `cancelled_dirty` over
      `cancelled` over blocked over ready. */
  ghost function EdgeRank(d: TaskId, st: Statuses): nat {
    if d !in st || st[d] == Failed then 4
    else if st[d] == CancelledDirty then 3
    else if st[d] == Cancelled then 2
    else if !Reusable(st[d]) then 1
    else 0
  }

  ghost function Rank(s: DependencyState): nat {
    match s
    case UpstreamFailed => 4
    case UpstreamCancelledDirty => 3
    case UpstreamCancelled => 2
    case Blocked => 1
    case Ready => 0
  }

  /** The state of a task is that of its gravest edge. */
  lemma GravestEdge(deps: seq<TaskId>, st: Statuses)
    ensures forall d :: d in deps ==> EdgeRank(d, st) <= Rank(StateOf(deps, st))
    ensures StateOf(deps, st) == Ready || exists d :: d in deps && EdgeRank(d, st) == Rank(StateOf(deps, st))
  {
    if exists d :: d in deps && d !in st {
      var d :| d in deps && d !in st;
      assert EdgeRank(d, st) == 4;
    } else if exists d :: d in deps && d in st && st[d] == Failed {
      var d :| d in deps && d in st && st[d] == Failed;
      assert EdgeRank(d, st) == 4;
    } else if exists d :: d in deps && d in st && st[d] == CancelledDirty {
      var d :| d in deps && d in st && st[d] == CancelledDirty;
      assert EdgeRank(d, st) == 3;
    } else if exists d :: d in deps && d in st && st[d] == Cancelled {
      var d :| d in deps && d in st && st[d] == Cancelled;
      assert EdgeRank(d, st) == 2;
    } else if exists d :: d in deps && d in st && !Reusable(st[d]) {
      var d :| d in deps && d in st && !Reusable(st[d]);
      assert EdgeRank(d, st) == 1;
    }
  }

  /** Only the statuses of the dependencies themselves matter. */
  lemma StateDependsOnDeps(deps: seq<TaskId>, st: Statuses, st': Statuses)
    requires forall d :: d in deps ==> (d in st <==> d in st') && (d in st ==> st[d] == st'[d])
    ensures StateOf(deps, st) == StateOf(deps, st')
    ensures DependenciesReady(deps, st) <==> DependenciesReady(deps, st')
  {
  }

  /** Learning about more tasks never makes a ready task unready. */
  lemma ReadyExtends(deps: seq<TaskId>, st: Statuses, st': Statuses)
    requires forall d :: d in st ==> d in st' && st'[d] == st[d]
    ensures DependenciesReady(deps, st) ==> DependenciesReady(deps, st')
  {
  }
}
