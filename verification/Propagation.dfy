/** The janitor's dependency sweep: a fixed-point loop over the pending rows. */
module Propagation {
  import opened Prelude
  import opened Readiness
  import opened Tasks

  // ----- the sweep as a function -----

  /** What a task becomes when its dependencies can no longer be met. */
  function Mark(task: Task, state: DependencyState): Task
    requires Terminal(state)
  {
    match state
    case UpstreamFailed => task.(status := Failed, error := Some(DependencyFailed))
    case UpstreamCancelledDirty => task.(status := CancelledDirty, error := Some(DependencyCancelled))
    case _ => task.(status := Cancelled, error := Some(DependencyCancelled))
  }

  function Visit(t: Table, id: TaskId): Table
    requires id in t
  {
    var state := StateIn(t, id);
    if t[id].status != Pending || state == Ready || state == Blocked then t else t[id := Mark(t[id], state)]
  }

  /** The rows `order[..k]` visited one after the other. */
  function Pass(t: Table, order: seq<TaskId>, k: nat): (r: Table)
    requires k <= |order| && forall id :: id in order ==> id in t
    ensures r.Keys == t.Keys
  {
    if k == 0 then t else Visit(Pass(t, order, k - 1), order[k - 1])
  }

  /** Passes repeated until one of them changes nothing. */
  function Sweep(t: Table, order: seq<TaskId>): (r: Table)
    requires forall id :: id in order ==> id in t
    ensures r.Keys == t.Keys
    decreases |PendingIds(t)|
  {
    var t' := Pass(t, order, |order|);
    if t' == t then t
    else
      PassProgress(t, order, |order|);
      Sweep(t', order)
  }

  /** `t'` differs from `t` by marking some pending rows, and by nothing else. */
  ghost predicate Marked(t: Table, t': Table) {
    t'.Keys == t.Keys
    && forall id :: id in t ==>
         || t'[id] == t[id]
         || (t[id].status == Pending && exists s :: Terminal(s) && t'[id] == Mark(t[id], s))
  }

  lemma MarkedTrans(t: Table, t': Table, t'': Table)
    requires Marked(t, t') && Marked(t', t'')
    ensures Marked(t, t'')
  {
  }

  lemma StaysMarked(t: Table, t': Table, id: TaskId)
    requires Marked(t, t') && id in t && t[id].status != Pending
    ensures t'[id] == t[id]
  {
  }

  lemma VisitMarks(t: Table, id: TaskId)
    requires id in t
    ensures Marked(t, Visit(t, id))
  {
    hide StateIn;
  }

  lemma {:induction false} PassMarks(t: Table, order: seq<TaskId>, k: nat)
    requires k <= |order| && forall id :: id in order ==> id in t
    ensures Marked(t, Pass(t, order, k))
  {
    hide Visit, Marked;
    if k > 0 {
      PassMarks(t, order, k - 1);
      VisitMarks(Pass(t, order, k - 1), order[k - 1]);
      MarkedTrans(t, Pass(t, order, k - 1), Pass(t, order, k));
    } else {
      MarkedRefl(t);
    }
  }

  lemma MarkedRefl(t: Table)
    ensures Marked(t, t)
  {
  }

  lemma PassProgress(t: Table, order: seq<TaskId>, k: nat)
    requires k <= |order| && forall id :: id in order ==> id in t
    ensures PendingIds(Pass(t, order, k)) <= PendingIds(t)
    ensures Pass(t, order, k) != t ==> |PendingIds(Pass(t, order, k))| < |PendingIds(t)|
  {
    hide Pass;
    var t' := Pass(t, order, k);
    PassMarks(t, order, k);
    if t' != t {
      var id :| id in t && t'[id] != t[id];
      assert id in PendingIds(t) && id !in PendingIds(t');
      Smaller(PendingIds(t'), PendingIds(t), id);
    }
  }

  lemma Smaller<T>(a: set<T>, b: set<T>, x: T)
    requires a <= b && x in b && x !in a
    ensures |a| < |b|
  {
    SubsetSize(a, b - {x});
  }

  lemma {:induction false} SubsetSize<T>(a: set<T>, b: set<T>)
    requires a <= b
    ensures |a| <= |b|
  {
    if a != {} {
      var x :| x in a;
      SubsetSize(a - {x}, b - {x});
    }
  }

  lemma {:induction false} SweepMarks(t: Table, order: seq<TaskId>)
    requires forall id :: id in order ==> id in t
    ensures Marked(t, Sweep(t, order))
    decreases |PendingIds(t)|
  {
    hide Pass, Marked;
    var t' := Pass(t, order, |order|);
    if t' != t {
      PassProgress(t, order, |order|);
      PassMarks(t, order, |order|);
      SweepMarks(t', order);
      MarkedTrans(t, t', Sweep(t, order));
    } else {
      MarkedRefl(t);
    }
  }

  // ----- the sweep ends in a fixed point -----

  /** No pending row is left whose dependencies can no longer be met. */
  ghost predicate Settled(t: Table) {
    forall id :: id in PendingIds(t) ==> !Terminal(StateIn(t, id))
  }

  lemma VisitShrinks(t: Table, id: TaskId)
    requires id in t
    ensures PendingIds(Visit(t, id)) <= PendingIds(t)
    ensures PendingIds(Visit(t, id)) == PendingIds(t) ==>
              Visit(t, id) == t && (t[id].status == Pending ==> !Terminal(StateIn(t, id)))
  {
    hide StateIn;
    if Visit(t, id) != t {
      assert id in PendingIds(t) && id !in PendingIds(Visit(t, id));
    }
  }

  /** A pass that changes nothing visited every row in the same table. */
  lemma {:induction false} IdlePass(t: Table, order: seq<TaskId>, k: nat)
    requires k <= |order| && (forall id :: id in order ==> id in t)
    requires PendingIds(Pass(t, order, k)) == PendingIds(t)
    ensures Pass(t, order, k) == t
    ensures forall i :: 0 <= i < k && t[order[i]].status == Pending ==> !Terminal(StateIn(t, order[i]))
  {
    hide StateIn, Visit, PendingIds;
    if k > 0 {
      PassProgress(t, order, k - 1);
      VisitShrinks(Pass(t, order, k - 1), order[k - 1]);
      IdlePass(t, order, k - 1);
    }
  }

  lemma {:induction false} SweepSettles(t: Table, order: seq<TaskId>)
    requires (forall id :: id in order ==> id in t) && (forall id :: id in PendingIds(t) ==> id in order)
    ensures Settled(Sweep(t, order))
    decreases |PendingIds(t)|
  {
    hide StateIn, Pass;
    var t' := Pass(t, order, |order|);
    PassProgress(t, order, |order|);
    if t' == t {
      IdlePass(t, order, |order|);
      forall id | id in PendingIds(t) ensures !Terminal(StateIn(t, id)) {
        var i :| 0 <= i < |order| && order[i] == id;
      }
    } else {
      SweepSettles(t', order);
    }
  }

  // ----- which rows change: the least fixed point -----

  /** `s` contains every pending row that has a missing or dooming dependency, or one in `s`. */
  ghost predicate Closed(t: Table, s: set<TaskId>) {
    forall id :: id in PendingIds(t) && (exists d :: d in t[id].deps && (d !in t || Dooming(t[d].status) || d in s))
                 ==> id in s
  }

  function Changed(t: Table, t': Table): set<TaskId> {
    set id | id in t && id in t' && t[id] != t'[id]
  }

  lemma VisitWithin(t: Table, now: Table, id: TaskId, s: set<TaskId>)
    requires Marked(t, now) && Changed(t, now) <= s && Closed(t, s) && id in now
    ensures Changed(t, Visit(now, id)) <= s
  {
    if Visit(now, id) != now {
      hide StateIn;
      var state := StateIn(now, id);
      TerminalInIff(now, id);
      var d :| d in now[id].deps && (d !in now || Dooming(now[d].status));
      assert now[id] == t[id] && id in PendingIds(t);
      assert d !in t || Dooming(t[d].status) || d in s;
    }
  }

  lemma {:induction false} PassWithin(t: Table, now: Table, order: seq<TaskId>, k: nat, s: set<TaskId>)
    requires k <= |order| && (forall id :: id in order ==> id in now)
    requires Marked(t, now) && Changed(t, now) <= s && Closed(t, s)
    ensures Changed(t, Pass(now, order, k)) <= s
  {
    hide Visit, Marked, Closed, Changed;
    if k > 0 {
      PassWithin(t, now, order, k - 1, s);
      PassMarks(now, order, k - 1);
      MarkedTrans(t, now, Pass(now, order, k - 1));
      VisitWithin(t, Pass(now, order, k - 1), order[k - 1], s);
    }
  }

  lemma {:induction false} SweepWithin(t: Table, now: Table, order: seq<TaskId>, s: set<TaskId>)
    requires forall id :: id in order ==> id in now
    requires Marked(t, now) && Changed(t, now) <= s && Closed(t, s)
    ensures Changed(t, Sweep(now, order)) <= s
    decreases |PendingIds(now)|
  {
    hide Pass, Marked, Closed, Changed;
    var now' := Pass(now, order, |order|);
    if now' != now {
      PassProgress(now, order, |order|);
      PassWithin(t, now, order, |order|, s);
      PassMarks(now, order, |order|);
      MarkedTrans(t, now, now');
      SweepWithin(t, now', order, s);
    }
  }

  lemma SettledCloses(t: Table, t': Table)
    requires Marked(t, t') && Settled(t')
    ensures Closed(t, Changed(t, t'))
  {
    var s := Changed(t, t');
    forall id | id in PendingIds(t) && exists d :: d in t[id].deps && (d !in t || Dooming(t[d].status) || d in s)
      ensures id in s
    {
      var d :| d in t[id].deps && (d !in t || Dooming(t[d].status) || d in s);
      assert d !in t' || Dooming(t'[d].status);
      if t'[id] == t[id] {
        TerminalInIff(t', id);
      }
    }
  }

  /** `order` lists rows of the table, all pending ones among them. */
  ghost predicate Covers(order: seq<TaskId>, t: Table) {
    (forall id :: id in order ==> id in t) && (forall id :: id in PendingIds(t) ==> id in order)
  }

  /** Whatever order the pending rows come in, the sweep changes exactly the least set of pending rows
      closed under having a missing, failed or cancelled dependency; every changed row ends up failed
      or cancelled, the rest of the table is untouched, and nothing doomed stays pending. */
  lemma SweepIsLeastFixpoint(t: Table, order: seq<TaskId>)
    requires Covers(order, t)
    ensures Closed(t, Changed(t, Sweep(t, order)))
    ensures forall s :: Closed(t, s) ==> Changed(t, Sweep(t, order)) <= s
    ensures Marked(t, Sweep(t, order)) && Settled(Sweep(t, order))
  {
    hide Closed, Sweep, Marked, Settled;
    SweepMarks(t, order);
    SweepSettles(t, order);
    SettledCloses(t, Sweep(t, order));
    MarkedRefl(t);
    forall s | Closed(t, s) ensures Changed(t, Sweep(t, order)) <= s {
      SweepWithin(t, t, order, s);
    }
  }

  /** So the set of rows that change does not depend on the order. */
  lemma SweepOrderIrrelevantForSet(t: Table, order: seq<TaskId>, order': seq<TaskId>)
    requires Covers(order, t) && Covers(order', t)
    ensures Changed(t, Sweep(t, order)) == Changed(t, Sweep(t, order'))
  {
    hide Closed, Sweep, Changed;
    SweepIsLeastFixpoint(t, order);
    SweepIsLeastFixpoint(t, order');
  }

  /** A changed row was pending; it is failed, or cancelled in one of the two ways, with the error class that goes with
      it, and keeps everything else. */
  lemma ChangedRows(t: Table, order: seq<TaskId>, id: TaskId)
    requires (forall x :: x in order ==> x in t) && id in Changed(t, Sweep(t, order))
    ensures t[id].status == Pending
    ensures var row := Sweep(t, order)[id];
            || row == t[id].(status := Failed, error := Some(DependencyFailed))
            || row == t[id].(status := Cancelled, error := Some(DependencyCancelled))
            || row == t[id].(status := CancelledDirty, error := Some(DependencyCancelled))
  {
    hide Sweep;
    SweepMarks(t, order);
  }

  // ----- the same set by chains of dependencies -----

  /** A chain of pending rows from `id`, each depending on the next, the last one on something missing
      or dooming. */
  ghost predicate Chain(t: Table, p: seq<TaskId>) {
    && p != []
    && (forall i :: 0 <= i < |p| ==> p[i] in PendingIds(t))
    && (forall i :: 0 <= i < |p| - 1 ==> p[i + 1] in t[p[i]].deps)
    && (exists d :: d in t[p[|p| - 1]].deps && (d !in t || Dooming(t[d].status)))
  }

  ghost predicate Reaches(t: Table, id: TaskId) {
    exists p :: p != [] && p[0] == id && Chain(t, p)
  }

  lemma {:induction false} ChainWithin(t: Table, p: seq<TaskId>, s: set<TaskId>)
    requires Chain(t, p) && Closed(t, s)
    ensures p[0] in s
  {
    if |p| > 1 {
      var q := p[1..];
      assert forall i :: 0 <= i < |q| ==> q[i] == p[i + 1];
      assert q[|q| - 1] == p[|p| - 1];
      assert Chain(t, q) by {
        forall i | 0 <= i < |q| - 1 ensures q[i + 1] in t[q[i]].deps {
          assert p[(i + 1) + 1] in t[p[i + 1]].deps;
        }
      }
      ChainWithin(t, q, s);
      assert p[0 + 1] in t[p[0]].deps && p[1] == q[0];
    }
  }

  lemma ChainCons(t: Table, id: TaskId, p: seq<TaskId>)
    requires id in PendingIds(t) && Chain(t, p) && p[0] in t[id].deps
    ensures Chain(t, [id] + p)
  {
    var q := [id] + p;
    assert q[|q| - 1] == p[|p| - 1];
    forall i | 0 <= i < |q| - 1 ensures q[i + 1] in t[q[i]].deps {
      if i > 0 {
        assert p[(i - 1) + 1] in t[p[i - 1]].deps;
      }
    }
  }

  lemma ReachingIsClosed(t: Table, s: set<TaskId>)
    requires s == set id | id in t && Reaches(t, id)
    ensures Closed(t, s)
  {
    forall id | id in PendingIds(t) && exists d :: d in t[id].deps && (d !in t || Dooming(t[d].status) || d in s)
      ensures id in s
    {
      var d :| d in t[id].deps && (d !in t || Dooming(t[d].status) || d in s);
      if d in s {
        var p :| p != [] && p[0] == d && Chain(t, p);
        ChainCons(t, id, p);
        assert ([id] + p)[0] == id;
      } else {
        assert Chain(t, [id]);
        assert [id][0] == id;
      }
    }
  }

  /** A row changes exactly when a chain of pending dependencies leads from it to something missing,
      failed or cancelled. */
  lemma SweepChangesReaching(t: Table, order: seq<TaskId>, id: TaskId)
    requires Covers(order, t)
    ensures id in Changed(t, Sweep(t, order)) <==> Reaches(t, id)
  {
    hide Sweep, Closed, Chain, Marked, Settled;
    SweepIsLeastFixpoint(t, order);
    var s := set x | x in t && Reaches(t, x);
    ReachingIsClosed(t, s);
    if Reaches(t, id) {
      var p :| p != [] && p[0] == id && Chain(t, p);
      ChainWithin(t, p, Changed(t, Sweep(t, order)));
    }
  }
}
