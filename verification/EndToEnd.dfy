/** From an accepted pipeline to a finished job: the compiled task graph, driven by rounds of
    "propagate, then run whatever is ready", is done after as many rounds as there are steps. */
module EndToEnd {
  import opened Prelude
  import opened Readiness
  import opened Tasks
  import opened Propagation
  import opened Processors
  import opened Wires
  import opened PipelineTyping
  import opened StrictValidator
  import opened StepDependencies

  // ----- rounds -----

  predicate Finished(s: Status) { Reusable(s) || Dooming(s) }

  /** One round: the sweep in some order, then every ready pending task runs to some final status. */
  ghost predicate Round(t: Table, t': Table) {
    exists order :: ListsPending(order, t) && RunsReady(Sweep(t, order), t')
  }

  ghost predicate RunsReady(mid: Table, t': Table) {
    && t'.Keys == mid.Keys
    && forall id :: id in mid ==>
         if id in PendingIds(mid) && ReadyIn(mid, id)
         then Finished(t'[id].status) && t'[id] == mid[id].(status := t'[id].status)
         else t'[id] == mid[id]
  }

  ghost predicate Rounds(ts: seq<Table>) {
    ts != [] && forall k :: 0 <= k < |ts| - 1 ==> Round(ts[k], ts[k + 1])
  }

  // ----- a task graph in topological order -----

  /** `ids` lists the rows so that dependencies come strictly earlier; nothing but pending and final statuses. */
  ghost predicate Layered(t: Table, ids: seq<TaskId>) {
    && NoDup(ids) && (forall id :: id in ids <==> id in t)
    && (forall i, d :: 0 <= i < |ids| && d in t[ids[i]].deps ==> exists j :: 0 <= j < i && ids[j] == d)
    && (forall id :: id in t ==> t[id].status == Pending || Finished(t[id].status))
  }

  /** What has been reused rests on what has been reused. */
  ghost predicate Justified(t: Table) {
    forall id, d :: id in t && Reusable(t[id].status) && d in t[id].deps ==> d in t && Reusable(t[d].status)
  }

  /** Only rows that were pending move, and they move to final statuses; a row that became reusable had its
      dependencies reusable before. */
  lemma RoundEffect(t: Table, t': Table)
    requires Round(t, t') && forall id :: id in t ==> t[id].status == Pending || Finished(t[id].status)
    ensures t'.Keys == t.Keys && forall id :: id in t ==> t'[id].deps == t[id].deps
    ensures forall id :: id in t ==> t'[id].status == Pending || Finished(t'[id].status)
    ensures forall id :: id in t && t[id].status != Pending ==> t'[id] == t[id]
    ensures forall id, d :: id in t && t[id].status == Pending && Reusable(t'[id].status) && d in t[id].deps ==>
                              d in t && Reusable(t[d].status)
  {
    hide Sweep, ReadyIn, Marked, RunsReady;
    var order :| ListsPending(order, t) && RunsReady(Sweep(t, order), t');
    SweepMarks(t, order);
    RunsAfterMarks(t, Sweep(t, order), t');
    forall id, d | id in t && t[id].status == Pending && Reusable(t'[id].status) && d in t[id].deps
      ensures d in t && Reusable(t[d].status)
    {
      ReusedRests(t, Sweep(t, order), t', id, d);
    }
  }

  lemma RunsAfterMarks(t: Table, mid: Table, t': Table)
    requires Marked(t, mid) && RunsReady(mid, t') && forall id :: id in t ==> t[id].status == Pending || Finished(t[id].status)
    ensures t'.Keys == t.Keys && forall id :: id in t ==> t'[id].deps == t[id].deps
    ensures forall id :: id in t ==> t'[id].status == Pending || Finished(t'[id].status)
    ensures forall id :: id in t && t[id].status != Pending ==> t'[id] == t[id]
  {
    hide ReadyIn;
  }

  lemma ReusedRests(t: Table, mid: Table, t': Table, id: TaskId, d: TaskId)
    requires Marked(t, mid) && RunsReady(mid, t')
    requires id in t && t[id].status == Pending && Reusable(t'[id].status) && d in t[id].deps
    ensures d in t && Reusable(t[d].status)
  {
    hide ReadyIn;
    ReadyInIff(mid, id);
  }

  /** A pending row whose dependencies are all finished is finished by the round. */
  lemma RoundFinishes(t: Table, t': Table, id: TaskId)
    requires Round(t, t') && id in t && t[id].status == Pending
    requires forall d :: d in t[id].deps ==> d in t && Finished(t[d].status)
    ensures id in t' && t'[id].status != Pending
  {
    hide Sweep, StateIn, ReadyIn, Closed, Marked, Settled, RunsReady;
    var order :| ListsPending(order, t) && RunsReady(Sweep(t, order), t');
    SweepIsLeastFixpoint(t, order);
    SettledRunFinishes(t, Sweep(t, order), t', id);
  }

  lemma SettledRunFinishes(t: Table, mid: Table, t': Table, id: TaskId)
    requires Marked(t, mid) && Settled(mid) && RunsReady(mid, t') && id in t && t[id].status == Pending
    requires forall d :: d in t[id].deps ==> d in t && Finished(t[d].status)
    ensures id in t' && t'[id].status != Pending
  {
    hide StateIn, ReadyIn;
    if id in PendingIds(mid) {
      TerminalInIff(mid, id);
      ReadyInIff(mid, id);
      forall d | d in mid[id].deps ensures d in mid && Reusable(mid[d].status) {
        assert d in t && Finished(t[d].status);
      }
      assert ReadyIn(mid, id);
    }
  }

  lemma RoundKeepsLayers(t: Table, t': Table, ids: seq<TaskId>)
    requires Round(t, t') && Layered(t, ids) && Justified(t)
    ensures Layered(t', ids) && Justified(t')
  {
    hide Round;
    RoundEffect(t, t');
    forall id, d | id in t' && Reusable(t'[id].status) && d in t'[id].deps ensures d in t' && Reusable(t'[d].status) {
      assert d in t && Reusable(t[d].status);
      assert t'[d] == t[d];
    }
  }

  /** After `k` rounds the first `k` rows are finished. */
  lemma {:induction false} LayersFinish(ts: seq<Table>, ids: seq<TaskId>, k: nat)
    requires Rounds(ts) && k < |ts| && k <= |ids| && Layered(ts[0], ids) && Justified(ts[0])
    ensures Layered(ts[k], ids) && Justified(ts[k])
    ensures forall i :: 0 <= i < k ==> ts[k][ids[i]].status != Pending
  {
    hide Round;
    if k > 0 {
      LayersFinish(ts, ids, k - 1);
      var t, t' := ts[k - 1], ts[k];
      assert Round(t, ts[(k - 1) + 1]);
      RoundEffect(t, t');
      RoundKeepsLayers(t, t', ids);
      var id := ids[k - 1];
      assert id in t;
      if t[id].status == Pending {
        forall d | d in t[id].deps ensures d in t && Finished(t[d].status) {
          var j :| 0 <= j < k - 1 && ids[j] == d;
          assert t[ids[j]].status != Pending;
        }
        RoundFinishes(t, t', id);
      }
      forall i | 0 <= i < k ensures t'[ids[i]].status != Pending {
        assert ids[i] in t;
      }
    }
  }

  lemma {:induction false} AllSucceed(ts: seq<Table>, ids: seq<TaskId>, k: nat)
    requires Rounds(ts) && k < |ts| && k <= |ids| && Layered(ts[0], ids) && Justified(ts[0])
    requires forall id :: id in ts[0] ==> ts[0][id].status == Pending
    requires forall j :: 0 <= j < |ts| - 1 ==> OnlyRunsSucceed(ts[j], ts[j + 1])
    ensures Layered(ts[k], ids) && forall id :: id in ts[k] ==> ts[k][id].status == Pending || ts[k][id].status == Succeeded
  {
    hide Round, OnlyRunsSucceed;
    if k > 0 {
      AllSucceed(ts, ids, k - 1);
      LayersFinish(ts, ids, k - 1);
      LayersFinish(ts, ids, k);
      assert Round(ts[k - 1], ts[(k - 1) + 1]) && OnlyRunsSucceed(ts[k - 1], ts[(k - 1) + 1]);
      SucceedingRound(ts[k - 1], ts[k], ids);
    }
  }

  /** Every ready task that runs in the round succeeds. */
  ghost predicate OnlyRunsSucceed(t: Table, t': Table) {
    exists order :: ListsPending(order, t) && RunsReady(Sweep(t, order), t')
                    && forall id :: id in PendingIds(Sweep(t, order)) && id in t' && t'[id].status != Pending ==>
                                      t'[id].status == Succeeded
  }

  lemma SucceedingRound(t: Table, t': Table, ids: seq<TaskId>)
    requires OnlyRunsSucceed(t, t') && Layered(t, ids)
    requires forall id :: id in t ==> t[id].status == Pending || t[id].status == Succeeded
    ensures forall id :: id in t' ==> t'[id].status == Pending || t'[id].status == Succeeded
  {
    hide Sweep, StateIn, ReadyIn, Closed, Marked, Settled;
    var order :| ListsPending(order, t) && RunsReady(Sweep(t, order), t')
                 && forall id :: id in PendingIds(Sweep(t, order)) && id in t' && t'[id].status != Pending ==>
                                   t'[id].status == Succeeded;
    SweepIsLeastFixpoint(t, order);
    NothingDoomed(t, ids);
    assert Changed(t, Sweep(t, order)) <= {};
    assert forall id :: id in t ==> Sweep(t, order)[id] == t[id];
  }

  lemma NothingDoomed(t: Table, ids: seq<TaskId>)
    requires Layered(t, ids) && forall id :: id in t ==> t[id].status == Pending || t[id].status == Succeeded
    ensures Closed(t, {})
  {
    forall id | id in PendingIds(t) ensures forall d :: d in t[id].deps ==> d in t && !Dooming(t[d].status) {
      assert id in ids;
      var i :| 0 <= i < |ids| && ids[i] == id;
      forall d | d in t[id].deps ensures d in t {
        var j :| 0 <= j < i && ids[j] == d;
        assert d in ids;
      }
    }
  }

  // ----- the compiled graph -----

  function RefsOf(steps: seq<Step>): (r: seq<string>)
    ensures |r| == |steps| && forall i :: 0 <= i < |r| ==> r[i] == steps[i].ref
  {
    seq(|steps|, i requires 0 <= i < |steps| => steps[i].ref)
  }

  /** One pending task for each step, waiting for the steps the compiler inferred. */
  function TaskGraph(job: string, deps: map<string, seq<string>>): Table {
    map ref | ref in deps :: Task(job, Pending, None, None, deps[ref], true, None)
  }

  lemma {:induction false} DepsKeys(steps: seq<Step>, n: nat, inputs: seq<string>, registry: Registry)
    requires n <= |steps|
    ensures forall x :: x in DepsUpTo(steps, n, inputs, registry) <==> exists i :: 0 <= i < n && steps[i].ref == x
  {
    hide StepDeps, AvailableBefore;
    if n > 0 {
      DepsKeys(steps, n - 1, inputs, registry);
    }
  }

  lemma GraphLayered(steps: seq<Step>, inputs: seq<string>, registry: Registry, known: set<string>, job: string)
    requires StrictErrors(steps, |steps|, inputs, registry, known) == []
    ensures var t := TaskGraph(job, DepsUpTo(steps, |steps|, inputs, registry));
            && Layered(t, RefsOf(steps)) && Justified(t)
            && forall i :: 0 <= i < |steps| ==>
                 && steps[i].ref in DepsUpTo(steps, |steps|, inputs, registry) && steps[i].ref in t
                 && t[steps[i].ref] == Task(job, Pending, None, None, DepsUpTo(steps, |steps|, inputs, registry)[steps[i].ref], true, None)
  {
    hide StrictErrors, DepsUpTo, StepFedBy, TypedAt;
    var deps := DepsUpTo(steps, |steps|, inputs, registry);
    var t, ids := TaskGraph(job, deps), RefsOf(steps);
    DepsKeys(steps, |steps|, inputs, registry);
    StrictErrorsSound(steps, inputs, registry, known);
    forall i, j | 0 <= i < j < |ids| ensures ids[i] != ids[j] {
      assert TypedAt(steps, j, inputs, registry, known);
      FreshWhereTyped(steps, j, inputs, registry, known);
    }
    forall x ensures x in ids <==> x in t {
      if x in t {
        var i :| 0 <= i < |steps| && steps[i].ref == x;
        assert ids[i] == x;
      }
    }
    forall i, d | 0 <= i < |ids| && d in t[ids[i]].deps ensures exists j :: 0 <= j < i && ids[j] == d {
      DependenciesExact(steps, inputs, registry, known, i);
      var j :| 0 <= j < i && steps[j].ref == d;
      assert ids[j] == d;
    }
  }

  lemma FreshWhereTyped(steps: seq<Step>, i: nat, inputs: seq<string>, registry: Registry, known: set<string>)
    requires i < |steps| && TypedAt(steps, i, inputs, registry, known)
    ensures FreshRef(steps, i)
  {
  }

  /** An accepted pipeline, compiled and driven in rounds, has every step finished after `|steps|` rounds,
      whatever the runs return; no step was reused or run on dependencies that were not reusable. */
  lemma AcceptedPipelineFinishes(steps: seq<Step>, inputs: seq<string>, registry: Registry, known: set<string>,
                                 job: string, ts: seq<Table>)
    requires StrictErrors(steps, |steps|, inputs, registry, known) == []
    requires Rounds(ts) && |ts| == |steps| + 1
    requires ts[0] == TaskGraph(job, DepsUpTo(steps, |steps|, inputs, registry))
    ensures ts[|steps|].Keys == Elements(RefsOf(steps))
    ensures forall id :: id in ts[|steps|] ==>
              ts[|steps|][id].status in [Succeeded, Skipped, Failed, Cancelled, CancelledDirty]
    ensures forall k :: 0 <= k <= |steps| ==> Justified(ts[k])
  {
    hide StrictErrors, DepsUpTo, Round, Justified;
    GraphLayered(steps, inputs, registry, known, job);
    var ids, n := RefsOf(steps), |steps|;
    forall k | 0 <= k <= n ensures Justified(ts[k]) {
      LayersFinish(ts, ids, k);
    }
    LayersFinish(ts, ids, n);
    forall id | id in ts[n] ensures Finished(ts[n][id].status) {
      assert id in ids;
      var i :| 0 <= i < |ids| && ids[i] == id;
    }
  }

  /** If every run succeeds, every step succeeds. */
  lemma AcceptedPipelineSucceeds(steps: seq<Step>, inputs: seq<string>, registry: Registry, known: set<string>,
                                 job: string, ts: seq<Table>)
    requires StrictErrors(steps, |steps|, inputs, registry, known) == []
    requires Rounds(ts) && |ts| == |steps| + 1
    requires ts[0] == TaskGraph(job, DepsUpTo(steps, |steps|, inputs, registry))
    requires forall j :: 0 <= j < |ts| - 1 ==> OnlyRunsSucceed(ts[j], ts[j + 1])
    ensures forall id :: id in ts[|steps|] ==> ts[|steps|][id].status == Succeeded
  {
    hide StrictErrors, DepsUpTo, Rounds, Justified, OnlyRunsSucceed;
    GraphLayered(steps, inputs, registry, known, job);
    AllSucceed(ts, RefsOf(steps), |steps|);
    AcceptedPipelineFinishes(steps, inputs, registry, known, job, ts);
  }

  // ----- such rounds exist -----

  lemma {:induction false} Listing(s: set<TaskId>) returns (order: seq<TaskId>)
    ensures NoDup(order) && forall id :: id in order <==> id in s
  {
    order := [];
    if s != {} {
      var id :| id in s;
      var rest := Listing(s - {id});
      order := rest + [id];
    }
  }

  /** Whatever final statuses the ready tasks end in, there is a round that does just that. */
  lemma RoundExists(t: Table, outcome: map<TaskId, Status>) returns (order: seq<TaskId>, t': Table)
    requires forall id :: id in t ==> id in outcome && outcome[id] in [Succeeded, Skipped, Failed, Cancelled, CancelledDirty]
    ensures ListsPending(order, t) && RunsReady(Sweep(t, order), t') && Round(t, t')
    ensures forall id :: id in PendingIds(Sweep(t, order)) && id in t' && t'[id].status != Pending ==> t'[id].status == outcome[id]
  {
    hide Sweep, ReadyIn;
    order := Listing(PendingIds(t));
    var mid := Sweep(t, order);
    t' := map id | id in mid :: if id in PendingIds(mid) && ReadyIn(mid, id) then mid[id].(status := outcome[id]) else mid[id];
  }

  /** In particular rounds in which every task that runs succeeds. */
  lemma {:induction false} SuccessfulRounds(t: Table, n: nat) returns (ts: seq<Table>)
    ensures |ts| == n + 1 && ts[0] == t && Rounds(ts)
    ensures forall j :: 0 <= j < n ==> OnlyRunsSucceed(ts[j], ts[j + 1])
  {
    hide Round, OnlyRunsSucceed;
    if n == 0 {
      ts := [t];
    } else {
      var before := SuccessfulRounds(t, n - 1);
      var last := before[n - 1];
      var order, next := RoundExists(last, map id | id in last :: Succeeded);
      assert OnlyRunsSucceed(last, next) by { SucceedsOnly(last, order, next); }
      ts := before + [next];
    }
  }

  lemma SucceedsOnly(t: Table, order: seq<TaskId>, t': Table)
    requires ListsPending(order, t) && RunsReady(Sweep(t, order), t')
    requires forall id :: id in PendingIds(Sweep(t, order)) && id in t' && t'[id].status != Pending ==> t'[id].status == Succeeded
    ensures OnlyRunsSucceed(t, t')
  {
    hide Sweep, RunsReady;
  }

  /** So every accepted pipeline can succeed. */
  lemma AcceptedPipelineCanSucceed(steps: seq<Step>, inputs: seq<string>, registry: Registry, known: set<string>, job: string)
    returns (ts: seq<Table>)
    requires StrictErrors(steps, |steps|, inputs, registry, known) == []
    ensures |ts| == |steps| + 1 && Rounds(ts) && ts[0] == TaskGraph(job, DepsUpTo(steps, |steps|, inputs, registry))
    ensures ts[|steps|].Keys == Elements(RefsOf(steps))
    ensures forall id :: id in ts[|steps|] ==> ts[|steps|][id].status == Succeeded
  {
    hide StrictErrors, DepsUpTo, Rounds, OnlyRunsSucceed;
    ts := SuccessfulRounds(TaskGraph(job, DepsUpTo(steps, |steps|, inputs, registry)), |steps|);
    AcceptedPipelineSucceeds(steps, inputs, registry, known, job, ts);
    AcceptedPipelineFinishes(steps, inputs, registry, known, job, ts);
  }
}
