/** What a worker does for the job of a task it has just finished: a sweep over that job's rows alone. It knows no
    other statuses, so a dependency in another job reads as missing. */
module JobAdvance {
  import opened Prelude
  import opened Readiness
  import opened Tasks
  import opened Propagation

  /** The rows of one job. */
  function OwnRows(t: Table, job: string): (r: Table)
    ensures forall id :: id in r <==> id in t && t[id].job == job
    ensures forall id :: id in r ==> r[id] == t[id]
  {
    map id | id in t && t[id].job == job :: t[id]
  }

  /** The table after the sweep over the job's rows; `ids` lists them. */
  function Advance(t: Table, job: string, ids: seq<TaskId>): (r: Table)
    requires forall id :: id in ids ==> id in t && t[id].job == job
    ensures r.Keys == t.Keys
  {
    t + Sweep(OwnRows(t, job), ids)
  }

  ghost predicate ListsJob(ids: seq<TaskId>, t: Table, job: string) {
    NoDup(ids) && forall id :: id in ids <==> id in t && t[id].job == job
  }

  lemma AdvanceMarks(t: Table, job: string, ids: seq<TaskId>)
    requires forall id :: id in ids ==> id in t && t[id].job == job
    ensures Marked(t, Advance(t, job, ids))
    ensures Changed(t, Advance(t, job, ids)) == Changed(OwnRows(t, job), Sweep(OwnRows(t, job), ids))
  {
    hide Sweep;
    SweepMarks(OwnRows(t, job), ids);
  }

  // ----- compared with the sweep over the whole table -----

  /** `id` depends on a task of another job. */
  ghost predicate LooksOutside(t: Table, id: TaskId)
    requires id in t
  {
    exists d :: d in t[id].deps && d in t && t[d].job != t[id].job
  }

  ghost function Reaching(t: Table): set<TaskId> { set id | id in t && Reaches(t, id) }

  lemma ReachingCloses(t: Table)
    ensures Closed(t, Reaching(t))
    ensures forall s :: Closed(t, s) ==> Reaching(t) <= s
  {
    hide Closed, Chain;
    ReachingIsClosed(t, Reaching(t));
    forall s, id | Closed(t, s) && id in Reaching(t) ensures id in s {
      var p :| p != [] && p[0] == id && Chain(t, p);
      ChainWithin(t, p, s);
    }
  }

  /** What is doomed in the whole table is doomed in the job's view of it. */
  lemma OwnViewDoomsMore(t: Table, job: string)
    ensures forall id :: id in Reaching(t) && t[id].job == job ==> id in Reaching(OwnRows(t, job))
  {
    hide Reaches;
    var own := OwnRows(t, job);
    var s := Reaching(own) + (set id | id in t && t[id].job != job);
    ReachingCloses(own);
    forall id | id in PendingIds(t) && exists d :: d in t[id].deps && (d !in t || Dooming(t[d].status) || d in s)
      ensures id in s
    {
      var d :| d in t[id].deps && (d !in t || Dooming(t[d].status) || d in s);
      if t[id].job == job {
        assert id in PendingIds(own) && (d !in own || Dooming(own[d].status) || d in Reaching(own));
      }
    }
    assert Closed(t, s);
    ReachingCloses(t);
  }

  /** Unless a row looks outside, both views doom it for the same reasons. */
  lemma OwnViewDoomsSame(t: Table, job: string)
    requires forall id :: id in PendingIds(t) && t[id].job == job && LooksOutside(t, id) ==> Reaches(t, id)
    ensures forall id :: id in Reaching(OwnRows(t, job)) ==> id in Reaching(t)
  {
    hide Reaches;
    var own := OwnRows(t, job);
    ReachingCloses(t);
    forall id | id in PendingIds(own) && exists d :: d in own[id].deps && (d !in own || Dooming(own[d].status) || d in Reaching(t))
      ensures id in Reaching(t)
    {
      var d :| d in own[id].deps && (d !in own || Dooming(own[d].status) || d in Reaching(t));
      assert id in PendingIds(t);
      if d in t && d !in own {
        assert LooksOutside(t, id);
      }
    }
    assert Closed(own, Reaching(t));
    ReachingCloses(own);
  }

  lemma OutsideIsDoomed(t: Table, job: string, id: TaskId)
    requires id in PendingIds(t) && t[id].job == job && LooksOutside(t, id)
    ensures id in Reaching(OwnRows(t, job))
  {
    var own := OwnRows(t, job);
    var d :| d in t[id].deps && d in t && t[d].job != t[id].job;
    assert id in PendingIds(own) && d !in own;
    assert Chain(own, [id]) && [id][0] == id;
  }

  /** The job's own sweep marks every row of the job that the table's sweep marks. It marks the same ones exactly
      when each of the job's pending rows that depends on another job is doomed anyway. */
  lemma AdvanceExact(t: Table, job: string, ids: seq<TaskId>, order: seq<TaskId>)
    requires ListsJob(ids, t, job) && Covers(order, t)
    ensures forall id :: id in Changed(t, Sweep(t, order)) && t[id].job == job ==> id in Changed(t, Advance(t, job, ids))
    ensures (forall id :: id in Changed(t, Advance(t, job, ids)) ==> id in Changed(t, Sweep(t, order)))
       <==> forall id :: id in PendingIds(t) && t[id].job == job && LooksOutside(t, id) ==> Reaches(t, id)
  {
    hide Sweep, Reaches, Changed, Advance, LooksOutside;
    var own := OwnRows(t, job);
    AdvanceMarks(t, job, ids);
    ChangedIsReaching(t, order);
    ChangedIsReaching(own, ids);
    OwnViewDoomsMore(t, job);
    if forall id :: id in PendingIds(t) && t[id].job == job && LooksOutside(t, id) ==> Reaches(t, id) {
      OwnViewDoomsSame(t, job);
    }
    if forall id :: id in Changed(t, Advance(t, job, ids)) ==> id in Changed(t, Sweep(t, order)) {
      forall id | id in PendingIds(t) && t[id].job == job && LooksOutside(t, id) ensures Reaches(t, id) {
        OutsideIsDoomed(t, job, id);
      }
    }
  }

  lemma ChangedIsReaching(t: Table, order: seq<TaskId>)
    requires Covers(order, t)
    ensures Changed(t, Sweep(t, order)) == Reaching(t)
  {
    hide Sweep, Reaches;
    forall id ensures id in Changed(t, Sweep(t, order)) <==> Reaches(t, id) {
      SweepChangesReaching(t, order, id);
    }
    forall id | Reaches(t, id) ensures id in t { ReachesFromRow(t, id); }
  }

  lemma ReachesFromRow(t: Table, id: TaskId)
    requires Reaches(t, id)
    ensures id in PendingIds(t)
  {
  }

  function Example(): Table {
    map["u" := Task("i", Succeeded, None, None, [], true, None),
        "q" := Task("j", Pending, None, None, ["u"], true, None)]
  }

  lemma ExampleRows()
    ensures ListsJob(["q"], Example(), "j") && ReadyIn(Example(), "q") && "q" in PendingIds(Example())
  {
    ReadyInIff(Example(), "q");
    hide ReadyIn;
  }

  lemma ExampleView()
    ensures var own := OwnRows(Example(), "j"); "q" in PendingIds(own) && StateIn(own, "q") == UpstreamFailed
  {
    var own := OwnRows(Example(), "j");
    assert own["q"].deps == ["u"] && "u" in own["q"].deps && "u" !in StatusesOf(own);
  }

  /** A task that is ready, all its dependencies having succeeded, fails when a sibling finishes: one of them is in
      another job. */
  lemma AdvanceFailsReadyTask()
    ensures exists t: Table, job: string, ids: seq<TaskId>, id: TaskId ::
              && ListsJob(ids, t, job) && id in PendingIds(t) && ReadyIn(t, id)
              && Advance(t, job, ids)[id] == t[id].(status := Failed, error := Some(DependencyFailed))
  {
    hide StateIn, ReadyIn, ListsJob, Sweep, PendingIds;
    ExampleRows();
    ExampleView();
    FirstAndOnly(OwnRows(Example(), "j"), "q");
    assert ListsJob(["q"], Example(), "j") && "q" in PendingIds(Example()) && ReadyIn(Example(), "q");
    assert "q" in OwnRows(Example(), "j");
  }

  lemma FirstAndOnly(t: Table, id: TaskId)
    requires id in PendingIds(t) && StateIn(t, id) == UpstreamFailed
    ensures Sweep(t, [id])[id] == Mark(t[id], UpstreamFailed)
  {
    hide StateIn, Marked;
    var t' := Pass(t, [id], 1);
    assert Pass(t, [id], 0) == t;
    assert t' == Visit(t, id) == t[id := Mark(t[id], UpstreamFailed)];
    PassProgress(t, [id], 1);
    SweepMarks(t', [id]);
    assert Sweep(t, [id]) == Sweep(t', [id]);
    StaysMarked(t', Sweep(t', [id]), id);
  }
}
