/** What the ready sets of the janitor, of submit and of resume have to do with each other, why the
    sweep leaves no deadlock, and what retention does to the tasks that stay. */
module Scheduling {
  import opened Prelude
  import opened Readiness
  import opened Tasks
  import opened Jobs
  import opened Propagation
  import opened TaskStore

  // ----- ready sets -----

  lemma {:induction false} ReadyAmongChar(ids: seq<TaskId>, n: nat, eligible: set<TaskId>, t: Table)
    requires n <= |ids| && eligible <= t.Keys
    ensures forall id :: id in ReadyAmong(ids, n, eligible, t) <==> id in ids[..n] && id in eligible && ReadyIn(t, id)
    ensures NoDup(ids) ==> NoDup(ReadyAmong(ids, n, eligible, t))
  {
    hide ReadyIn;
    if n > 0 {
      ReadyAmongChar(ids, n - 1, eligible, t);
      assert ids[..n] == ids[..n - 1] + [ids[n - 1]];
    }
  }

  /** On the rows of a fresh submission that carry task state, submit enqueues exactly what the janitor
      would find ready. */
  lemma SubmitMatchesJanitor(t: Table, added: Table, ids: seq<TaskId>, order: seq<TaskId>, id: TaskId)
    requires ListsPending(order, t) && (forall x :: x in ids <==> x in added)
    requires forall x :: x in added ==> x in t && t[x] == added[x] && (added[x].status == Pending || added[x].status == Succeeded)
    requires id in added && added[id].hasState
    ensures id in ReadyAmong(ids, |ids|, InStatusOtherThan(added, Succeeded), t)
       <==> id in ReadyAmong(order, |order|, Startable(t), t)
  {
    hide ReadyIn;
    ReadyAmongChar(ids, |ids|, InStatusOtherThan(added, Succeeded), t);
    ReadyAmongChar(order, |order|, Startable(t), t);
    assert ids[..|ids|] == ids && order[..|order|] == order;
  }

  lemma {:induction false} OwnReadyChar(ids: seq<TaskId>, n: nat, job: string, t: Table)
    requires n <= |ids| && forall id :: id in ids ==> id in t
    ensures forall id :: id in OwnReady(ids, n, job, t) <==> id in ids[..n] && t[id].status == Pending && OwnReadyIn(t, id, job)
  {
    hide OwnReadyIn;
    if n > 0 {
      OwnReadyChar(ids, n - 1, job, t);
      assert ids[..n] == ids[..n - 1] + [ids[n - 1]];
    }
  }

  lemma OwnReadyIffReadyWithin(t: Table, id: TaskId, job: string)
    requires id in t
    ensures OwnReadyIn(t, id, job) <==> ReadyIn(t, id) && forall d :: d in t[id].deps ==> d in t && t[d].job == job
  {
    ReadyInIff(t, id);
    var own := OwnStatuses(t, job);
    assert forall d :: d in own <==> d in t && t[d].job == job;
  }

  /** Resume enqueues exactly those ready tasks of the job whose dependencies all lie in the job; the
      janitor finds the others, if no worker advances the job before it does. */
  lemma ResumeReadyIsOwnReady(t: Table, job: string, ids: seq<TaskId>, order: seq<TaskId>, id: TaskId)
    requires ListsPending(order, t) && (forall x :: x in ids <==> x in TasksOf(t, job)) && id in ids && t[id].hasState
    ensures forall x :: x in ids ==> x in t
    ensures id in OwnReady(ids, |ids|, job, t)
       <==> id in ReadyAmong(order, |order|, Startable(t), t) && forall d :: d in t[id].deps ==> d in t && t[d].job == job
  {
    hide ReadyIn, OwnReadyIn;
    assert forall x :: x in ids ==> x in TasksOf(t, job);
    OwnReadyChar(ids, |ids|, job, t);
    ReadyAmongChar(order, |order|, Startable(t), t);
    OwnReadyIffReadyWithin(t, id, job);
    assert ids[..|ids|] == ids && order[..|order|] == order;
  }

  lemma {:induction false} FollowUpsChar(ids: seq<TaskId>, n: nat, job: string, t: Table)
    requires n <= |ids| && forall id :: id in ids ==> id in t
    ensures forall id :: id in FollowUps(ids, n, job, t) <==>
              id in ids[..n] && t[id].status == Pending && t[id].deps != [] && OwnReadyIn(t, id, job)
  {
    hide OwnReadyIn;
    if n > 0 {
      FollowUpsChar(ids, n - 1, job, t);
      assert ids[..n] == ids[..n - 1] + [ids[n - 1]];
    }
  }

  /** A worker advancing a job enqueues exactly those pending tasks of it that have dependencies, all in the job,
      and that the janitor would find ready. */
  lemma FollowUpsAreOwnReady(t: Table, job: string, ids: seq<TaskId>, id: TaskId)
    requires (forall x :: x in ids ==> x in t) && id in ids
    ensures id in FollowUps(ids, |ids|, job, t) <==>
            && id in PendingIds(t) && t[id].deps != [] && ReadyIn(t, id)
            && forall d :: d in t[id].deps ==> d in t && t[d].job == job
  {
    hide OwnReadyIn, ReadyIn;
    FollowUpsChar(ids, |ids|, job, t);
    assert ids[..|ids|] == ids;
    OwnReadyIffReadyWithin(t, id, job);
  }

  // ----- the ready sets by the rows themselves -----

  /** All dependencies are there and have succeeded or were skipped. */
  ghost predicate Satisfied(t: Table, id: TaskId)
    requires id in t
  {
    forall d :: d in t[id].deps ==> d in t && (t[d].status == Succeeded || t[d].status == Skipped)
  }

  lemma ReadyIsSatisfied(t: Table, id: TaskId)
    requires id in t
    ensures ReadyIn(t, id) <==> Satisfied(t, id)
  {
    ReadyIsReady(t[id].deps, StatusesOf(t));
  }

  /** The janitor returns the pending rows that carry their state and whose dependencies are satisfied. */
  lemma JanitorReadyExact(t: Table, order: seq<TaskId>, id: TaskId)
    requires ListsPending(order, t)
    ensures id in ReadyAmong(order, |order|, Startable(t), t) <==>
              id in t && t[id].status == Pending && t[id].hasState && Satisfied(t, id)
  {
    hide ReadyIn, Satisfied;
    ReadyAmongChar(order, |order|, Startable(t), t);
    assert order[..|order|] == order;
    if id in t { ReadyIsSatisfied(t, id); }
  }

  /** A submission returns its own rows that were not cached and whose dependencies are satisfied. */
  lemma SubmitReadyExact(t: Table, added: Table, ids: seq<TaskId>, id: TaskId)
    requires (forall x :: x in ids <==> x in added) && forall x :: x in added ==> x in t && t[x] == added[x]
    ensures id in ReadyAmong(ids, |ids|, InStatusOtherThan(added, Succeeded), t) <==>
              id in added && added[id].status != Succeeded && Satisfied(t, id)
  {
    hide ReadyIn, Satisfied;
    ReadyAmongChar(ids, |ids|, InStatusOtherThan(added, Succeeded), t);
    assert ids[..|ids|] == ids;
    if id in t { ReadyIsSatisfied(t, id); }
  }

  ghost predicate Inside(t: Table, id: TaskId, job: string)
    requires id in t
  {
    forall d :: d in t[id].deps ==> d in t && t[d].job == job
  }

  /** A resume returns the pending rows of the job whose dependencies are satisfied and all in the job. */
  lemma ResumeReadyExact(t: Table, job: string, ids: seq<TaskId>, id: TaskId)
    requires forall x :: x in ids <==> x in t && t[x].job == job
    ensures id in OwnReady(ids, |ids|, job, t) <==>
              id in t && t[id].job == job && t[id].status == Pending && Satisfied(t, id) && Inside(t, id, job)
  {
    hide ReadyIn, Satisfied, OwnReadyIn;
    OwnReadyChar(ids, |ids|, job, t);
    assert ids[..|ids|] == ids;
    if id in t {
      ReadyIsSatisfied(t, id);
      OwnReadyIffReadyWithin(t, id, job);
    }
  }

  /** A worker that advances a job returns those of them that have a dependency. */
  lemma FollowUpsExact(t: Table, job: string, ids: seq<TaskId>, id: TaskId)
    requires forall x :: x in ids <==> x in t && t[x].job == job
    ensures id in FollowUps(ids, |ids|, job, t) <==>
              && id in t && t[id].job == job && t[id].status == Pending && t[id].deps != []
              && Satisfied(t, id) && Inside(t, id, job)
  {
    hide ReadyIn, Satisfied, OwnReadyIn;
    FollowUpsChar(ids, |ids|, job, t);
    assert ids[..|ids|] == ids;
    if id in t {
      ReadyIsSatisfied(t, id);
      OwnReadyIffReadyWithin(t, id, job);
    }
  }

  // ----- the enqueue list -----

  /** The merged queue holds what either sweep returned, each id once. */
  lemma {:induction false} FirstOccurrencesChar(s: seq<TaskId>)
    ensures NoDup(FirstOccurrences(s)) && forall id :: id in FirstOccurrences(s) <==> id in s
  {
    if s != [] {
      var r := s[..|s| - 1];
      FirstOccurrencesChar(r);
      assert s == r + [s[|s| - 1]];
    }
  }

  /** Ids keep the order in which they were first listed, so reclaimed ones come before ready ones. */
  lemma {:induction false} FirstOccurrencesAppend(a: seq<TaskId>, b: seq<TaskId>)
    ensures FirstOccurrences(a) <= FirstOccurrences(a + b)
  {
    if b == [] {
      assert a + b == a;
    } else {
      var c := b[..|b| - 1];
      assert (a + b)[..|a + b| - 1] == a + c;
      FirstOccurrencesAppend(a, c);
    }
  }

  // ----- no deadlock -----

  /** A ranking along which dependencies go down: the graph is acyclic. */
  ghost predicate Ranks(t: Table, rank: map<TaskId, nat>) {
    t.Keys <= rank.Keys && forall id, d :: id in t && d in t[id].deps && d in t ==> rank[d] < rank[id]
  }

  lemma LowestPending(t: Table, rank: map<TaskId, nat>, s: set<TaskId>) returns (id: TaskId)
    requires s != {} && s <= t.Keys <= rank.Keys
    ensures id in s && forall x :: x in s ==> rank[id] <= rank[x]
  {
    id :| id in s;
    if s != {id} {
      var other := LowestPending(t, rank, s - {id});
      if rank[other] < rank[id] {
        id := other;
      }
    }
  }

  lemma SweepKeepsRanks(t: Table, t': Table, rank: map<TaskId, nat>)
    requires Marked(t, t') && Ranks(t, rank)
    ensures Ranks(t', rank)
  {
    assert forall id :: id in t ==> t'[id].deps == t[id].deps;
  }

  /** After the sweep an acyclic table in which nothing runs, every status is a known one and pending rows
      carry their state has no pending row left or offers at least one that is ready. */
  lemma NoDeadlock(t: Table, rank: map<TaskId, nat>, order: seq<TaskId>, order': seq<TaskId>)
    requires ListsPending(order, t) && ListsPending(order', Sweep(t, order)) && Ranks(t, rank)
    requires forall id :: id in t ==> t[id].status != Running && !t[id].status.Other?
    requires forall id :: id in PendingIds(t) ==> t[id].hasState
    ensures PendingIds(Sweep(t, order)) == {}
         || ReadyAmong(order', |order'|, Startable(Sweep(t, order)), Sweep(t, order)) != []
  {
    hide Sweep, ReadyIn, StateIn, Closed, Settled;
    var t' := Sweep(t, order);
    SweepIsLeastFixpoint(t, order);
    SweepKeepsRanks(t, t', rank);
    if PendingIds(t') != {} {
      var id := LowestPending(t', rank, PendingIds(t'));
      LowestIsReady(t, t', rank, id);
      ReadyAmongChar(order', |order'|, Startable(t'), t');
      assert order'[..|order'|] == order';
      assert id in ReadyAmong(order', |order'|, Startable(t'), t');
    }
  }

  lemma LowestIsReady(t: Table, t': Table, rank: map<TaskId, nat>, id: TaskId)
    requires Marked(t, t') && Settled(t') && Ranks(t', rank) && id in PendingIds(t')
    requires forall x :: x in t ==> t[x].status != Running && !t[x].status.Other?
    requires forall x :: x in PendingIds(t') ==> rank[id] <= rank[x]
    ensures id in PendingIds(t) && t'[id] == t[id] && ReadyIn(t', id)
  {
    hide ReadyIn, StateIn;
    assert t'[id] == t[id];
    TerminalInIff(t', id);
    forall d | d in t'[id].deps ensures d in t' && Reusable(t'[d].status) {
      assert d in t' && !Dooming(t'[d].status);
      assert d !in PendingIds(t');
    }
    ReadyInIff(t', id);
  }

  // ----- retention -----

  /** Dropping jobs changes what a surviving task sees exactly where it depended on one of their tasks:
      that edge is then missing and the task is doomed. */
  lemma RetentionFates(t: Table, jobs: set<string>, id: TaskId)
    requires id in DropTasks(t, jobs)
    ensures StateIn(DropTasks(t, jobs), id)
         == if exists d :: d in t[id].deps && d in t && t[d].job in jobs then UpstreamFailed else StateIn(t, id)
  {
    var t' := DropTasks(t, jobs);
    if d :| d in t[id].deps && d in t && t[d].job in jobs {
      assert d !in StatusesOf(t');
    } else {
      StateDependsOnDeps(t[id].deps, StatusesOf(t), StatusesOf(t'));
    }
  }

  ghost predicate WithinJobs(t: Table) {
    forall id, d :: id in t && d in t[id].deps && d in t ==> t[d].job == t[id].job
  }

  /** When dependencies stay inside a job, retention leaves every survivor's fate alone and no edge that
      led somewhere is left dangling. */
  lemma RetentionPreservesFates(t: Table, jobs: set<string>, id: TaskId)
    requires WithinJobs(t) && id in DropTasks(t, jobs)
    ensures StateIn(DropTasks(t, jobs), id) == StateIn(t, id)
    ensures forall d :: d in t[id].deps && d in t ==> d in DropTasks(t, jobs)
  {
    RetentionFates(t, jobs, id);
  }

  /** Across jobs it can doom a task that was ready: its finished dependency is gone. */
  lemma RetentionCanDoomReadyTask()
    ensures exists t: Table, jobs: set<string>, id: TaskId ::
              id in DropTasks(t, jobs) && StateIn(t, id) == Ready && StateIn(DropTasks(t, jobs), id) == UpstreamFailed
  {
    var upstream := Task("old", Succeeded, None, None, [], true, None);
    var downstream := Task("new", Pending, None, None, ["u"], true, None);
    var t: Table := map["u" := upstream, "d" := downstream];
    assert t["d"].deps == ["u"] && "u" in t["d"].deps;
    RetentionFates(t, {"old"}, "d");
    ReadyInIff(t, "d");
    ReadyIsReady(t["d"].deps, StatusesOf(t));
    assert "d" in DropTasks(t, {"old"});
  }
}
