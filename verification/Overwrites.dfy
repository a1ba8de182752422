/** Runs in which something goes wrong. For each condition on the writers of tasks one keeps the other two at every step
    and takes back a success; stale writes of every kind do so; and careful writers do not keep a stale roll-up or a
    stale deletion from harming a resumed job. */
module Overwrites {
  import opened Prelude
  import opened Readiness
  import opened Tasks
  import opened Leases
  import opened Jobs
  import opened Propagation
  import opened PropagationLabels
  import opened JobAdvance
  import opened Orchestration
  import opened OrchestrationSafety
  import opened Transactions

  /** All conditions but those in `without`. */
  ghost predicate Keeps(without: set<Condition>, s: Sys, a: Action) {
    forall c :: c !in without ==> Holds(c, s, a)
  }

  /** `trace` is a possible run that keeps the conditions not in `without` and leads to `s`. */
  ghost predicate Reached(without: set<Condition>, trace: seq<Action>, s: Sys) {
    && Possible(INITIAL, trace) && Run(INITIAL, trace) == s
    && (forall k :: 0 <= k < |trace| ==> Keeps(without, Run(INITIAL, trace[..k]), trace[k]))
  }

  lemma Extend(without: set<Condition>, trace: seq<Action>, s: Sys, a: Action)
    requires Reached(without, trace, s) && Enabled(s, a) && Keeps(without, s, a)
    ensures Reached(without, trace + [a], Next(s, a))
  {
    hide Next, Enabled, Keeps;
    var t := trace + [a];
    assert t[..|trace|] == trace;
    forall k | 0 <= k < |t| ensures Enabled(Run(INITIAL, t[..k]), t[k]) && Keeps(without, Run(INITIAL, t[..k]), t[k]) {
      if k < |trace| {
        assert t[..k] == trace[..k] && t[k] == trace[k];
      }
    }
  }

  lemma Nothing(without: set<Condition>)
    ensures Reached(without, [], INITIAL)
  {
  }

  // ----- pieces of runs: workers -----

  ghost predicate Waiting(s: Sys, id: TaskId) {
    && id in s.tasks && s.tasks[id].status == Pending && s.tasks[id].lease.None? && ReadyIn(s.tasks, id)
    && s.tasks[id].job in s.jobs && !s.jobs[s.tasks[id].job].cancelRequested
  }

  function Leased(task: Task, who: Attempt, until: int): Task {
    task.(status := Running, worker := Some(who.worker), lease := Some(until))
  }

  /** A worker finds the waiting task ready and picks it up. */
  lemma Start(without: set<Condition>, trace: seq<Action>, s: Sys, who: Attempt, until: int)
    returns (trace': seq<Action>, s': Sys)
    requires Reached(without, trace, s) && Waiting(s, who.id) && s.clock < until && 0 !in s.staged
    ensures Reached(without, trace', s') && (forall n: nat :: Write(n) !in trace ==> Write(n) !in trace') && trace <= trace'
    ensures s' == s.(tasks := s.tasks[who.id := Leased(s.tasks[who.id], who, until)],
                     checked := s.checked - {who}, started := s.started + {who})
  {
    hide Reached, ReadyIn;
    var a, b := CheckDependencies(who, 0), Pick(who, until, s.clock);
    ReadyMeansReady(s.tasks, who.id);
    hide StateIn;
    var s1 := Next(s, a);
    assert s1 == s.(checked := s.checked + {who});
    Extend(without, trace, s, a);
    s' := Next(s1, b);
    Extend(without, trace + [a], s1, b);
    trace' := trace + [a] + [b];
    assert s.checked + {who} - {who} == s.checked - {who};
  }

  lemma ReadyMeansReady(t: Table, id: TaskId)
    requires id in t
    ensures ReadyIn(t, id) <==> StateIn(t, id) == Ready
  {
    ReadyIsReady(t[id].deps, StatusesOf(t));
  }

  /** The attempt passes the check under the lease its worker holds. */
  lemma Check(without: set<Condition>, trace: seq<Action>, s: Sys, who: Attempt) returns (trace': seq<Action>, s': Sys)
    requires Reached(without, trace, s) && who in s.started && OwnsLive(s.tasks, who.worker, who.id, s.clock)
    requires Exclusivity in without || forall p :: p in s.committing && p.id == who.id ==> p.worker != who.worker
    ensures Reached(without, trace', s') && (forall n: nat :: Write(n) !in trace ==> Write(n) !in trace') && trace <= trace'
    ensures s' == s.(committing := s.committing[who := s.tasks[who.id].lease.value])
  {
    hide Reached;
    var a := CheckLease(who, s.clock);
    Extend(without, trace, s, a);
    trace', s' := trace + [a], Next(s, a);
  }

  function Finished(task: Task, outcome: Status): Task {
    task.(status := outcome, error := if outcome == Failed then Some(WorkerError) else task.error)
  }

  /** It commits while the lease it checked lasts. */
  lemma Conclude(without: set<Condition>, trace: seq<Action>, s: Sys, who: Attempt, outcome: Status)
    returns (trace': seq<Action>, s': Sys)
    requires Reached(without, trace, s) && who in s.committing && s.clock <= s.committing[who] && who.id in s.tasks
    requires outcome == Succeeded || outcome == Failed
    ensures Reached(without, trace', s') && (forall n: nat :: Write(n) !in trace ==> Write(n) !in trace') && trace <= trace'
    ensures s' == s.(tasks := s.tasks[who.id := Finished(s.tasks[who.id], outcome)], committing := s.committing - {who})
  {
    hide Reached;
    var a := Commit(who, outcome);
    Extend(without, trace, s, a);
    trace', s' := trace + [a], Next(s, a);
  }

  /** From pick-up to commit in one go. */
  lemma Execute(without: set<Condition>, trace: seq<Action>, s: Sys, who: Attempt, until: int, outcome: Status)
    returns (trace': seq<Action>, s': Sys)
    requires Reached(without, trace, s) && Waiting(s, who.id) && s.clock < until && 0 !in s.staged && s.committing == map[]
    requires outcome == Succeeded || outcome == Failed
    ensures Reached(without, trace', s') && (forall n: nat :: Write(n) !in trace ==> Write(n) !in trace') && trace <= trace'
    ensures s' == s.(tasks := s.tasks[who.id := Finished(Leased(s.tasks[who.id], who, until), outcome)],
                     checked := s'.checked, started := s'.started)
  {
    hide Reached, ReadyIn;
    trace', s' := Start(without, trace, s, who, until);
    trace', s' := Check(without, trace', s', who);
    trace', s' := Conclude(without, trace', s', who, outcome);
    assert s'.committing == map[];
  }

  // ----- pieces of runs: the janitor and clients -----

  /** Time passes and the janitor takes the one running task back. */
  lemma Reclaim(without: set<Condition>, trace: seq<Action>, s: Sys, id: TaskId, now: int)
    returns (trace': seq<Action>, s': Sys)
    requires Reached(without, trace, s) && s.clock <= now && id in s.tasks && Expired(s.tasks[id], now)
    requires s.tasks.Keys == {id}
    ensures Reached(without, trace', s')
    ensures s' == s.(clock := now, sweep := None,
                     tasks := s.tasks[id := s.tasks[id].(status := Pending, worker := None, lease := None)])
  {
    hide Reached;
    Extend(without, trace, s, Tick(now));
    var s1 := Next(s, Tick(now));
    Extend(without, trace + [Tick(now)], s1, SelectExpired(now));
    var s2 := Next(s1, SelectExpired(now));
    Extend(without, trace + [Tick(now)] + [SelectExpired(now)], s2, UpdateExpired);
    s' := Next(s2, UpdateExpired);
    trace' := trace + [Tick(now)] + [SelectExpired(now)] + [UpdateExpired];
    assert id in ExpiredIds(s1.tasks, now);
    assert s'.tasks == s.tasks[id := s.tasks[id].(status := Pending, worker := None, lease := None)];
  }

  /** A transaction reads; what it is going to write is staged under its number. */
  lemma Read(without: set<Condition>, trace: seq<Action>, s: Sys, a: Action, w: Staged)
    returns (trace': seq<Action>, s': Sys)
    requires Reached(without, trace, s) && ReadStep(a) && a.txn !in s.staged && Reads(s, a) == Some(w)
    ensures Reached(without, trace', s') && trace' == trace + [a] && s' == s.(staged := s.staged[a.txn := w])
  {
    hide Reached, Reads, Next;
    ReadStages(s, a, w);
    ReadAllowed(without, s, a);
    Extend(without, trace, s, a);
    trace', s' := trace + [a], Next(s, a);
  }

  lemma ReadAllowed(without: set<Condition>, s: Sys, a: Action)
    requires ReadStep(a) && a.txn !in s.staged
    ensures Enabled(s, a) && Keeps(without, s, a)
  {
  }

  /** What is written right after it was read is timely. */
  lemma FreshIsTimely(s: Sys, txn: nat, w: Staged, t': Table)
    requires w.rows == Diff(s.tasks, t')
    ensures Holds(Timeliness, s.(staged := s.staged[txn := w]), Write(txn))
  {
  }

  lemma RollUpNow(without: set<Condition>, trace: seq<Action>, s: Sys, job: string, now: int, txn: nat)
    returns (trace': seq<Action>, s': Sys)
    requires Reached(without, trace, s) && txn !in s.staged
    ensures Reached(without, trace', s') && trace' == trace + [ReadRollUp(job, now, txn)] + [Write(txn)]
    ensures s' == s.(jobs := Finalize(s.jobs, s.tasks, job, now))
  {
    hide Reached, RollUp, JobDiff, Finalize;
    var a, w := ReadRollUp(job, now, txn), Staged(map[], JobDiff(s.jobs, Finalize(s.jobs, s.tasks, job, now)), {});
    UndisturbedRollUp(s, job, now, txn);
    ReadStages(s, a, w);
    trace', s' := Read(without, trace, s, a, w);
    ghost var s1 := s';
    hide Next;
    trace', s' := WriteNow(without, trace', s1, txn);
  }

  lemma WriteNow(without: set<Condition>, trace: seq<Action>, s: Sys, txn: nat) returns (trace': seq<Action>, s': Sys)
    requires Reached(without, trace, s) && txn in s.staged && Holds(Timeliness, s, Write(txn))
    ensures Reached(without, trace', s') && trace' == trace + [Write(txn)] && s' == Next(s, Write(txn))
  {
    hide Reached, Next;
    WriteAllowed(without, s, txn);
    Extend(without, trace, s, Write(txn));
    trace', s' := trace + [Write(txn)], Next(s, Write(txn));
  }

  lemma WriteAllowed(without: set<Condition>, s: Sys, txn: nat)
    requires Holds(Timeliness, s, Write(txn))
    ensures Enabled(s, Write(txn)) && Keeps(without, s, Write(txn))
  {
  }

  lemma ResumeNow(without: set<Condition>, trace: seq<Action>, s: Sys, job: string, txn: nat)
    returns (trace': seq<Action>, s': Sys)
    requires Reached(without, trace, s) && txn !in s.staged && CanResume(s.jobs, s.tasks, job)
    ensures Reached(without, trace', s') && trace' == trace + [ReadResume(job, txn)] + [Write(txn)]
    ensures job in s.jobs && s' == s.(tasks := ResumeTasks(s.tasks, job), jobs := ResumedJobs(s.jobs, job))
  {
    hide Reached, Diff, JobDiff, ResumeTasks, Reads, Next;
    ResumeReads(s, job, txn);
    var a := ReadResume(job, txn);
    var w := Staged(Diff(s.tasks, ResumeTasks(s.tasks, job)), JobDiff(s.jobs, ResumedJobs(s.jobs, job)), {});
    UndisturbedResume(s, job, txn);
    ReadStages(s, a, w);
    trace', s' := Read(without, trace, s, a, w);
    FreshIsTimely(s, txn, w, ResumeTasks(s.tasks, job));
    trace', s' := WriteNow(without, trace', s', txn);
  }

  // ----- where the runs begin -----

  function Fresh(job: string, deps: seq<TaskId>): Task { Task(job, Pending, None, None, deps, true, None) }

  function FailedJob(): Job { NewJob().(status := Failed, finishedAt := Some(0)) }

  lemma Alone(t: Table, id: TaskId)
    requires id in t && t[id].deps == []
    ensures ReadyIn(t, id)
  {
    ReadyInIff(t, id);
  }

  lemma Submitted(without: set<Condition>) returns (trace: seq<Action>, s: Sys)
    ensures Reached(without, trace, s)
    ensures s == Sys(map["t" := Fresh("j", [])], map["j" := NewJob()], 0, {"t"}, {"j"}, None, map[], {}, {}, map[])
  {
    hide Reached;
    var submit := Submit("j", map["t" := Fresh("j", [])]);
    Nothing(without);
    Extend(without, [], INITIAL, submit);
    trace, s := [] + [submit], Next(INITIAL, submit);
  }

  // ----- a commit that comes late, and two commits of one worker -----

  ghost predicate CanUndo(without: set<Condition>) {
    exists trace, s, a :: Reached(without, trace, s) && Enabled(s, a) && Keeps(without, s, a) && Undoes(s, a)
  }

  lemma CommitUndoes(without: set<Condition>, trace: seq<Action>, s: Sys, who: Attempt)
    requires Reached(without, trace, s) && who in s.committing && who.id in s.tasks && s.tasks[who.id].status == Succeeded
    requires Promptness in without || s.clock <= s.committing[who]
    ensures CanUndo(without)
  {
    hide Reached;
    var a := Commit(who, Failed);
    assert UndoesAt(s, a, who.id);
    assert Enabled(s, a) && Keeps(without, s, a) && Undoes(s, a);
  }

  /** A worker that checked its lease, stalled, and then wrote its result overwrites the success of the worker that
      took the task over. */
  lemma LateCommit()
    ensures CanUndo({Promptness})
  {
    hide Reached, ReadyIn, Next, CanUndo;
    var first, second := Attempt("a", 1, "t"), Attempt("b", 1, "t");
    var without := {Promptness};
    var trace, s := Submitted(without);
    Alone(s.tasks, "t");
    trace, s := Start(without, trace, s, first, 10);
    trace, s := Check(without, trace, s, first);
    trace, s := Reclaim(without, trace, s, "t", 20);
    Alone(s.tasks, "t");
    trace, s := Start(without, trace, s, second, 50);
    trace, s := Check(without, trace, s, second);
    trace, s := Conclude(without, trace, s, second, Succeeded);
    CommitUndoes(without, trace, s, first);
  }

  /** A worker that lost a task and picked it up again has two attempts under way. Both pass the check under the new
      lease, which names only the worker, and both commit before it runs out. */
  lemma DoubleCommit()
    ensures CanUndo({Exclusivity})
  {
    hide Reached, ReadyIn, Next, CanUndo;
    var first, second := Attempt("a", 1, "t"), Attempt("a", 2, "t");
    var without := {Exclusivity};
    var trace, s := Submitted(without);
    Alone(s.tasks, "t");
    trace, s := Start(without, trace, s, first, 10);
    trace, s := Reclaim(without, trace, s, "t", 20);
    Alone(s.tasks, "t");
    trace, s := Start(without, trace, s, second, 50);
    trace, s := Check(without, trace, s, second);
    trace, s := Check(without, trace, s, first);
    trace, s := Conclude(without, trace, s, second, Succeeded);
    CommitUndoes(without, trace, s, first);
  }

  // ----- stale writes by whoever reads first -----

  datatype Writer = Marker | Janitor | Advancer | Resumer

  /** The transaction `txn` of the run is of this kind. */
  ghost predicate Began(w: Writer, txn: nat, trace: seq<Action>) {
    exists a :: a in trace &&
      match w
      case Marker => a.CheckDependencies? && a.txn == txn
      case Janitor => a.ReadSweep? && a.txn == txn
      case Advancer => a.ReadAdvance? && a.txn == txn
      case Resumer => a.ReadResume? && a.txn == txn
  }

  function Two(u: Task, t: Task): Table { map["u" := u, "t" := t] }

  const LATE: nat := 7

  /** `t` depends on `u` of another job, which fails; the other job is rolled up. */
  lemma Failure(without: set<Condition>) returns (trace: seq<Action>, s: Sys)
    ensures Reached(without, trace, s) && Write(LATE) !in trace
    ensures s.clock == 0 && s.committing == map[] && s.staged == map[]
    ensures s.tasks == Two(Finished(Leased(Fresh("j", []), Attempt("a", 1, "u"), 10), Failed), Fresh("k", ["u"]))
    ensures s.jobs == map["j" := FailedJob(), "k" := NewJob()]
  {
    hide Reached, ReadyIn, Finalize;
    trace, s := TwoJobs(without);
    Alone(s.tasks, "u");
    trace, s := Execute(without, trace, s, Attempt("a", 1, "u"), 10, Failed);
    assert s.tasks == Two(Finished(Leased(Fresh("j", []), Attempt("a", 1, "u"), 10), Failed), Fresh("k", ["u"]));
    RolledUp(s.tasks, s.jobs);
    trace, s := RollUpNow(without, trace, s, "j", 0, 1);
  }

  lemma TwoJobs(without: set<Condition>) returns (trace: seq<Action>, s: Sys)
    ensures Reached(without, trace, s) && Write(LATE) !in trace
    ensures s == Sys(Two(Fresh("j", []), Fresh("k", ["u"])), map["j" := NewJob(), "k" := NewJob()], 0, {"u", "t"}, {"j", "k"},
                     None, map[], {}, {}, map[])
  {
    hide Reached;
    var a, b := Submit("j", map["u" := Fresh("j", [])]), Submit("k", map["t" := Fresh("k", ["u"])]);
    Nothing(without);
    Extend(without, [], INITIAL, a);
    var s1 := Next(INITIAL, a);
    assert s1 == Sys(map["u" := Fresh("j", [])], map["j" := NewJob()], 0, {"u"}, {"j"}, None, map[], {}, {}, map[]);
    Extend(without, [] + [a], s1, b);
    trace, s := [] + [a] + [b], Next(s1, b);
    assert s.tasks == Two(Fresh("j", []), Fresh("k", ["u"]));
  }

  lemma RolledUp(t: Table, jobs: JobTable)
    requires "u" in t && t["u"].job == "j" && t["u"].status == Failed && "t" in t && t["t"].job == "k" && t.Keys == {"u", "t"}
    requires jobs == map["j" := NewJob(), "k" := NewJob()]
    ensures Finalize(jobs, t, "j", 0) == map["j" := FailedJob(), "k" := NewJob()]
  {
    assert TasksOf(t, "j") == {"u"};
  }

  ghost predicate StagesFailure(w: Staged, d: TaskId, status: Status) {
    d in w.rows && w.drop == {} && w.rows[d].before.status != w.rows[d].after.status && w.rows[d].after.status == status
  }

  /** What a sweep, an advance or a marking reads at that moment stages a failure of `t`. */
  lemma MarkStages(t: Table, t': Table)
    requires "t" in t && "t" in t' && t["t"].status == Pending && t'["t"] == Mark(t["t"], UpstreamFailed)
    ensures StagesFailure(Staged(Diff(t, t'), map[], {}), "t", Failed)
  {
  }

  ghost predicate AboutToFail(t: Table) {
    "u" in t && t["u"].status == Failed && t["u"].job == "j" && "t" in t && t["t"] == Fresh("k", ["u"])
  }

  lemma DoomedThere(t: Table)
    requires AboutToFail(t)
    ensures "t" in PendingIds(t) && StateIn(t, "t") == UpstreamFailed
  {
    hide StateIn;
    assert "u" in t["t"].deps;
    FailedEdge(t, "t", "u");
  }

  lemma MarkerReads(trace: seq<Action>, s: Sys) returns (trace': seq<Action>, s': Sys)
    requires Reached({Timeliness}, trace, s) && s.staged == map[] && Write(LATE) !in trace && AboutToFail(s.tasks)
    ensures Reached({Timeliness}, trace', s') && Began(Marker, LATE, trace') && Write(LATE) !in trace'
    ensures s'.staged.Keys == {LATE} && s' == s.(staged := s'.staged) && StagesFailure(s'.staged[LATE], "t", Failed)
  {
    hide Reached, StateIn, StagesFailure, Diff;
    DoomedThere(s.tasks);
    var a, w := CheckDependencies(Attempt("b", 1, "t"), LATE), Staged(Diff(s.tasks, Visit(s.tasks, "t")), map[], {});
    MarkStages(s.tasks, Visit(s.tasks, "t"));
    assert Next(s, a) == s.(staged := s.staged[LATE := w]);
    Extend({Timeliness}, trace, s, a);
    trace', s' := trace + [a], Next(s, a);
    assert a in trace';
  }

  lemma JanitorReads(trace: seq<Action>, s: Sys) returns (trace': seq<Action>, s': Sys)
    requires Reached({Timeliness}, trace, s) && s.staged == map[] && Write(LATE) !in trace && AboutToFail(s.tasks)
    ensures Reached({Timeliness}, trace', s') && Began(Janitor, LATE, trace') && Write(LATE) !in trace'
    ensures s'.staged.Keys == {LATE} && s' == s.(staged := s'.staged) && StagesFailure(s'.staged[LATE], "t", Failed)
  {
    hide Reached, StateIn, StagesFailure, Sweep, Diff, Next;
    DoomedThere(s.tasks);
    FirstAndOnly(s.tasks, "t");
    MarkStages(s.tasks, Sweep(s.tasks, ["t"]));
    var a := ReadSweep(["t"], LATE);
    trace', s' := Read({Timeliness}, trace, s, a, Staged(Diff(s.tasks, Sweep(s.tasks, ["t"])), map[], {}));
    assert a in trace';
  }

  lemma AdvancerReads(trace: seq<Action>, s: Sys) returns (trace': seq<Action>, s': Sys)
    requires Reached({Timeliness}, trace, s) && s.staged == map[] && Write(LATE) !in trace && AboutToFail(s.tasks)
    ensures Reached({Timeliness}, trace', s') && Began(Advancer, LATE, trace') && Write(LATE) !in trace'
    ensures s'.staged.Keys == {LATE} && s' == s.(staged := s'.staged) && StagesFailure(s'.staged[LATE], "t", Failed)
  {
    hide Reached, StagesFailure, Advance, Diff, Next;
    AdvanceFails(s.tasks);
    MarkStages(s.tasks, Advance(s.tasks, "k", ["t"]));
    var a := ReadAdvance("k", ["t"], LATE);
    trace', s' := Read({Timeliness}, trace, s, a, Staged(Diff(s.tasks, Advance(s.tasks, "k", ["t"])), map[], {}));
    assert a in trace';
  }

  lemma ReadLate(w: Writer, trace: seq<Action>, s: Sys) returns (trace': seq<Action>, s': Sys)
    requires !w.Resumer?
    requires Reached({Timeliness}, trace, s) && s.staged == map[] && Write(LATE) !in trace && AboutToFail(s.tasks)
    ensures Reached({Timeliness}, trace', s') && Began(w, LATE, trace') && Write(LATE) !in trace'
    ensures s'.staged.Keys == {LATE} && s' == s.(staged := s'.staged) && StagesFailure(s'.staged[LATE], "t", Failed)
  {
    hide Reached, StagesFailure, AboutToFail;
    match w {
      case Marker => trace', s' := MarkerReads(trace, s);
      case Janitor => trace', s' := JanitorReads(trace, s);
      case Advancer => trace', s' := AdvancerReads(trace, s);
    }
  }

  lemma AdvanceFails(t: Table)
    requires "u" in t && t["u"].job == "j" && "t" in t && t["t"] == Fresh("k", ["u"])
    ensures Advance(t, "k", ["t"])["t"] == Mark(t["t"], UpstreamFailed)
  {
    hide Sweep;
    var own := OwnRows(t, "k");
    assert own["t"] == t["t"] && "u" in own["t"].deps && "u" !in StatusesOf(own);
    assert StateIn(own, "t") == UpstreamFailed;
    hide StateIn;
    assert "t" in PendingIds(own);
    FirstAndOnly(own, "t");
  }

  /** The job of `u` is resumed, `u` succeeds, and then `t`. */
  lemma Recovery(trace: seq<Action>, s: Sys) returns (trace': seq<Action>, s': Sys)
    requires Reached({Timeliness}, trace, s) && s.clock == 0 && s.committing == map[] && s.staged.Keys == {LATE}
    requires Write(LATE) !in trace
    requires s.tasks == Two(Finished(Leased(Fresh("j", []), Attempt("a", 1, "u"), 10), Failed), Fresh("k", ["u"]))
    requires s.jobs == map["j" := FailedJob(), "k" := NewJob()]
    ensures Reached({Timeliness}, trace', s') && trace <= trace' && Write(LATE) !in trace' && s'.staged == s.staged
    ensures s'.tasks.Keys == {"u", "t"} && s'.tasks["u"].status == Succeeded && s'.tasks["t"].status == Succeeded
    ensures s'.tasks["u"].job == "j" && s'.tasks["t"].job == "k"
  {
    hide Reached, ReadyIn, CanResume, ResumeTasks;
    var c := {Timeliness};
    ResumedTasks(s.tasks, s.jobs);
    trace', s' := ResumeNow(c, trace, s, "j", 1);
    Alone(s'.tasks, "u");
    trace', s' := Execute(c, trace', s', Attempt("a", 2, "u"), 10, Succeeded);
    assert ReadyIn(s'.tasks, "t") by { ReadyInIff(s'.tasks, "t"); }
    trace', s' := Execute(c, trace', s', Attempt("a", 1, "t"), 10, Succeeded);
  }

  lemma ResumedTasks(t: Table, jobs: JobTable)
    requires t == Two(Finished(Leased(Fresh("j", []), Attempt("a", 1, "u"), 10), Failed), Fresh("k", ["u"]))
    requires jobs == map["j" := FailedJob(), "k" := NewJob()]
    ensures CanResume(jobs, t, "j") && ResumeTasks(t, "j") == Two(Fresh("j", []), Fresh("k", ["u"]))
    ensures ResumedJobs(jobs, "j") == map["j" := NewJob(), "k" := NewJob()]
  {
    assert "u" in TasksOf(t, "j");
    hide TasksOf;
    var r := ResumeTasks(t, "j");
    assert r.Keys == {"u", "t"} && r["u"] == Fresh("j", []) && r["t"] == Fresh("k", ["u"]);
  }

  lemma StaleWriteUndoes(s: Sys, d: TaskId, status: Status)
    requires LATE in s.staged && StagesFailure(s.staged[LATE], d, status) && !Reusable(status)
    requires d in s.tasks && s.tasks[d].status == Succeeded
    ensures Enabled(s, Write(LATE)) && Keeps({Timeliness}, s, Write(LATE)) && Undoes(s, Write(LATE))
  {
    assert UndoesAt(s, Write(LATE), d);
  }

  /** Whoever reads first, a worker that marks a task, the janitor's sweep, a worker's sweep over its job or a second
      resume, takes a success back if its write is delayed until the tasks have recovered. */
  lemma EveryStaleWriterUndoes(w: Writer)
    ensures exists trace, s :: Reached({Timeliness}, trace, s) && Began(w, LATE, trace) && Write(LATE) !in trace
                               && Enabled(s, Write(LATE)) && Keeps({Timeliness}, s, Write(LATE)) && Undoes(s, Write(LATE))
  {
    hide Reached, Next, Undoes, Enabled, Keeps, StagesFailure, Two, AboutToFail;
    var trace, s := Failure({Timeliness});
    var d, status := "t", Failed;
    if w.Resumer? {
      d, status := "u", Pending;
      trace, s := ReadSecondResume(trace, s);
    } else {
      FailedThere(s.tasks);
      trace, s := ReadLate(w, trace, s);
    }
    ghost var before := trace;
    trace, s := Recovery(trace, s);
    StillBegan(w, before, trace);
    StaleWriteUndoes(s, d, status);
  }

  lemma FailedThere(t: Table)
    requires t == Two(Finished(Leased(Fresh("j", []), Attempt("a", 1, "u"), 10), Failed), Fresh("k", ["u"]))
    ensures AboutToFail(t)
  {
  }

  lemma StillBegan(w: Writer, before: seq<Action>, trace: seq<Action>)
    requires before <= trace && Began(w, LATE, before)
    ensures Began(w, LATE, trace)
  {
    assert forall a :: a in before ==> a in trace;
  }

  lemma ResumeStages(t: Table, w: Staged)
    requires "u" in t && t["u"].status == Failed && ResumeTasks(t, "j") == Two(Fresh("j", []), Fresh("k", ["u"]))
    requires w.rows == Diff(t, ResumeTasks(t, "j")) && w.drop == {}
    ensures StagesFailure(w, "u", Pending)
  {
    hide ResumeTasks;
    assert "u" in Changed(t, ResumeTasks(t, "j"));
  }

  lemma ReadSecondResume(trace: seq<Action>, s: Sys) returns (trace': seq<Action>, s': Sys)
    requires Reached({Timeliness}, trace, s) && s.staged == map[] && Write(LATE) !in trace
    requires s.tasks == Two(Finished(Leased(Fresh("j", []), Attempt("a", 1, "u"), 10), Failed), Fresh("k", ["u"]))
    requires s.jobs == map["j" := FailedJob(), "k" := NewJob()]
    ensures Reached({Timeliness}, trace', s') && Began(Resumer, LATE, trace') && Write(LATE) !in trace'
    ensures s'.staged.Keys == {LATE} && s' == s.(staged := s'.staged) && StagesFailure(s'.staged[LATE], "u", Pending)
  {
    hide Reached, Reads, CanResume, ResumeTasks, JobDiff, Next, ResumedJobs;
    ResumedTasks(s.tasks, s.jobs);
    ResumeReads(s, "j", LATE);
    var a := ReadResume("j", LATE);
    var w := Staged(Diff(s.tasks, ResumeTasks(s.tasks, "j")), JobDiff(s.jobs, ResumedJobs(s.jobs, "j")), {});
    ResumeStages(s.tasks, w);
    hide StagesFailure, Diff;
    trace', s' := Read({Timeliness}, trace, s, a, w);
    assert a in trace';
  }

  /** So none of the three conditions follows from the others, and none can be dropped. */
  lemma EachConditionIsNeeded(c: Condition)
    ensures CanUndo({c})
  {
    match c
    case Promptness => LateCommit();
    case Exclusivity => DoubleCommit();
    case Timeliness => EveryStaleWriterUndoes(Janitor);
  }

  // ----- a resumed job -----

  function FailedRow(): Task { Finished(Leased(Fresh("j", []), Attempt("a", 1, "t"), 10), Failed) }

  /** The one task of a job fails. */
  lemma OneFailure() returns (trace: seq<Action>, s: Sys)
    ensures Reached({}, trace, s)
    ensures s.tasks == map["t" := FailedRow()] && s.jobs == map["j" := NewJob()] && s.staged == map[] && s.clock == 0
  {
    hide Reached, ReadyIn;
    trace, s := Submitted({});
    Alone(s.tasks, "t");
    trace, s := Execute({}, trace, s, Attempt("a", 1, "t"), 10, Failed);
    assert s.tasks == map["t" := FailedRow()];
  }

  lemma FinalizedAlone()
    ensures Finalize(map["j" := NewJob()], map["t" := FailedRow()], "j", 0) == map["j" := FailedJob()]
  {
    assert TasksOf(map["t" := FailedRow()], "j") == {"t"};
  }

  lemma ResumedAlone()
    ensures CanResume(map["j" := FailedJob()], map["t" := FailedRow()], "j")
    ensures ResumeTasks(map["t" := FailedRow()], "j") == map["t" := Fresh("j", [])]
    ensures ResumedJobs(map["j" := FailedJob()], "j") == map["j" := NewJob()]
  {
    assert "t" in TasksOf(map["t" := FailedRow()], "j");
  }

  /** Two roll-ups read a failed task; one is written, the job is resumed, and the other is written: the job counts as
      failed while its task is pending. All writers of tasks are careful. */
  lemma StaleRollUpStrands()
    ensures exists trace, s :: Reached({}, trace, s) && Enabled(s, Write(LATE)) && Keeps({}, s, Write(LATE)) && Strands(s, Write(LATE))
  {
    hide Reached, Finalize, CanResume, ResumeTasks, Reads, JobDiff, ResumedJobs;
    var trace, s := OneFailure();
    FinalizedAlone();
    ResumedAlone();
    var a, w := ReadRollUp("j", 0, LATE), Staged(map[], JobDiff(s.jobs, map["j" := FailedJob()]), {});
    assert Reads(s, a) == Some(w) by { RollUpReads(s, "j", 0, LATE); }
    trace, s := Read({}, trace, s, a, w);
    trace, s := RollUpNow({}, trace, s, "j", 0, 1);
    trace, s := ResumeNow({}, trace, s, "j", 2);
    Stranded(s, w);
  }

  lemma RollUpReads(s: Sys, job: string, now: int, txn: nat)
    ensures Reads(s, ReadRollUp(job, now, txn)) == Some(Staged(map[], JobDiff(s.jobs, Finalize(s.jobs, s.tasks, job, now)), {}))
  {
    hide JobDiff, Finalize;
  }

  lemma Stranded(s: Sys, w: Staged)
    requires s.tasks == map["t" := Fresh("j", [])] && s.jobs == map["j" := NewJob()] && LATE in s.staged && s.staged[LATE] == w
    requires w == Staged(map[], JobDiff(map["j" := NewJob()], map["j" := FailedJob()]), {})
    ensures Enabled(s, Write(LATE)) && Keeps({}, s, Write(LATE)) && Strands(s, Write(LATE))
  {
    assert "j" in w.jobs && "t" in s.tasks && s.tasks["t"].job == "j" && InFlight(s.tasks["t"].status);
    assert StrandsJob(s, LATE, "j");
  }

  /** The step deletes a task in flight. */
  ghost predicate Takes(s: Sys, a: Action) {
    exists id :: id in s.tasks && InFlight(s.tasks[id].status) && id !in Next(s, a).tasks
  }

  /** Retention selects a failed job, the job is resumed, and then the job and its pending task are deleted. All writers
      of tasks are careful. */
  lemma StaleCollectTakesPending()
    ensures exists trace, s :: Reached({}, trace, s) && Enabled(s, Write(LATE)) && Keeps({}, s, Write(LATE))
                               && Takes(s, Write(LATE))
  {
    hide Reached, Finalize, CanResume, ResumeTasks, Reads, ResumedJobs, Collectable;
    var trace, s := OneFailure();
    FinalizedAlone();
    ResumedAlone();
    trace, s := RollUpNow({}, trace, s, "j", 0, 1);
    var a, w := ReadCollect(50, LATE), Staged(map[], map[], Collectable(s.jobs, 50));
    assert Reads(s, a) == Some(w) by { CollectReads(s, 50, LATE); }
    SelectedAlone();
    trace, s := Read({}, trace, s, a, w);
    trace, s := ResumeNow({}, trace, s, "j", 2);
    Taken(s);
    assert Reached({}, trace, s);
  }

  lemma CollectReads(s: Sys, cutoff: int, txn: nat)
    ensures Reads(s, ReadCollect(cutoff, txn)) == Some(Staged(map[], map[], Collectable(s.jobs, cutoff)))
  {
    hide Collectable;
  }

  lemma SelectedAlone()
    ensures "j" in Collectable(map["j" := FailedJob()], 50)
  {
  }

  lemma Taken(s: Sys)
    requires s.tasks == map["t" := Fresh("j", [])] && LATE in s.staged && s.staged[LATE].rows == map[] && "j" in s.staged[LATE].drop
    ensures Enabled(s, Write(LATE)) && Keeps({}, s, Write(LATE)) && Takes(s, Write(LATE))
  {
    assert "t" in s.tasks && InFlight(s.tasks["t"].status);
  }
}
