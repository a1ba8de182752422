# Verified model of the scene server's pipelines, orchestrator, image headers, pagination and provider routing

The repository accepts pipelines of typed processors, compiles them into graphs of tasks, and runs the tasks on
workers that lease them from a database. This project models that path, together with three smaller parts that
are pure algorithms, and proves what each promises. Everything is plain Dafny 4.11; `dafny verify dfyconfig.toml`
checks the whole project.

## What is modelled

**Typing of pipelines** (`Attributes`, `Processors`, `Wires`, `PipelineTyping`, `StrictValidator`, `HubValidator`,
`LegacyValidator`, `Reasons`, `VerifiedMatches`, `CoreProcessors`, `CanonicalPipelines`, `StepDependencies`,
`ExtensionMerge`). One typing rule is implemented four times in the repository: by the validator that accumulates
errors, by the hub's validator that stops at the first fault, by the historical validator for flat lists of
operations, and once more by the compiler from steps to task dependencies. `PipelineTyping.WellTyped` states the rule
declaratively; each implementation is a method proved against it. The results are that the accumulating validator is
sound and complete for the rule, that the hub's agrees with it, that the flat validator accepts exactly the lists that
can be wired into a well-typed pipeline, that the compiled dependencies are exactly the steps that feed a step and
form a topological order, and that merging processor extensions changes no verdict on pipelines in the old vocabulary.

**Running the tasks** (`Readiness`, `Tasks`, `Propagation`, `PropagationLabels`, `RootCauses`, `JobAdvance`, `Leases`,
`Jobs`, `TaskStore`, `Scheduling`, `Orchestration`, `OrchestrationSafety`, `FinishedJobs`, `Cancellation`,
`Transactions`, `Overwrites`, `LeaseHistory`, `EndToEnd`). `TaskStore.Store` is the database as an object whose
methods are the statements and loops of the orchestrator; each is proved to change the tables as a specification
function says. `Orchestration` puts the same functions into a step system in which any number of workers, each with
any number of attempts at a task under way, the janitor and clients interleave. Whatever reads rows and later writes
them back by primary key does so in two steps with anything in between: the marking of a doomed task, both sweeps, the
roll-up of a job, a resume, and the selection and deletion of old jobs; a write changes the columns that differ from
the row that was read, as the session's flush does. Acquiring, heartbeats, the check before a commit and the commit
itself, and the two statements of a lease reclaim are steps of their own. The results are what every run keeps; an
exact account of when a finished task can be undone and three conditions on the writers that together exclude it and
of which none can be dropped; the same for finished jobs; the ownership history of a lease; exactness of the reclaim
under interleavings; the least-fixpoint reading of terminal propagation, its labels as gravest root causes, and the
exact condition on the table under which they do not depend on row order; how a worker's sweep over its own job
differs from the janitor's; absence of deadlock; what retention changes; and, joining this to the first part, that
every accepted pipeline of n steps is finished after n rounds.

**Image headers** (`Bytes`, `JpegSize`, `WebpSize`, `TiffSize`). The three walkers over file bytes, with encoders.
All three return a size exactly on the encodings of that size (sections B.1.1.2 and B.2.2 of ITU-T T.81; sections 2.3
to 2.7 of RFC 9649; section 2 of TIFF 6.0); the TIFF one in particular reads back any directory that holds the two
size tags once among its first 256 entries, in both byte orders.

**Pages and providers** (`Pagination`, `Routing`, `ProviderChoice`). Following page tokens over a table that may
change between pages, and the choice of one provider for a stage.

## Places where the code does not meet the wish

Each is stated as a lemma with the exact boundary.

- An empty page token reads as no token (sceneapi/server/db/pagination.py:44). Reading upwards one row at a time from
  a row whose key is empty therefore never gets past it. `Pagination.PageWalkExact` shows that this is the only table
  on which a walk over a fixed table fails, and `Pagination.NoRepeatExact` that a walk over a changing one can repeat
  a row exactly when it begins on such a table; `Pagination.RestartExample` is one.
- Statuses are written by primary key alone, on whatever the row has become since it was read. A finished task is
  undone exactly when such a write puts a status that is not reusable over a reusable one
  (`OrchestrationSafety.DoneForever`). Three conditions together exclude it (`OrchestrationSafety.CarefulRunSafe`),
  and without any one of them it happens (`Overwrites.EachConditionIsNeeded`): a commit lands before the lease it
  checked has run out (sceneapi/server/workers/dispatcher.py:391-416); no two attempts of one worker, which share its
  id (sceneapi/server/workers/dispatcher.py:68-82), are past the check for the same task; and a row is written only
  while it has the status it was read in. The last one fails for each of the four writers, if its write is delayed
  until the tasks have recovered (`Overwrites.EveryStaleWriterUndoes`): the marking of a doomed task
  (sceneapi/server/workers/dispatcher.py:285-317), the janitor's sweep
  (sceneapi/server/orchestrator/janitor.py:146-193), a worker's sweep over its job
  (sceneapi/server/workers/dispatcher.py:164-218), and a second resume (sceneapi/server/orchestrator/resume.py:34-60).
- A roll-up written after its job was resumed makes a job count as finished although a task is in flight:
  `Overwrites.StaleRollUpStrands`. That is the only way: `FinishedJobs.FinishedJobsStayIdle`.
- Retention deletes what belongs to the jobs it selected, even if one was resumed in between:
  `Overwrites.StaleCollectTakesPending`. Otherwise it spares tasks in flight: `FinishedJobs.CollectSparesInFlight`.
- Whether a row is labelled failed or cancelled can depend on the order in which the pending rows come back:
  `PropagationLabels.LabelsCanDiffer`, with the exact condition on the table in `RootCauses.LabelsOrderIndependent`.
- Retention may delete a job that another job's task depends on; the satisfied dependency then reads as missing and
  dooms the task: `Scheduling.RetentionCanDoomReadyTask`, with the exact effect in `Scheduling.RetentionFates`.
- A worker that has finished a task sweeps the job's own rows and knows no other statuses
  (sceneapi/server/workers/dispatcher.py:164-198), so it fails a pending task that depends on another job, even when
  that dependency has succeeded: `JobAdvance.AdvanceFailsReadyTask`, with the exact difference from the janitor's
  sweep in `JobAdvance.AdvanceExact`.
- `resume_job` looks only at the statuses of its own job's tasks (sceneapi/server/orchestrator/resume.py:67-72), so a
  task whose dependencies are done in another job is not started by it: `Scheduling.ResumeReadyIsOwnReady`. The
  janitor may start it, unless a sibling finishes first and the worker's sweep fails it.
- The flat validator can accept repeated initial inputs, which the named-port validator always refuses; hence the
  conjunct in `LegacyValidator.LegacyIsWirability`.

## Model

| member | source | states |
|---|---|---|
| Attributes.AttributeErrorsSound | sceneapi/server/core/attributes.py:99-190 | No error is reported exactly when every declared attribute is bound to a fitting value in range, or is optional and left out, and no undeclared one is used |
| Attributes.CheckAttribute | sceneapi/server/core/attributes.py:137-190 | The faults of one declaration: none exactly when it is bound to a fitting value in range, or optional and left out |
| Attributes.ValidateAttributes | sceneapi/server/core/attributes.py:123-190 | The accumulating loops report the errors specified, and none exactly for well-typed attributes |
| Attributes.AttributeReasons | sceneapi/server/core/attributes.py:123-190 | Each reason is reported exactly when it applies: an undeclared name, a required attribute left out, a value that does not fit its type or bounds |
| Attributes.ValidateStepAttributes | sfm_hub/models/dataflow.py:464-505 | The hub's fail-fast check passes exactly the attributes the accumulating check passes |
| Processors.MergeFreshPorts | sceneapi/server/core/pipelines.py:152-157 | Merging special inputs under new roles appends them and disturbs no port |
| Processors.SetPortInPlace | sceneapi/server/core/pipelines.py:152-153 | A role that a later dictionary sets again keeps its place |
| Processors.MergeMembers | sceneapi/server/core/pipelines.py:152-153 | In a merge of two port dictionaries the later one wins on a shared role and everything else is kept |
| Wires.KeyRebuilds | sceneapi/server/core/pipelines.py:126-135 | A reference parses exactly when it is well formed, and the key rebuilt from the parts is the text itself in both branches |
| Wires.WireNamesInjective | sceneapi/server/core/pipelines.py:43-51 | For dot-free references a wire name determines reference and port |
| Wires.IndexNames | sceneapi/server/core/pipelines.py:179 | The dictionary answers a name with the latest supply that carries it, and with nothing else |
| PipelineTyping.ResolvesToLatest | sceneapi/server/core/pipelines.py:283-296 | A wire resolves to a supply exactly when it is well formed and that supply is the latest of its name |
| PipelineTyping.AvailableOrigins | sceneapi/server/core/pipelines.py:411-414 | What is available before a step is exactly what the inputs and the supplier ports of strictly earlier steps supply |
| PipelineTyping.NamesUnique | sceneapi/server/core/pipelines.py:411-414 | Fresh dot-free references and distinct inputs give every supply a name of its own |
| StrictValidator.WiredErrorsSound | sceneapi/server/core/pipelines.py:249-349 | A wired port has no error exactly when each value names a suitable supply, without repetition, and fan-in is right |
| StrictValidator.InferredErrorsSound | sceneapi/server/core/pipelines.py:354-409 | An unwired required port has no error exactly when inference is unambiguous, has enough distinct candidates, and a verified one where needed |
| StrictValidator.CheckWiredPort | sceneapi/server/core/pipelines.py:249-349 | The loop over the values of a wire with its early returns reports errors exactly for wires the typing rule refuses |
| StrictValidator.CheckInferredPort | sceneapi/server/core/pipelines.py:354-409 | The branch for an unwired required port reports an error exactly when inference is ambiguous, lacks distinct candidates or lacks a verified one |
| StrictValidator.AddSupplies | sceneapi/server/core/pipelines.py:411-414 | The supply list grows by the step's suppliers and the dictionary stays the index of the list |
| StrictValidator.StrictErrorsSoundUpTo | sceneapi/server/core/pipelines.py:171-416 | Soundness and completeness for every prefix of the steps |
| StrictValidator.StrictErrorsSound | sceneapi/server/core/pipelines.py:171-416 | The accumulated error list is empty exactly for well-typed pipelines |
| StrictValidator.StrictValidatePipeline | sceneapi/server/core/pipelines.py:171-416 | The whole loop over growing supplies, dictionary and seen references returns that list, and an empty one exactly for well-typed pipelines |
| Reasons.InferredReasons | sceneapi/server/core/pipelines.py:354-409 | For an unwired port each reason is told from the candidates available: none, one name only, two places, none verified |
| Reasons.ValueReasons | sceneapi/server/core/pipelines.py:284-330 | For a wire value each reason is told from the supply its text names |
| Reasons.WiredReasons | sceneapi/server/core/pipelines.py:249-349 | Which reasons a whole wire has: list, emptiness and count first, then those of its values, repetition and lack of two names |
| Reasons.ReportedReasons | sceneapi/server/core/pipelines.py:171-416 | An error is in the list exactly where its reason applies, at the inputs or at a step |
| HubValidator.SameFanIn | sfm_hub/models/dataflow.py:603-618 | Counting candidates as (reference, port) pairs or as wire names comes to the same for dot-free references |
| HubValidator.CheckHubWiredPort | sfm_hub/models/dataflow.py:544-598 | The fail-fast loop over a wire passes exactly the typed wires |
| HubValidator.CheckHubInferredPort | sfm_hub/models/dataflow.py:600-625 | The fail-fast inference passes exactly the ports with right, unambiguous and verified candidates |
| HubValidator.ValidatePipelineGraph | sfm_hub/models/dataflow.py:512-632 | The fail-fast validator, which skips unknown processors, accepts exactly the steps typed by the hub's tables |
| HubValidator.ValidatorsAgree | sfm_hub/models/dataflow.py:512-632 | For dot-free references the accumulating validator reports nothing exactly when the hub's accepts and references, inputs and processors are as the manifest model demands |
| LegacyValidator.LegacyValidatePipeline | sceneapi/server/core/pipelines.py:65-123 | The counter-based loop reports the errors specified |
| LegacyValidator.FlatReasons | sceneapi/server/core/pipelines.py:75-120 | The reasons of one operation, told from the counter: unknown, a datatype not counted, one where two are wanted, or nothing verified |
| LegacyValidator.CountsAreSupplies | sceneapi/server/core/pipelines.py:65-123 | The counter before an operation is the multiset of datatypes of the supplies before the step elaborating it |
| LegacyValidator.WellTypedIsFlatOk | sceneapi/server/core/pipelines.py:65-123 | A typed step passes the flat check, whatever references and wires it uses |
| LegacyValidator.ElaborateTyped | sceneapi/server/core/pipelines.py:65-123 | The constructed wiring of a list that passes the flat check is well typed |
| LegacyValidator.LegacyIsWirability | sceneapi/server/core/pipelines.py:65-123 | The flat validator accepts a list exactly when some choice of references, attributes and wires makes the named-port validator accept it |
| VerifiedMatches.MatchesAreVerified | sceneapi/server/core/pipelines.py:148-149 | In an accepted pipeline over the core processors every `map` and `triangulate` gets its matches from a strictly earlier `verify`: its wire is that step's supply, or it is the only match graph there is |
| VerifiedMatches.HubMatchesAreVerified | sfm_hub/models/dataflow.py:508-509 | The same for the hub's validator |
| VerifiedMatches.FlatMatchesAreVerified | sceneapi/server/core/pipelines.py:65-123 | An accepted flat list has a `verify` before each `map` and `triangulate` |
| CoreProcessors.CoreIsPlain | sceneapi/server/core/processors.py:274-427 | The core processor table satisfies the conventions of the wirability theorem |
| CoreProcessors.CorrespondenceSignatures | sceneapi/server/core/processors.py:274-321 | What the correspondence processors take, give and are configured by |
| CoreProcessors.ReconstructionSignatures | sceneapi/server/core/processors.py:322-363 | The same for mapping and triangulation |
| CoreProcessors.ModelSignatures | sceneapi/server/core/processors.py:364-427 | The same for the processors of models and images; merging alone takes several of a kind |
| CanonicalPipelines.CanonicalWires | sceneapi/server/core/pipelines.py:54-62 | Each canonical operation list has a wiring that the named-port validator accepts from the default input |
| StepDependencies.InferredStepDependencies | sceneapi/server/core/pipelines.py:469-527 | The compiling loop returns the dependencies specified |
| StepDependencies.DependenciesExact | sceneapi/server/core/pipelines.py:469-527 | On an accepted list a step's dependencies are, each once, exactly the steps that feed its ports, and all are strictly earlier |
| ExtensionMerge.MergeExtensions | sfm_hub/models/dataflow.py:745-770 | The loop over extensions returns the merged tables or refuses at the first collision |
| ExtensionMerge.MergeConservative | sfm_hub/models/dataflow.py:745-770 | The old tables accept a pipeline exactly when the merged tables accept it and it uses no new name |
| Readiness.ReadyIsReady | sceneapi/server/orchestrator/readiness.py:31-61 | The two readiness functions agree |
| Readiness.StateExact | sceneapi/server/orchestrator/readiness.py:24-61 | The state by the statuses of the dependencies, with the precedence of the early returns |
| Readiness.TerminalIsDoomed | sceneapi/server/orchestrator/readiness.py:41-61 | The state is terminal exactly when some dependency is missing, failed or cancelled |
| Readiness.GravestEdge | sceneapi/server/orchestrator/readiness.py:41-61 | The state is that of the gravest dependency |
| Readiness.ReadyExtends | sceneapi/server/orchestrator/readiness.py:31-38 | Readiness survives learning more statuses |
| TaskStore.Store.PropagateTerminalDependencies | sceneapi/server/orchestrator/janitor.py:137-195 | The fixed-point loop computes the sweep, lists each changed task exactly once, and rolls up exactly the jobs it changed a task of |
| Propagation.SweepIsLeastFixpoint | sceneapi/server/orchestrator/janitor.py:146-180 | The loop settles the table, and what it changes is the least set closed under doom |
| Propagation.SweepOrderIrrelevantForSet | sceneapi/server/orchestrator/janitor.py:146-180 | The changed set is the same for every order of the pending rows |
| Propagation.SweepChangesReaching | sceneapi/server/orchestrator/janitor.py:146-180 | A task is changed exactly when a chain of pending tasks leads from it to a doomed dependency |
| Propagation.ChangedRows | sceneapi/server/orchestrator/janitor.py:155-170 | A changed row was pending, is failed or cancelled with the error class that goes with it, and keeps everything else |
| PropagationLabels.SweepCanonical | sceneapi/server/orchestrator/janitor.py:155-170 | In dependency order every row gets the label its final dependencies call for |
| PropagationLabels.CanonicalUnique | sceneapi/server/orchestrator/janitor.py:155-170 | There is only one such labelling |
| RootCauses.LabelIsGravestCause | sceneapi/server/orchestrator/janitor.py:155-170 | In dependency order the label of a row is the gravest cause it reaches through pending rows |
| RootCauses.LabelExact | sceneapi/server/orchestrator/janitor.py:146-180 | In dependency order a row fails if it reaches a missing or failed one, else is cancelled as gravely as what it reaches, else stays pending |
| RootCauses.GravityExact | sceneapi/server/orchestrator/readiness.py:24-61 | How grave a row is: missing or failed, then dirtily cancelled, then cancelled |
| RootCauses.LabelsOrderIndependent | sceneapi/server/orchestrator/janitor.py:146-180 | The labels are the same for every row order exactly when, for each row, a cause as grave as its gravest lies right before it or all its doomed dependencies lead to one |
| PropagationLabels.LabelsCanDiffer | sceneapi/server/orchestrator/janitor.py:146-180 | A table and two orders that label a row failed and cancelled |
| JobAdvance.AdvanceExact | sceneapi/server/workers/dispatcher.py:164-198 | A worker's sweep over its own job marks all rows of the job the janitor would, and only those exactly when each pending row that looks outside the job is doomed anyway |
| JobAdvance.AdvanceFailsReadyTask | sceneapi/server/workers/dispatcher.py:164-198 | A ready task that such a sweep fails |
| TaskStore.Store.AdvanceJob | sceneapi/server/workers/dispatcher.py:164-218 | The loop over the job's rows computes that sweep, the job is rolled up, and the rows ready by its own statuses are returned |
| Jobs.RollUpExact | sceneapi/server/services/job_service.py:156-167 | No status without rows or with one pending or running; otherwise failed if one failed, else cancelled if one is, else succeeded |
| Jobs.FinalizeRollsUp | sceneapi/server/services/job_service.py:168-180 | The job row takes that status, with the time if it is news, and nothing else changes |
| TaskStore.Store.FinalizeJobIfReady | sceneapi/server/services/job_service.py:150-180 | The roll-up by the set of statuses does exactly that |
| TaskStore.Store.TryAcquireLease | sceneapi/server/orchestrator/lease.py:22-45 | Succeeds exactly on an existing row with no unexpired lease (and pending, when gated), and changes that row only |
| TaskStore.Store.RefreshLease | sceneapi/server/orchestrator/lease.py:48-66 | Succeeds exactly for the worker in the row, and moves only its expiry |
| TaskStore.Store.SelectExpired | sceneapi/server/orchestrator/janitor.py:72-85 | Returns exactly the running rows whose lease has expired |
| TaskStore.Store.UpdateExpired | sceneapi/server/orchestrator/janitor.py:86-94 | Resets exactly the selected rows that are still running and expired |
| TaskStore.Store.FindReadyPendingTasks | sceneapi/server/orchestrator/janitor.py:120-134 | Returns the pending rows with task state whose dependencies are reusable, in row order |
| TaskStore.Store.SubmitJobDag | sceneapi/server/orchestrator/scheduler.py:50-108 | Adds the rows and a pending job, rolls that up if all rows were cached, returns the uncached ready rows |
| TaskStore.Store.ResumeJobTasks | sceneapi/server/orchestrator/resume.py:31-103 | Refuses without change, or resets exactly the failed and cancelled rows of the job, makes the job pending, unfinished and no longer to be cancelled, and returns the pending rows ready within it |
| TaskStore.Store.GcExpiredJobRecords | sceneapi/server/orchestrator/janitor.py:198-242 | Deletes exactly the unpinned terminal jobs past retention, with their rows, and counts them |
| Scheduling.ReadyAmongChar | sceneapi/server/orchestrator/janitor.py:120-134 | The returned list is duplicate-free and contains exactly the eligible ready rows |
| Scheduling.SubmitMatchesJanitor | sceneapi/server/orchestrator/scheduler.py:84-91 | Submission and the janitor find the same fresh tasks ready |
| Scheduling.ResumeReadyIsOwnReady | sceneapi/server/orchestrator/resume.py:67-72 | Resume starts exactly those tasks the janitor would start whose dependencies all lie in the job |
| Scheduling.FollowUpsAreOwnReady | sceneapi/server/workers/dispatcher.py:190-198 | A worker enqueues exactly the pending tasks of the job with dependencies, all inside the job, that the janitor would find ready |
| Scheduling.JanitorReadyExact | sceneapi/server/orchestrator/janitor.py:120-134 | The janitor returns exactly the pending rows that carry their state and whose dependencies all succeeded or were skipped |
| Scheduling.SubmitReadyExact | sceneapi/server/orchestrator/scheduler.py:84-91 | A submission returns exactly its uncached rows with such dependencies |
| Scheduling.ResumeReadyExact | sceneapi/server/orchestrator/resume.py:67-72 | A resume returns exactly the pending rows of the job with such dependencies, all in the job |
| Scheduling.FollowUpsExact | sceneapi/server/workers/dispatcher.py:190-198 | A worker returns exactly those of them that have a dependency |
| Scheduling.FirstOccurrencesChar | sceneapi/server/orchestrator/janitor.py:278-282 | The merged list to enqueue holds each task once and loses none |
| Scheduling.FirstOccurrencesAppend | sceneapi/server/orchestrator/janitor.py:278-282 | The merge keeps the reclaimed tasks in front, in their order |
| Scheduling.NoDeadlock | sceneapi/server/orchestrator/janitor.py:120-195 | After the sweep an acyclic table with nothing running has no pending row or offers a ready one |
| Scheduling.RetentionFates | sceneapi/server/orchestrator/janitor.py:198-242 | How exactly retention changes the dependency state of each survivor |
| Scheduling.RetentionPreservesFates | sceneapi/server/orchestrator/janitor.py:198-242 | With dependencies inside jobs no survivor changes state and no edge is left dangling |
| Scheduling.RetentionCanDoomReadyTask | sceneapi/server/orchestrator/janitor.py:198-242 | Across jobs a ready task can become failed |
| OrchestrationSafety.StepKeepsSane | sceneapi/server/workers/dispatcher.py:259-418 | Every step, stale writes included, keeps running tasks owned and leased, worker and lease together, and what is staged of the two kinds that exist |
| OrchestrationSafety.RunSane | sceneapi/server/workers/dispatcher.py:259-418 | This holds in every run of the modelled steps from the empty database, whatever is stale |
| OrchestrationSafety.DoneUnlessUndone | sceneapi/server/workers/dispatcher.py:164-460 | A step undoes a finished task exactly when it writes a status that is not reusable over its reusable one |
| OrchestrationSafety.KeepsDoneUnlessUndoes | sceneapi/server/workers/dispatcher.py:164-460 | A step leaves all finished work alone exactly when it makes no such write |
| OrchestrationSafety.RunSafe | sceneapi/server/workers/dispatcher.py:285-351 | In every run in which nothing is undone, whatever runs or was found ready has its dependencies done |
| OrchestrationSafety.DoneForever | sceneapi/server/workers/dispatcher.py:164-460 | In any possible run a done task stays done exactly when no commit, marking, sweep or resume writes such a status over its row |
| OrchestrationSafety.CarefulRunSafe | sceneapi/server/workers/dispatcher.py:164-460 | In runs of prompt, exclusive and timely writers nothing is ever undone, and while a check lasts its attempt is the only one of its worker and the row is running for it |
| OrchestrationSafety.ReadExact | sceneapi/server/workers/dispatcher.py:285-317 | When reading a task leads to a pick-up, when to a marking, and when to nothing |
| OrchestrationSafety.CheckExact | sceneapi/server/workers/dispatcher.py:73-82 | Which attempts pass the check before a commit, and for how long |
| OrchestrationSafety.CommitExact | sceneapi/server/workers/dispatcher.py:411-416 | What a commit writes, whatever the row is by then |
| OrchestrationSafety.StartsReady | sceneapi/server/workers/dispatcher.py:293-351 | A task starts to run only while all its present dependencies are reusable |
| OrchestrationSafety.CommitterOwns | sceneapi/server/workers/dispatcher.py:391-416 | A careful commit changes the table only for the worker that owns the running row |
| OrchestrationSafety.OrphanReclaimed | sceneapi/server/orchestrator/janitor.py:63-94 | The running task of a lost worker returns to pending, ownerless, once its lease has expired |
| Cancellation.PickExact | sceneapi/server/workers/dispatcher.py:318-349 | A pick-up succeeds exactly on a pending row with a free lease, and then runs it or, if its job is to be cancelled, cancels it, dirtily if forced |
| Cancellation.RequestExact | sceneapi/server/services/job_service.py:183-187 | A request sets the flag, and force once asked for stays |
| Cancellation.CancelledNeverStarts | sceneapi/server/workers/dispatcher.py:334-347 | After a request no task of the job starts to run in any continuation in which no resume of the job is written |
| Cancellation.ResumeForgetsCancellation | sceneapi/server/orchestrator/resume.py:56-62 | A resume clears both cancel flags |
| FinishedJobs.JobsIdleUnlessStranded | sceneapi/server/services/job_service.py:150-180 | A step leaves finished jobs without tasks in flight exactly when it does not write a roll-up while a task of the job is in flight |
| FinishedJobs.FinishedJobsStayIdle | sceneapi/server/services/job_service.py:150-180 | In any possible run finished jobs are idle throughout exactly when no such roll-up is written |
| FinishedJobs.CollectSparesInFlight | sceneapi/server/orchestrator/janitor.py:213-242 | Whatever happens between selection and deletion, a task in flight is spared if its job was not resumed in between and finished jobs are idle |
| Jobs.CollectExact | sceneapi/server/orchestrator/janitor.py:213-242 | A job is gone exactly when it was succeeded, failed or cancelled before the cutoff and not pinned, a task exactly when its job is |
| Transactions.UndisturbedMark | sceneapi/server/workers/dispatcher.py:285-317 | Read and written at once, the marking of a doomed task is one visit of the sweep |
| Transactions.UndisturbedSweep | sceneapi/server/orchestrator/janitor.py:146-193 | Read and written at once, the janitor's sweep does what the store's method does |
| Transactions.UndisturbedAdvance | sceneapi/server/workers/dispatcher.py:164-218 | The same for a worker's sweep over its job |
| Transactions.UndisturbedRollUp | sceneapi/server/services/job_service.py:150-180 | The same for the roll-up of a job |
| Transactions.UndisturbedResume | sceneapi/server/orchestrator/resume.py:31-60 | The same for a resume |
| Transactions.UndisturbedCollect | sceneapi/server/orchestrator/janitor.py:213-242 | The same for retention |
| Overwrites.EachConditionIsNeeded | sceneapi/server/workers/dispatcher.py:164-418 | For each of the three conditions, a run from the empty database that keeps the other two throughout and ends in undoing a success |
| Overwrites.EveryStaleWriterUndoes | sceneapi/server/orchestrator/resume.py:34-60 | For each of marking, janitor's sweep, worker's sweep and resume, a run that keeps the other two conditions in which its stale write undoes a success |
| Overwrites.StaleRollUpStrands | sceneapi/server/services/job_service.py:150-180 | A run that keeps all three conditions and ends in a finished job with a pending task |
| Overwrites.StaleCollectTakesPending | sceneapi/server/orchestrator/janitor.py:213-242 | A run that keeps all three conditions and ends in the deletion of a resumed, pending task |
| LeaseHistory.WorkerIsOwner | sceneapi/server/orchestrator/lease.py:34-45 | After every run the worker column holds the latest acquirer, or nobody after a reset |
| LeaseHistory.HeartbeatSucceedsIffOwner | sceneapi/server/orchestrator/lease.py:59-66 | After every run a refresh succeeds exactly when the latest acquire-or-reset was an acquire by that worker |
| LeaseHistory.LeaseIsGrant | sceneapi/server/orchestrator/lease.py:34-66 | After every run a lease column is the last grant, unless cleared by resume or past its expiry |
| LeaseHistory.NoAcquireInsideWindow | sceneapi/server/orchestrator/lease.py:34-45 | No acquire succeeds inside a granted, uncleared and unexpired window |
| LeaseHistory.TouchedIsNotExpired | sceneapi/server/orchestrator/janitor.py:74-94 | A row acquired or refreshed after the selection is not expired at its reading of the clock |
| LeaseHistory.ReclaimSparesRevived | sceneapi/server/orchestrator/janitor.py:74-94 | Whatever steps intervene between the statements, a row not expired at the selection's reading is not reset |
| LeaseHistory.ReclaimExact | sceneapi/server/orchestrator/janitor.py:74-94 | Whatever steps intervene, the two statements reset exactly the rows that were expired at every moment from the first to the second |
| EndToEnd.GraphLayered | sceneapi/server/core/pipelines.py:469-527 | The inferred dependencies of an accepted pipeline form a task graph layered in step order |
| EndToEnd.LayersFinish | sceneapi/server/orchestrator/janitor.py:120-195 | After k rounds of propagating and running everything ready, the first k layers are terminal |
| EndToEnd.AcceptedPipelineFinishes | sceneapi/server/core/pipelines.py:469-527 | An accepted pipeline of n steps is terminal after n rounds, and no task succeeded before its dependencies |
| EndToEnd.AcceptedPipelineSucceeds | sceneapi/server/core/pipelines.py:469-527 | If every run succeeds, every task of an accepted pipeline succeeds within n rounds |
| EndToEnd.RoundExists | sceneapi/server/orchestrator/janitor.py:120-195 | Whatever final statuses the ready tasks end in, there is a round that does just that |
| EndToEnd.AcceptedPipelineCanSucceed | sceneapi/server/core/pipelines.py:469-527 | For every accepted pipeline there are rounds after which all its tasks have succeeded |
| JpegSize.FindJpegSize | sceneapi/server/core/image_metadata.py:135-166 | The index-moving loops stay in bounds, terminate and agree with the walk on suffixes |
| JpegSize.JpegSizeExact | sceneapi/server/core/image_metadata.py:135-166 | A size is returned exactly on a start marker, any stray bytes, standalone markers and complete other segments with fill bytes, and a complete frame segment of that size |
| JpegSize.MarkersOfTheTable | sceneapi/server/core/image_metadata.py:15-31 | The walk's marker tests are those of Table B.1 of ITU-T T.81 |
| JpegSize.SmallPicture | sceneapi/server/core/image_metadata.py:135-166 | A baseline and a progressive picture, byte by byte, have their size |
| WebpSize.FindWebpSize | sceneapi/server/core/image_metadata.py:227-271 | The chunk loop stays in bounds, terminates and agrees with the walk on suffixes |
| WebpSize.HeaderReads | sceneapi/server/core/image_metadata.py:249-271 | The three picture headers decode to the width and height they encode, with 14-bit packing and scaling bits ignored |
| WebpSize.HeaderOnly | sceneapi/server/core/image_metadata.py:249-271 | Whatever a picture decoder accepts is such an encoding |
| WebpSize.WebpSizeExact | sceneapi/server/core/image_metadata.py:227-271 | A size is returned exactly on a RIFF header, any complete unrelated chunks with odd-size padding, and a picture chunk of that size |
| TiffSize.FindTiffSize | sceneapi/server/core/image_metadata.py:169-200 | The directory scan stays in bounds, terminates and agrees with the scan over entries |
| TiffSize.FindTiffValue | sceneapi/server/core/image_metadata.py:203-216 | Reads one SHORT or LONG in the file's byte order and nothing else |
| TiffSize.ScanExact | sceneapi/server/core/image_metadata.py:183-200 | The scan returns the last width and height recorded at the first point where both are known |
| TiffSize.EntriesRoundTrip | sceneapi/server/core/image_metadata.py:186-199 | Encoded entries are read back, up to the number asked for |
| TiffSize.TiffSizeExact | sceneapi/server/core/image_metadata.py:169-216 | A size is returned exactly on a header, a directory offset and count, and entries that record that size at the first point where both tags are known |
| TiffSize.TiffRoundTrip | sceneapi/server/core/image_metadata.py:169-200 | In both byte orders a directory holding both size tags once among its first 256 entries decodes to its size |
| TiffSize.SmallLittleEndian | sceneapi/server/core/image_metadata.py:169-200 | A little-endian file, byte by byte, has its size, width first |
| TiffSize.SmallBigEndian | sceneapi/server/core/image_metadata.py:169-200 | The same in big-endian order |
| Pagination.PaginateKeyset | sceneapi/server/db/pagination.py:26-52 | One page is the first rows behind the token, with a token exactly when more follow |
| Pagination.PaginateSequence | sceneapi/server/db/pagination.py:55-72 | The same for a list already filtered and ordered |
| Prelude.LessAtFirstDifference | sceneapi/server/db/pagination.py:43-45 | Keys are ordered by the first place where they differ, a prefix coming first |
| Pagination.RestChar | sceneapi/server/db/pagination.py:43-45 | Behind a token lie exactly the later rows, in order |
| Pagination.WalkUnderChange | sceneapi/server/db/pagination.py:26-52 | Unless the first table is that one, while rows come and go between pages nothing is received twice, everything comes in order from some table, and a completed walk has every row present throughout |
| Pagination.NoRepeatExact | sceneapi/server/db/pagination.py:26-52 | A walk that begins on a table repeats no row, however the table changes later, exactly when the table is not one with an empty first key read singly upwards |
| Pagination.ReadExact | sceneapi/server/db/pagination.py:26-52 | After n pages of a fixed table exactly its first n times size rows are read |
| Pagination.PageWalkExact | sceneapi/server/db/pagination.py:26-52 | Following tokens ends with every row once and in order exactly when the table is not the one with an empty first key read singly upwards |
| Routing.Partition | sfm_hub/routing.py:75-77 | Splits at the first `@` and loses nothing |
| Routing.ProviderRecords | sfm_hub/routing.py:42-72 | The nested loops build the sorted rows of installed (and enabled) plugins |
| Routing.SortedKeeps | sfm_hub/routing.py:72 | Sorting neither drops nor duplicates a record |
| Routing.SortedInOrder | sfm_hub/routing.py:72 | Records come by priority hint, then provider id |
| Routing.CandidateRecords | sfm_hub/routing.py:105-121 | The loop keeps the capable records |
| Routing.ResolveProvider | sfm_hub/routing.py:169-254 | The loops over request, profiles and priority with their early returns compute the resolution specified |
| ProviderChoice.ManifestOrderIrrelevant | sfm_hub/routing.py:169-254 | Result or error is the same for any permutation of the manifests |
| ProviderChoice.CandidatesAreOffers | sfm_hub/routing.py:105-121 | The candidates are exactly the enabled capable providers of the manifests |
| ProviderChoice.MatchesAreNamed | sfm_hub/routing.py:147-155 | A selector matches a record exactly when it is its provider id or its plugin-qualified id |
| ProviderChoice.OneDecides | sfm_hub/routing.py:210-250 | Exactly one answer decides: the request, else the first selector naming an offer in the project's route, else the workspace's, else the default profile's, else the priority list, else none |
| ProviderChoice.ResolutionExact | sfm_hub/routing.py:158-254 | With offers, the outcome follows from the set of offers and that deciding selector: one named offer is found, several are ambiguous, none is refused, with the lists the errors carry |
| ProviderChoice.NothingOffered | sfm_hub/routing.py:193-206 | Without offers a request passes through unless it names an installed provider, with the two refusals told apart |
| ProviderChoice.FoundDenotesOne | sfm_hub/routing.py:158-254 | A returned selector names exactly one enabled capable provider |
| ProviderChoice.ResolveIdempotent | sfm_hub/routing.py:169-254 | Resolving again with the result as the request returns the same result |

## Left out

- The text, order and paths of validation errors: only where an error arises and why is modelled, how often one reason is
  reported at a step only by the specification functions.
- CoreProcessors.CORE_PROCESSORS: transcribed from the table; the values and bounds of attributes are not proved to be
  the right ones.
- Regex checks and defaults of manifests, alias canonicalisation and the upgrade of old wire spellings: the model
  starts from parsed steps, ports and attributes; a processor lookup is a finite map and the known datatypes a set.
- Floating-point rounding, NaN and infinities in attribute bounds: bounds are real numbers.
- The agreement of the two named-port validators for references with dots in them, which manifests refuse
  (sfm_hub/models/dataflow.py:242-249).
- Queues, sessions, tenants, reconstruction and artifact rows, progress events, timestamps and error messages of
  tasks, and inline execution: a task is its job, status, worker, lease, dependencies and error class.
- The handler a worker runs: it may end in success, failure or late cancellation.
- OrchestrationSafety.RunSane: assumes that a statement's granted expiry lies ahead of the clock when it runs, that a
  worker's successive grants do not shrink, and that task and job ids are not reused. The reads of one transaction are
  one step, and so is a cancellation request.
- TaskStore.Store.PropagateTerminalDependencies: states the sweep for a transaction that nothing disturbs between its
  reads and its writes; with anything in between it is the two steps `ReadSweep` and `Write` of `Orchestration`.
- TaskStore.Store.AdvanceJob: likewise, with `ReadAdvance` and `ReadRollUp`.
- TaskStore.Store.ResumeJobTasks: likewise, with `ReadResume`.
- TaskStore.Store.GcExpiredJobRecords: likewise, with `ReadCollect`.
- TaskStore.Store.SubmitJobDag: ids are handed in as new, whereas the code draws them at random, and tasks found in the
  cache are handed in as succeeded rather than looked up.
- EndToEnd.AcceptedPipelineFinishes: rounds are synchronous; asynchronous runs are covered by the safety results only.
- PNG and BMP headers, format sniffing and media types, which read fixed offsets.
- Pagination.PaginateKeyset: the query is a filter over rows already ordered by key; the database's sort and filters
  are not modelled.
- Routing.ResolveProvider: the sorted lists in errors are multisets, and reading the hub state, the registry and the
  entry points from disk is a parameter.
- ProviderChoice.ResolutionExact: provider ids are nonempty and hold no `@`, as the manifest pattern
  (sfm_hub/models/validation.py:62) demands.
- Object-storage, projection, export and capability code, which has no state or protocol of its own here.
