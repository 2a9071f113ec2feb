# Maintenance runs of the Zalando vertical autoscaler, modelled in Dafny

The operator copies memory recommendations of a VPA into a Zalando `postgresql` CR, inside
cron-based maintenance windows, and keeps a bounded status of what it did. This project models its
`PostgresMemoryPolicy` reconciler and proves what that reconciler keeps over runs of any length.

## How it is built

- `Controller.dfy`, `StatusBook.dfy` (class `Policy`), `Cluster.dfy` (class `Cluster`) and
  `PostActions.dfy` are the program as it runs: objects changed in place, loops with early exits.
- `Decision.dfy` is the same reconcile as a function of the stored status, the CR and what is
  observed. Every method of `Controller` is proved to have exactly the effect that function computes.
- `Cron.dfy`, `Sizing.dfy`, `MergePatch.dfy` and `ZalandoPatch.dfy` are the window evaluator, the memory and
  CPU arithmetic, and the patches, with their own laws.
- `Requirements.dfy` says the same again without those functions, as a table: which of 22 cases a reconcile
  is in, told from what is stored and observed, and what that case gives field by field, in terms of the
  stored records, the observations and plain numbers. What a recommendation and a gate come to is settled
  in `Sizing.dfy`. `RequirementsMet.dfy` proves that every reconcile is in exactly one case and gives what
  the case gives; `Shapes.dfy` is derived from that.
- `Shapes.dfy` lists what one reconcile can do and what it shows, with `Dates.dfy` on how it dates the
  conditions it changes. `Runs.dfy` defines runs and their invariant, and
  `Twin.dfy` relates the controller, which trims its history to ten records, to a twin that never
  trims. The twin's history is the full log of a run, which the guarantees in
  `HistoryGuarantees.dfy`, `ConditionGuarantees.dfy`, `RunGuarantees.dfy`, `WriteGuarantees.dfy`,
  `Churn.dfy` and `Schedule.dfy` speak of.
- `Surprises.dfy` holds concrete runs in which the code does not do what its documentation says.

A run is a sequence of turns. Before each turn somebody else may have changed the CR. In each turn
every read may fail, the patch of the CR and of any workload to restart may be refused, or be applied
although the client gets an error, any post-action may not be done, and the status write may be lost
after the CR was patched.
Reconciles come at any times that do not run backwards, and each of the clock readings inside a
reconcile may be later than the one before. A turn records what its reconcile does and the world it
leaves, for the controller and for the twin; `Runs.Plausible` ties these records to the reconciler, and
`Runs.AnyTurnMayFollow` shows that it asks nothing else of a run.

## What is assumed

- The cron library is an oracle over a set of ticks. It may fail, but an answer it gives is right:
  the previous tick is the greatest one not after now, the next tick the least one after now. Where
  a result needs it to answer always, that is a precondition (`ExactAnswers`).
- Time is in whole seconds, as ticks and stored time stamps are.
- A `resource.Quantity` is a number of bytes, or of thousandths inside a document; printing and
  parsing it loses nothing. A memory text that is no quantity makes the real program panic while
  reading it; the model ends that reconcile with an error and no change.
- float64 arithmetic is exact; `int64(...)` drops the fraction. Integers do not overflow.
- The policy's spec does not change during a run, and a reconcile reads the latest stored status.

## Where code and documentation disagree

The model follows the code. The concrete runs are over the ticks of an hourly cron expression.

- `.agents/features/non-blocking-single-update-per-window.md:5` wants only one CR patch per window.
  `Surprises.TwoPatchesInOneOpening` is a run with two, the first of a run that fails, and
  `Surprises.TwoPatchesWithoutFailure` one with two and no failure, the first status write being lost.
  `SecondWriteExactlyWhen` says exactly when a turn patches an opening again: when it is still in the
  opening, every record stored since the first patch is of a run that failed or was skipped, and nothing
  else stands in its way. What holds without exception is that at most one run per opening completes
  (`OncePerOpening`).
- `README.md:259` says a run is failed when its window expires. But the run may be completed
  (`Surprises.ExpiredRunCompletes`); while the policy, the CR, the recommendation or the cron expression
  cannot be read it is not even looked at and stays InProgress (`Surprises.ExpiredRunStays`,
  `UnreadableTurnsLeaveTheRun`); and so it does while status writes are lost. `ExpiryOutcome` is exact: at a turn out of the window the run is marked
  Failed if and only if the turn is readable, its status write arrives, and the cluster is not Running or a
  post-action is not triggered or not done. Where windows follow one another without a break, no run need
  ever be ended (`Surprises.RunIsNeverEnded`).
- `api/v1alpha1/types.go:192-193` says the phase is empty for terminal states. The Completed record of
  `Surprises.ExpiredRunCompletes` still has its phase: it is never cleared, and empty exactly on Skipped
  records (`RecordsAreConsistent`).
- `README.md:13` speaks of every run being tracked. A run leaves no record in two ways: it fails to start,
  even when its patch has reached the CR (`Surprises.PatchedWithoutRecord`), or it starts and the status
  write is lost (`Surprises.TwoPatchesWithoutFailure`). `AttemptIsTrackedExactlyWhen` is exact: a run that is
  attempted is put on record if and only if its parameters can be computed, its patch is applied and the
  client told so, and the status write arrives. Of a run that fails to start the condition
  LastMaintenanceFailed tells, if that is stored (`LastFailedTellsTheLatest`).

Nothing documents how long a window must be. One of five minutes or more is visited by every controller that
answers without errors and on time (`RunVisitsEveryOpening`); any shorter one can be slept through
(`Surprises.OpeningSleptThrough`).

## Model

| member | source | states |
|---|---|---|
| RequirementsMet.ReconcileMeets | internal/controller/postgresmemorpolicy_controller.go:83-431 | from any status and with any observation, a reconcile gives what its case gives: move, wake-up, write, restarts, every field of the record it adds or changes, the memory figures, and every field of each condition |
| RequirementsMet.SomeCase | internal/controller/postgresmemorpolicy_controller.go:83-431 | every reconcile is in one of the 22 cases |
| RequirementsMet.OnlyOneCase | internal/controller/postgresmemorpolicy_controller.go:83-431 | and in no other |
| RunGuarantees.WindowOutcome | internal/controller/postgresmemorpolicy_controller.go:278-329 | what becomes of a run under way at a readable turn in its window, with the wake-up of each outcome and the whole record: completed, moved on, failed or left waiting, each exactly when phase, health, triggers and checks say so |
| WriteGuarantees.MaintenanceWriteCarries | internal/controller/postgresmemorpolicy_controller.go:247-256 | every maintenance write of every run has the sized memory and the CPU of the first entry of the policy's container, and the computed parameters, or none when the policy lists none |
| WriteGuarantees.BootstrapExactlyWhen | internal/controller/postgresmemorpolicy_controller.go:93-124 | a turn writes the initial memory exactly when one is asked for and its patch lands, with memory, CPU and parameters in full; the status tells of it exactly when the client is told, with a wake-up in a minute; otherwise the status stays and the reconcile fails |
| Facts.NothingWithoutPolicy | internal/controller/postgresmemorpolicy_controller.go:57-60 | without a policy to read nothing changes; a policy that is gone is no error, one that cannot be read is |
| HistoryGuarantees.OncePerOpening | internal/controller/postgresmemorpolicy_controller.go:145-185 | in every run, no record of any kind starts in an opening after a record of that opening that completed; so no two Completed records share their latest tick, also with overlapping openings, late time stamps and lost status writes |
| HistoryGuarantees.GuardSeesTheFullLog | internal/controller/conditions.go:84-93 | while an opening is current, the once-per-window guard answers on the stored ten records what it would answer on the full log |
| Twin.TrimmingIsInvisible | internal/controller/conditions.go:63-69 | over every run, the trimming controller and its untrimmed twin make the same decisions, writes, restarts and wake-ups, and the stored history is the newest ten of the full log |
| Runs.AnyTurnMayFollow | internal/controller/postgresmemorpolicy_controller.go:460-463 | any run goes on with any change of the CR and any observation in which clocks do not run backwards and the cron oracle is right |
| HistoryGuarantees.ConditionAndRecordAgree | internal/controller/postgresmemorpolicy_controller.go:156-172 | in every stored status MaintenanceInProgress is True exactly when an InProgress record exists; there is at most one, it is the newest, trimming never drops it, and the stale-condition branch is never taken |
| HistoryGuarantees.StoredHistoryIsNewestTen | internal/controller/conditions.go:63-69 | the stored history is the last min(10, n) of the n records ever stored, in order of their start times |
| HistoryGuarantees.LogOnlyGrows | internal/controller/conditions.go:96-105 | over any stretch of a run records only move forward through their phases, keep what they say about their start, and never change again once Completed, Failed or Skipped |
| HistoryGuarantees.RecordsAreConsistent | internal/controller/conditions.go:96-105 | a record has no phase exactly when it is Skipped, and an end time, not before its start, exactly when it is Completed or Failed |
| HistoryGuarantees.LastFailedTellsTheLatest | internal/controller/postgresmemorpolicy_controller.go:414-431 | LastMaintenanceFailed is True exactly when the latest stored attempt, started or not, failed |
| HistoryGuarantees.OutcomesShowInTheLog | internal/controller/postgresmemorpolicy_controller.go:385-431 | at every turn that is stored, completing, failing and starting are exactly the matching changes of the newest record, and failing to start leaves no record; at a turn whose status write is lost nothing shows |
| RunGuarantees.CompletionIsEarned | internal/controller/postgresmemorpolicy_controller.go:278-412 | for every Completed record ever stored there is a turn that finished its run, in the window or at the grace check; a turn before that started it; and at a turn in between the cluster was Running and, if there are post-actions, all were triggered and then found done at the finish |
| RunGuarantees.RestartsAtTurn | internal/controller/postgresmemorpolicy_controller.go:301-311 | at every turn that restarts any workload, stored or not, restarts go to a prefix of the post-actions of a run in its first phase, which moves on exactly when every post-action is reported to work and fails otherwise |
| RunGuarantees.OneTriggeringPass | internal/controller/postgresmemorpolicy_controller.go:301-311 | a stored turn that restarted any workload is the last such turn of its run |
| RunGuarantees.RunGetsAhead | internal/controller/postgresmemorpolicy_controller.go:287-328 | a readable reconcile of a run under way waits, or returns an error and leaves the record alone, or takes it strictly further; outside the window it always ends the run |
| RunGuarantees.EveryReadableTurnCounts | internal/controller/postgresmemorpolicy_controller.go:156-168 | the same along runs: a stored readable turn outside the window leaves no InProgress record |
| RunGuarantees.UnreadableTurnLeavesTheRun | internal/controller/postgresmemorpolicy_controller.go:88-137 | a turn that cannot read the policy, the CR, the recommendation or the cron expression leaves the log as it is, in the window or out of it |
| RunGuarantees.UnreadableTurnsLeaveTheRun | internal/controller/postgresmemorpolicy_controller.go:88-137 | and so do any number of such turns in a row |
| RunGuarantees.ExpiryOutcome | internal/controller/postgresmemorpolicy_controller.go:332-382 | what becomes of a run under way at any turn out of the window: completed exactly when the turn is readable, stored and all is well, failed exactly when it is readable, stored and something is not, left InProgress and unchanged exactly otherwise |
| RunGuarantees.OutsideOpeningsIsSeen | internal/controller/cron.go:46-80 | outside every opening no turn takes itself to be in a window, also when the cron oracle fails |
| Surprises.ExpiredRunCompletes | internal/controller/postgresmemorpolicy_controller.go:361-376 | a concrete run that is completed after its window expired, and whose record keeps its phase |
| Surprises.ExpiredRunStays | internal/controller/postgresmemorpolicy_controller.go:126-134 | a concrete run that is neither completed nor failed after its window expired, the cluster not Running and the VPA missing |
| WriteGuarantees.RunStartsExactlyWhen | internal/controller/postgresmemorpolicy_controller.go:174-227 | exactly when a run is attempted, when it starts, when it writes the CR, and when it is recorded as Skipped, from any status |
| WriteGuarantees.WritesExactlyWhen | internal/controller/postgresmemorpolicy_controller.go:174-256 | a turn of a run writes for maintenance exactly when it finds the policy, the stored status and what it sees let a run be attempted, the parameters can be computed and the patch lands |
| WriteGuarantees.AttemptIsTrackedExactlyWhen | internal/controller/postgresmemorpolicy_controller.go:247-267 | a run that is attempted is put on record exactly when its parameters can be computed, its patch is accepted, and the status write arrives; otherwise the log does not change |
| WriteGuarantees.WriteIsTrackedExactlyWhen | internal/controller/postgresmemorpolicy_controller.go:254-267 | a maintenance write is on record exactly when the patch call reported no error and the status write arrived |
| WriteGuarantees.WritesAreJustified | internal/controller/postgresmemorpolicy_controller.go:93-256 | every CR write of every run is a bootstrap of a CR without memory, or a write of the target read, inside the opening of the latest tick, with no run under way and no completed run of that opening in the full log, health as required, and both change thresholds exceeded |
| WriteGuarantees.ReopenedOnlyByFailure | internal/controller/postgresmemorpolicy_controller.go:174-179 | once an opening has let a run in, started, stored or not, it lets in another exactly when every record stored since is Failed or Skipped |
| WriteGuarantees.SecondWriteExactlyWhen | internal/controller/postgresmemorpolicy_controller.go:174-256 | after a maintenance write in an opening, recorded or not, a later turn of the same tick writes again exactly when it is still in the opening, every record stored since is Failed or Skipped, and it can read what it needs, passes health and change gates, and its patch lands |
| WriteGuarantees.SecondWriteNeedsFailure | internal/controller/postgresmemorpolicy_controller.go:174-256 | two maintenance writes in one opening mean that the first was not recorded or its run failed in between |
| WriteGuarantees.StartIsOnRecord | internal/controller/postgresmemorpolicy_controller.go:258-267 | a run whose start was stored is on record at every later turn |
| Surprises.TwoPatchesInOneOpening | internal/controller/postgresmemorpolicy_controller.go:305-307 | a concrete run with two maintenance writes in one opening |
| Surprises.TwoPatchesWithoutFailure | internal/controller/postgresmemorpolicy_controller.go:69-75 | a concrete run with two maintenance writes in one opening in which no run fails: the first status write is lost |
| Surprises.PatchedWithoutRecord | internal/controller/postgresmemorpolicy_controller.go:254-256 | a concrete run in which the CR is patched, the status stored, and no record made |
| WriteGuarantees.MemoryAgreesWithRun | internal/controller/postgresmemorpolicy_controller.go:231-275 | with no outside writes the CR has the applied memory of the run under way, lost status writes or not |
| WriteGuarantees.MemoryAgreesOnCompletion | internal/controller/postgresmemorpolicy_controller.go:363-412 | on completion the status reports the applied memory of the run, and the CR has it |
| Churn.LedgerBalances | internal/controller/postgresmemorpolicy_controller.go:231-275 | with nothing lost and no outside writes, the maintenance writes are exactly the applied memories on record, in order, and each run's previous memory is what the run before applied |
| Churn.ChurnIsBounded | internal/controller/zalando.go:59-97 | k maintenance writes with absolute threshold A need targets that move by at least (k-1)(A+1) in total, also when status writes are lost |
| Churn.MonotoneTargetsCostLittle | internal/controller/postgresmemorpolicy_controller.go:207-227 | targets that move one way, between any lo and hi, cost at most (hi-lo)/(A+1)+1 writes |
| Churn.MonotoneTargetsCostAtMostTheRange | internal/controller/vpa.go:60-61 | so at most (max-min)/(A+1)+1 for the policy's bounds |
| Churn.SteadyTargetCostsOneWrite | internal/controller/postgresmemorpolicy_controller.go:207-227 | a target that does not move costs at most one write |
| StatusBook.ConditionsTellTheUpdates | internal/controller/conditions.go:13-60 | after any updates there is one condition for each type updated, with the status last asked for and the time of the update that made that status |
| StatusBook.ConditionsShowTheLastWords | internal/controller/conditions.go:13-44 | each shows the status, reason and message last asked for, and the generation of the update that first said so: a repetition refreshes nothing |
| ConditionGuarantees.StoredConditionsTellTheLastChange | internal/controller/conditions.go:13-44 | in every stored status of every run, lost status writes included, there is at most one condition of each type, about the policy's generation, and its transition time is the clock reading of the stored reconcile that last changed its status |
| Schedule.StatusTellsRecommendation | internal/controller/postgresmemorpolicy_controller.go:126-143 | VPARecommendationReady and memoryTarget tell the latest recommendation read, whatever else the reconcile does |
| Schedule.IdleFollowsTheChain | internal/controller/postgresmemorpolicy_controller.go:174-185 | an idle reconcile asks for the next wake-up of the cron chain and does nothing else |
| Schedule.WakeUpIsNeverSooner | internal/controller/cron.go:86-99 | every reconcile that does not end in an error asks to be woken after 30, 60 or 300 seconds or by the window, never sooner than the jitter |
| Schedule.RunVisitsEveryOpening | internal/controller/postgresmemorpolicy_controller.go:145-227 | a run whose turns answer without errors and follow their wake-ups at most d seconds late, busy or idle, has a turn in every opening of at least 300 + d seconds |
| Surprises.OpeningSleptThrough | internal/controller/postgresmemorpolicy_controller.go:130-134 | for every window shorter than five minutes, a concrete punctual run without a turn in an opening |
| Schedule.UnderWayMeansInWindow | internal/controller/postgresmemorpolicy_controller.go:287-328 | in a punctual run a record InProgress before a turn had a readable turn before it inside an opening, at most 30 + d seconds earlier |
| Schedule.RunEndsWithItsOpening | internal/controller/postgresmemorpolicy_controller.go:156-168 | if openings end more than 30 + d seconds before the next one starts, a run whose turns are readable and at most d seconds late is no longer under way 30 + d seconds after its opening ended |
| Surprises.RunIsNeverEnded | internal/controller/postgresmemorpolicy_controller.go:287-299 | for hourly windows of an hour, punctual readable runs of any length whose first record stays InProgress |
| Cron.EvaluateIsExact | internal/controller/cron.go:37-81 | in window exactly when some tick's opening contains now, though only the latest tick is looked at; otherwise the least later tick and its end; an error exactly when there is neither |
| Cron.EveryOpeningIsVisited | internal/controller/cron.go:83-99 | a chain of on-time idle wake-ups has one inside every later opening, for openings longer than the jitter that start more than the jitter apart, overlapping or not |
| Cron.WakeUpExists | internal/controller/cron.go:37-99 | before an opening the chain can always be continued |
| Cron.AimedWakeUpLandsIffLongEnough | internal/controller/cron.go:10-13 | from outside every opening, the wake-up aimed at the next one lands in it exactly when it is longer than the jitter |
| Sizing.TargetIsExact | internal/controller/vpa.go:109-133 | the target is the recommendation cut to the range and, with a buffer, raised by that percentage without the fraction but not above memoryMax, for all numbers |
| Sizing.TargetInRange | internal/controller/vpa.go:60-61 | clamp, buffer and re-clamp land in [memoryMin, memoryMax] exactly when that range is not empty, and never below the clamped value |
| Sizing.TargetMonotone | internal/controller/vpa.go:109-133 | more recommendation or buffer lowers the target exactly when memoryMax is below memoryMin, there was no buffer, the recommendation was below memoryMin, and it reaches memoryMin or a buffer comes in |
| Sizing.TargetInEmptyRange | internal/controller/vpa.go:109-133 | with memoryMax below memoryMin the target is memoryMin below memoryMin without a buffer, and memoryMax otherwise |
| Sizing.ReadIsExact | internal/controller/vpa.go:37-68 | what is read of a VPA: the container the policy names, `postgres` when it names none, its first entry, its memory sized and its CPU as it is, or what is missing |
| Sizing.ExtractFindsFirst | internal/controller/vpa.go:74-107 | the recommendation is that of the first entry with the container's name, and there is one exactly when that entry has a memory figure; otherwise the message says exactly what is missing |
| Sizing.ExtractContainerRecommendation | internal/controller/vpa.go:74-107 | the loop over the container recommendations computes that extraction |
| Sizing.GatesOpenExactly | internal/controller/zalando.go:55-97 | the gates open exactly when the change exceeds the policy's absolute threshold, or 5Gi, and its percentage of the current memory, or 10 percent, in whole numbers; the reason is the first threshold missed |
| Sizing.LimitCoversRequest | internal/controller/zalando.go:121-127 | the memory limit is the overcommitted request rounded down and never below the request |
| Sizing.BootstrapCpuRatio | internal/controller/postgresmemorpolicy_controller.go:96-102 | the bootstrap CPU is 100m below one Gi, and from there on 100m per Gi rounded down |
| Sizing.CpuCoresIsCeiling | internal/controller/postgresmemorpolicy_controller.go:442-457 | whole cores are the ceiling of the thousandths |
| MergePatch.MergeFrame | internal/controller/zalando.go:153-155 | a merge patch (section 2 of RFC 7386) leaves every path it does not name as it was, in any document |
| MergePatch.MergeSets | internal/controller/zalando.go:153-155 | it puts every leaf it reaches through objects where it says |
| MergePatch.MergeRemoves | internal/controller/zalando.go:153-155 | a null in the patch takes away what is there, an object makes it one |
| MergePatch.MergeIdempotent | internal/controller/zalando.go:153-155 | applying it twice is applying it once |
| ZalandoPatch.ReadMemoryIsExact | internal/controller/zalando.go:99-116 | what is read of any document: absent, no memory, a figure in whole bytes, or a text that is no quantity |
| ZalandoPatch.WriteIsReadBack | internal/controller/zalando.go:99-157 | after a write to any document the memory read back is the request written, and limit and CPU request are as asked for |
| ZalandoPatch.WriteIsShown | internal/controller/zalando.go:118-157 | after a write any document has its memory request, limit, CPU request and every parameter at their paths |
| ZalandoPatch.ParametersArrive | internal/controller/zalando.go:240-255 | every parameter of the write arrives in spec.postgresql.parameters |
| ZalandoPatch.WriteLeavesTheRest | internal/controller/zalando.go:206-255 | nothing else in the document changes |
| ZalandoPatch.CpuLimitIsNeverTouched | internal/controller/zalando.go:222-238 | no write sets, changes or removes a CPU limit |
| ZalandoPatch.WriteIsIdempotent | internal/controller/zalando.go:118-157 | sending the same write again changes nothing |
| ZalandoPatch.AddPostgresParametersPatch | internal/controller/zalando.go:240-255 | the loop adds exactly the given parameters and keeps the rest of the patch |
| PostActions.CompletionMeans | internal/controller/postactions.go:54-67 | the completion check reports done exactly when every target is found done, by its own kind and state, and otherwise what the first is found that is not |
| PostActions.ArePostActionsComplete | internal/controller/postactions.go:54-67 | the early-exit loop computes that check |
| PostActions.TriggeringMeans | internal/controller/postactions.go:42-52 | triggering counts up to the first action that is not reported to work, by its own kind and outcome, and restarts those before it and that one if its patch was applied all the same |
| PostActions.TriggerPostActions | internal/controller/postactions.go:42-52 | the loop triggers the longest prefix of actions that are reported to work, in order, and restarts those and the first that is not, if its patch was applied all the same; it reports success exactly when all are reported to work |
| StatusBook.Policy.SetCondition | internal/controller/conditions.go:11-44 | the in-place update of the condition list, and whether anything changed |
| StatusBook.Policy.AddMaintenanceRecord | internal/controller/conditions.go:62-69 | appends and trims to ten |
| StatusBook.Policy.FindInProgressRecord | internal/controller/conditions.go:71-79 | finds the first InProgress record |
| StatusBook.Policy.HasCompletedMaintenanceInWindow | internal/controller/conditions.go:81-93 | true exactly when a Completed record started in the half-open window |
| StatusBook.Policy.MarkRecordCompleted | internal/controller/conditions.go:95-105 | ends the first InProgress record in place, if there is one |
| Cluster.Cluster.PatchResources | internal/controller/zalando.go:118-157 | merges the built patch into the CR, or leaves it alone and reports failure |
| Controller.StartMaintenance | internal/controller/postgresmemorpolicy_controller.go:230-275 | status, CR and wake-up after a start are as Decision computes |
| Controller.MonitorMaintenance | internal/controller/postgresmemorpolicy_controller.go:277-329 | the same for a run under way inside its window |
| Controller.HandleWindowExpired | internal/controller/postgresmemorpolicy_controller.go:331-382 | the same at the grace check |
| Controller.CompleteMaintenance | internal/controller/postgresmemorpolicy_controller.go:384-412 | the same for completion |
| Controller.FailMaintenance | internal/controller/postgresmemorpolicy_controller.go:414-431 | the same for failure |
| Controller.ReconcilePolicy | internal/controller/postgresmemorpolicy_controller.go:82-228 | the same for the whole reconcile |
| Controller.Reconcile | internal/controller/postgresmemorpolicy_controller.go:54-80 | one delivery takes the stored status and the CR exactly one turn of a run further; a lost status write keeps what was done to the CR; a write that lands has all its figures, and the CR shows them |

## Left out

- Sizing.TargetInRange: for memoryMin of at least 0; memory bounds are never negative.
- Sizing.TargetMonotone: for memory bounds of at least 0, as above.
- Sizing.LimitCoversRequest: for non-negative requests, as above.
- Cron.EveryOpeningIsVisited: about a controller that is idle; `Schedule.RunVisitsEveryOpening` is about any.
- Schedule.RunVisitsEveryOpening: counts wake-ups from the `now` of a reconcile, so d also covers how long a reconcile takes; the backoff after an error is the work queue's and not part of this model.
- Fixed message texts are constants and formatted ones opaque strings the environment chooses; their wording is not modelled.
- int64 overflow, float64 rounding and the suffix formatting of quantities.
- Cron parsing and tick search, which belong to the gronx library.
- Evaluation of PostgreSQL parameter templates: an oracle that returns a map or fails.
- Per-kind replica comparisons and the defaulting of a target's namespace: a target reports done, not done or an error.
- Outside changes of the CR between the read and the patch of one reconcile: what such a change leaves behind is the same as if it came before the reconcile or before the next one.
- Changes of the policy's spec during a run, stale caches, and hand-edited status.
- `Execute`, `WaitForClusterReady` and the other blocking waits, which the reconciler does not call.
- Events, logging, the JSON diff of the status patch, wiring and deployment; `minReadyReplicas` and the status Pending, which the code never uses.
