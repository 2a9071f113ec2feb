/** What one reconcile decides, as a function of the stored status, the CR and the observations
    (internal/controller/postgresmemorpolicy_controller.go). The methods of module Controller are
    proved to do exactly this; the guarantees are proved about this function. */
module Decision {
  import opened Basics
  import opened PolicyTypes
  import opened Cron
  import opened Sizing
  import opened StatusBook
  import opened PostActions
  import opened ZalandoPatch

  /** Which way a reconcile went. */
  datatype Move =
    | Idle      // nothing decided: read errors, waiting, outside the window, already done
    | Boot      // initial memory applied
    | Skip      // a gate held the run back
    | Start     // a run started
    | Misstart  // a run failed to start
    | Advance   // post-actions triggered
    | Finish    // the run completed
    | Abort     // the run failed

  /** `write` is the write that reached the CR; `restarted` lists the workloads restarted. */
  datatype Effect = Effect(
    status: Status,
    write: Option<Write>,
    restarted: seq<PostAction>,
    move: Move,
    result: ReconcileResult)

  /** CR memory after an effect. */
  function CRAfter(cr: CRState, write: Option<Write>): CRState {
    if write.None? then cr else Memory(write.value.memory)
  }

  function Stay(s: Status, result: ReconcileResult): Effect {
    Effect(s, None, [], Idle, result)
  }

  function Set(spec: PolicySpec, s: Status, kind: ConditionType, status: ConditionStatus, reason: Reason,
               message: Text, at: Time): Status {
    s.(conditions := SetTo(s.conditions, Update(kind, status, reason, message, at, spec.generation)))
  }

  /** Parameters are only computed when the policy lists some. */
  function Parameters(spec: PolicySpec, params: ParamsOutcome): ParamsOutcome {
    if |spec.postgresParameters| == 0 then ParamsOk(map[]) else params
  }

  /** The memory request read from the CR, if it has one. */
  function KnownMemory(cr: CRState): Option<int> {
    if cr.Memory? then Some(cr.bytes) else None
  }

  predicate PatchLands(cr: CRState, patch: PatchOutcome) {
    !cr.Absent? && !patch.Refused?
  }

  predicate PatchFails(cr: CRState, patch: PatchOutcome) {
    cr.Absent? || !patch.Accepted?
  }

  function PatchError(patch: PatchOutcome): string {
    if patch.Accepted? then "not found" else patch.text
  }

  function Reconcile(trim: bool, spec: PolicySpec, s: Status, cr: CRState, o: Observation): Effect {
    if !o.crReadable || cr.Malformed? then Stay(s, Errored)
    else if !cr.Memory? && spec.initialMemory.Some? then Bootstrap(spec, s, cr, spec.initialMemory.value, o)
    else
      match ReadRecommendation(spec, o.vpa)
      case ReadFailed => Stay(s, Errored)
      case Unavailable(reason, message) =>
        Stay(Set(spec, s, VPARecommendationReady, False, reason, message, o.clock.sync), Requeue(5 * 60))
      case Recommended(rec) =>
        WithRecommendation(trim, spec, Synced(spec, s, rec, o), cr, rec, o)
  }

  function Bootstrap(spec: PolicySpec, s: Status, cr: CRState, memory: int, o: Observation): Effect {
    var params := Parameters(spec, o.params);
    if params.ParamsError? then Stay(s, Errored)
    else
      var seed := Write(true, memory, Some(BootstrapCpu(memory)), params.values);
      var write := if PatchLands(cr, o.patch) then Some(seed) else None;
      if PatchFails(cr, o.patch) then Stay(s, Errored).(write := write)
      else Effect(s.(currentMemory := Some(memory)), write, [], Boot, Requeue(60))
  }

  /** The status once a recommendation has been read. */
  function Synced(spec: PolicySpec, s: Status, rec: Recommendation, o: Observation): Status {
    Set(spec, s, VPARecommendationReady, True, Ready, Standard, o.clock.sync).(memoryTarget := Some(rec.memory))
  }

  function WindowNow(spec: PolicySpec, o: Observation): Evaluation {
    Evaluate(o.cronValid, o.prevTick, o.nextTick, spec.timeoutMinutes, o.clock.now)
  }

  /** A run is under way: the condition says so and there is a record for it. */
  predicate UnderWay(s: Status) {
    IsTrue(s.conditions, MaintenanceInProgress) && FindInProgress(s.history) >= 0
  }

  /** The condition says a run is under way, but there is no record for it. */
  predicate Stale(s: Status) {
    IsTrue(s.conditions, MaintenanceInProgress) && FindInProgress(s.history) < 0
  }

  function Unstuck(spec: PolicySpec, s: Status, o: Observation): Status {
    if Stale(s) then Set(spec, s, MaintenanceInProgress, False, StaleConditionCleared, Standard, o.clock.stale) else s
  }

  function WithRecommendation(trim: bool, spec: PolicySpec, s: Status, cr: CRState, rec: Recommendation,
                              o: Observation): Effect {
    var evaluation := WindowNow(spec, o);
    if !evaluation.Evaluated? then Stay(s, Errored)
    else if UnderWay(s) then
      if evaluation.window.inWindow then Monitor(spec, s, evaluation.window, o) else WindowExpired(spec, s, o)
    else Consider(trim, spec, Unstuck(spec, s, o), cr, rec, evaluation.window, o)
  }

  /** No run is under way: should one start? */
  function Consider(trim: bool, spec: PolicySpec, s: Status, cr: CRState, rec: Recommendation, window: WindowResult,
                    o: Observation): Effect {
    if !window.inWindow || HasCompleted(s.history, window.nextOpen, window.windowEnd) then
      Stay(s, Requeue(RequeueAfter(window, o.clock.now)))
    else if spec.safetyGates.requireHealthyCluster && o.health.HealthUnknown? then Stay(s, Errored)
    else if spec.safetyGates.requireHealthyCluster && o.health.NotRunning? then
      var history := AddRecord(trim, s.history, SkippedRecord(o.clock.first, ClusterUnhealthy));
      Effect(s.(history := history), None, [], Skip, Requeue(RequeueAfter(window, o.clock.now)))
    else Weigh(trim, spec, s, cr, rec, window, o)
  }

  /** A run may start: is the change large enough? */
  function Weigh(trim: bool, spec: PolicySpec, s: Status, cr: CRState, rec: Recommendation, window: WindowResult,
                 o: Observation): Effect
  {
    if cr.Memory? then
      var s1 := s.(currentMemory := Some(cr.bytes));
      var gate := EvaluateChangeGates(cr.bytes, rec.memory, Some(spec.safetyGates));
      if gate.Blocked? then
        Effect(Blocking(trim, spec, s1, gate.reason, o), None, [], Skip, Requeue(RequeueAfter(window, o.clock.now)))
      else StartMaintenance(trim, spec, s1, cr, rec, o)
    else StartMaintenance(trim, spec, s, cr, rec, o)
  }

  function Blocking(trim: bool, spec: PolicySpec, s: Status, reason: Reason, o: Observation): Status {
    var s1 := s.(history := AddRecord(trim, s.history, SkippedRecord(o.clock.first, reason)));
    Set(spec, s1, MaintenanceInProgress, False, reason, Detail(o.gateText), o.clock.second)
  }

  function SkippedRecord(at: Time, reason: Reason): MaintenanceRecord {
    MaintenanceRecord(at, None, Skipped, NoPhase, Named(reason), None, None)
  }

  function StartedRecord(at: Time, previous: Option<int>, memory: int): MaintenanceRecord {
    MaintenanceRecord(at, None, InProgress, PatchApplied, Blank, previous, Some(memory))
  }

  function StartMaintenance(trim: bool, spec: PolicySpec, s: Status, cr: CRState, rec: Recommendation,
                            o: Observation): Effect {
    var params := Parameters(spec, o.params);
    if params.ParamsError? then Effect(Failing(spec, s, Detail(params.text), o), None, [], Misstart, Requeue(5 * 60))
    else
      var write := if PatchLands(cr, o.patch) then Some(Write(false, rec.memory, rec.cpu, params.values)) else None;
      if PatchFails(cr, o.patch) then
        Effect(Failing(spec, s, Detail(PatchError(o.patch)), o), write, [], Misstart, Requeue(5 * 60))
      else
        Effect(Starting(trim, spec, s, KnownMemory(cr), rec.memory, o), write, [], Start, Requeue(30))
  }

  function Starting(trim: bool, spec: PolicySpec, s: Status, previous: Option<int>, memory: int,
                    o: Observation): Status {
    var s1 := Set(spec, s, MaintenanceInProgress, True, MaintenanceStarted, Standard, o.clock.first);
    s1.(history := AddRecord(trim, s1.history, StartedRecord(o.clock.second, previous, memory)))
  }

  function Failing(spec: PolicySpec, s: Status, reason: Text, o: Observation): Status {
    var s1 := s.(history := MarkRecord(s.history, Failed, reason, o.clock.first));
    var s2 := Set(spec, s1, MaintenanceInProgress, False, MaintenanceFailed, reason, o.clock.second);
    Set(spec, s2, LastMaintenanceFailed, True, MaintenanceFailed, reason, o.clock.third)
  }

  function FailMaintenance(spec: PolicySpec, s: Status, reason: Text, restarted: seq<PostAction>,
                           o: Observation): Effect {
    Effect(Failing(spec, s, reason, o), None, restarted, Abort, Requeue(5 * 60))
  }

  function Completing(spec: PolicySpec, s: Status, memory: int, reason: Text, message: Text, o: Observation): Status {
    var s1 := s.(currentMemory := Some(memory), history := MarkRecord(s.history, Completed, reason, o.clock.first));
    var s2 := Set(spec, s1, MaintenanceInProgress, False, MaintenanceCompleted, message, o.clock.second);
    Set(spec, s2, LastMaintenanceFailed, False, MaintenanceSucceeded, Standard, o.clock.third)
  }

  /** Completes the run under way, unless its applied memory cannot be parsed. */
  function CompleteMaintenance(spec: PolicySpec, s: Status, reason: Text, message: Text, after: int,
                               o: Observation): Effect
    requires FindInProgress(s.history) >= 0
  {
    var applied := s.history[FindInProgress(s.history)].appliedMemory;
    if applied.None? then FailMaintenance(spec, s, Detail("parsing applied memory"), [], o)
    else Effect(Completing(spec, s, applied.value, reason, message, o), None, [], Finish, Requeue(after))
  }

  function Monitor(spec: PolicySpec, s: Status, window: WindowResult, o: Observation): Effect
    requires FindInProgress(s.history) >= 0
  {
    match s.history[FindInProgress(s.history)].phase
    case PatchApplied => AwaitRunning(spec, s, window, o)
    case PostActionsTriggered => AwaitPostActions(spec, s, window, o)
    case NoPhase => FailMaintenance(spec, s, Detail("unknown maintenance phase"), [], o)
  }

  function AwaitRunning(spec: PolicySpec, s: Status, window: WindowResult, o: Observation): Effect
    requires FindInProgress(s.history) >= 0
  {
    if o.health.HealthUnknown? then Stay(s, Errored)
    else if o.health.NotRunning? then Stay(s, Requeue(30))
    else if |spec.postActions| == 0 then
      CompleteMaintenance(spec, s, Blank, Standard, RequeueAfter(window, o.clock.now), o)
    else if TriggeredCount(spec.postActions, o.triggers) < |spec.postActions| then
      FailMaintenance(spec, s, Detail(o.triggerError),
                      spec.postActions[..RestartedCount(spec.postActions, o.triggers)], o)
    else Effect(Advancing(s), None, spec.postActions, Advance, Requeue(30))
  }

  function Advancing(s: Status): Status
    requires FindInProgress(s.history) >= 0
  {
    var i := FindInProgress(s.history);
    s.(history := s.history[i := s.history[i].(phase := PostActionsTriggered)])
  }

  function AwaitPostActions(spec: PolicySpec, s: Status, window: WindowResult, o: Observation): Effect
    requires FindInProgress(s.history) >= 0
  {
    match Completion(spec.postActions, o.checks)
    case CheckError => Stay(s, Errored)
    case NotDone => Stay(s, Requeue(30))
    case Done => CompleteMaintenance(spec, s, Blank, Standard, RequeueAfter(window, o.clock.now), o)
  }

  /** At the grace check: is everything this run still had to do done? CheckError when it cannot be told. */
  function GraceCheck(spec: PolicySpec, phase: Phase, o: Observation): TargetCheck {
    match phase
    case PostActionsTriggered => Completion(spec.postActions, o.checks)
    case PatchApplied => if |spec.postActions| > 0 then NotDone else Done
    case NoPhase => Done
  }

  function WindowExpired(spec: PolicySpec, s: Status, o: Observation): Effect
    requires FindInProgress(s.history) >= 0
  {
    if o.health.Running? && GraceCheck(spec, s.history[FindInProgress(s.history)].phase, o).Done? then
      CompleteMaintenance(spec, s, GracePeriod, GracePeriod, 5 * 60, o)
    else FailMaintenance(spec, s, Named(MaintenanceTimeout), [], o)
  }
}
