/** What one reconcile has to do, case by case and field by field, said without the functions that do it.
    Which case it is depends on what is stored and what is observed; the case settles every field. */
module Requirements {
  import opened Basics
  import opened PolicyTypes
  import opened Sizing
  import opened StatusBook
  import opened PostActions
  import opened ZalandoPatch
  import opened Decision

  // ---------------------------------------------------------------- what is stored

  /** The condition of this type, if there is one. */
  ghost function ConditionOf(s: Status, kind: ConditionType): Option<Condition> {
    var i := IndexOf(s.conditions, kind);
    if i < 0 then None else Some(s.conditions[i])
  }

  /** MaintenanceInProgress is True. */
  ghost predicate SaysInProgress(s: Status) {
    var c := ConditionOf(s, MaintenanceInProgress);
    c.Some? && c.value.status == True
  }

  ghost predicate HasInProgress(s: Status) {
    exists i :: 0 <= i < |s.history| && s.history[i].status.InProgress?
  }

  /** The first InProgress record. */
  ghost function RunRecord(s: Status): MaintenanceRecord
    requires HasInProgress(s)
  {
    s.history[FindInProgress(s.history)]
  }

  // ---------------------------------------------------------------- what is observed

  /** `now` is in the opening of the latest tick. */
  ghost predicate WindowOpen(spec: PolicySpec, o: Observation) {
    o.cronValid && o.prevTick.Some? && o.clock.now < o.prevTick.value + 60 * spec.timeoutMinutes
  }

  /** The cron expression says where the window stands. */
  ghost predicate WindowKnown(spec: PolicySpec, o: Observation) {
    o.cronValid && (WindowOpen(spec, o) || o.nextTick.Some?)
  }

  /** Seconds to five past the end of the opening, or past the next tick. */
  ghost function ToTheWindow(spec: PolicySpec, o: Observation): int
    requires WindowKnown(spec, o)
  {
    if WindowOpen(spec, o) then o.prevTick.value + 60 * spec.timeoutMinutes + 5 - o.clock.now
    else if o.nextTick.value < o.clock.now then 5
    else o.nextTick.value + 5 - o.clock.now
  }

  /** A Completed record started in the opening of the latest tick. */
  ghost predicate AlreadyDone(spec: PolicySpec, s: Status, o: Observation)
    requires WindowOpen(spec, o)
  {
    exists i :: 0 <= i < |s.history| && s.history[i].status.Completed? &&
                o.prevTick.value <= s.history[i].startedAt < o.prevTick.value + 60 * spec.timeoutMinutes
  }

  ghost predicate AllReported(spec: PolicySpec, o: Observation) {
    AllReportedOf(spec.postActions, o.triggers)
  }

  ghost predicate AllFoundDone(spec: PolicySpec, o: Observation) {
    AllFoundDoneOf(spec.postActions, o.checks)
  }

  /** The PostgreSQL parameters to write, if they can be computed: none when the policy lists none. */
  ghost function Computed(spec: PolicySpec, o: Observation): Option<map<string, string>> {
    if spec.postgresParameters == map[] then Some(map[])
    else if o.params.ParamsOk? then Some(o.params.values)
    else None
  }

  // ---------------------------------------------------------------- the cases

  datatype Case =
    | CrUnseen                      // the CR cannot be read
    | SeedUncomputed                // initial memory: its parameters cannot be computed,
    | SeedUnsent                    //   its patch fails,
    | Seeded                        //   or it is applied
    | VpaUnread                     // the VPA cannot be read
    | NoFigure                      // there is no recommendation
    | WindowUnknown                 // the cron expression gives no answer
    | Waits                         // a run under way in its window: it has to wait,
    | Errs                          //   its state cannot be told,
    | MovesOn                       //   all post-actions are triggered,
    | TriggerFails                  //   not all of them are,
    | Completes                     //   or it is done
    | CompletesLate                 // a run under way out of the window: it is done after all,
    | TimesOut                      //   or it is not
    | Garbled(why: string)          // a run under way whose record makes no sense
    | NotNow                        // no run: the window is shut or its opening used up
    | HealthUntold                  // the health of the cluster is asked for and cannot be told,
    | Unhealthy                     //   or it is bad
    | TooSmall(reason: Reason)      // the change is too small
    | Uncomputed                    // the run's parameters cannot be computed,
    | Unsent                        //   its patch fails,
    | Starts                        //   or it starts

  ghost predicate CrSeen(cr: CRState, o: Observation) {
    o.crReadable && cr != Malformed
  }

  ghost predicate WantsSeed(spec: PolicySpec, cr: CRState, o: Observation) {
    CrSeen(cr, o) && cr in {Absent, NoMemory} && spec.initialMemory != None
  }

  /** The reconcile gets to look for a recommendation. */
  ghost predicate LooksForFigure(spec: PolicySpec, cr: CRState, o: Observation) {
    CrSeen(cr, o) && (cr.Memory? || spec.initialMemory == None)
  }

  /** It gets to look at the run under way. */
  ghost predicate LooksAtRun(spec: PolicySpec, cr: CRState, o: Observation) {
    LooksForFigure(spec, cr, o) && ReadRecommendation(spec, o.vpa).Recommended? && WindowKnown(spec, o)
  }

  ghost predicate RunInWindow(spec: PolicySpec, s: Status, cr: CRState, o: Observation) {
    LooksAtRun(spec, cr, o) && SaysInProgress(s) && HasInProgress(s) && WindowOpen(spec, o)
  }

  ghost predicate RunLate(spec: PolicySpec, s: Status, cr: CRState, o: Observation) {
    LooksAtRun(spec, cr, o) && SaysInProgress(s) && HasInProgress(s) && !WindowOpen(spec, o)
  }

  /** No run is under way, and one may start. */
  ghost predicate MayRun(spec: PolicySpec, s: Status, cr: CRState, o: Observation) {
    && LooksAtRun(spec, cr, o) && !(SaysInProgress(s) && HasInProgress(s))
    && WindowOpen(spec, o) && !AlreadyDone(spec, s, o)
  }

  /** And health allows it. */
  ghost predicate Healthy(spec: PolicySpec, s: Status, cr: CRState, o: Observation) {
    MayRun(spec, s, cr, o) && (spec.safetyGates.requireHealthyCluster ==> o.health == Running)
  }

  /** And the change is large enough. */
  ghost predicate Attempts(spec: PolicySpec, s: Status, cr: CRState, o: Observation) {
    Healthy(spec, s, cr, o) && (cr.Memory? ==> Gate(spec, cr, o) == GateResult.Open)
  }

  ghost function Gate(spec: PolicySpec, cr: CRState, o: Observation): GateResult
    requires cr.Memory? && ReadRecommendation(spec, o.vpa).Recommended?
  {
    EvaluateChangeGates(cr.bytes, ReadRecommendation(spec, o.vpa).rec.memory, Some(spec.safetyGates))
  }

  /** In the window, the run has nothing left to do. */
  ghost predicate AtItsEnd(spec: PolicySpec, r: MaintenanceRecord, o: Observation) {
    || (r.phase == PatchApplied && o.health == Running && spec.postActions == [])
    || (r.phase == PostActionsTriggered && AllFoundDone(spec, o))
  }

  /** Out of the window, the cluster is back and the run has nothing left to do. */
  ghost predicate PassesGrace(spec: PolicySpec, r: MaintenanceRecord, o: Observation) {
    && o.health == Running
    && (r.phase == PatchApplied ==> spec.postActions == [])
    && (r.phase == PostActionsTriggered ==> AllFoundDone(spec, o))
  }

  ghost predicate InCase(c: Case, spec: PolicySpec, s: Status, cr: CRState, o: Observation) {
    match c
    case CrUnseen => !CrSeen(cr, o)
    case SeedUncomputed => WantsSeed(spec, cr, o) && Computed(spec, o).None?
    case SeedUnsent => WantsSeed(spec, cr, o) && Computed(spec, o).Some? && (cr == Absent || o.patch != Accepted)
    case Seeded => WantsSeed(spec, cr, o) && Computed(spec, o).Some? && cr == NoMemory && o.patch == Accepted
    case VpaUnread => LooksForFigure(spec, cr, o) && ReadRecommendation(spec, o.vpa).ReadFailed?
    case NoFigure => LooksForFigure(spec, cr, o) && ReadRecommendation(spec, o.vpa).Unavailable?
    case WindowUnknown =>
      LooksForFigure(spec, cr, o) && ReadRecommendation(spec, o.vpa).Recommended? && !WindowKnown(spec, o)
    case Waits =>
      && RunInWindow(spec, s, cr, o)
      && (|| (RunRecord(s).phase == PatchApplied && o.health == NotRunning)
          || (RunRecord(s).phase == PostActionsTriggered && StoppedBy(spec.postActions, o.checks, NotDone)))
    case Errs =>
      && RunInWindow(spec, s, cr, o)
      && (|| (RunRecord(s).phase == PatchApplied && o.health == HealthUnknown)
          || (RunRecord(s).phase == PostActionsTriggered && StoppedBy(spec.postActions, o.checks, CheckError)))
    case MovesOn =>
      && RunInWindow(spec, s, cr, o) && RunRecord(s).phase == PatchApplied && o.health == Running
      && spec.postActions != [] && AllReported(spec, o)
    case TriggerFails =>
      && RunInWindow(spec, s, cr, o) && RunRecord(s).phase == PatchApplied && o.health == Running
      && !AllReported(spec, o)
    case Completes =>
      RunInWindow(spec, s, cr, o) && AtItsEnd(spec, RunRecord(s), o) && RunRecord(s).appliedMemory != None
    case CompletesLate =>
      RunLate(spec, s, cr, o) && PassesGrace(spec, RunRecord(s), o) && RunRecord(s).appliedMemory != None
    case TimesOut => RunLate(spec, s, cr, o) && !PassesGrace(spec, RunRecord(s), o)
    case Garbled(why) =>
      if RunInWindow(spec, s, cr, o) && RunRecord(s).phase == NoPhase then why == "unknown maintenance phase"
      else
        && why == "parsing applied memory"
        && (|| (RunInWindow(spec, s, cr, o) && AtItsEnd(spec, RunRecord(s), o) && RunRecord(s).appliedMemory == None)
            || (RunLate(spec, s, cr, o) && PassesGrace(spec, RunRecord(s), o) && RunRecord(s).appliedMemory == None))
    case NotNow =>
      && LooksAtRun(spec, cr, o) && !(SaysInProgress(s) && HasInProgress(s))
      && (WindowOpen(spec, o) ==> AlreadyDone(spec, s, o))
    case HealthUntold =>
      MayRun(spec, s, cr, o) && spec.safetyGates.requireHealthyCluster && o.health == HealthUnknown
    case Unhealthy => MayRun(spec, s, cr, o) && spec.safetyGates.requireHealthyCluster && o.health == NotRunning
    case TooSmall(reason) => Healthy(spec, s, cr, o) && cr.Memory? && Gate(spec, cr, o) == Blocked(reason)
    case Uncomputed => Attempts(spec, s, cr, o) && Computed(spec, o).None?
    case Unsent => Attempts(spec, s, cr, o) && Computed(spec, o).Some? && (cr == Absent || o.patch != Accepted)
    case Starts => Attempts(spec, s, cr, o) && Computed(spec, o).Some? && cr != Absent && o.patch == Accepted
  }

  // ---------------------------------------------------------------- what each case gives

  ghost function MoveOf(c: Case): Move {
    match c
    case Seeded => Boot
    case MovesOn => Advance
    case Completes | CompletesLate => Finish
    case TriggerFails | TimesOut | Garbled(_) => Abort
    case Unhealthy | TooSmall(_) => Skip
    case Uncomputed | Unsent => Misstart
    case Starts => Start
    case _ => Idle
  }

  ghost predicate GivesResult(c: Case, spec: PolicySpec, o: Observation, result: ReconcileResult) {
    match c
    case Waits | MovesOn | Starts => result == Requeue(30)
    case Seeded => result == Requeue(60)
    case NoFigure | TriggerFails | CompletesLate | TimesOut | Garbled(_) | Uncomputed | Unsent => result == Requeue(300)
    case Completes | NotNow | Unhealthy | TooSmall(_) => WindowKnown(spec, o) && result == Requeue(ToTheWindow(spec, o))
    case _ => result == Errored
  }

  /** A patch that fails may have reached the CR all the same. */
  ghost predicate GivesWrite(c: Case, spec: PolicySpec, cr: CRState, o: Observation, write: Option<Write>) {
    if c in {SeedUnsent, Seeded, Unsent, Starts} && cr != Absent && !o.patch.Refused? then
      write.Some? && Writes(c in {SeedUnsent, Seeded}, spec, o, write.value)
    else write == None
  }

  /** The write is complete: memory, CPU and parameters. */
  ghost predicate Writes(seed: bool, spec: PolicySpec, o: Observation, write: Write) {
    && write.bootstrap == seed
    && Some(write.parameters) == Computed(spec, o)
    && (if seed then
          Some(write.memory) == spec.initialMemory && write.cpu.Some? && SeedCpu(write.memory, write.cpu.value)
        else ReadRecommendation(spec, o.vpa) == Recommended(Recommendation(write.memory, write.cpu)))
  }

  /** 100 thousandths of a core for each Gi, rounded down, and 100 at least. */
  ghost predicate SeedCpu(memory: int, cpu: int) {
    if memory < 1024 * 1024 * 1024 then cpu == 100
    else cpu * (1024 * 1024 * 1024) <= 100 * memory < (cpu + 1) * (1024 * 1024 * 1024)
  }

  ghost predicate GivesRestarts(c: Case, spec: PolicySpec, o: Observation, restarted: seq<PostAction>) {
    match c
    case MovesOn => restarted == spec.postActions
    case TriggerFails => CutShort(spec.postActions, o.triggers, restarted)
    case _ => restarted == []
  }

  /** The workloads a pass restarted that was not reported to work throughout. */
  ghost predicate CutShort(actions: seq<PostAction>, triggers: seq<TriggerOutcome>, restarted: seq<PostAction>) {
    exists i :: FirstUnreportedOf(actions, triggers, i) && restarted == RestartedUpTo(actions, triggers, i)
  }

  /** Why a run fails. */
  ghost function Why(c: Case, o: Observation): Text {
    match c
    case TriggerFails => Detail(o.triggerError)
    case TimesOut => Named(MaintenanceTimeout)
    case Garbled(why) => Detail(why)
    case Uncomputed => if o.params.ParamsError? then Detail(o.params.text) else Blank
    case Unsent => Detail(if o.patch.Accepted? then "not found" else o.patch.text)
    case _ => Blank
  }

  /** The first InProgress record, if there is one, is ended so; all others stay. */
  ghost predicate Ends(h: seq<MaintenanceRecord>, h': seq<MaintenanceRecord>, status: RunStatus, why: Text, at: Time) {
    var i := FindInProgress(h);
    && |h'| == |h|
    && (forall j :: 0 <= j < |h| && j != i ==> h'[j] == h[j])
    && (i >= 0 ==>
          && h'[i].status == status && h'[i].reason == why && h'[i].completedAt == Some(at)
          && h'[i].startedAt == h[i].startedAt && h'[i].phase == h[i].phase
          && h'[i].previousMemory == h[i].previousMemory && h'[i].appliedMemory == h[i].appliedMemory)
  }

  /** One more record, and the newest ten are kept, or all by the twin. */
  ghost predicate Adds(trim: bool, h: seq<MaintenanceRecord>, h': seq<MaintenanceRecord>, r: MaintenanceRecord) {
    h' == (h + [r])[if trim && |h| >= 10 then |h| - 9 else 0..]
  }

  ghost predicate GivesHistory(trim: bool, c: Case, spec: PolicySpec, cr: CRState, o: Observation,
                               h: seq<MaintenanceRecord>, h': seq<MaintenanceRecord>) {
    match c
    case Completes => Ends(h, h', Completed, Blank, o.clock.first)
    case CompletesLate => Ends(h, h', Completed, GracePeriod, o.clock.first)
    case TriggerFails | TimesOut | Garbled(_) | Uncomputed | Unsent => Ends(h, h', Failed, Why(c, o), o.clock.first)
    case MovesOn =>
      var i := FindInProgress(h);
      i >= 0 && h' == h[i := h[i].(phase := PostActionsTriggered)]
    case Unhealthy =>
      Adds(trim, h, h', MaintenanceRecord(o.clock.first, None, Skipped, NoPhase, Named(ClusterUnhealthy), None, None))
    case TooSmall(reason) =>
      Adds(trim, h, h', MaintenanceRecord(o.clock.first, None, Skipped, NoPhase, Named(reason), None, None))
    case Starts =>
      && ReadRecommendation(spec, o.vpa).Recommended?
      && Adds(trim, h, h', MaintenanceRecord(o.clock.second, None, InProgress, PatchApplied, Blank,
                                             if cr.Memory? then Some(cr.bytes) else None,
                                             Some(ReadRecommendation(spec, o.vpa).rec.memory)))
    case _ => h' == h
  }

  ghost predicate GivesMemory(c: Case, spec: PolicySpec, s: Status, cr: CRState, o: Observation, s': Status) {
    && s'.currentMemory == (match c
                            case Seeded => spec.initialMemory
                            case Completes | CompletesLate =>
                              if HasInProgress(s) then RunRecord(s).appliedMemory else s.currentMemory
                            case TooSmall(_) | Uncomputed | Unsent | Starts =>
                              if cr.Memory? then Some(cr.bytes) else s.currentMemory
                            case _ => s.currentMemory)
    && s'.memoryTarget == (match ReadRecommendation(spec, o.vpa)
                           case Recommended(rec) =>
                             if IsRunCase(c) || c == WindowUnknown then Some(rec.memory) else s.memoryTarget
                           case _ => s.memoryTarget)
  }

  // ---------------------------------------------------------------- the conditions

  /** What a condition of this type becomes when it is told so: it keeps its date as long as its status
      stays, and everything when it is only told the same again. */
  ghost function Told(spec: PolicySpec, c: Option<Condition>, kind: ConditionType, status: ConditionStatus,
                      reason: Reason, message: Text, at: Time): Option<Condition>
  {
    if c.None? then Some(Condition(kind, status, reason, message, at, spec.generation))
    else if c.value.status == status && c.value.reason == reason && c.value.message == message then c
    else
      var since := if c.value.status == status then c.value.lastTransitionTime else at;
      Some(Condition(kind, status, reason, message, since, spec.generation))
  }

  /** MaintenanceInProgress once a stale one has been cleared. */
  ghost function Cleared(spec: PolicySpec, s: Status, o: Observation): Option<Condition> {
    var c := ConditionOf(s, MaintenanceInProgress);
    if SaysInProgress(s) && !HasInProgress(s) then
      Told(spec, c, MaintenanceInProgress, False, StaleConditionCleared, Standard, o.clock.stale)
    else c
  }

  ghost function Readiness(c: Case, spec: PolicySpec, s: Status, o: Observation): Option<Condition> {
    var was := ConditionOf(s, VPARecommendationReady);
    match c
    case CrUnseen | SeedUncomputed | SeedUnsent | Seeded | VpaUnread => was
    case NoFigure =>
      (match ReadRecommendation(spec, o.vpa)
       case Unavailable(reason, message) =>
         Told(spec, was, VPARecommendationReady, False, reason, message, o.clock.sync)
       case _ => was)
    case _ => Told(spec, was, VPARecommendationReady, True, Ready, Standard, o.clock.sync)
  }

  ghost function Progress(c: Case, spec: PolicySpec, was: Option<Condition>, o: Observation): Option<Condition> {
    match c
    case Starts => Told(spec, was, MaintenanceInProgress, True, MaintenanceStarted, Standard, o.clock.first)
    case Completes => Told(spec, was, MaintenanceInProgress, False, MaintenanceCompleted, Standard, o.clock.second)
    case CompletesLate =>
      Told(spec, was, MaintenanceInProgress, False, MaintenanceCompleted, GracePeriod, o.clock.second)
    case TriggerFails | TimesOut | Garbled(_) | Uncomputed | Unsent =>
      Told(spec, was, MaintenanceInProgress, False, MaintenanceFailed, Why(c, o), o.clock.second)
    case TooSmall(reason) =>
      Told(spec, was, MaintenanceInProgress, False, reason, Detail(o.gateText), o.clock.second)
    case _ => was
  }

  ghost function Failure(c: Case, spec: PolicySpec, was: Option<Condition>, o: Observation): Option<Condition> {
    match c
    case Completes | CompletesLate =>
      Told(spec, was, LastMaintenanceFailed, False, MaintenanceSucceeded, Standard, o.clock.third)
    case TriggerFails | TimesOut | Garbled(_) | Uncomputed | Unsent =>
      Told(spec, was, LastMaintenanceFailed, True, MaintenanceFailed, Why(c, o), o.clock.third)
    case _ => was
  }

  /** The reconcile gets to look at the run under way. */
  ghost predicate IsRunCase(c: Case) {
    c !in {CrUnseen, SeedUncomputed, SeedUnsent, Seeded, VpaUnread, NoFigure, WindowUnknown}
  }

  /** No condition moves, and none comes twice. */
  ghost predicate KeepsPlaces(c: seq<Condition>, c': seq<Condition>) {
    && |c| <= |c'| && (forall i :: 0 <= i < |c| ==> c'[i].kind == c[i].kind)
    && (AtMostOneOfEach(c) ==> AtMostOneOfEach(c'))
  }

  ghost predicate GivesConditions(c: Case, spec: PolicySpec, s: Status, o: Observation, s': Status) {
    && (c in {CrUnseen, SeedUncomputed, SeedUnsent, Seeded, VpaUnread} ==> s'.conditions == s.conditions)
    && KeepsPlaces(s.conditions, s'.conditions)
    && ConditionOf(s', VPARecommendationReady) == Readiness(c, spec, s, o)
    && ConditionOf(s', MaintenanceInProgress) ==
       Progress(c, spec, if IsRunCase(c) then Cleared(spec, s, o) else ConditionOf(s, MaintenanceInProgress), o)
    && ConditionOf(s', LastMaintenanceFailed) == Failure(c, spec, ConditionOf(s, LastMaintenanceFailed), o)
  }

  /** Everything a case gives. */
  ghost predicate Gives(trim: bool, c: Case, spec: PolicySpec, s: Status, cr: CRState, o: Observation, e: Effect) {
    && e.move == MoveOf(c)
    && GivesResult(c, spec, o, e.result)
    && GivesWrite(c, spec, cr, o, e.write)
    && GivesRestarts(c, spec, o, e.restarted)
    && GivesHistory(trim, c, spec, cr, o, s.history, e.status.history)
    && GivesMemory(c, spec, s, cr, o, e.status)
    && GivesConditions(c, spec, s, o, e.status)
  }
}
