/** What a reconcile can do to the status, move by move: the facts about module Decision that the
    guarantees over whole runs are built from. */
module Shapes {
  import opened Basics
  import opened PolicyTypes
  import opened Cron
  import opened Sizing
  import opened StatusBook
  import opened PostActions
  import opened ZalandoPatch
  import opened Decision
  import opened Dates
  import opened Requirements
  import opened RequirementsMet

  predicate Busy(s: Status) {
    IsTrue(s.conditions, MaintenanceInProgress)
  }

  predicate LastFailed(s: Status) {
    IsTrue(s.conditions, LastMaintenanceFailed)
  }

  /** The latest tick has an opening that `now` is in, and the guard lets a run through. */
  ghost predicate MayStart(spec: PolicySpec, s: Status, o: Observation) {
    && o.cronValid && o.prevTick.Some?
    && o.clock.now < o.prevTick.value + WindowSeconds(spec.timeoutMinutes)
    && !HasCompleted(s.history, o.prevTick.value, o.prevTick.value + WindowSeconds(spec.timeoutMinutes))
    && !UnderWay(s)
  }

  /** The CR could be read, and it is not one that initial memory goes into. */
  ghost predicate PastBootstrap(spec: PolicySpec, cr: CRState, o: Observation) {
    o.crReadable && !cr.Malformed? && (cr.Memory? || spec.initialMemory.None?)
  }

  /** A recommendation is read and a run may be considered: the window is open and nothing stands against it. */
  ghost predicate Considered(spec: PolicySpec, s: Status, cr: CRState, o: Observation) {
    PastBootstrap(spec, cr, o) && ReadRecommendation(spec, o.vpa).Recommended? && MayStart(spec, s, o)
  }

  ghost predicate HealthAllows(spec: PolicySpec, o: Observation) {
    spec.safetyGates.requireHealthyCluster ==> o.health.Running?
  }

  /** The sized recommendation. */
  ghost function Target(spec: PolicySpec, o: Observation): int
    requires ReadRecommendation(spec, o.vpa).Recommended?
  {
    ReadRecommendation(spec, o.vpa).rec.memory
  }

  ghost predicate ChangeAllows(spec: PolicySpec, cr: CRState, o: Observation)
    requires ReadRecommendation(spec, o.vpa).Recommended?
  {
    cr.Memory? ==> EvaluateChangeGates(cr.bytes, Target(spec, o), Some(spec.safetyGates)).Open?
  }

  /** A maintenance run is attempted. */
  ghost predicate Attempted(spec: PolicySpec, s: Status, cr: CRState, o: Observation) {
    Considered(spec, s, cr, o) && HealthAllows(spec, o) && ChangeAllows(spec, cr, o)
  }

  predicate IsMaintenance(write: Option<Write>) {
    write.Some? && !write.value.bootstrap
  }

  /** A maintenance write sends the sized recommendation. */
  ghost predicate MaintenanceWrite(spec: PolicySpec, o: Observation, write: Option<Write>)
    requires ReadRecommendation(spec, o.vpa).Recommended?
  {
    IsMaintenance(write) && write.value.memory == Target(spec, o)
  }

  /** A bootstrap writes the initial memory into a CR that has none. */
  ghost predicate BootstrapWrite(spec: PolicySpec, cr: CRState, write: Option<Write>) {
    && write.Some? && write.value.bootstrap && spec.initialMemory == Some(write.value.memory)
    && cr.NoMemory?
  }

  /** The run of record `i` has earned completion: seen at this very reconcile. */
  ghost predicate Earned(spec: PolicySpec, phase: Phase, o: Observation) {
    match phase
    case PatchApplied => o.health.Running? && spec.postActions == []
    case PostActionsTriggered => Completion(spec.postActions, o.checks).Done?
    case NoPhase => o.health.Running?
  }

  ghost function Current(s: Status): MaintenanceRecord
    requires FindInProgress(s.history) >= 0
  {
    s.history[FindInProgress(s.history)]
  }

  /** The history is the old one with the record under way changed to `r`. */
  ghost predicate Replaced(s: Status, s': Status, r: MaintenanceRecord) {
    FindInProgress(s.history) >= 0 && s'.history == s.history[FindInProgress(s.history) := r]
  }

  /** The history is the old one with the record under way ended, for some reason. */
  ghost predicate Ended(s: Status, s': Status, status: RunStatus, at: Time) {
    && 0 <= FindInProgress(s.history) < |s'.history|
    && var reason := s'.history[FindInProgress(s.history)].reason;
       Replaced(s, s', Current(s).(status := status, reason := reason, completedAt := Some(at)))
  }

  /** The history has one more record, of a run skipped for some reason. */
  ghost predicate SkipAdded(trim: bool, h: seq<MaintenanceRecord>, h': seq<MaintenanceRecord>, at: Time) {
    && |h'| > 0 && h'[|h'| - 1].reason.Named?
    && h' == AddRecord(trim, h, SkippedRecord(at, h'[|h'| - 1].reason.reason))
  }

  ghost predicate KeepsConditions(s: Status, s': Status) {
    Busy(s') == Busy(s) && LastFailed(s') == LastFailed(s)
  }

  ghost predicate ShapeOf(trim: bool, spec: PolicySpec, s: Status, cr: CRState, o: Observation, e: Effect) {
    match e.move
    case Idle =>
      && e.status.history == s.history && LastFailed(e.status) == LastFailed(s) && e.restarted == []
      && (UnderWay(s) ==> Busy(e.status)) && (Busy(e.status) ==> Busy(s))
      && (e.write.None? || BootstrapWrite(spec, cr, e.write))
    case Boot =>
      && e.status.history == s.history && KeepsConditions(s, e.status) && e.restarted == []
      && BootstrapWrite(spec, cr, e.write) && e.status.currentMemory == spec.initialMemory
    case Skip =>
      && MayStart(spec, s, o) && e.write.None? && e.restarted == []
      && SkipAdded(trim, s.history, e.status.history, o.clock.first)
      && (Busy(e.status) ==> Busy(s)) && LastFailed(e.status) == LastFailed(s)
    case Start => Attempted(spec, s, cr, o) && Started(trim, spec, s, cr, o, e)
    case Misstart => Attempted(spec, s, cr, o) && Misstarted(spec, s, o, e)
    case Advance =>
      && UnderWay(s) && Replaced(s, e.status, Current(s).(phase := PostActionsTriggered))
      && KeepsConditions(s, e.status) && e.write.None? && e.restarted == spec.postActions
      && Current(s).phase.PatchApplied? && o.health.Running? && spec.postActions != []
      && AllReported(spec, o)
    case Finish =>
      && UnderWay(s) && !Busy(e.status) && !LastFailed(e.status) && e.write.None? && e.restarted == []
      && Ended(s, e.status, Completed, o.clock.first) && Earned(spec, Current(s).phase, o)
      && Current(s).appliedMemory.Some? && e.status.currentMemory == Current(s).appliedMemory
    case Abort =>
      && UnderWay(s) && !Busy(e.status) && LastFailed(e.status) && e.write.None?
      && Ended(s, e.status, Failed, o.clock.first)
      && (e.restarted != [] ==>
            && Current(s).phase.PatchApplied? && !AllReported(spec, o)
            && CutShort(spec.postActions, o.triggers, e.restarted))
  }

  ghost predicate Started(trim: bool, spec: PolicySpec, s: Status, cr: CRState, o: Observation, e: Effect)
    requires ReadRecommendation(spec, o.vpa).Recommended?
  {
    && MaintenanceWrite(spec, o, e.write) && e.restarted == []
    && PatchLands(cr, o.patch) && o.patch.Accepted?
    && e.status.history ==
       AddRecord(trim, s.history, StartedRecord(o.clock.second, KnownMemory(cr), Target(spec, o)))
    && Busy(e.status) && LastFailed(e.status) == LastFailed(s)
  }

  ghost predicate Misstarted(spec: PolicySpec, s: Status, o: Observation, e: Effect)
    requires ReadRecommendation(spec, o.vpa).Recommended?
  {
    && e.restarted == []
    && (e.write.None? || (MaintenanceWrite(spec, o, e.write) && o.patch.AcceptedWithError?))
    && (if FindInProgress(s.history) < 0 then e.status.history == s.history
        else Ended(s, e.status, Failed, o.clock.first))
    && !Busy(e.status) && LastFailed(e.status)
  }

  // ---------------------------------------------------------------- what a reconcile shows

  const LONGEST_FIXED_WAIT := 5 * 60

  /** The wake-ups a reconcile can ask for: after half a minute, one minute or five, or by the window. */
  ghost predicate UsualWakeUp(spec: PolicySpec, o: Observation, result: ReconcileResult) {
    result.Requeue? ==>
      || result.after in {30, 60, LONGEST_FIXED_WAIT}
      || (WindowNow(spec, o).Evaluated? && result.after == RequeueAfter(WindowNow(spec, o).window, o.clock.now))
  }

  /** What a handler shows that starts from `s`: it dates the conditions about runs, leaves the
      recommendation alone, and asks for a usual wake-up, half a minute when a run has just moved on or waits. */
  ghost predicate HandlerSigns(spec: PolicySpec, s: Status, o: Observation, e: Effect) {
    && DatesRun(spec.generation, s.conditions, e.status.conditions, e.move, o.clock)
    && e.status.memoryTarget == s.memoryTarget
    && UsualWakeUp(spec, o, e.result)
    && (e.move in {Start, Advance} ==> e.result == Requeue(30))
    && (UnderWay(s) && e.move.Idle? ==> e.result in {Requeue(30), Errored})
  }

  ghost predicate SameRecommendation(s: Status, s': Status) {
    && StatusOf(s'.conditions, VPARecommendationReady) == StatusOf(s.conditions, VPARecommendationReady)
    && s'.memoryTarget == s.memoryTarget
  }

  /** VPARecommendationReady and memoryTarget tell the latest recommendation read: True and the sized
      target when there was one, False and the old target when there was none, and no change when the
      reconcile did not get to know. */
  ghost predicate TellsRecommendation(spec: PolicySpec, s: Status, cr: CRState, o: Observation, s': Status) {
    var read := ReadRecommendation(spec, o.vpa);
    if PastBootstrap(spec, cr, o) && read.Recommended? then
      IsTrue(s'.conditions, VPARecommendationReady) && s'.memoryTarget == Some(read.rec.memory)
    else if PastBootstrap(spec, cr, o) && read.Unavailable? then
      StatusOf(s'.conditions, VPARecommendationReady) == Some(False) && s'.memoryTarget == s.memoryTarget
    else SameRecommendation(s, s')
  }

  /** The reconcile has read everything it needs before it looks at the run under way. */
  ghost predicate Informed(spec: PolicySpec, cr: CRState, o: Observation) {
    PastBootstrap(spec, cr, o) && ReadRecommendation(spec, o.vpa).Recommended? && WindowNow(spec, o).Evaluated?
  }

  ghost predicate InWindowNow(spec: PolicySpec, o: Observation) {
    WindowNow(spec, o).Evaluated? && WindowNow(spec, o).window.inWindow
  }

  /** The grace check passes for this record. */
  ghost predicate GracePasses(spec: PolicySpec, r: MaintenanceRecord, o: Observation) {
    o.health.Running? && GraceCheck(spec, r.phase, o).Done? && r.appliedMemory.Some?
  }

  /** What becomes of the run under way: nothing when the reconcile does not get to look at it; in the
      window it waits or moves on; and out of the window the grace check decides. */
  ghost predicate MovesRun(spec: PolicySpec, s: Status, cr: CRState, o: Observation, e: Effect)
    requires UnderWay(s)
  {
    if !Informed(spec, cr, o) then e.move in {Idle, Boot}
    else if InWindowNow(spec, o) then
      e.move in {Idle, Advance, Finish, Abort} && (e.move.Idle? ==> e.result in {Requeue(30), Errored})
    else e.move == if GracePasses(spec, Current(s), o) then Finish else Abort
  }

  /** What a whole reconcile shows. */
  ghost predicate SignsOf(spec: PolicySpec, s: Status, cr: CRState, o: Observation, e: Effect) {
    && (!Stale(s) ==> DatesAll(spec.generation, s.conditions, e.status.conditions, e.move, o.clock))
    && TellsRecommendation(spec, s, cr, o, e.status)
    && UsualWakeUp(spec, o, e.result)
    && (e.move in {Start, Advance} ==> InWindowNow(spec, o) && e.result == Requeue(30))
    && (UnderWay(s) ==> MovesRun(spec, s, cr, o, e))
  }

  // ---------------------------------------------------------------- every reconcile has such a shape

  /** The words used here and those of the requirements. */
  lemma WordsAgree(spec: PolicySpec, s: Status, cr: CRState, o: Observation)
    ensures UnderWay(s) <==> SaysInProgress(s) && HasInProgress(s)
    ensures Stale(s) <==> SaysInProgress(s) && !HasInProgress(s)
    ensures HasInProgress(s) <==> FindInProgress(s.history) >= 0
    ensures Busy(s) <==> SaysInProgress(s)
    ensures PastBootstrap(spec, cr, o) <==> LooksForFigure(spec, cr, o)
    ensures Informed(spec, cr, o) <==> LooksAtRun(spec, cr, o)
    ensures InWindowNow(spec, o) <==> WindowOpen(spec, o)
    ensures Considered(spec, s, cr, o) <==> MayRun(spec, s, cr, o)
    ensures Attempted(spec, s, cr, o) <==> Attempts(spec, s, cr, o)
  {
    RunUnderWay(s);
    WindowSeen(spec, s, o);
  }

  /** What a case makes of the two conditions about runs. */
  ghost predicate StatusesRight(c: Case, s: Status, s': Status) {
    && (Busy(s') <==>
          if c.Starts? then true
          else if MoveOf(c) in {Finish, Abort, Misstart} || c.TooSmall? then false
          else if IsRunCase(c) then UnderWay(s) else Busy(s))
    && (LastFailed(s') <==>
          if MoveOf(c) in {Abort, Misstart} then true else if MoveOf(c) == Finish then false else LastFailed(s))
  }

  ghost predicate IsTold(c: Option<Condition>) {
    c.Some? && c.value.status == True
  }

  lemma StatusesTold(s: Status)
    ensures Busy(s) <==> IsTold(ConditionOf(s, MaintenanceInProgress))
    ensures LastFailed(s) <==> IsTold(ConditionOf(s, LastMaintenanceFailed))
  {
  }

  lemma ProgressTold(c: Case, spec: PolicySpec, was: Option<Condition>, o: Observation)
    ensures IsTold(Progress(c, spec, was, o)) <==>
              c.Starts? || (MoveOf(c) !in {Finish, Abort, Misstart} && !c.TooSmall? && IsTold(was))
    ensures IsTold(Failure(c, spec, was, o)) <==>
              MoveOf(c) in {Abort, Misstart} || (MoveOf(c) != Finish && IsTold(was))
  {
  }

  lemma CaseStatuses(c: Case, spec: PolicySpec, s: Status, o: Observation, s': Status)
    requires GivesConditions(c, spec, s, o, s')
    ensures StatusesRight(c, s, s')
  {
    RunUnderWay(s);
    StatusesTold(s);
    StatusesTold(s');
    ProgressTold(c, spec, Cleared(spec, s, o), o);
    ProgressTold(c, spec, ConditionOf(s, MaintenanceInProgress), o);
    ProgressTold(c, spec, ConditionOf(s, LastMaintenanceFailed), o);
  }

  /** Everything a case gives but its conditions. */
  ghost predicate GivesRest(trim: bool, c: Case, spec: PolicySpec, s: Status, cr: CRState, o: Observation, e: Effect) {
    && InCase(c, spec, s, cr, o) && e.move == MoveOf(c)
    && GivesWrite(c, spec, cr, o, e.write) && GivesRestarts(c, spec, o, e.restarted)
    && GivesHistory(trim, c, spec, cr, o, s.history, e.status.history)
    && GivesMemory(c, spec, s, cr, o, e.status) && StatusesRight(c, s, e.status)
  }

  lemma IdleShape(trim: bool, c: Case, spec: PolicySpec, s: Status, cr: CRState, o: Observation, e: Effect)
    requires GivesRest(trim, c, spec, s, cr, o, e) && MoveOf(c) in {Idle, Boot}
    ensures ShapeOf(trim, spec, s, cr, o, e)
  {
    WordsAgree(spec, s, cr, o);
  }

  lemma SkipShape(trim: bool, c: Case, spec: PolicySpec, s: Status, cr: CRState, o: Observation, e: Effect)
    requires GivesRest(trim, c, spec, s, cr, o, e) && MoveOf(c) == Skip
    ensures ShapeOf(trim, spec, s, cr, o, e)
  {
    WordsAgree(spec, s, cr, o);
    assert SkipAdded(trim, s.history, e.status.history, o.clock.first);
  }

  lemma StartShape(trim: bool, spec: PolicySpec, s: Status, cr: CRState, o: Observation, e: Effect)
    requires GivesRest(trim, Starts, spec, s, cr, o, e)
    ensures ShapeOf(trim, spec, s, cr, o, e)
  {
    WordsAgree(spec, s, cr, o);
    assert Started(trim, spec, s, cr, o, e);
  }

  lemma MisstartShape(trim: bool, c: Case, spec: PolicySpec, s: Status, cr: CRState, o: Observation, e: Effect)
    requires GivesRest(trim, c, spec, s, cr, o, e) && MoveOf(c) == Misstart
    ensures ShapeOf(trim, spec, s, cr, o, e)
  {
    WordsAgree(spec, s, cr, o);
    EndsIsEnded(s, e.status, Failed, Why(c, o), o.clock.first);
    assert Misstarted(spec, s, o, e);
  }

  lemma EndsIsEnded(s: Status, s': Status, status: RunStatus, why: Text, at: Time)
    requires Ends(s.history, s'.history, status, why, at)
    ensures if FindInProgress(s.history) < 0 then s'.history == s.history else Ended(s, s', status, at)
  {
  }

  lemma AdvanceShape(trim: bool, spec: PolicySpec, s: Status, cr: CRState, o: Observation, e: Effect)
    requires GivesRest(trim, MovesOn, spec, s, cr, o, e)
    ensures ShapeOf(trim, spec, s, cr, o, e)
  {
    WordsAgree(spec, s, cr, o);
  }

  lemma FinishShape(trim: bool, c: Case, spec: PolicySpec, s: Status, cr: CRState, o: Observation, e: Effect)
    requires GivesRest(trim, c, spec, s, cr, o, e) && MoveOf(c) == Finish
    ensures ShapeOf(trim, spec, s, cr, o, e)
  {
    WordsAgree(spec, s, cr, o);
    EndsIsEnded(s, e.status, Completed, e.status.history[FindInProgress(s.history)].reason, o.clock.first);
    CompletionMeans(spec.postActions, o.checks);
    assert Earned(spec, Current(s).phase, o);
  }

  lemma AbortShape(trim: bool, c: Case, spec: PolicySpec, s: Status, cr: CRState, o: Observation, e: Effect)
    requires GivesRest(trim, c, spec, s, cr, o, e) && MoveOf(c) == Abort
    ensures ShapeOf(trim, spec, s, cr, o, e)
  {
    WordsAgree(spec, s, cr, o);
    AbortFacts(c, spec, s, cr, o, e);
    FailedHistory(trim, c, spec, cr, o, s.history, e.status.history);
    EndsIsEnded(s, e.status, Failed, Why(c, o), o.clock.first);
  }

  lemma FailedHistory(trim: bool, c: Case, spec: PolicySpec, cr: CRState, o: Observation,
                      h: seq<MaintenanceRecord>, h': seq<MaintenanceRecord>)
    requires GivesHistory(trim, c, spec, cr, o, h, h') && MoveOf(c) in {Abort, Misstart}
    ensures Ends(h, h', Failed, Why(c, o), o.clock.first)
  {
  }

  lemma AbortFacts(c: Case, spec: PolicySpec, s: Status, cr: CRState, o: Observation, e: Effect)
    requires InCase(c, spec, s, cr, o) && MoveOf(c) == Abort
    requires GivesWrite(c, spec, cr, o, e.write) && GivesRestarts(c, spec, o, e.restarted)
    ensures SaysInProgress(s) && HasInProgress(s) && e.write.None?
    ensures e.restarted != [] ==>
              && RunRecord(s).phase == PatchApplied && !AllReported(spec, o)
              && CutShort(spec.postActions, o.triggers, e.restarted)
  {
  }

  lemma CaseShape(trim: bool, c: Case, spec: PolicySpec, s: Status, cr: CRState, o: Observation, e: Effect)
    requires GivesRest(trim, c, spec, s, cr, o, e)
    ensures ShapeOf(trim, spec, s, cr, o, e)
  {
    match e.move
    case Idle | Boot => IdleShape(trim, c, spec, s, cr, o, e);
    case Skip => SkipShape(trim, c, spec, s, cr, o, e);
    case Start => StartShape(trim, spec, s, cr, o, e);
    case Misstart => MisstartShape(trim, c, spec, s, cr, o, e);
    case Advance => AdvanceShape(trim, spec, s, cr, o, e);
    case Finish => FinishShape(trim, c, spec, s, cr, o, e);
    case Abort => AbortShape(trim, c, spec, s, cr, o, e);
  }

  // ---------------------------------------------------------------- and such signs

  lemma CaseDates(trim: bool, c: Case, spec: PolicySpec, s: Status, cr: CRState, o: Observation, e: Effect)
    requires InCase(c, spec, s, cr, o) && Gives(trim, c, spec, s, cr, o, e) && !Stale(s)
    ensures forall kind :: Dated(s.conditions, e.status.conditions, kind, e.move, o.clock)
  {
    WordsAgree(spec, s, cr, o);
    assert Cleared(spec, s, o) == ConditionOf(s, MaintenanceInProgress);
    forall kind: ConditionType ensures Dated(s.conditions, e.status.conditions, kind, e.move, o.clock) {
      match kind
      case VPARecommendationReady => ReadinessDates(c, spec, s, o, e);
      case MaintenanceInProgress => ProgressDates(c, spec, s, o, e);
      case LastMaintenanceFailed => FailureDates(c, spec, s, o, e);
    }
  }

  lemma ReadinessDates(c: Case, spec: PolicySpec, s: Status, o: Observation, e: Effect)
    requires ConditionOf(e.status, VPARecommendationReady) == Readiness(c, spec, s, o)
    ensures Dated(s.conditions, e.status.conditions, VPARecommendationReady, e.move, o.clock)
  {
  }

  lemma ProgressDates(c: Case, spec: PolicySpec, s: Status, o: Observation, e: Effect)
    requires ConditionOf(e.status, MaintenanceInProgress) == Progress(c, spec, ConditionOf(s, MaintenanceInProgress), o)
    requires e.move == MoveOf(c)
    ensures Dated(s.conditions, e.status.conditions, MaintenanceInProgress, e.move, o.clock)
  {
  }

  lemma FailureDates(c: Case, spec: PolicySpec, s: Status, o: Observation, e: Effect)
    requires ConditionOf(e.status, LastMaintenanceFailed) == Failure(c, spec, ConditionOf(s, LastMaintenanceFailed), o)
    ensures Dated(s.conditions, e.status.conditions, LastMaintenanceFailed, e.move, o.clock)
  {
  }

  /** Every condition is of the policy's generation as long as all were. */
  lemma CaseTidies(trim: bool, c: Case, spec: PolicySpec, s: Status, cr: CRState, o: Observation, e: Effect)
    requires Gives(trim, c, spec, s, cr, o, e)
    ensures KeepsTidy(spec.generation, s.conditions, e.status.conditions)
  {
    if Tidy(s.conditions, spec.generation) {
      var after := e.status.conditions;
      forall i | 0 <= i < |after| ensures after[i].observedGeneration == spec.generation {
        OfItsKind(e.status, i);
        GenerationsKept(c, spec, s, o);
        assert GivesConditions(c, spec, s, o, e.status);
        match after[i].kind
        case VPARecommendationReady =>
        case MaintenanceInProgress =>
        case LastMaintenanceFailed =>
      }
    }
  }

  lemma OfItsKind(s: Status, i: nat)
    requires AtMostOneOfEach(s.conditions) && i < |s.conditions|
    ensures ConditionOf(s, s.conditions[i].kind) == Some(s.conditions[i])
  {
  }

  ghost predicate OfGeneration(spec: PolicySpec, c: Option<Condition>) {
    c.Some? ==> c.value.observedGeneration == spec.generation
  }

  lemma GenerationsKept(c: Case, spec: PolicySpec, s: Status, o: Observation)
    requires Tidy(s.conditions, spec.generation)
    ensures OfGeneration(spec, Readiness(c, spec, s, o))
    ensures OfGeneration(spec, Progress(c, spec, Cleared(spec, s, o), o))
    ensures OfGeneration(spec, Progress(c, spec, ConditionOf(s, MaintenanceInProgress), o))
    ensures OfGeneration(spec, Failure(c, spec, ConditionOf(s, LastMaintenanceFailed), o))
  {
  }

  lemma CaseTells(c: Case, spec: PolicySpec, s: Status, cr: CRState, o: Observation, s': Status)
    requires InCase(c, spec, s, cr, o) && GivesMemory(c, spec, s, cr, o, s')
    requires ConditionOf(s', VPARecommendationReady) == Readiness(c, spec, s, o)
    ensures TellsRecommendation(spec, s, cr, o, s')
  {
    WordsAgree(spec, s, cr, o);
    PartOf(c, spec, s, cr, o);
    ReadinessStatus(s);
    ReadinessStatus(s');
  }

  lemma ReadinessStatus(s: Status)
    ensures StatusOf(s.conditions, VPARecommendationReady) ==
            match ConditionOf(s, VPARecommendationReady) case None => None case Some(c) => Some(c.status)
  {
  }

  lemma CaseWakes(c: Case, spec: PolicySpec, s: Status, cr: CRState, o: Observation, result: ReconcileResult)
    requires InCase(c, spec, s, cr, o) && GivesResult(c, spec, o, result)
    ensures UsualWakeUp(spec, o, result)
    ensures MoveOf(c) in {Start, Advance} ==> InWindowNow(spec, o) && result == Requeue(30)
  {
    WordsAgree(spec, s, cr, o);
    WindowSeen(spec, s, o);
  }

  lemma CaseMovesRun(c: Case, spec: PolicySpec, s: Status, cr: CRState, o: Observation, e: Effect)
    requires InCase(c, spec, s, cr, o) && e.move == MoveOf(c) && GivesResult(c, spec, o, e.result) && UnderWay(s)
    ensures MovesRun(spec, s, cr, o, e)
  {
    WordsAgree(spec, s, cr, o);
    PartOf(c, spec, s, cr, o);
    CompletionMeans(spec.postActions, o.checks);
    if RunLate(spec, s, cr, o) {
      assert GracePasses(spec, Current(s), o) <==>
               PassesGrace(spec, RunRecord(s), o) && RunRecord(s).appliedMemory != None;
    }
  }

  /** Every reconcile, from any status whatever, does one of the things ShapeOf lists, and shows what SignsOf says. */
  lemma ReconcileShape(trim: bool, spec: PolicySpec, s: Status, cr: CRState, o: Observation)
    ensures var e := Reconcile(trim, spec, s, cr, o);
            ShapeOf(trim, spec, s, cr, o, e) && SignsOf(spec, s, cr, o, e)
  {
    var c := SomeCase(spec, s, cr, o);
    var e := Reconcile(trim, spec, s, cr, o);
    ReconcileMeets(trim, c, spec, s, cr, o);
    CaseStatuses(c, spec, s, o, e.status);
    CaseShape(trim, c, spec, s, cr, o, e);
    CaseSigns(trim, c, spec, s, cr, o, e);
  }

  lemma CaseSigns(trim: bool, c: Case, spec: PolicySpec, s: Status, cr: CRState, o: Observation, e: Effect)
    requires InCase(c, spec, s, cr, o) && Gives(trim, c, spec, s, cr, o, e)
    ensures SignsOf(spec, s, cr, o, e)
  {
    CaseTidies(trim, c, spec, s, cr, o, e);
    if !Stale(s) {
      CaseDates(trim, c, spec, s, cr, o, e);
    }
    CaseTells(c, spec, s, cr, o, e.status);
    CaseWakes(c, spec, s, cr, o, e.result);
    if UnderWay(s) {
      CaseMovesRun(c, spec, s, cr, o, e);
    }
  }
}
