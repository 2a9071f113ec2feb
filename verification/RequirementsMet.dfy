/** Every reconcile meets the requirements of module Requirements. */
module RequirementsMet {
  import opened Basics
  import opened PolicyTypes
  import opened Cron
  import opened Sizing
  import opened StatusBook
  import opened PostActions
  import opened Decision
  import opened Requirements

  // ---------------------------------------------------------------- the words of the requirements

  lemma RunUnderWay(s: Status)
    ensures UnderWay(s) <==> SaysInProgress(s) && HasInProgress(s)
    ensures Stale(s) <==> SaysInProgress(s) && !HasInProgress(s)
    ensures HasInProgress(s) <==> FindInProgress(s.history) >= 0
  {
  }

  lemma WindowSeen(spec: PolicySpec, s: Status, o: Observation)
    ensures var e := WindowNow(spec, o);
            && (e.Evaluated? <==> WindowKnown(spec, o))
            && (e.Evaluated? ==>
                  && (e.window.inWindow <==> WindowOpen(spec, o))
                  && RequeueAfter(e.window, o.clock.now) == ToTheWindow(spec, o)
                  && (WindowOpen(spec, o) ==>
                        (HasCompleted(s.history, e.window.nextOpen, e.window.windowEnd) <==> AlreadyDone(spec, s, o))))
  {
    var e := WindowNow(spec, o);
    if e.Evaluated? && WindowOpen(spec, o) {
      forall i | 0 <= i < |s.history|
        ensures CompletedWithin(s.history[i], e.window.nextOpen, e.window.windowEnd) <==>
                s.history[i].status.Completed? &&
                o.prevTick.value <= s.history[i].startedAt < o.prevTick.value + 60 * spec.timeoutMinutes
      {
      }
    }
  }

  lemma ParametersComputed(spec: PolicySpec, o: Observation)
    ensures var params := Parameters(spec, o.params);
            Computed(spec, o) == if params.ParamsOk? then Some(params.values) else None
    ensures Computed(spec, o).None? ==> Parameters(spec, o.params) == o.params
  {
  }

  // ---------------------------------------------------------------- updates

  lemma UpdateTells(spec: PolicySpec, s: Status, kind: ConditionType, status: ConditionStatus, reason: Reason,
                    message: Text, at: Time)
    ensures forall other :: ConditionOf(Set(spec, s, kind, status, reason, message, at), other) ==
              if other == kind then Told(spec, ConditionOf(s, kind), kind, status, reason, message, at)
              else ConditionOf(s, other)
    ensures KeepsPlaces(s.conditions, Set(spec, s, kind, status, reason, message, at).conditions)
  {
    var u := Update(kind, status, reason, message, at, spec.generation);
    var c, i := s.conditions, IndexOf(s.conditions, kind);
    if i < 0 {
      AppendingKeepsPlaces(c, Fresh(u));
    } else if !Repeats(c[i], u) {
      var since := if c[i].status != status then at else c[i].lastTransitionTime;
      ReplacingKeepsPlaces(c, i, Fresh(u).(lastTransitionTime := since));
    }
  }

  lemma MarkingEnds(h: seq<MaintenanceRecord>, status: RunStatus, why: Text, at: Time)
    ensures Ends(h, MarkRecord(h, status, why, at), status, why, at)
  {
  }

  lemma AddingAdds(trim: bool, h: seq<MaintenanceRecord>, r: MaintenanceRecord)
    ensures Adds(trim, h, AddRecord(trim, h, r), r)
  {
  }

  /** The conditions about runs of `s'` are those of `s`, told so. */
  ghost predicate TellsRun(s: Status, s': Status, progress: Option<Condition>, failure: Option<Condition>) {
    && ConditionOf(s', VPARecommendationReady) == ConditionOf(s, VPARecommendationReady)
    && ConditionOf(s', MaintenanceInProgress) == progress
    && ConditionOf(s', LastMaintenanceFailed) == failure
    && s'.memoryTarget == s.memoryTarget
    && KeepsPlaces(s.conditions, s'.conditions)
  }

  lemma FailingTells(spec: PolicySpec, s: Status, why: Text, o: Observation)
    ensures var s' := Failing(spec, s, why, o);
            && TellsRun(s, s',
                 Told(spec, ConditionOf(s, MaintenanceInProgress), MaintenanceInProgress, False, MaintenanceFailed, why,
                      o.clock.second),
                 Told(spec, ConditionOf(s, LastMaintenanceFailed), LastMaintenanceFailed, True, MaintenanceFailed, why,
                      o.clock.third))
            && Ends(s.history, s'.history, Failed, why, o.clock.first) && s'.currentMemory == s.currentMemory
  {
    MarkingEnds(s.history, Failed, why, o.clock.first);
    var s1 := s.(history := MarkRecord(s.history, Failed, why, o.clock.first));
    UpdateTells(spec, s1, MaintenanceInProgress, False, MaintenanceFailed, why, o.clock.second);
    var s2 := Set(spec, s1, MaintenanceInProgress, False, MaintenanceFailed, why, o.clock.second);
    UpdateTells(spec, s2, LastMaintenanceFailed, True, MaintenanceFailed, why, o.clock.third);
  }

  lemma CompletingTells(spec: PolicySpec, s: Status, memory: int, why: Text, message: Text, o: Observation)
    ensures var s' := Completing(spec, s, memory, why, message, o);
            && TellsRun(s, s',
                 Told(spec, ConditionOf(s, MaintenanceInProgress), MaintenanceInProgress, False, MaintenanceCompleted,
                      message, o.clock.second),
                 Told(spec, ConditionOf(s, LastMaintenanceFailed), LastMaintenanceFailed, False, MaintenanceSucceeded,
                      Standard, o.clock.third))
            && Ends(s.history, s'.history, Completed, why, o.clock.first) && s'.currentMemory == Some(memory)
  {
    MarkingEnds(s.history, Completed, why, o.clock.first);
    var s1 := s.(currentMemory := Some(memory), history := MarkRecord(s.history, Completed, why, o.clock.first));
    UpdateTells(spec, s1, MaintenanceInProgress, False, MaintenanceCompleted, message, o.clock.second);
    var s2 := Set(spec, s1, MaintenanceInProgress, False, MaintenanceCompleted, message, o.clock.second);
    UpdateTells(spec, s2, LastMaintenanceFailed, False, MaintenanceSucceeded, Standard, o.clock.third);
  }

  lemma StartingTells(trim: bool, spec: PolicySpec, s: Status, previous: Option<int>, memory: int, o: Observation)
    ensures var s' := Starting(trim, spec, s, previous, memory, o);
            && TellsRun(s, s',
                 Told(spec, ConditionOf(s, MaintenanceInProgress), MaintenanceInProgress, True, MaintenanceStarted,
                      Standard, o.clock.first),
                 ConditionOf(s, LastMaintenanceFailed))
            && Adds(trim, s.history, s'.history,
                    MaintenanceRecord(o.clock.second, None, InProgress, PatchApplied, Blank, previous, Some(memory)))
            && s'.currentMemory == s.currentMemory
  {
    UpdateTells(spec, s, MaintenanceInProgress, True, MaintenanceStarted, Standard, o.clock.first);
    AddingAdds(trim, s.history, StartedRecord(o.clock.second, previous, memory));
  }

  lemma BlockingTells(trim: bool, spec: PolicySpec, s: Status, reason: Reason, o: Observation)
    ensures var s' := Blocking(trim, spec, s, reason, o);
            && TellsRun(s, s',
                 Told(spec, ConditionOf(s, MaintenanceInProgress), MaintenanceInProgress, False, reason,
                      Detail(o.gateText), o.clock.second),
                 ConditionOf(s, LastMaintenanceFailed))
            && Adds(trim, s.history, s'.history,
                    MaintenanceRecord(o.clock.first, None, Skipped, NoPhase, Named(reason), None, None))
            && s'.currentMemory == s.currentMemory
  {
    AddingAdds(trim, s.history, SkippedRecord(o.clock.first, reason));
    var s1 := s.(history := AddRecord(trim, s.history, SkippedRecord(o.clock.first, reason)));
    UpdateTells(spec, s1, MaintenanceInProgress, False, reason, Detail(o.gateText), o.clock.second);
  }

  // ---------------------------------------------------------------- the handlers

  /** What a case gives, counted from the status its handler starts from. */
  ghost predicate HandlerGives(trim: bool, c: Case, spec: PolicySpec, s: Status, cr: CRState, o: Observation,
                               e: Effect) {
    && e.move == MoveOf(c)
    && GivesResult(c, spec, o, e.result)
    && GivesWrite(c, spec, cr, o, e.write)
    && GivesRestarts(c, spec, o, e.restarted)
    && GivesHistory(trim, c, spec, cr, o, s.history, e.status.history)
    && GivesCurrent(c, s, cr, e.status.currentMemory)
    && TellsRun(s, e.status, Progress(c, spec, ConditionOf(s, MaintenanceInProgress), o),
                Failure(c, spec, ConditionOf(s, LastMaintenanceFailed), o))
  }

  ghost predicate GivesCurrent(c: Case, s: Status, cr: CRState, currentMemory: Option<int>) {
    match c
    case Completes | CompletesLate => HasInProgress(s) && currentMemory == RunRecord(s).appliedMemory
    case TooSmall(_) | Uncomputed | Unsent | Starts =>
      currentMemory == if cr.Memory? then Some(cr.bytes) else s.currentMemory
    case _ => currentMemory == s.currentMemory
  }

  lemma StayGives(trim: bool, c: Case, spec: PolicySpec, s: Status, cr: CRState, o: Observation,
                  result: ReconcileResult)
    requires c in {Waits, Errs, NotNow, HealthUntold} && GivesResult(c, spec, o, result)
    ensures HandlerGives(trim, c, spec, s, cr, o, Stay(s, result))
  {
  }

  ghost predicate FailsRun(c: Case) {
    c.TriggerFails? || c.TimesOut? || c.Garbled? || c.Uncomputed? || c.Unsent?
  }

  /** What the failing cases have in common. */
  lemma FailingGives(trim: bool, c: Case, spec: PolicySpec, s: Status, cr: CRState, o: Observation)
    requires FailsRun(c)
    ensures var s' := Failing(spec, s, Why(c, o), o);
            && GivesHistory(trim, c, spec, cr, o, s.history, s'.history)
            && TellsRun(s, s', Progress(c, spec, ConditionOf(s, MaintenanceInProgress), o),
                        Failure(c, spec, ConditionOf(s, LastMaintenanceFailed), o))
            && s'.currentMemory == s.currentMemory
  {
    FailingTells(spec, s, Why(c, o), o);
  }

  lemma AbortGives(trim: bool, c: Case, spec: PolicySpec, s: Status, cr: CRState, o: Observation, why: Text,
                   restarted: seq<PostAction>)
    requires FailsRun(c) && MoveOf(c) == Abort
    requires HasInProgress(s) && GivesRestarts(c, spec, o, restarted) && why == Why(c, o)
    ensures HandlerGives(trim, c, spec, s, cr, o, FailMaintenance(spec, s, why, restarted, o))
  {
    FailingGives(trim, c, spec, s, cr, o);
  }

  lemma AdvanceGives(trim: bool, spec: PolicySpec, s: Status, cr: CRState, o: Observation)
    requires HasInProgress(s) && FindInProgress(s.history) >= 0
    ensures HandlerGives(trim, MovesOn, spec, s, cr, o,
                         Effect(Advancing(s), None, spec.postActions, Advance, Requeue(30)))
  {
  }

  lemma FinishGives(trim: bool, spec: PolicySpec, s: Status, cr: CRState, o: Observation)
    requires HasInProgress(s) && FindInProgress(s.history) >= 0 && RunRecord(s).appliedMemory != None
    requires WindowKnown(spec, o)
    ensures HandlerGives(trim, Completes, spec, s, cr, o,
                         CompleteMaintenance(spec, s, Blank, Standard, ToTheWindow(spec, o), o))
  {
    var memory := RunRecord(s).appliedMemory.value;
    CompletingTells(spec, s, memory, Blank, Standard, o);
    var after := ToTheWindow(spec, o);
    var e := CompleteMaintenance(spec, s, Blank, Standard, after, o);
    assert e == Effect(Completing(spec, s, memory, Blank, Standard, o), None, [], Finish, Requeue(after));
    assert GivesHistory(trim, Completes, spec, cr, o, s.history, e.status.history);
  }

  lemma LateFinishGives(trim: bool, spec: PolicySpec, s: Status, cr: CRState, o: Observation)
    requires HasInProgress(s) && FindInProgress(s.history) >= 0 && RunRecord(s).appliedMemory != None
    ensures HandlerGives(trim, CompletesLate, spec, s, cr, o,
                         CompleteMaintenance(spec, s, GracePeriod, GracePeriod, 300, o))
  {
    var memory := RunRecord(s).appliedMemory.value;
    CompletingTells(spec, s, memory, GracePeriod, GracePeriod, o);
    var e := CompleteMaintenance(spec, s, GracePeriod, GracePeriod, 300, o);
    assert e == Effect(Completing(spec, s, memory, GracePeriod, GracePeriod, o), None, [], Finish, Requeue(300));
    assert GivesHistory(trim, CompletesLate, spec, cr, o, s.history, e.status.history);
  }

  /** Completing, when it is due, gives what its case gives. */
  lemma CompletionGives(trim: bool, c: Case, spec: PolicySpec, s: Status, cr: CRState, o: Observation, late: bool)
    requires FindInProgress(s.history) >= 0 && HasInProgress(s) && (late || WindowKnown(spec, o))
    requires c == if RunRecord(s).appliedMemory == None then Garbled("parsing applied memory")
                  else if late then CompletesLate else Completes
    ensures var e := if late then CompleteMaintenance(spec, s, GracePeriod, GracePeriod, 300, o)
                     else CompleteMaintenance(spec, s, Blank, Standard, ToTheWindow(spec, o), o);
            HandlerGives(trim, c, spec, s, cr, o, e)
  {
    if RunRecord(s).appliedMemory == None {
      AbortGives(trim, c, spec, s, cr, o, Detail("parsing applied memory"), []);
    } else if late {
      LateFinishGives(trim, spec, s, cr, o);
    } else {
      FinishGives(trim, spec, s, cr, o);
    }
  }

  lemma MonitorGives(trim: bool, c: Case, spec: PolicySpec, s: Status, cr: CRState, o: Observation)
    requires InCase(c, spec, s, cr, o) && RunInWindow(spec, s, cr, o) && WindowNow(spec, o).Evaluated?
    ensures FindInProgress(s.history) >= 0
    ensures HandlerGives(trim, c, spec, s, cr, o, Monitor(spec, s, WindowNow(spec, o).window, o))
  {
    RunUnderWay(s);
    var window := WindowNow(spec, o).window;
    match RunRecord(s).phase
    case PatchApplied =>
      AwaitRunningGives(trim, c, spec, s, cr, o);
      assert Monitor(spec, s, window, o) == AwaitRunning(spec, s, window, o);
    case PostActionsTriggered =>
      AwaitPostActionsGives(trim, c, spec, s, cr, o);
      assert Monitor(spec, s, window, o) == AwaitPostActions(spec, s, window, o);
    case NoPhase =>
      assert c == Garbled("unknown maintenance phase");
      AbortGives(trim, c, spec, s, cr, o, Detail("unknown maintenance phase"), []);
  }

  lemma AwaitRunningGives(trim: bool, c: Case, spec: PolicySpec, s: Status, cr: CRState, o: Observation)
    requires InCase(c, spec, s, cr, o) && RunInWindow(spec, s, cr, o) && WindowNow(spec, o).Evaluated?
    requires RunRecord(s).phase == PatchApplied && FindInProgress(s.history) >= 0
    ensures HandlerGives(trim, c, spec, s, cr, o, AwaitRunning(spec, s, WindowNow(spec, o).window, o))
  {
    match o.health
    case HealthUnknown =>
      assert c == Errs;
      StayGives(trim, c, spec, s, cr, o, Errored);
    case NotRunning =>
      assert c == Waits;
      StayGives(trim, c, spec, s, cr, o, Requeue(30));
    case Running => BackGives(trim, c, spec, s, cr, o);
  }

  /** The cluster is back. */
  lemma BackGives(trim: bool, c: Case, spec: PolicySpec, s: Status, cr: CRState, o: Observation)
    requires InCase(c, spec, s, cr, o) && RunInWindow(spec, s, cr, o) && WindowNow(spec, o).Evaluated?
    requires RunRecord(s).phase == PatchApplied && FindInProgress(s.history) >= 0 && o.health == Running
    ensures HandlerGives(trim, c, spec, s, cr, o, AwaitRunning(spec, s, WindowNow(spec, o).window, o))
  {
    WindowSeen(spec, s, o);
    TriggeringMeans(spec.postActions, o.triggers);
    if spec.postActions == [] {
      CompletionGives(trim, c, spec, s, cr, o, false);
    } else if AllReported(spec, o) {
      assert c == MovesOn;
      AdvanceGives(trim, spec, s, cr, o);
    } else {
      assert c == TriggerFails;
      var restarted := spec.postActions[..RestartedCount(spec.postActions, o.triggers)];
      AbortGives(trim, c, spec, s, cr, o, Detail(o.triggerError), restarted);
    }
  }

  lemma AwaitPostActionsGives(trim: bool, c: Case, spec: PolicySpec, s: Status, cr: CRState, o: Observation)
    requires InCase(c, spec, s, cr, o) && RunInWindow(spec, s, cr, o) && WindowNow(spec, o).Evaluated?
    requires RunRecord(s).phase == PostActionsTriggered && FindInProgress(s.history) >= 0
    ensures HandlerGives(trim, c, spec, s, cr, o, AwaitPostActions(spec, s, WindowNow(spec, o).window, o))
  {
    WindowSeen(spec, s, o);
    CompletionMeans(spec.postActions, o.checks);
    match Completion(spec.postActions, o.checks)
    case Done => CompletionGives(trim, c, spec, s, cr, o, false);
    case NotDone =>
      assert c == Waits;
      StayGives(trim, c, spec, s, cr, o, Requeue(30));
    case CheckError =>
      assert c == Errs;
      StayGives(trim, c, spec, s, cr, o, Errored);
  }

  lemma ExpiredGives(trim: bool, c: Case, spec: PolicySpec, s: Status, cr: CRState, o: Observation)
    requires InCase(c, spec, s, cr, o) && RunLate(spec, s, cr, o)
    ensures FindInProgress(s.history) >= 0
    ensures HandlerGives(trim, c, spec, s, cr, o, WindowExpired(spec, s, o))
  {
    RunUnderWay(s);
    CompletionMeans(spec.postActions, o.checks);
    assert PassesGrace(spec, RunRecord(s), o) <==> o.health.Running? && GraceCheck(spec, RunRecord(s).phase, o).Done?;
    if PassesGrace(spec, RunRecord(s), o) {
      CompletionGives(trim, c, spec, s, cr, o, true);
    } else {
      assert c == TimesOut;
      AbortGives(trim, c, spec, s, cr, o, Named(MaintenanceTimeout), []);
    }
  }

  lemma StartGives(trim: bool, c: Case, spec: PolicySpec, s: Status, cr: CRState, o: Observation)
    requires InCase(c, spec, s, cr, o) && Attempts(spec, s, cr, o) && !SaysInProgress(s)
    ensures var s1 := if cr.Memory? then s.(currentMemory := Some(cr.bytes)) else s;
            HandlerGives(trim, c, spec, s, cr, o,
                         StartMaintenance(trim, spec, s1, cr, ReadRecommendation(spec, o.vpa).rec, o))
  {
    ParametersComputed(spec, o);
    if Computed(spec, o).None? || cr.Absent? || !o.patch.Accepted? {
      MisstartGives(trim, c, spec, s, cr, o);
    } else {
      assert c == Starts;
      StartedGives(trim, spec, s, cr, o);
    }
  }

  lemma SameConditions(s: Status, s1: Status)
    requires s1.conditions == s.conditions
    ensures forall kind :: ConditionOf(s1, kind) == ConditionOf(s, kind)
  {
  }

  lemma MisstartGives(trim: bool, c: Case, spec: PolicySpec, s: Status, cr: CRState, o: Observation)
    requires InCase(c, spec, s, cr, o) && (c.Uncomputed? || c.Unsent?) && !SaysInProgress(s)
    ensures var s1 := if cr.Memory? then s.(currentMemory := Some(cr.bytes)) else s;
            HandlerGives(trim, c, spec, s, cr, o,
                         StartMaintenance(trim, spec, s1, cr, ReadRecommendation(spec, o.vpa).rec, o))
  {
    var s1 := if cr.Memory? then s.(currentMemory := Some(cr.bytes)) else s;
    var e := StartMaintenance(trim, spec, s1, cr, ReadRecommendation(spec, o.vpa).rec, o);
    ParametersComputed(spec, o);
    FailingGives(trim, c, spec, s1, cr, o);
    assert e.status == Failing(spec, s1, Why(c, o), o) && e.move == Misstart;
    SameConditions(s, s1);
    assert GivesWrite(c, spec, cr, o, e.write);
  }

  lemma StartedGives(trim: bool, spec: PolicySpec, s: Status, cr: CRState, o: Observation)
    requires InCase(Starts, spec, s, cr, o) && !SaysInProgress(s)
    ensures var s1 := if cr.Memory? then s.(currentMemory := Some(cr.bytes)) else s;
            HandlerGives(trim, Starts, spec, s, cr, o,
                         StartMaintenance(trim, spec, s1, cr, ReadRecommendation(spec, o.vpa).rec, o))
  {
    var s1 := if cr.Memory? then s.(currentMemory := Some(cr.bytes)) else s;
    var rec := ReadRecommendation(spec, o.vpa).rec;
    var e := StartMaintenance(trim, spec, s1, cr, rec, o);
    ParametersComputed(spec, o);
    StartingTells(trim, spec, s1, KnownMemory(cr), rec.memory, o);
    assert e.status == Starting(trim, spec, s1, KnownMemory(cr), rec.memory, o) && e.move == Start;
    SameConditions(s, s1);
  }

  lemma WeighGives(trim: bool, c: Case, spec: PolicySpec, s: Status, cr: CRState, o: Observation)
    requires InCase(c, spec, s, cr, o) && Healthy(spec, s, cr, o) && !SaysInProgress(s) && WindowNow(spec, o).Evaluated?
    ensures HandlerGives(trim, c, spec, s, cr, o,
                         Weigh(trim, spec, s, cr, ReadRecommendation(spec, o.vpa).rec, WindowNow(spec, o).window, o))
  {
    WindowSeen(spec, s, o);
    if Attempts(spec, s, cr, o) {
      StartGives(trim, c, spec, s, cr, o);
    } else {
      assert c == TooSmall(Gate(spec, cr, o).reason);
      BlockingTells(trim, spec, s.(currentMemory := Some(cr.bytes)), c.reason, o);
    }
  }

  lemma ConsiderGives(trim: bool, c: Case, spec: PolicySpec, s: Status, cr: CRState, o: Observation)
    requires InCase(c, spec, s, cr, o) && LooksAtRun(spec, cr, o) && !SaysInProgress(s) && WindowNow(spec, o).Evaluated?
    ensures HandlerGives(trim, c, spec, s, cr, o,
                         Consider(trim, spec, s, cr, ReadRecommendation(spec, o.vpa).rec, WindowNow(spec, o).window, o))
  {
    WindowSeen(spec, s, o);
    if Healthy(spec, s, cr, o) {
      WeighGives(trim, c, spec, s, cr, o);
    } else if !MayRun(spec, s, cr, o) {
      assert c == NotNow;
      StayGives(trim, c, spec, s, cr, o, Requeue(ToTheWindow(spec, o)));
    } else if o.health.HealthUnknown? {
      assert c == HealthUntold;
      StayGives(trim, c, spec, s, cr, o, Errored);
    } else {
      assert c == Unhealthy;
      AddingAdds(trim, s.history, SkippedRecord(o.clock.first, ClusterUnhealthy));
    }
  }

  // ---------------------------------------------------------------- the whole reconcile

  /** The status the handlers start from: the recommendation is told, and a stale condition cleared. */
  ghost function Prepared(spec: PolicySpec, s: Status, o: Observation): Status
    requires ReadRecommendation(spec, o.vpa).Recommended?
  {
    Unstuck(spec, Synced(spec, s, ReadRecommendation(spec, o.vpa).rec, o), o)
  }

  lemma PreparedTells(spec: PolicySpec, s: Status, o: Observation)
    requires ReadRecommendation(spec, o.vpa).Recommended?
    ensures var s1 := Prepared(spec, s, o);
            && ConditionOf(s1, VPARecommendationReady) ==
               Told(spec, ConditionOf(s, VPARecommendationReady), VPARecommendationReady, True, Ready, Standard,
                    o.clock.sync)
            && ConditionOf(s1, MaintenanceInProgress) == Cleared(spec, s, o)
            && ConditionOf(s1, LastMaintenanceFailed) == ConditionOf(s, LastMaintenanceFailed)
            && s1.history == s.history && s1.currentMemory == s.currentMemory
            && s1.memoryTarget == Some(ReadRecommendation(spec, o.vpa).rec.memory)
            && KeepsPlaces(s.conditions, s1.conditions)
  {
    var s0 := Synced(spec, s, ReadRecommendation(spec, o.vpa).rec, o);
    UpdateTells(spec, s, VPARecommendationReady, True, Ready, Standard, o.clock.sync);
    assert forall kind :: ConditionOf(s0, kind) ==
             ConditionOf(Set(spec, s, VPARecommendationReady, True, Ready, Standard, o.clock.sync), kind);
    UpdateTells(spec, s0, MaintenanceInProgress, False, StaleConditionCleared, Standard, o.clock.stale);
    RunUnderWay(s0);
  }

  /** What a case depends on of the status. */
  ghost predicate AlikeForCases(s: Status, s1: Status) {
    s1.history == s.history && (SaysInProgress(s1) && HasInProgress(s1) <==> SaysInProgress(s) && HasInProgress(s))
  }

  lemma AlikeInCase(c: Case, spec: PolicySpec, s: Status, s1: Status, cr: CRState, o: Observation)
    requires AlikeForCases(s, s1) && InCase(c, spec, s, cr, o)
    ensures InCase(c, spec, s1, cr, o)
  {
    assert RunInWindow(spec, s1, cr, o) == RunInWindow(spec, s, cr, o);
    assert RunLate(spec, s1, cr, o) == RunLate(spec, s, cr, o);
    assert MayRun(spec, s1, cr, o) == MayRun(spec, s, cr, o);
    assert HasInProgress(s) ==> HasInProgress(s1) && RunRecord(s1) == RunRecord(s);
  }

  /** From the stored status the case is the same. */
  lemma PreparedAlike(spec: PolicySpec, s: Status, o: Observation)
    requires ReadRecommendation(spec, o.vpa).Recommended?
    ensures AlikeForCases(s, Prepared(spec, s, o))
    ensures SaysInProgress(Prepared(spec, s, o)) <==> SaysInProgress(s) && HasInProgress(s)
  {
    PreparedTells(spec, s, o);
    assert HasInProgress(Prepared(spec, s, o)) == HasInProgress(s);
  }

  lemma PreparedMemory(c: Case, spec: PolicySpec, s: Status, cr: CRState, o: Observation, s': Status)
    requires IsRunCase(c) && ReadRecommendation(spec, o.vpa).Recommended?
    requires GivesCurrent(c, Prepared(spec, s, o), cr, s'.currentMemory)
    requires s'.memoryTarget == Prepared(spec, s, o).memoryTarget
    ensures GivesMemory(c, spec, s, cr, o, s')
  {
    PreparedTells(spec, s, o);
    var s1 := Prepared(spec, s, o);
    assert HasInProgress(s1) == HasInProgress(s);
  }

  lemma HandlerMeets(trim: bool, c: Case, spec: PolicySpec, s: Status, cr: CRState, o: Observation, e: Effect)
    requires IsRunCase(c) && LooksAtRun(spec, cr, o)
    requires HandlerGives(trim, c, spec, Prepared(spec, s, o), cr, o, e)
    ensures Gives(trim, c, spec, s, cr, o, e)
  {
    PreparedMemory(c, spec, s, cr, o, e.status);
    PreparedTells(spec, s, o);
    assert KeepsPlaces(s.conditions, e.status.conditions);
  }

  /** Which part of the reconcile a case belongs to. */
  lemma PartOf(c: Case, spec: PolicySpec, s: Status, cr: CRState, o: Observation)
    requires InCase(c, spec, s, cr, o)
    ensures c.CrUnseen? <==> !CrSeen(cr, o)
    ensures c.SeedUncomputed? || c.SeedUnsent? || c.Seeded? <==> WantsSeed(spec, cr, o)
    ensures c.VpaUnread? || c.NoFigure? || c.WindowUnknown? <==> LooksForFigure(spec, cr, o) && !LooksAtRun(spec, cr, o)
    ensures IsRunCase(c) <==> LooksAtRun(spec, cr, o)
  {
  }

  /** Which handler acts. */
  lemma HandlerActs(trim: bool, spec: PolicySpec, s: Status, cr: CRState, o: Observation)
    requires LooksAtRun(spec, cr, o)
    ensures WindowNow(spec, o).Evaluated?
    ensures var s1 := Prepared(spec, s, o);
            && (RunInWindow(spec, s, cr, o) || RunLate(spec, s, cr, o) ==> FindInProgress(s1.history) >= 0)
            && Reconcile(trim, spec, s, cr, o) ==
               if RunInWindow(spec, s, cr, o) then Monitor(spec, s1, WindowNow(spec, o).window, o)
               else if RunLate(spec, s, cr, o) then WindowExpired(spec, s1, o)
               else Consider(trim, spec, s1, cr, ReadRecommendation(spec, o.vpa).rec, WindowNow(spec, o).window, o)
  {
    var s0 := Synced(spec, s, ReadRecommendation(spec, o.vpa).rec, o);
    WindowSeen(spec, s, o);
    UpdateTells(spec, s, VPARecommendationReady, True, Ready, Standard, o.clock.sync);
    assert SaysInProgress(s0) == SaysInProgress(s) && HasInProgress(s0) == HasInProgress(s);
    RunUnderWay(s0);
    PreparedTells(spec, s, o);
  }

  lemma RunCaseMeets(trim: bool, c: Case, spec: PolicySpec, s: Status, cr: CRState, o: Observation)
    requires InCase(c, spec, s, cr, o) && LooksAtRun(spec, cr, o)
    ensures Gives(trim, c, spec, s, cr, o, Reconcile(trim, spec, s, cr, o))
  {
    var s1 := Prepared(spec, s, o);
    PreparedAlike(spec, s, o);
    AlikeInCase(c, spec, s, s1, cr, o);
    HandlerActs(trim, spec, s, cr, o);
    PartOf(c, spec, s, cr, o);
    if RunInWindow(spec, s, cr, o) {
      MonitorGives(trim, c, spec, s1, cr, o);
    } else if RunLate(spec, s, cr, o) {
      ExpiredGives(trim, c, spec, s1, cr, o);
    } else {
      ConsiderGives(trim, c, spec, s1, cr, o);
    }
    HandlerMeets(trim, c, spec, s, cr, o, Reconcile(trim, spec, s, cr, o));
  }

  /** Cases that leave the status as it is. */
  lemma SameStatusGives(trim: bool, c: Case, spec: PolicySpec, s: Status, cr: CRState, o: Observation)
    requires c in {CrUnseen, SeedUncomputed, SeedUnsent, VpaUnread}
    ensures GivesHistory(trim, c, spec, cr, o, s.history, s.history) && GivesMemory(c, spec, s, cr, o, s)
    ensures GivesConditions(c, spec, s, o, s)
  {
  }

  lemma SeedMeets(trim: bool, c: Case, spec: PolicySpec, s: Status, cr: CRState, o: Observation)
    requires InCase(c, spec, s, cr, o) && WantsSeed(spec, cr, o)
    ensures Gives(trim, c, spec, s, cr, o, Reconcile(trim, spec, s, cr, o))
  {
    SeedGives(c, spec, s, cr, o);
    if c.Seeded? {
      SeededGives(trim, spec, s, cr, o, s.(currentMemory := spec.initialMemory));
    } else {
      SameStatusGives(trim, c, spec, s, cr, o);
    }
  }

  lemma SeedGives(c: Case, spec: PolicySpec, s: Status, cr: CRState, o: Observation)
    requires InCase(c, spec, s, cr, o) && WantsSeed(spec, cr, o)
    ensures c in {SeedUncomputed, SeedUnsent, Seeded}
    ensures var e := Bootstrap(spec, s, cr, spec.initialMemory.value, o);
            && e.move == MoveOf(c) && GivesResult(c, spec, o, e.result) && GivesWrite(c, spec, cr, o, e.write)
            && e.restarted == [] && e.status == if c.Seeded? then s.(currentMemory := spec.initialMemory) else s
  {
    ParametersComputed(spec, o);
    SeedCpuIsExact(spec.initialMemory.value);
  }

  lemma SeededGives(trim: bool, spec: PolicySpec, s: Status, cr: CRState, o: Observation, s': Status)
    requires s' == s.(currentMemory := spec.initialMemory)
    ensures GivesHistory(trim, Seeded, spec, cr, o, s.history, s'.history) && GivesMemory(Seeded, spec, s, cr, o, s')
    ensures GivesConditions(Seeded, spec, s, o, s')
  {
    SameConditions(s, s');
  }

  lemma SeedCpuIsExact(memory: int)
    ensures SeedCpu(memory, BootstrapCpu(memory))
  {
    BootstrapCpuRatio(memory);
  }

  lemma NoFigureMeets(trim: bool, spec: PolicySpec, s: Status, cr: CRState, o: Observation)
    requires InCase(NoFigure, spec, s, cr, o)
    ensures Gives(trim, NoFigure, spec, s, cr, o, Reconcile(trim, spec, s, cr, o))
  {
    var read, e := ReadRecommendation(spec, o.vpa), Reconcile(trim, spec, s, cr, o);
    UpdateTells(spec, s, VPARecommendationReady, False, read.reason, read.message, o.clock.sync);
    var s' := Set(spec, s, VPARecommendationReady, False, read.reason, read.message, o.clock.sync);
    assert e == Stay(s', Requeue(300));
    assert GivesConditions(NoFigure, spec, s, o, e.status);
  }

  lemma WindowUnknownMeets(trim: bool, spec: PolicySpec, s: Status, cr: CRState, o: Observation)
    requires InCase(WindowUnknown, spec, s, cr, o)
    ensures Gives(trim, WindowUnknown, spec, s, cr, o, Reconcile(trim, spec, s, cr, o))
  {
    WindowSeen(spec, s, o);
    var s0 := Synced(spec, s, ReadRecommendation(spec, o.vpa).rec, o);
    UpdateTells(spec, s, VPARecommendationReady, True, Ready, Standard, o.clock.sync);
    SameConditions(Set(spec, s, VPARecommendationReady, True, Ready, Standard, o.clock.sync), s0);
    assert Reconcile(trim, spec, s, cr, o) == Stay(s0, Errored);
    assert GivesConditions(WindowUnknown, spec, s, o, s0);
  }

  lemma FigureMissingMeets(trim: bool, c: Case, spec: PolicySpec, s: Status, cr: CRState, o: Observation)
    requires InCase(c, spec, s, cr, o) && LooksForFigure(spec, cr, o) && !LooksAtRun(spec, cr, o)
    ensures Gives(trim, c, spec, s, cr, o, Reconcile(trim, spec, s, cr, o))
  {
    PartOf(c, spec, s, cr, o);
    match c
    case VpaUnread => SameStatusGives(trim, c, spec, s, cr, o);
    case NoFigure => NoFigureMeets(trim, spec, s, cr, o);
    case WindowUnknown => WindowUnknownMeets(trim, spec, s, cr, o);
  }

  /** Whatever the case, a reconcile gives what it has to give. */
  lemma ReconcileMeets(trim: bool, c: Case, spec: PolicySpec, s: Status, cr: CRState, o: Observation)
    requires InCase(c, spec, s, cr, o)
    ensures Gives(trim, c, spec, s, cr, o, Reconcile(trim, spec, s, cr, o))
  {
    if LooksAtRun(spec, cr, o) {
      RunCaseMeets(trim, c, spec, s, cr, o);
    } else if WantsSeed(spec, cr, o) {
      SeedMeets(trim, c, spec, s, cr, o);
    } else if LooksForFigure(spec, cr, o) {
      FigureMissingMeets(trim, c, spec, s, cr, o);
    }
  }

  /** Every reconcile is in a case, */
  lemma SomeCase(spec: PolicySpec, s: Status, cr: CRState, o: Observation) returns (c: Case)
    ensures InCase(c, spec, s, cr, o)
  {
    CompletionMeans(spec.postActions, o.checks);
    if !CrSeen(cr, o) {
      c := CrUnseen;
    } else if WantsSeed(spec, cr, o) {
      c := if Computed(spec, o).None? then SeedUncomputed
           else if cr == Absent || o.patch != Accepted then SeedUnsent else Seeded;
    } else if !LooksAtRun(spec, cr, o) {
      c := match ReadRecommendation(spec, o.vpa)
        case ReadFailed => VpaUnread
        case Unavailable(_, _) => NoFigure
        case Recommended(_) => WindowUnknown;
    } else if RunInWindow(spec, s, cr, o) {
      c := SomeCaseInWindow(spec, s, cr, o);
    } else if RunLate(spec, s, cr, o) {
      c := if !PassesGrace(spec, RunRecord(s), o) then TimesOut
           else if RunRecord(s).appliedMemory == None then Garbled("parsing applied memory") else CompletesLate;
    } else if !MayRun(spec, s, cr, o) {
      c := NotNow;
    } else if !Healthy(spec, s, cr, o) {
      c := if o.health == NotRunning then Unhealthy else HealthUntold;
    } else if !Attempts(spec, s, cr, o) {
      c := TooSmall(Gate(spec, cr, o).reason);
    } else {
      c := if Computed(spec, o).None? then Uncomputed
           else if cr == Absent || o.patch != Accepted then Unsent else Starts;
    }
  }

  lemma SomeCaseInWindow(spec: PolicySpec, s: Status, cr: CRState, o: Observation) returns (c: Case)
    requires RunInWindow(spec, s, cr, o)
    ensures InCase(c, spec, s, cr, o)
  {
    CompletionMeans(spec.postActions, o.checks);
    var r := RunRecord(s);
    if r.phase == NoPhase {
      c := Garbled("unknown maintenance phase");
    } else if AtItsEnd(spec, r, o) {
      c := if r.appliedMemory == None then Garbled("parsing applied memory") else Completes;
    } else if r.phase == PatchApplied {
      c := match o.health
        case HealthUnknown => Errs
        case NotRunning => Waits
        case Running => if AllReported(spec, o) then MovesOn else TriggerFails;
    } else {
      c := if StoppedBy(spec.postActions, o.checks, NotDone) then Waits else Errs;
    }
  }

  /** and only in one. */
  lemma OnlyOneCase(c: Case, d: Case, spec: PolicySpec, s: Status, cr: CRState, o: Observation)
    requires InCase(c, spec, s, cr, o) && InCase(d, spec, s, cr, o)
    ensures c == d
  {
    PartOf(c, spec, s, cr, o);
    PartOf(d, spec, s, cr, o);
    if LooksAtRun(spec, cr, o) {
      if RunInWindow(spec, s, cr, o) {
        OnlyOneInWindow(c, d, spec, s, cr, o);
      } else if RunLate(spec, s, cr, o) {
        OnlyOneLate(c, d, spec, s, cr, o);
      } else {
        OnlyOneToStart(c, d, spec, s, cr, o);
      }
    }
  }

  lemma OnlyOneInWindow(c: Case, d: Case, spec: PolicySpec, s: Status, cr: CRState, o: Observation)
    requires RunInWindow(spec, s, cr, o) && InCase(c, spec, s, cr, o) && InCase(d, spec, s, cr, o)
    requires IsRunCase(c) && IsRunCase(d)
    ensures c == d
  {
    CompletionMeans(spec.postActions, o.checks);
  }

  lemma OnlyOneLate(c: Case, d: Case, spec: PolicySpec, s: Status, cr: CRState, o: Observation)
    requires RunLate(spec, s, cr, o) && InCase(c, spec, s, cr, o) && InCase(d, spec, s, cr, o)
    requires IsRunCase(c) && IsRunCase(d)
    ensures c == d
  {
  }

  lemma OnlyOneToStart(c: Case, d: Case, spec: PolicySpec, s: Status, cr: CRState, o: Observation)
    requires LooksAtRun(spec, cr, o) && !RunInWindow(spec, s, cr, o) && !RunLate(spec, s, cr, o)
    requires InCase(c, spec, s, cr, o) && InCase(d, spec, s, cr, o) && IsRunCase(c) && IsRunCase(d)
    ensures c == d
  {
  }
}
