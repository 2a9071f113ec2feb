/** Cutting the history to ten records is invisible: the controller that trims and its twin that
    keeps every record do the same things for ever. */
module Twin {
  import opened Basics
  import opened PolicyTypes
  import opened Cron
  import opened Sizing
  import opened StatusBook
  import opened PostActions
  import opened Decision
  import opened Shapes
  import opened Runs

  function Trimmed(s: Status): Status {
    s.(history := LastTen(s.history))
  }

  function TrimmedEffect(e: Effect): Effect {
    e.(status := Trimmed(e.status))
  }

  lemma TrimmingKeepsAgreement(s: Status)
    requires Agreement(s)
    ensures Agreement(Trimmed(s))
    ensures |s.history| > 0 ==>
              var t := LastTen(s.history); |t| > 0 && t[|t| - 1] == s.history[|s.history| - 1]
  {
    var h, t := s.history, LastTen(s.history);
    forall i | 0 <= i < |t| - 1 ensures !t[i].status.InProgress? {
      var j := |h| - |t| + i;
      assert t[i] == h[j];
    }
  }

  /** Finding and changing the record under way commutes with trimming. */
  lemma LookupsAgree(s: Status)
    requires Agreement(s)
    ensures var h, t := s.history, LastTen(s.history);
            && |t| <= MAX_HISTORY
            && (FindInProgress(h) >= 0 <==> FindInProgress(t) >= 0)
            && (FindInProgress(h) >= 0 ==>
                  && FindInProgress(h) == |h| - 1 && FindInProgress(t) == |t| - 1
                  && t[FindInProgress(t)] == h[FindInProgress(h)])
  {
    TrimmingKeepsAgreement(s);
    UnderWayIsLast(s);
    UnderWayIsLast(Trimmed(s));
  }

  lemma ReplacementsAgree(history: seq<MaintenanceRecord>, r: MaintenanceRecord)
    requires |history| > 0
    ensures LastTen(history[|history| - 1 := r]) == LastTen(history)[|LastTen(history)| - 1 := r]
  {
  }

  lemma AppendsAgree(h: seq<MaintenanceRecord>, r: MaintenanceRecord)
    ensures AddRecord(true, LastTen(h), r) == LastTen(AddRecord(false, h, r))
  {
  }

  lemma MarksAgree(s: Status, status: RunStatus, reason: Text, at: Time)
    requires Agreement(s)
    ensures MarkRecord(LastTen(s.history), status, reason, at) == LastTen(MarkRecord(s.history, status, reason, at))
  {
    LookupsAgree(s);
    var i := FindInProgress(s.history);
    if i >= 0 {
      ReplacementsAgree(s.history, s.history[i].(status := status, reason := reason, completedAt := Some(at)));
    }
  }

  /** The once-per-window guard answers the same on the ten newest records as on the full log. */
  lemma GuardsAgree(ticks: iset<Time>, history: seq<MaintenanceRecord>, p: Time, now: Time, windowEnd: Time)
    requires IsLatestTick(ticks, p, now) && InOrder(history, now) && OnePerOpening(ticks, history)
    ensures HasCompleted(LastTen(history), p, windowEnd) == HasCompleted(history, p, windowEnd)
  {
    GuardHitsNewest(ticks, history, p, now, windowEnd);
    var t := LastTen(history);
    var d := |history| - |t|;
    forall i | 0 <= i < |t| ensures CompletedWithin(t[i], p, windowEnd) ==> HasCompleted(history, p, windowEnd) {
      assert t[i] == history[d + i];
    }
    if |history| > 0 {
      assert t[|t| - 1] == history[|history| - 1];
    }
  }

  lemma FailingAgrees(spec: PolicySpec, s: Status, reason: Text, o: Observation)
    requires Agreement(s)
    ensures Failing(spec, Trimmed(s), reason, o) == Trimmed(Failing(spec, s, reason, o))
  {
    MarksAgree(s, Failed, reason, o.clock.first);
  }

  lemma CompleteAgrees(spec: PolicySpec, s: Status, reason: Text, message: Text, after: int, o: Observation)
    requires Agreement(s) && UnderWay(s)
    ensures UnderWay(Trimmed(s))
    ensures CompleteMaintenance(spec, Trimmed(s), reason, message, after, o) ==
            TrimmedEffect(CompleteMaintenance(spec, s, reason, message, after, o))
  {
    LookupsAgree(s);
    MarksAgree(s, Completed, reason, o.clock.first);
    FailingAgrees(spec, s, Detail("parsing applied memory"), o);
  }

  lemma AdvancingAgrees(s: Status)
    requires Agreement(s) && UnderWay(s) && UnderWay(Trimmed(s))
    ensures Advancing(Trimmed(s)) == Trimmed(Advancing(s))
  {
    LookupsAgree(s);
    ReplacementsAgree(s.history, Current(s).(phase := PostActionsTriggered));
  }

  lemma AwaitRunningAgrees(spec: PolicySpec, s: Status, window: WindowResult, o: Observation)
    requires Agreement(s) && UnderWay(s) && UnderWay(Trimmed(s))
    ensures AwaitRunning(spec, Trimmed(s), window, o) == TrimmedEffect(AwaitRunning(spec, s, window, o))
  {
    if o.health.Running? {
      if |spec.postActions| == 0 {
        CompleteAgrees(spec, s, Blank, Standard, RequeueAfter(window, o.clock.now), o);
      } else if TriggeredCount(spec.postActions, o.triggers) < |spec.postActions| {
        FailingAgrees(spec, s, Detail(o.triggerError), o);
      } else {
        AdvancingAgrees(s);
      }
    }
  }

  lemma AwaitPostActionsAgrees(spec: PolicySpec, s: Status, window: WindowResult, o: Observation)
    requires Agreement(s) && UnderWay(s) && UnderWay(Trimmed(s))
    ensures AwaitPostActions(spec, Trimmed(s), window, o) == TrimmedEffect(AwaitPostActions(spec, s, window, o))
  {
    if Completion(spec.postActions, o.checks).Done? {
      CompleteAgrees(spec, s, Blank, Standard, RequeueAfter(window, o.clock.now), o);
    }
  }

  lemma MonitorAgrees(spec: PolicySpec, s: Status, window: WindowResult, o: Observation)
    requires Agreement(s) && UnderWay(s)
    ensures UnderWay(Trimmed(s))
    ensures Monitor(spec, Trimmed(s), window, o) == TrimmedEffect(Monitor(spec, s, window, o))
  {
    LookupsAgree(s);
    match Current(s).phase
    case PatchApplied => AwaitRunningAgrees(spec, s, window, o);
    case PostActionsTriggered => AwaitPostActionsAgrees(spec, s, window, o);
    case NoPhase => FailingAgrees(spec, s, Detail("unknown maintenance phase"), o);
  }

  lemma ExpiredAgrees(spec: PolicySpec, s: Status, o: Observation)
    requires Agreement(s) && UnderWay(s)
    ensures UnderWay(Trimmed(s))
    ensures WindowExpired(spec, Trimmed(s), o) == TrimmedEffect(WindowExpired(spec, s, o))
  {
    LookupsAgree(s);
    CompleteAgrees(spec, s, GracePeriod, GracePeriod, 5 * 60, o);
    FailingAgrees(spec, s, Named(MaintenanceTimeout), o);
  }

  lemma StartAgrees(spec: PolicySpec, s: Status, cr: CRState, rec: Recommendation, o: Observation)
    requires Agreement(s)
    ensures StartMaintenance(true, spec, Trimmed(s), cr, rec, o) ==
            TrimmedEffect(StartMaintenance(false, spec, s, cr, rec, o))
  {
    var params := Parameters(spec, o.params);
    if params.ParamsError? {
      FailingAgrees(spec, s, Detail(params.text), o);
    } else if PatchFails(cr, o.patch) {
      FailingAgrees(spec, s, Detail(PatchError(o.patch)), o);
    } else {
      AppendsAgree(s.history, StartedRecord(o.clock.second, KnownMemory(cr), rec.memory));
    }
  }

  lemma BlockingAgrees(spec: PolicySpec, s: Status, reason: Reason, o: Observation)
    ensures Blocking(true, spec, Trimmed(s), reason, o) == Trimmed(Blocking(false, spec, s, reason, o))
  {
    AppendsAgree(s.history, SkippedRecord(o.clock.first, reason));
  }

  lemma WeighAgrees(spec: PolicySpec, s: Status, cr: CRState, rec: Recommendation, window: WindowResult, o: Observation)
    requires Agreement(s)
    ensures Weigh(true, spec, Trimmed(s), cr, rec, window, o) ==
            TrimmedEffect(Weigh(false, spec, s, cr, rec, window, o))
  {
    if cr.Memory? {
      var s1 := s.(currentMemory := Some(cr.bytes));
      var gate := EvaluateChangeGates(cr.bytes, rec.memory, Some(spec.safetyGates));
      assert Trimmed(s).(currentMemory := Some(cr.bytes)) == Trimmed(s1);
      if gate.Blocked? {
        BlockingAgrees(spec, s1, gate.reason, o);
      } else {
        StartAgrees(spec, s1, cr, rec, o);
      }
    } else {
      StartAgrees(spec, s, cr, rec, o);
    }
  }

  lemma ConsiderAgrees(spec: PolicySpec, s: Status, cr: CRState, rec: Recommendation, window: WindowResult,
                       o: Observation)
    requires Agreement(s)
    requires HasCompleted(LastTen(s.history), window.nextOpen, window.windowEnd) ==
             HasCompleted(s.history, window.nextOpen, window.windowEnd)
    ensures Consider(true, spec, Trimmed(s), cr, rec, window, o) ==
            TrimmedEffect(Consider(false, spec, s, cr, rec, window, o))
  {
    if window.inWindow && !HasCompleted(s.history, window.nextOpen, window.windowEnd) {
      AppendsAgree(s.history, SkippedRecord(o.clock.first, ClusterUnhealthy));
      WeighAgrees(spec, s, cr, rec, window, o);
    }
  }

  lemma RecommendedAgrees(ticks: iset<Time>, spec: PolicySpec, s: Status, cr: CRState, rec: Recommendation,
                          o: Observation)
    requires Agreement(s) && InOrder(s.history, o.clock.now) && OnePerOpening(ticks, s.history)
    requires SoundAnswers(ticks, o.clock.now, o.prevTick, o.nextTick)
    ensures WithRecommendation(true, spec, Trimmed(s), cr, rec, o) ==
            TrimmedEffect(WithRecommendation(false, spec, s, cr, rec, o))
  {
    LookupsAgree(s);
    UnderWayIsLast(s);
    if WindowNow(spec, o).Evaluated? {
      var window := WindowNow(spec, o).window;
      if UnderWay(s) {
        MonitorAgrees(spec, s, window, o);
        ExpiredAgrees(spec, s, o);
      } else if window.inWindow {
        GuardsAgree(ticks, s.history, window.nextOpen, o.clock.now, window.windowEnd);
        ConsiderAgrees(spec, s, cr, rec, window, o);
      }
    }
  }

  lemma SyncingAgrees(spec: PolicySpec, s: Status, rec: Recommendation, o: Observation)
    requires Agreement(s)
    ensures Synced(spec, Trimmed(s), rec, o) == Trimmed(Synced(spec, s, rec, o))
    ensures Synced(spec, s, rec, o).history == s.history && Agreement(Synced(spec, s, rec, o))
  {
  }

  lemma ReconcileAgrees(ticks: iset<Time>, spec: PolicySpec, s: Status, cr: CRState, o: Observation)
    requires Agreement(s) && InOrder(s.history, o.clock.now) && OnePerOpening(ticks, s.history)
    requires SoundAnswers(ticks, o.clock.now, o.prevTick, o.nextTick)
    ensures Reconcile(true, spec, Trimmed(s), cr, o) == TrimmedEffect(Reconcile(false, spec, s, cr, o))
  {
    if o.crReadable && !cr.Malformed? && (cr.Memory? || spec.initialMemory.None?) {
      var read := ReadRecommendation(spec, o.vpa);
      if read.Recommended? {
        SyncingAgrees(spec, s, read.rec, o);
        RecommendedAgrees(ticks, spec, Synced(spec, s, read.rec, o), cr, read.rec, o);
      }
    }
  }

  /** One reconcile: same decision, same writes, same restarts, same wake-up, and statuses that
      differ only in the records trimmed away. */
  lemma StepAgrees(ticks: iset<Time>, spec: PolicySpec, w: World, o: Observation, horizon: Time)
    requires Invariant(spec, ticks, w.status, horizon) && horizon <= o.clock.sync && o.clock.Ordered()
    requires SoundAnswers(ticks, o.clock.now, o.prevTick, o.nextTick)
    ensures EffectOn(true, spec, w.(status := Trimmed(w.status)), o) == TrimmedEffect(EffectOn(false, spec, w, o))
  {
    ReconcileAgrees(ticks, spec, w.status, w.cr, o);
  }

  /** Over every run, at every turn: the stored history is exactly the newest ten records of the
      full log, everything else in the status and the CR is the same, and so is what the next
      reconcile does. */
  lemma {:induction false} TrimmingIsInvisible(run: Run, k: nat)
    requires Plausible(run) && k <= |run.turns|
    ensures State(true, run, k) == World(Trimmed(State(false, run, k).status), State(false, run, k).cr)
    ensures State(true, run, k).status.history == LastTen(Log(run, k))
    ensures k < |run.turns| ==> EffectAt(run, k) == TrimmedEffect(run.turns[k].twinEffect)
  {
    if k > 0 {
      TrimmingIsInvisible(run, k - 1);
      assert PlausibleTurn(run, k - 1);
    }
    if k < |run.turns| {
      assert PlausibleTurn(run, k);
      LogInvariant(run, k);
      StepAgrees(run.ticks, run.spec, Before(false, run, k), run.turns[k].seen, Horizon(run, k));
    }
  }
}
