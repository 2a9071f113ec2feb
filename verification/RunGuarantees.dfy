/** What holds along every maintenance run: completion is earned, restarts are triggered once, and a
    run gets ahead or is ended. */
module RunGuarantees {
  import opened Basics
  import opened PolicyTypes
  import opened Cron
  import opened StatusBook
  import opened PostActions
  import opened Decision
  import opened Requirements
  import opened RequirementsMet
  import opened Shapes
  import opened Runs
  import opened Twin
  import opened Facts
  import opened HistoryGuarantees

  ghost function Newest(run: Run, k: nat): MaintenanceRecord
    requires k <= |run.turns| && |Log(run, k)| > 0
  {
    Log(run, k)[|Log(run, k)| - 1]
  }

  /** The run under way before turn `k` started at turn `i`. */
  ghost predicate StartedAt(run: Run, i: nat, k: nat) {
    && i < k <= |run.turns|
    && EffectAt(run, i).move.Start? && run.turns[i].seen.statusWritten
    && |Log(run, k)| == |Log(run, i)| + 1
  }

  /** At turn `j` the cluster was Running and every post-action of the run under way before turn `k` was triggered. */
  ghost predicate TriggeredAt(run: Run, j: nat, k: nat) {
    && j < k <= |run.turns|
    && EffectAt(run, j).move.Advance? && run.turns[j].seen.statusWritten
    && run.turns[j].seen.health.Running?
    && EffectAt(run, j).restarted == run.spec.postActions
    && AllReportedOf(run.spec.postActions, run.turns[j].seen.triggers)
    && |Log(run, k)| == |Log(run, j)|
  }

  /** How the newest record can come to be in progress, and in its second phase. */
  ghost predicate WayIntoProgress(spec: PolicySpec, h: seq<MaintenanceRecord>, o: Observation, e: Effect) {
    var h' := e.status.history;
    && (LastInProgress(h') ==>
          && ((e.move.Start? && |h'| == |h| + 1) || (LastInProgress(h) && |h'| == |h|))
          && (h'[|h'| - 1].phase.PostActionsTriggered? ==>
                |h'| == |h| && (e.move.Advance? || (LastInProgress(h) && h[|h| - 1].phase.PostActionsTriggered?))))
    && (e.move.Advance? ==>
          && o.health.Running? && e.restarted == spec.postActions
          && AllReportedOf(spec.postActions, o.triggers))
  }

  lemma WaysIntoProgress(spec: PolicySpec, s: Status, cr: CRState, o: Observation, e: Effect)
    requires Agreement(s) && ShapeOf(false, spec, s, cr, o, e)
    ensures WayIntoProgress(spec, s.history, o, e)
  {
    UnderWayIsLast(s);
  }

  lemma WayAtTurn(run: Run, k: nat)
    requires Plausible(run) && k < |run.turns|
    ensures WayIntoProgress(run.spec, Log(run, k), run.turns[k].seen, LogEffect(run, k))
  {
    TurnFacts(run, k);
    TurnShape(run, k);
    WaysIntoProgress(run.spec, LogStatus(run, k), Before(false, run, k).cr, run.turns[k].seen, LogEffect(run, k));
  }

  /** The same, one turn back in a run. */
  lemma OneTurnBack(run: Run, k: nat)
    requires Plausible(run) && 0 < k <= |run.turns| && LastInProgress(Log(run, k))
    ensures StartedAt(run, k - 1, k) ||
            (LastInProgress(Log(run, k - 1)) && |Log(run, k - 1)| == |Log(run, k)|)
    ensures Newest(run, k).phase.PostActionsTriggered? ==>
              || TriggeredAt(run, k - 1, k)
              || (&& LastInProgress(Log(run, k - 1)) && |Log(run, k - 1)| == |Log(run, k)|
                  && Newest(run, k - 1).phase.PostActionsTriggered?)
  {
    TurnFacts(run, k - 1);
    WayAtTurn(run, k - 1);
  }

  lemma {:induction false} FindStart(run: Run, k: nat) returns (i: nat)
    requires Plausible(run) && k <= |run.turns| && LastInProgress(Log(run, k))
    ensures StartedAt(run, i, k)
  {
    OneTurnBack(run, k);
    if StartedAt(run, k - 1, k) {
      i := k - 1;
    } else {
      i := FindStart(run, k - 1);
    }
  }

  lemma {:induction false} FindTrigger(run: Run, k: nat) returns (j: nat)
    requires Plausible(run) && k <= |run.turns| && LastInProgress(Log(run, k))
    requires Newest(run, k).phase.PostActionsTriggered?
    ensures TriggeredAt(run, j, k)
  {
    OneTurnBack(run, k);
    if TriggeredAt(run, k - 1, k) {
      j := k - 1;
    } else {
      j := FindTrigger(run, k - 1);
    }
  }

  /** The run that completes at turn `k`, inside the window or at the grace check, started at an earlier
      turn `i`; at a turn `j` after that the cluster was seen Running; and if there are post-actions, all
      were triggered at `j`, before `k`, and all are found done at `k`. */
  ghost predicate Earns(run: Run, k: nat, i: nat, j: nat)
    requires k < |run.turns|
  {
    && StartedAt(run, i, k) && i < j <= k && run.turns[j].seen.health.Running?
    && (run.spec.postActions != [] ==>
          TriggeredAt(run, j, k) && AllFoundDoneOf(run.spec.postActions, run.turns[k].seen.checks))
  }

  lemma FinishIsEarned(run: Run, k: nat) returns (i: nat, j: nat)
    requires Plausible(run) && k < |run.turns| && EffectAt(run, k).move.Finish?
    ensures Earns(run, k, i, j)
  {
    TurnFacts(run, k);
    TurnShape(run, k);
    UnderWayIsLast(LogStatus(run, k));
    i := FindStart(run, k);
    if Newest(run, k).phase.PostActionsTriggered? {
      j := FindTrigger(run, k);
      if j <= i {
        LogOnlyGrows(run, j, i);
      }
      CompletionMeans(run.spec.postActions, run.turns[k].seen.checks);
    } else {
      j := k;
    }
  }

  lemma OnlyFinishCompletes(spec: PolicySpec, s: Status, cr: CRState, o: Observation, e: Effect, n: nat)
    requires Agreement(s) && ShapeOf(false, spec, s, cr, o, e)
    requires n < |e.status.history| && e.status.history[n].status.Completed?
    requires n < |s.history| ==> !s.history[n].status.Completed?
    ensures e.move.Finish? && |s.history| == n + 1
  {
    UnderWayIsLast(s);
  }

  /** Every Completed record was completed by a turn that finished its run, and stored that. */
  lemma {:induction false} CompletedByFinish(run: Run, k: nat, n: nat) returns (f: nat)
    requires Plausible(run) && k <= |run.turns| && n < |Log(run, k)| && Log(run, k)[n].status.Completed?
    ensures f < k && EffectAt(run, f).move.Finish? && run.turns[f].seen.statusWritten && |Log(run, f)| == n + 1
  {
    if n < |Log(run, k - 1)| && Log(run, k - 1)[n].status.Completed? {
      f := CompletedByFinish(run, k - 1, n);
    } else {
      f := k - 1;
      TurnFacts(run, f);
      TurnShape(run, f);
      var cr, o := Before(false, run, f).cr, run.turns[f].seen;
      OnlyFinishCompletes(run.spec, LogStatus(run, f), cr, o, LogEffect(run, f), n);
    }
  }

  /** Completion is earned: for every Completed record ever stored there are a turn `f` that finished its
      run, a turn `i` that started it, and a turn `j` in between as `Earns` says. */
  lemma CompletionIsEarned(run: Run, k: nat, n: nat) returns (f: nat, i: nat, j: nat)
    requires Plausible(run) && k <= |run.turns| && n < |Log(run, k)| && Log(run, k)[n].status.Completed?
    ensures f < k && EffectAt(run, f).move.Finish? && run.turns[f].seen.statusWritten
    ensures |Log(run, f)| == n + 1 && Earns(run, f, i, j)
  {
    f := CompletedByFinish(run, k, n);
    i, j := FinishIsEarned(run, f);
  }

  // ---------------------------------------------------------------- restarts

  /** A pass over all post-actions, or one cut short at the first that is not reported to work. */
  ghost predicate PassMade(actions: seq<PostAction>, triggers: seq<TriggerOutcome>, e: Effect) {
    if AllReportedOf(actions, triggers) then e.move == Advance && e.restarted == actions
    else e.move == Abort && CutShort(actions, triggers, e.restarted)
  }

  /** Restarts only come from a run in its first phase, which they end. */
  lemma RestartsEndTheFirstPhase(spec: PolicySpec, s: Status, cr: CRState, o: Observation, e: Effect)
    requires Agreement(s) && ShapeOf(false, spec, s, cr, o, e) && e.restarted != []
    ensures PassMade(spec.postActions, o.triggers, e)
    ensures LastInProgress(s.history) && Rank(s.history[|s.history| - 1]) == 2
    ensures |e.status.history| == |s.history| && Rank(e.status.history[|s.history| - 1]) < 2
  {
    UnderWayIsLast(s);
  }

  /** Restarts always go to a prefix of the post-actions, in a run's first phase, which they end: the run
      moves on exactly when every post-action is reported to work, and fails otherwise. */
  lemma RestartsAtTurn(run: Run, k: nat)
    requires Plausible(run) && k < |run.turns| && EffectAt(run, k).restarted != []
    ensures PassMade(run.spec.postActions, run.turns[k].seen.triggers, EffectAt(run, k))
    ensures LastInProgress(Log(run, k)) && Rank(Newest(run, k)) == 2
    ensures run.turns[k].seen.statusWritten ==> |Log(run, k + 1)| == |Log(run, k)| && Rank(Newest(run, k + 1)) < 2
  {
    TurnFacts(run, k);
    TurnShape(run, k);
    var cr, o := Before(false, run, k).cr, run.turns[k].seen;
    RestartsEndTheFirstPhase(run.spec, LogStatus(run, k), cr, o, LogEffect(run, k));
  }

  /** A turn that restarted any workload, and stored its status, is the last such turn of its run. */
  lemma OneTriggeringPass(run: Run, j: nat, k: nat)
    requires Plausible(run) && j < k < |run.turns|
    requires EffectAt(run, j).restarted != [] && run.turns[j].seen.statusWritten && EffectAt(run, k).restarted != []
    ensures |Log(run, j)| < |Log(run, k)|
  {
    RestartsAtTurn(run, j);
    RestartsAtTurn(run, k);
    LogOnlyGrows(run, j + 1, k);
    var n := |Log(run, j)| - 1;
    assert Evolves(Log(run, j + 1)[n], Log(run, k)[n]);
  }

  // ---------------------------------------------------------------- progress

  /** The reconcile finds the policy and has read everything it needs before it looks at the run under way. */
  ghost predicate Readable(spec: PolicySpec, cr: CRState, o: Observation) {
    o.policyRead.PolicyFound? && Informed(spec, cr, o)
  }

  ghost predicate ReadableAt(run: Run, k: nat)
    requires k < |run.turns|
  {
    Readable(run.spec, Before(true, run, k).cr, run.turns[k].seen)
  }

  /** What a reconcile of a run under way achieves: it waits, or hits a read error and leaves everything
      about the run as it was, or takes the run strictly further; out of the window it always ends the run. */
  ghost predicate GetsAhead(s: Status, e: Effect, inWindow: bool)
    requires |s.history| > 0
  {
    var n := |s.history| - 1;
    && |e.status.history| == |s.history|
    && (|| (e.move.Idle? && e.status.history == s.history && e.result in {Requeue(30), Errored} && inWindow)
        || (e.move in {Advance, Finish, Abort} && Rank(e.status.history[n]) < Rank(s.history[n])))
    && (!inWindow ==> e.move in {Finish, Abort} && !LastInProgress(e.status.history))
  }

  lemma EffectGetsAhead(trim: bool, spec: PolicySpec, s: Status, cr: CRState, o: Observation, e: Effect)
    requires Agreement(s) && Busy(s) && Readable(spec, cr, o)
    requires ShapeOf(trim, spec, s, cr, o, e) && SignsOf(spec, s, cr, o, e)
    ensures GetsAhead(s, e, WindowNow(spec, o).window.inWindow)
  {
    UnderWayIsLast(s);
  }

  /** Every reconcile of a run under way that can read what it needs gets ahead in that sense. */
  lemma RunGetsAhead(trim: bool, spec: PolicySpec, s: Status, cr: CRState, o: Observation)
    requires Agreement(s) && Busy(s) && Readable(spec, cr, o)
    ensures GetsAhead(s, Reconcile(trim, spec, s, cr, o), WindowNow(spec, o).window.inWindow)
  {
    ReconcileShape(trim, spec, s, cr, o);
    EffectGetsAhead(trim, spec, s, cr, o, Reconcile(trim, spec, s, cr, o));
  }

  /** A readable turn gets the run under way ahead. */
  lemma TurnGetsAhead(run: Run, k: nat)
    requires Plausible(run) && k < |run.turns| && LastInProgress(Log(run, k)) && ReadableAt(run, k)
    ensures GetsAhead(LogStatus(run, k), LogEffect(run, k), WindowNow(run.spec, run.turns[k].seen).window.inWindow)
  {
    TurnFacts(run, k);
    TurnShape(run, k);
    var cr, o := Before(false, run, k).cr, run.turns[k].seen;
    EffectGetsAhead(false, run.spec, LogStatus(run, k), cr, o, LogEffect(run, k));
  }

  /** So in a run a readable, stored turn leaves the newest record waiting or further on, and one
      outside the window leaves no run under way. */
  lemma EveryReadableTurnCounts(run: Run, k: nat)
    requires Plausible(run) && k < |run.turns| && run.turns[k].seen.statusWritten
    requires LastInProgress(Log(run, k)) && ReadableAt(run, k)
    ensures |Log(run, k + 1)| == |Log(run, k)|
    ensures Log(run, k + 1) == Log(run, k) || Rank(Newest(run, k + 1)) < Rank(Newest(run, k))
    ensures Log(run, k + 1) == Log(run, k) ==> EffectAt(run, k).result in {Requeue(30), Errored}
    ensures !WindowNow(run.spec, run.turns[k].seen).window.inWindow ==>
              !LastInProgress(Log(run, k + 1)) && FindInProgress(State(true, run, k + 1).status.history) < 0
  {
    TurnFacts(run, k);
    TurnGetsAhead(run, k);
    LogInvariant(run, k + 1);
    TrimmingIsInvisible(run, k + 1);
    LookupsAgree(LogStatus(run, k + 1));
    UnderWayIsLast(LogStatus(run, k + 1));
  }

  /** A turn that is not readable leaves the run under way as it is, in the window or out of it. */
  lemma UnreadableTurnLeavesTheRun(run: Run, k: nat)
    requires Plausible(run) && k < |run.turns| && LastInProgress(Log(run, k)) && !ReadableAt(run, k)
    ensures EffectAt(run, k).move in {Idle, Boot} && Log(run, k + 1) == Log(run, k)
  {
    TurnFacts(run, k);
    TurnShape(run, k);
    UnderWayIsLast(LogStatus(run, k));
  }

  /** And so for as long as that lasts. */
  lemma {:induction false} UnreadableTurnsLeaveTheRun(run: Run, k: nat, m: nat)
    requires Plausible(run) && k <= m <= |run.turns| && LastInProgress(Log(run, k))
    requires forall j :: k <= j < m ==> !ReadableAt(run, j)
    ensures Log(run, m) == Log(run, k)
    decreases m - k
  {
    if k < m {
      UnreadableTurnsLeaveTheRun(run, k, m - 1);
      UnreadableTurnLeavesTheRun(run, m - 1);
    }
  }

  // ---------------------------------------------------------------- a run in its window

  /** What a turn in the window does with the run of record `r`, and what it asks for next. */
  ghost predicate DoesInWindow(spec: PolicySpec, r: MaintenanceRecord, o: Observation, e: Effect) {
    var back := r.phase == PatchApplied && o.health == Running;
    && (e.move == Finish <==>
          (back && spec.postActions == []) || (r.phase == PostActionsTriggered && AllFoundDone(spec, o)))
    && (e.move == Advance <==> back && spec.postActions != [] && AllReported(spec, o))
    && (e.move == Abort <==> back && !AllReported(spec, o))
    && (e.move == Idle <==>
          || (r.phase == PatchApplied && o.health != Running)
          || (r.phase == PostActionsTriggered && !AllFoundDone(spec, o)))
    && e.result == match e.move
                   case Finish => Requeue(ToTheEnd(spec, o))
                   case Advance => Requeue(30)
                   case Abort => Requeue(300)
                   case _ =>
                     if (if r.phase == PatchApplied then o.health == HealthUnknown
                         else StoppedBy(spec.postActions, o.checks, CheckError)) then Errored
                     else Requeue(30)
  }

  /** Seconds to five past the end of the opening. */
  ghost function ToTheEnd(spec: PolicySpec, o: Observation): int {
    if o.prevTick.None? then 0 else o.prevTick.value + 60 * spec.timeoutMinutes + 5 - o.clock.now
  }

  /** What it makes of the record. */
  ghost function RecordAfter(r: MaintenanceRecord, o: Observation, move: Move): MaintenanceRecord {
    match move
    case Finish => r.(status := Completed, reason := Blank, completedAt := Some(o.clock.first))
    case Advance => r.(phase := PostActionsTriggered)
    case Abort => r.(status := Failed, reason := Detail(o.triggerError), completedAt := Some(o.clock.first))
    case _ => r
  }

  lemma InWindowByCase(spec: PolicySpec, s: Status, cr: CRState, o: Observation, c: Case, e: Effect)
    requires RunInWindow(spec, s, cr, o) && KnownRun(spec, RunRecord(s))
    requires InCase(c, spec, s, cr, o) && e.move == MoveOf(c) && GivesResult(c, spec, o, e.result)
    ensures c in {Waits, Errs, MovesOn, TriggerFails, Completes}
    ensures DoesInWindow(spec, RunRecord(s), o, e)
  {
    PartOf(c, spec, s, cr, o);
    CompletionMeans(spec.postActions, o.checks);
  }

  lemma RecordByCase(spec: PolicySpec, s: Status, cr: CRState, o: Observation, c: Case, e: Effect)
    requires c in {Waits, Errs, MovesOn, TriggerFails, Completes} && e.move == MoveOf(c)
    requires GivesHistory(false, c, spec, cr, o, s.history, e.status.history)
    requires HasInProgress(s) && FindInProgress(s.history) == |s.history| - 1
    ensures e.status.history == s.history[|s.history| - 1 := RecordAfter(RunRecord(s), o, e.move)]
  {
  }

  /** What becomes of a run under way at a readable turn in the window, case by case; its record, when the
      status write arrives, and no other, shows it. */
  lemma WindowOutcome(run: Run, k: nat)
    requires Plausible(run) && k < |run.turns| && LastInProgress(Log(run, k)) && ReadableAt(run, k)
    requires InWindowNow(run.spec, run.turns[k].seen)
    ensures DoesInWindow(run.spec, Newest(run, k), run.turns[k].seen, EffectAt(run, k))
    ensures Log(run, k + 1) ==
            if !run.turns[k].seen.statusWritten then Log(run, k)
            else Log(run, k)[|Log(run, k)| - 1 := RecordAfter(Newest(run, k), run.turns[k].seen, EffectAt(run, k).move)]
  {
    TurnFacts(run, k);
    var cr, o := Before(false, run, k).cr, run.turns[k].seen;
    var c := TurnCase(run, k);
    WordsAgree(run.spec, LogStatus(run, k), cr, o);
    UnderWayIsLast(LogStatus(run, k));
    InWindowByCase(run.spec, LogStatus(run, k), cr, o, c, LogEffect(run, k));
    RecordByCase(run.spec, LogStatus(run, k), cr, o, c, LogEffect(run, k));
  }

  // ---------------------------------------------------------------- a window that expires

  /** At turn `k` the cluster is seen Running, and nothing the run still had to do is left undone. */
  ghost predicate AllIsWell(run: Run, k: nat)
    requires k < |run.turns| && |Log(run, k)| > 0
  {
    && run.turns[k].seen.health.Running?
    && (Newest(run, k).phase.PostActionsTriggered? || run.spec.postActions == [])
    && AllFoundDoneOf(run.spec.postActions, run.turns[k].seen.checks)
  }

  lemma GracePassesWhenAllIsWell(run: Run, k: nat)
    requires Plausible(run) && k < |run.turns| && LastInProgress(Log(run, k))
    ensures GracePasses(run.spec, Newest(run, k), run.turns[k].seen) <==> AllIsWell(run, k)
  {
    TurnFacts(run, k);
    CompletionMeans(run.spec.postActions, run.turns[k].seen.checks);
  }

  /** Outside every opening no reconcile thinks it is in a window. */
  lemma OutsideOpeningsIsSeen(run: Run, k: nat)
    requires Plausible(run) && k < |run.turns|
    requires forall p :: p in run.ticks ==> !InOpening(p, run.spec.timeoutMinutes, run.turns[k].seen.clock.now)
    ensures !InWindowNow(run.spec, run.turns[k].seen)
  {
    assert PlausibleTurn(run, k);
    var o := run.turns[k].seen;
    if o.prevTick.Some? {
      assert o.prevTick.value in run.ticks;
    }
  }

  /** What becomes of a run under way at a turn that is not in a window: it is completed exactly when the
      turn is readable and all is well, failed exactly when it is readable and something is not, and
      stays as it is exactly when the turn is not readable, or its status write is lost. */
  lemma ExpiryOutcome(run: Run, k: nat)
    requires Plausible(run) && k < |run.turns| && LastInProgress(Log(run, k))
    requires !InWindowNow(run.spec, run.turns[k].seen)
    ensures EffectAt(run, k).move.Finish? <==> ReadableAt(run, k) && AllIsWell(run, k)
    ensures EffectAt(run, k).move.Abort? <==> ReadableAt(run, k) && !AllIsWell(run, k)
    ensures |Log(run, k + 1)| == |Log(run, k)|
    ensures Newest(run, k + 1).status ==
            if !ReadableAt(run, k) || !run.turns[k].seen.statusWritten then InProgress
            else if AllIsWell(run, k) then Completed else Failed
    ensures LastInProgress(Log(run, k + 1)) ==> Log(run, k + 1) == Log(run, k)
  {
    if ReadableAt(run, k) {
      TurnFacts(run, k);
      TurnShape(run, k);
      UnderWayIsLast(LogStatus(run, k));
      GracePassesWhenAllIsWell(run, k);
    } else {
      UnreadableTurnLeavesTheRun(run, k);
    }
  }
}
