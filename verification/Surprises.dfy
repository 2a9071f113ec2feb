/** Concrete runs in which the program does not do what its documentation says, or what one would expect.
    The policy's window opens every hour on the hour, for one minute unless said otherwise, and all other
    settings are the defaults. */
module Surprises {
  import opened Basics
  import opened PolicyTypes
  import opened Cron
  import opened Sizing
  import opened StatusBook
  import opened ZalandoPatch
  import opened Decision
  import opened Runs
  import opened RunGuarantees
  import opened Schedule

  const RESTART := PostAction(RolloutRestart, Deployment, "app", "")

  const HOUR := 60 * 60

  ghost const HOURLY := iset t: Time | t % HOUR == 0

  function Spec(timeoutMinutes: int, postActions: seq<PostAction>): PolicySpec {
    PolicySpec(1, "", GI, 100 * GI, 1.0, 0.0, None, timeoutMinutes, SafetyGates(true, None, None), postActions, map[])
  }

  /** A reconcile at `now` that reads a recommendation of `gigs` Gi and sees the cluster Running. */
  function Sees(now: Time, gigs: int, triggers: seq<TriggerOutcome>): Observation {
    var tick := now - now % HOUR;
    var vpa := VpaFound([ContainerTarget("postgres", Some(gigs * GI), None)]);
    Observation(PolicyFound, true, ParamsOk(map[]), Accepted, vpa, true, Some(tick), Some(tick + HOUR), Running,
                "", triggers, "boom", [], Clock(now, now, now, now, now, now), true)
  }

  lemma SeesTarget(timeoutMinutes: int, postActions: seq<PostAction>, now: Time, gigs: int,
                   triggers: seq<TriggerOutcome>)
    requires 1 <= gigs <= 100
    ensures ReadRecommendation(Spec(timeoutMinutes, postActions), Sees(now, gigs, triggers).vpa) ==
            Recommended(Recommendation(gigs * GI, None))
  {
  }

  lemma SeesTicks(now: Time, gigs: int, triggers: seq<TriggerOutcome>)
    ensures var o := Sees(now, gigs, triggers); ExactAnswers(HOURLY, now, o.prevTick, o.nextTick)
  {
    var tick := now - now % HOUR;
    forall t | t in HOURLY ensures t <= tick || tick + HOUR <= t {
    }
  }

  /** Nothing has happened yet. */
  ghost function NewRun(timeoutMinutes: int, postActions: seq<PostAction>): Run {
    Run(Spec(timeoutMinutes, postActions), HOURLY, 0, NoMemory, [])
  }

  /** One more turn, without outside changes. */
  lemma Goes(run: Run, o: Observation) returns (longer: Run)
    requires Plausible(run) && run.ticks == HOURLY
    requires o.clock.Ordered() && Horizon(run, |run.turns|) <= o.clock.sync
    requires o.prevTick == Some(o.clock.now - o.clock.now % HOUR)
    requires o.nextTick == Some(o.clock.now - o.clock.now % HOUR + HOUR)
    ensures Plausible(longer) && longer.(turns := []) == run.(turns := [])
    ensures |longer.turns| == |run.turns| + 1 && longer.turns[..|run.turns|] == run.turns
    ensures longer.turns[|run.turns|].seen == o && longer.turns[|run.turns|].outside.None?
    ensures State(true, longer, |run.turns|) == State(true, run, |run.turns|)
    ensures Before(true, longer, |run.turns|) == State(true, run, |run.turns|)
  {
    SeesTicks(o.clock.now, 1, []);
    AnyTurnMayFollow(run, None, o);
    longer := Continue(run, None, o);
  }

  /** What turn `k` of such a run does. */
  lemma TurnDoes(run: Run, k: nat)
    requires Plausible(run) && k < |run.turns|
    ensures EffectAt(run, k) == EffectOn(true, run.spec, Before(true, run, k), run.turns[k].seen)
    ensures State(true, run, k + 1) == Next(Before(true, run, k), run.turns[k].seen, EffectAt(run, k))
  {
    assert PlausibleTurn(run, k);
  }

  /** A world in which a run that applied 5Gi is under way, and is the only one on record. */
  ghost predicate OneRunUnderWay(w: World) {
    && w.cr == Memory(5 * GI) && w.status.history == [StartedRecord(0, None, 5 * GI)]
    && IsTrue(w.status.conditions, MaintenanceInProgress)
  }

  const FIRST_WRITE := Write(false, 5 * GI, None, map[])
  const SECOND_WRITE := Write(false, 50 * GI, None, map[])

  /** The first turn of a run. */
  ghost predicate FirstSees(run: Run, actions: seq<PostAction>, o: Observation) {
    && Plausible(run) && run.ticks == HOURLY
    && run.spec == Spec(run.spec.timeoutMinutes, actions) && run.spec.timeoutMinutes >= 1
    && |run.turns| > 0 && Before(true, run, 0) == World(NO_STATUS, NoMemory) && run.turns[0].seen == o
  }

  /** A first reconcile, inside the window, on a CR without memory: the run starts. */
  lemma FirstTurnStarts(run: Run, actions: seq<PostAction>, stored: bool)
    requires FirstSees(run, actions, Sees(0, 5, []).(statusWritten := stored))
    ensures EffectAt(run, 0).move.Start? && EffectAt(run, 0).write == Some(FIRST_WRITE)
    ensures stored ==> OneRunUnderWay(State(true, run, 1))
    ensures !stored ==> State(true, run, 1) == World(NO_STATUS, Memory(5 * GI))
  {
    SeesTarget(run.spec.timeoutMinutes, actions, 0, 5, []);
    TurnDoes(run, 0);
  }

  /** A first turn, in which a run starts. */
  lemma OpeningTurn(actions: seq<PostAction>, stored: bool) returns (run: Run)
    ensures FirstSees(run, actions, Sees(0, 5, []).(statusWritten := stored))
    ensures run.spec == Spec(1, actions) && |run.turns| == 1
  {
    run := Goes(NewRun(1, actions), Sees(0, 5, []).(statusWritten := stored));
  }

  // ---------------------------------------------------------------- a window that expires

  lemma FinishesLate(run: Run)
    requires Plausible(run) && run.spec == Spec(1, []) && |run.turns| == 2 && run.turns[1].seen == Sees(100, 5, [])
    requires OneRunUnderWay(Before(true, run, 1))
    ensures var h := State(true, run, 2).status.history;
            |h| == 1 && h[0].status.Completed? && h[0].phase.PatchApplied?
  {
    SeesTarget(1, [], 100, 5, []);
    TurnDoes(run, 1);
    assert FindInProgress(Before(true, run, 1).status.history) == 0;
  }

  /** The window [0, 60) expires under a run, and at 100 the run is not failed but Completed. Its record,
      although its state is terminal, still has its phase. */
  lemma ExpiredRunCompletes() returns (run: Run)
    ensures Plausible(run) && run.spec == Spec(1, []) && run.ticks == HOURLY
    ensures |run.turns| == 2 && run.turns[1].seen == Sees(100, 5, [])
    ensures WindowNow(run.spec, run.turns[1].seen) == Evaluated(WindowResult(false, HOUR, HOUR + 60))
    ensures OneRunUnderWay(State(true, run, 1))
    ensures var h := State(true, run, 2).status.history;
            |h| == 1 && h[0].status.Completed? && h[0].phase.PatchApplied?
  {
    var first := OpeningTurn([], true);
    FirstTurnStarts(first, [], true);
    run := Goes(first, Sees(100, 5, []));
    FinishesLate(run);
  }

  lemma StaysUnderWay(run: Run)
    requires Plausible(run) && run.spec == Spec(1, []) && |run.turns| == 2
    requires run.turns[1].seen == Sees(100, 5, []).(vpa := VpaMissing, health := NotRunning)
    requires OneRunUnderWay(Before(true, run, 1))
    ensures OneRunUnderWay(State(true, run, 2))
  {
    TurnDoes(run, 1);
  }

  /** Nor is it failed here: the window has expired, the cluster is not Running, and there is no VPA any
      more, so that the run is not even looked at, and its record is still InProgress. */
  lemma ExpiredRunStays() returns (run: Run)
    ensures Plausible(run) && run.spec == Spec(1, []) && run.ticks == HOURLY && |run.turns| == 2
    ensures var o := run.turns[1].seen; o.clock.now == 100 && o.health.NotRunning? && o.statusWritten
    ensures WindowNow(run.spec, run.turns[1].seen) == Evaluated(WindowResult(false, HOUR, HOUR + 60))
    ensures OneRunUnderWay(State(true, run, 1)) && OneRunUnderWay(State(true, run, 2))
  {
    var first := OpeningTurn([], true);
    FirstTurnStarts(first, [], true);
    run := Goes(first, Sees(100, 5, []).(vpa := VpaMissing, health := NotRunning));
    StaysUnderWay(run);
  }

  // ---------------------------------------------------------------- two patches in one opening

  /** A world in which the only run on record applied 5Gi and failed. */
  ghost predicate OneRunFailed(w: World) {
    && w.cr == Memory(5 * GI) && |w.status.history| == 1 && w.status.history[0].status.Failed?
    && !IsTrue(w.status.conditions, MaintenanceInProgress)
  }

  lemma TriggerFails(run: Run)
    requires Plausible(run) && run.spec == Spec(1, [RESTART]) && |run.turns| == 2
    requires run.turns[1].seen == Sees(10, 5, [NotTriggered]) && OneRunUnderWay(Before(true, run, 1))
    ensures OneRunFailed(State(true, run, 2))
  {
    TurnDoes(run, 1);
    FailsWhileTriggering(Before(true, run, 1));
  }

  lemma FailsWhileTriggering(w: World)
    requires OneRunUnderWay(w)
    ensures var o := Sees(10, 5, [NotTriggered]);
            OneRunFailed(Next(w, o, EffectOn(true, Spec(1, [RESTART]), w, o)))
  {
    SeesTarget(1, [RESTART], 10, 5, [NotTriggered]);
    assert FindInProgress(w.status.history) == 0;
  }

  lemma StartsAgain(run: Run, k: nat, actions: seq<PostAction>)
    requires Plausible(run) && run.spec == Spec(1, actions) && k < |run.turns| && run.turns[k].seen == Sees(20, 50, [])
    requires var w := Before(true, run, k);
             && w.cr == Memory(5 * GI) && !IsTrue(w.status.conditions, MaintenanceInProgress)
             && forall i :: 0 <= i < |w.status.history| ==> w.status.history[i].status.Failed?
    ensures EffectAt(run, k).move.Start? && EffectAt(run, k).write == Some(SECOND_WRITE)
  {
    SeesTarget(1, actions, 20, 50, []);
    GatesOpenExactly(5 * GI, 50 * GI, Some(Spec(1, actions).safetyGates));
    TurnDoes(run, k);
  }

  /** A second turn, in which that run fails. */
  lemma FailingTurn() returns (run: Run)
    ensures FirstSees(run, [RESTART], Sees(0, 5, []))
    ensures run.spec == Spec(1, [RESTART]) && |run.turns| == 2 && run.turns[1].seen == Sees(10, 5, [NotTriggered])
    ensures EffectAt(run, 0).write == Some(FIRST_WRITE) && OneRunFailed(State(true, run, 2))
  {
    var first := OpeningTurn([RESTART], true);
    FirstTurnStarts(first, [RESTART], true);
    run := Goes(first, Sees(10, 5, [NotTriggered]));
    assert run.turns[0] == run.turns[..1][0];
    TriggerFails(run);
  }

  /** A run fails while triggering its post-action, and the CR is patched a second time in the same opening. */
  lemma TwoPatchesInOneOpening() returns (run: Run)
    ensures Plausible(run) && run.ticks == HOURLY && |run.turns| == 3
    ensures run.turns[0].seen.prevTick == run.turns[2].seen.prevTick == Some(0)
    ensures EffectAt(run, 0).write == Some(FIRST_WRITE) && EffectAt(run, 2).write == Some(SECOND_WRITE)
  {
    var second := FailingTurn();
    run := Goes(second, Sees(20, 50, []));
    assert run.turns[0] == run.turns[..2][0];
    StartsAgain(run, 2, [RESTART]);
  }

  /** Two patches in one opening although no run fails: the status write of the first start is lost, and the
      next turn, which knows nothing of that start, patches the CR again. */
  lemma TwoPatchesWithoutFailure() returns (run: Run)
    ensures Plausible(run) && run.ticks == HOURLY && |run.turns| == 2
    ensures run.turns[0].seen.prevTick == run.turns[1].seen.prevTick == Some(0)
    ensures EffectAt(run, 0).move.Start? && EffectAt(run, 0).write == Some(FIRST_WRITE)
    ensures EffectAt(run, 1).move.Start? && EffectAt(run, 1).write == Some(SECOND_WRITE)
  {
    var first := OpeningTurn([], false);
    FirstTurnStarts(first, [], false);
    run := Goes(first, Sees(20, 50, []));
    assert run.turns[0] == run.turns[..1][0];
    StartsAgain(run, 1, []);
  }

  // ---------------------------------------------------------------- a run that leaves no record

  /** A run that is not tracked: the patch reaches the CR although the client gets an error, the status is
      stored, and there is no record. */
  lemma PatchedWithoutRecord() returns (run: Run)
    ensures Plausible(run) && run.ticks == HOURLY && |run.turns| == 1 && run.turns[0].seen.statusWritten
    ensures EffectAt(run, 0).move.Misstart? && EffectAt(run, 0).write == Some(FIRST_WRITE)
    ensures State(true, run, 1).cr == Memory(5 * GI) && State(true, run, 1).status.history == []
  {
    run := Goes(NewRun(1, []), Sees(0, 5, []).(patch := AcceptedWithError("timeout")));
    FailsToStart(run);
  }

  lemma FailsToStart(run: Run)
    requires FirstSees(run, [], Sees(0, 5, []).(patch := AcceptedWithError("timeout")))
    ensures EffectAt(run, 0).move.Misstart? && EffectAt(run, 0).write == Some(FIRST_WRITE)
    ensures State(true, run, 1).cr == Memory(5 * GI) && State(true, run, 1).status.history == []
  {
    SeesTarget(1, [], 0, 5, []);
    TurnDoes(run, 0);
  }

  // ---------------------------------------------------------------- a run that is never ended

  /** A reconcile that sees the cluster restarting. */
  function Waits(now: Time): Observation {
    Sees(now, 5, []).(health := NotRunning)
  }

  lemma FirstTurnPolls(run: Run)
    requires FirstSees(run, [], Sees(0, 5, []))
    ensures EffectAt(run, 0).result == Requeue(POLL) && ReadableAt(run, 0)
  {
    SeesTarget(run.spec.timeoutMinutes, [], 0, 5, []);
    TurnDoes(run, 0);
  }

  lemma TurnWaits(run: Run, k: nat, now: Time)
    requires Plausible(run) && run.spec == Spec(60, []) && k < |run.turns| && run.turns[k].seen == Waits(now)
    requires OneRunUnderWay(Before(true, run, k))
    ensures EffectAt(run, k).result == Requeue(POLL) && ReadableAt(run, k) && OneRunUnderWay(State(true, run, k + 1))
  {
    SeesTarget(60, [], now, 5, []);
    TurnDoes(run, k);
    assert FindInProgress(Before(true, run, k).status.history) == 0;
  }

  /** Every turn so far polls, on time, and can read all it needs; the run of the first is still under way. */
  ghost predicate Polling(run: Run) {
    && Plausible(run) && run.spec == Spec(60, []) && run.ticks == HOURLY && |run.turns| > 0
    && (forall k :: 0 <= k < |run.turns| ==> PollsAt(run, k))
    && OneRunUnderWay(State(true, run, |run.turns|))
  }

  ghost predicate PollsAt(run: Run, k: nat)
    requires k < |run.turns|
  {
    var o := run.turns[k].seen;
    && o.clock == Clock(POLL * k, POLL * k, POLL * k, POLL * k, POLL * k, POLL * k)
    && o.policyRead.PolicyFound? && o.statusWritten
    && EffectAt(run, k).result == Requeue(POLL) && ReadableAt(run, k)
  }

  lemma {:induction false} PollingGoesOn(n: nat) returns (run: Run)
    requires n > 0
    ensures Polling(run) && |run.turns| == n
  {
    if n == 1 {
      run := Goes(NewRun(60, []), Sees(0, 5, []));
      FirstTurnStarts(run, [], true);
      FirstTurnPolls(run);
    } else {
      var before := PollingGoesOn(n - 1);
      assert PollsAt(before, n - 2);
      run := Goes(before, Waits(POLL * (n - 1)));
      TurnWaits(run, n - 1, POLL * (n - 1));
      forall k | 0 <= k < n ensures PollsAt(run, k) {
        if k < n - 1 {
          assert PollsAt(before, k) && run.turns[k] == run.turns[..n - 1][k];
          assert k > 0 ==> run.turns[k - 1] == run.turns[..n - 1][k - 1];
        }
      }
    }
  }

  /** When one opening follows the other without a break, here for an hour each, no run need ever be ended:
      for every number of turns there is a run of so many, all readable and in time, half a minute apart,
      whose cluster does not come back and whose first record is still InProgress. */
  lemma RunIsNeverEnded(n: nat) returns (run: Run)
    requires n > 0
    ensures Plausible(run) && Punctual(run, 0) && AllReadable(run) && run.ticks == HOURLY
    ensures run.spec == Spec(60, []) && |run.turns| == n && run.turns[n - 1].seen.clock.now == POLL * (n - 1)
    ensures OneRunUnderWay(State(true, run, n))
  {
    run := PollingGoesOn(n);
    assert PollsAt(run, n - 1);
    forall k | 0 <= k < n ensures AnswersInTime(run, k, 0) && ReadableAt(run, k) {
      assert PollsAt(run, k);
      if k + 1 < n {
        assert PollsAt(run, k + 1);
      }
    }
  }

  // ---------------------------------------------------------------- an opening that is slept through

  /** Openings shorter than five minutes can be slept through, however short: here there is no VPA a
      second before one opens, and the next turn, right on time, comes after it has closed. */
  lemma OpeningSleptThrough(timeoutMinutes: int) returns (run: Run)
    requires timeoutMinutes < 5
    ensures Plausible(run) && Punctual(run, 0) && run.spec.timeoutMinutes == timeoutMinutes && |run.turns| == 2
    ensures run.ticks == HOURLY && HOUR in run.ticks && Spaced(run.ticks, REQUEUE_JITTER)
    ensures run.turns[0].seen.clock.now < HOUR <= run.turns[1].seen.clock.now
    ensures forall n :: 0 <= n < |run.turns| ==> !InOpening(HOUR, timeoutMinutes, run.turns[n].seen.clock.now)
  {
    var first := Goes(NewRun(timeoutMinutes, []), Sees(HOUR - 1, 5, []).(vpa := VpaMissing));
    run := Goes(first, Sees(HOUR + 299, 5, []).(vpa := VpaMissing));
    assert run.turns[0] == run.turns[..1][0];
    WaitsForVpa(run, 0);
    WaitsForVpa(run, 1);
  }

  lemma WaitsForVpa(run: Run, k: nat)
    requires Plausible(run) && k < |run.turns| && run.spec.initialMemory.None? && Before(true, run, k).cr == NoMemory
    requires var o := run.turns[k].seen; o.policyRead.PolicyFound? && o.crReadable && o.vpa.VpaMissing?
    ensures EffectAt(run, k).result == Requeue(5 * 60) && State(true, run, k + 1).cr == NoMemory
  {
    TurnDoes(run, k);
  }
}
