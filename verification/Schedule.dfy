/** When the controller wakes up, and what its status says about the recommendation. */
module Schedule {
  import opened Basics
  import opened PolicyTypes
  import opened Cron
  import opened Sizing
  import opened StatusBook
  import opened Decision
  import opened Shapes
  import opened Runs
  import opened RunGuarantees
  import opened Facts
  import opened HistoryGuarantees

  // ---------------------------------------------------------------- waking up

  /** The controller is idle: no run is under way, and the window is shut or its opening already used. */
  ghost predicate HasNothingToDo(spec: PolicySpec, s: Status, o: Observation)
    requires WindowNow(spec, o).Evaluated?
  {
    var window := WindowNow(spec, o).window;
    !UnderWay(s) && (!window.inWindow || HasCompleted(s.history, window.nextOpen, window.windowEnd))
  }

  /** An idle controller follows the wake-up chain of the cron expression, so it visits every opening. */
  lemma IdleFollowsTheChain(trim: bool, spec: PolicySpec, ticks: iset<Time>, s: Status, cr: CRState, o: Observation)
    requires o.cronValid && ExactAnswers(ticks, o.clock.now, o.prevTick, o.nextTick)
    requires Readable(spec, cr, o) && HasNothingToDo(spec, s, o)
    ensures var e := Reconcile(trim, spec, s, cr, o);
            && e.move.Idle? && e.write.None? && e.result.Requeue?
            && Wakes(ticks, spec.timeoutMinutes, o.clock.now, o.clock.now + e.result.after)
  {
    var rec := ReadRecommendation(spec, o.vpa).rec;
    var s1 := Unstuck(spec, Synced(spec, s, rec, o), o);
    assert !UnderWay(Synced(spec, s, rec, o)) && s1.history == s.history;
    assert Reconcile(trim, spec, s, cr, o) == Consider(trim, spec, s1, cr, rec, WindowNow(spec, o).window, o);
  }

  /** Every reconcile that does not end with an error asks for a usual wake-up, and none asks to be woken
      up sooner than the jitter. */
  lemma WakeUpIsNeverSooner(trim: bool, spec: PolicySpec, s: Status, cr: CRState, o: Observation)
    ensures var result := Reconcile(trim, spec, s, cr, o).result;
            UsualWakeUp(spec, o, result) && (result.Requeue? ==> result.after >= REQUEUE_JITTER)
  {
    ReconcileShape(trim, spec, s, cr, o);
  }

  // ---------------------------------------------------------------- no opening is slept through

  /** Turn `k` answers without an error, and the next comes at most `delay` seconds after the wake-up it asks
      for. It may well come sooner: every status change causes a reconcile. */
  ghost predicate AnswersInTime(run: Run, k: nat, delay: nat)
    requires k < |run.turns|
  {
    var o, result := run.turns[k].seen, EffectAt(run, k).result;
    && o.policyRead.PolicyFound? && o.statusWritten && result.Requeue?
    && (k + 1 < |run.turns| ==> run.turns[k + 1].seen.clock.now <= o.clock.now + result.after + delay)
  }

  ghost predicate Punctual(run: Run, delay: nat) {
    forall k :: 0 <= k < |run.turns| ==> AnswersInTime(run, k, delay)
  }

  /** Whatever the turn before an opening did, the next one comes before that opening ends. */
  lemma TurnDoesNotOvershoot(run: Run, k: nat, q: Time, delay: nat)
    requires Plausible(run) && Punctual(run, delay) && k + 1 < |run.turns|
    requires Spaced(run.ticks, REQUEUE_JITTER + delay)
    requires WindowSeconds(run.spec.timeoutMinutes) >= LONGEST_FIXED_WAIT + delay
    requires q in run.ticks && run.turns[k].seen.clock.now < q
    ensures run.turns[k + 1].seen.clock.now < q + WindowSeconds(run.spec.timeoutMinutes)
  {
    assert PlausibleTurn(run, k) && AnswersInTime(run, k, delay);
    var o, spec := run.turns[k].seen, run.spec;
    RealShape(run, k);
    if WindowNow(spec, o).Evaluated? {
      RequeueDoesNotOvershoot(run.ticks, spec.timeoutMinutes, o.clock.now, o.prevTick, o.nextTick, q, delay);
    }
  }

  /** No opening of five minutes or more is slept through, busy or idle: a run whose turns answer without
      errors and follow the wake-ups, none more than `delay` seconds late, has a turn in every opening
      that is at least that much longer than five minutes and that begins while the run lasts. */
  lemma {:induction false} RunVisitsEveryOpening(run: Run, k: nat, q: Time, delay: nat) returns (n: nat)
    requires Plausible(run) && Punctual(run, delay) && k < |run.turns|
    requires Spaced(run.ticks, REQUEUE_JITTER + delay)
    requires WindowSeconds(run.spec.timeoutMinutes) >= LONGEST_FIXED_WAIT + delay
    requires q in run.ticks && run.turns[0].seen.clock.now < q <= run.turns[k].seen.clock.now
    ensures n <= k && InOpening(q, run.spec.timeoutMinutes, run.turns[n].seen.clock.now)
  {
    if q <= run.turns[k - 1].seen.clock.now {
      n := RunVisitsEveryOpening(run, k - 1, q, delay);
    } else {
      TurnDoesNotOvershoot(run, k - 1, q, delay);
      n := k;
    }
  }

  // ---------------------------------------------------------------- how long a run stays under way

  const POLL := 30

  ghost predicate AllReadable(run: Run) {
    forall k :: 0 <= k < |run.turns| ==> ReadableAt(run, k)
  }

  lemma StillUnderWay(spec: PolicySpec, s: Status, cr: CRState, o: Observation, e: Effect)
    requires Agreement(s) && Readable(spec, cr, o) && LastInProgress(e.status.history)
    requires ShapeOf(false, spec, s, cr, o, e) && SignsOf(spec, s, cr, o, e)
    ensures InWindowNow(spec, o) && e.result in {Requeue(POLL), Errored}
  {
    UnderWayIsLast(s);
  }

  /** The opening that turn `k` is in, if it is in one. */
  ghost function OpeningAt(run: Run, k: nat): Option<Time>
    requires k < |run.turns|
  {
    run.turns[k].seen.prevTick
  }

  ghost predicate IsInOpening(run: Run, k: nat)
    requires k < |run.turns|
  {
    && OpeningAt(run, k).Some? && OpeningAt(run, k).value in run.ticks
    && InOpening(OpeningAt(run, k).value, run.spec.timeoutMinutes, run.turns[k].seen.clock.now)
  }

  lemma TurnKeepsRunInWindow(run: Run, j: nat)
    requires Plausible(run) && j < |run.turns| && ReadableAt(run, j)
    requires run.turns[j].seen.statusWritten && LastInProgress(Log(run, j + 1))
    ensures IsInOpening(run, j) && EffectAt(run, j).result in {Requeue(POLL), Errored}
  {
    TurnFacts(run, j);
    TurnShape(run, j);
    StillUnderWay(run.spec, LogStatus(run, j), Before(false, run, j).cr, run.turns[j].seen, LogEffect(run, j));
  }

  /** A run that is under way before turn `k` was seen to in a window at the turn before, which asked to be
      woken up in half a minute. */
  lemma UnderWayMeansInWindow(run: Run, k: nat, delay: nat)
    requires Plausible(run) && Punctual(run, delay) && 0 < k < |run.turns|
    requires ReadableAt(run, k - 1) && LastInProgress(Log(run, k))
    ensures IsInOpening(run, k - 1)
    ensures var was, now := run.turns[k - 1].seen.clock.now, run.turns[k].seen.clock.now;
            was <= now <= was + POLL + delay
  {
    assert AnswersInTime(run, k - 1, delay);
    TurnKeepsRunInWindow(run, k - 1);
    TurnAddsLater(run, k - 1);
    TurnAddsLater(run, k);
  }

  /** From one opening to the next it takes longer than `gap`. */
  lemma NoWayToTheNextOpening(ticks: iset<Time>, timeoutMinutes: int, p: Time, q: Time, t: Time, u: Time, gap: int)
    requires p in ticks && q in ticks && Spaced(ticks, WindowSeconds(timeoutMinutes) + gap)
    requires InOpening(p, timeoutMinutes, t) && InOpening(q, timeoutMinutes, u) && t <= u <= t + gap
    ensures p == q
  {
  }

  /** The run that started at turn `i` and is under way before turn `k` has not left its opening. */
  lemma {:induction false} RunStaysInItsOpening(run: Run, i: nat, k: nat, delay: nat)
    requires Plausible(run) && Punctual(run, delay) && AllReadable(run) && k < |run.turns|
    requires Spaced(run.ticks, WindowSeconds(run.spec.timeoutMinutes) + POLL + delay)
    requires StartedAt(run, i, k) && LastInProgress(Log(run, k))
    ensures IsInOpening(run, k - 1) && OpeningAt(run, k - 1) == OpeningAt(run, i)
    decreases k
  {
    assert ReadableAt(run, k - 1);
    UnderWayMeansInWindow(run, k, delay);
    if k > i + 1 {
      UnderWayBefore(run, i, k);
      RunStaysInItsOpening(run, i, k - 1, delay);
      assert ReadableAt(run, k - 2);
      UnderWayMeansInWindow(run, k - 1, delay);
      NoWayToTheNextOpening(run.ticks, run.spec.timeoutMinutes,
                            OpeningAt(run, k - 2).value, OpeningAt(run, k - 1).value,
                            run.turns[k - 2].seen.clock.now, run.turns[k - 1].seen.clock.now, POLL + delay);
    }
  }

  lemma UnderWayBefore(run: Run, i: nat, k: nat)
    requires Plausible(run) && StartedAt(run, i, k) && i + 1 < k && LastInProgress(Log(run, k))
    ensures StartedAt(run, i, k - 1) && LastInProgress(Log(run, k - 1))
  {
    OutcomesShowInTheLog(run, i);
    LogOnlyGrows(run, i + 1, k - 1);
    OneTurnBack(run, k);
  }

  /** A run of readable turns in time does not outlast its opening by more than half a minute and the
      delay, when openings are further apart than that. */
  lemma RunEndsWithItsOpening(run: Run, i: nat, k: nat, delay: nat)
    requires Plausible(run) && Punctual(run, delay) && AllReadable(run) && k < |run.turns|
    requires Spaced(run.ticks, WindowSeconds(run.spec.timeoutMinutes) + POLL + delay)
    requires StartedAt(run, i, k) && LastInProgress(Log(run, k))
    ensures OpeningAt(run, i).Some?
    ensures run.turns[k].seen.clock.now <
            OpeningAt(run, i).value + WindowSeconds(run.spec.timeoutMinutes) + POLL + delay
  {
    RunStaysInItsOpening(run, i, k, delay);
    assert ReadableAt(run, k - 1);
    UnderWayMeansInWindow(run, k, delay);
  }

  // ---------------------------------------------------------------- the recommendation in the status

  /** VPARecommendationReady and memoryTarget always tell the latest recommendation read, whatever else
      the reconcile does. */
  lemma StatusTellsRecommendation(trim: bool, spec: PolicySpec, s: Status, cr: CRState, o: Observation)
    ensures TellsRecommendation(spec, s, cr, o, Reconcile(trim, spec, s, cr, o).status)
  {
    ReconcileShape(trim, spec, s, cr, o);
  }
}
