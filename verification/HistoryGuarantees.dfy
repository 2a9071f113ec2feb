/** What the stored status can be trusted to say, in every run. */
module HistoryGuarantees {
  import opened Basics
  import opened PolicyTypes
  import opened Cron
  import opened StatusBook
  import opened Decision
  import opened Shapes
  import opened Runs
  import opened Twin
  import opened Facts

  // ---------------------------------------------------------------- once per window

  /** One update per window: two Completed records never started in the same opening, however the
      openings overlap, however late a start was stamped, and whichever status writes were lost.
      Indeed nothing at all is recorded in an opening after a record of it that completed. */
  lemma OncePerOpening(run: Run, k: nat, i: int, j: int, p: Time, q: Time)
    requires Plausible(run) && k <= |run.turns|
    requires 0 <= i < j < |Log(run, k)| && Log(run, k)[i].status.Completed?
    requires IsLatestTick(run.ticks, p, Log(run, k)[i].startedAt)
    requires IsLatestTick(run.ticks, q, Log(run, k)[j].startedAt)
    ensures p < q
  {
    LogInvariant(run, k);
    var a, b := Log(run, k)[i].startedAt, Log(run, k)[j].startedAt;
    SameOpeningIffSameTick(run.ticks, a, b, p, q);
    assert !SameOpening(run.ticks, a, b);
    assert p in run.ticks && p <= b;
  }

  /** Inside an opening, the guard answers on the stored ten records as it would on the full log:
      Skipped records cannot push the Completed one out of sight. */
  lemma GuardSeesTheFullLog(run: Run, k: nat, p: Time)
    requires Plausible(run) && k < |run.turns| && IsLatestTick(run.ticks, p, run.turns[k].seen.clock.now)
    ensures HasCompleted(Before(true, run, k).status.history, p, p + WindowSeconds(run.spec.timeoutMinutes)) <==>
            HasCompleted(Log(run, k), p, p + WindowSeconds(run.spec.timeoutMinutes))
  {
    TurnFacts(run, k);
    GuardsAgree(run.ticks, Log(run, k), p, run.turns[k].seen.clock.now, p + WindowSeconds(run.spec.timeoutMinutes));
  }

  // ---------------------------------------------------------------- conditions and records agree

  /** The condition and the records of a stored status `t` agree, with each other and with the full log. */
  ghost predicate Agrees(t: Status, log: seq<MaintenanceRecord>) {
    && (IsTrue(t.conditions, MaintenanceInProgress) <==>
          exists i :: 0 <= i < |t.history| && t.history[i].status.InProgress?)
    && (forall i :: 0 <= i < |t.history| && t.history[i].status.InProgress? ==> i == |t.history| - 1)
    && (forall i :: 0 <= i < |log| && log[i].status.InProgress? ==>
          i == |log| - 1 && |t.history| > 0 && t.history[|t.history| - 1] == log[i])
    && !Stale(t)
  }

  lemma NewestTenAgree(s: Status)
    requires Agreement(s)
    ensures Agrees(Trimmed(s), s.history)
  {
    TrimmingKeepsAgreement(s);
    UnderWayIsLast(Trimmed(s));
  }

  /** In every stored status the condition is True exactly when an InProgress record exists; there is
      at most one, it is the newest, trimming has not dropped it, and no reconcile ever finds the
      condition without the record. */
  lemma ConditionAndRecordAgree(run: Run, k: nat)
    requires Plausible(run) && k <= |run.turns|
    ensures Agrees(State(true, run, k).status, Log(run, k))
  {
    LogInvariant(run, k);
    TrimmingIsInvisible(run, k);
    NewestTenAgree(State(false, run, k).status);
  }

  /** `t` is the newest ten records of `log`, or all when there are fewer, in order of their start times. */
  ghost predicate IsNewestTen(t: seq<MaintenanceRecord>, log: seq<MaintenanceRecord>) {
    && |t| == (if |log| < 10 then |log| else 10)
    && t == log[|log| - |t|..]
    && (forall i, j :: 0 <= i < j < |t| ==> t[i].startedAt <= t[j].startedAt)
  }

  lemma LastTenIsNewest(log: seq<MaintenanceRecord>, horizon: Time)
    requires InOrder(log, horizon)
    ensures IsNewestTen(LastTen(log), log)
  {
    if |log| > MAX_HISTORY {
      SuffixInOrder(log, |log| - MAX_HISTORY, horizon);
    }
  }

  lemma SuffixInOrder(log: seq<MaintenanceRecord>, d: nat, horizon: Time)
    requires InOrder(log, horizon) && d <= |log|
    ensures InOrder(log[d..], horizon)
  {
    forall i, j | 0 <= i < j < |log[d..]| ensures log[d..][i].startedAt <= log[d..][j].startedAt {
      var a, b := d + i, d + j;
      assert log[a].startedAt <= log[b].startedAt;
    }
  }

  lemma StoredHistoryIsNewestTen(run: Run, k: nat)
    requires Plausible(run) && k <= |run.turns|
    ensures IsNewestTen(State(true, run, k).status.history, Log(run, k))
  {
    LogInvariant(run, k);
    TrimmingIsInvisible(run, k);
    LastTenIsNewest(Log(run, k), Horizon(run, k));
  }

  // ---------------------------------------------------------------- how records change

  /** How far a record still has to go. */
  function Rank(r: MaintenanceRecord): nat {
    if !r.status.InProgress? then 0 else if r.phase.PostActionsTriggered? then 1 else 2
  }

  /** A record either stays as it is or gets strictly further; what it says about its start never changes. */
  ghost predicate Evolves(r: MaintenanceRecord, r': MaintenanceRecord) {
    || r' == r
    || (&& Rank(r') < Rank(r) && r'.startedAt == r.startedAt
        && r'.previousMemory == r.previousMemory && r'.appliedMemory == r.appliedMemory)
  }

  ghost predicate Extends(h: seq<MaintenanceRecord>, h': seq<MaintenanceRecord>) {
    |h| <= |h'| && forall i :: 0 <= i < |h| ==> Evolves(h[i], h'[i])
  }

  /** One turn adds at most one record and changes at most the newest. */
  lemma TurnExtends(run: Run, k: nat)
    requires Plausible(run) && k < |run.turns|
    ensures Extends(Log(run, k), Log(run, k + 1)) && |Log(run, k + 1)| <= |Log(run, k)| + 1
  {
    TurnFacts(run, k);
    UnderWayIsLast(LogStatus(run, k));
    TurnShape(run, k);
    EffectExtends(run.spec, LogStatus(run, k), Before(false, run, k).cr, run.turns[k].seen, LogEffect(run, k));
  }

  lemma EffectExtends(spec: PolicySpec, s: Status, cr: CRState, o: Observation, e: Effect)
    requires Agreement(s) && ShapeOf(false, spec, s, cr, o, e)
    requires LastInProgress(s.history) ==> KnownRun(spec, s.history[|s.history| - 1])
    ensures Extends(s.history, e.status.history) && |e.status.history| <= |s.history| + 1
  {
    UnderWayIsLast(s);
  }

  /** Over any stretch of a run the log only grows, records only move forward through their phases,
      and a Completed, Failed or Skipped record never changes again. */
  lemma {:induction false} LogOnlyGrows(run: Run, k: nat, m: nat)
    requires Plausible(run) && k <= m <= |run.turns|
    ensures Extends(Log(run, k), Log(run, m))
    ensures forall i :: 0 <= i < |Log(run, k)| && !Log(run, k)[i].status.InProgress? ==>
              Log(run, m)[i] == Log(run, k)[i]
    decreases m - k
  {
    if k < m {
      LogOnlyGrows(run, k, m - 1);
      TurnExtends(run, m - 1);
    }
  }

  /** What one turn adds is stamped after its `now`. */
  lemma TurnAddsLater(run: Run, k: nat)
    requires Plausible(run) && k < |run.turns|
    ensures |Log(run, k)| < |Log(run, k + 1)| ==>
              run.turns[k].seen.clock.now <= Log(run, k + 1)[|Log(run, k)|].startedAt
    ensures Horizon(run, k) <= run.turns[k].seen.clock.now <= Horizon(run, k + 1)
  {
    TurnFacts(run, k);
    TurnShape(run, k);
    UnderWayIsLast(LogStatus(run, k));
  }

  /** Records added from turn `j` on start no earlier than that turn. */
  lemma {:induction false} AddedRecordsAreLater(run: Run, j: nat, k: nat)
    requires Plausible(run) && j < k <= |run.turns|
    ensures run.turns[j].seen.clock.now <= Horizon(run, k)
    ensures forall i :: |Log(run, j)| <= i < |Log(run, k)| ==> run.turns[j].seen.clock.now <= Log(run, k)[i].startedAt
    decreases k
  {
    TurnAddsLater(run, k - 1);
    TurnExtends(run, k - 1);
    if j < k - 1 {
      AddedRecordsAreLater(run, j, k - 1);
      forall i | |Log(run, j)| <= i < |Log(run, k)| ensures run.turns[j].seen.clock.now <= Log(run, k)[i].startedAt {
        if i < |Log(run, k - 1)| {
          assert Evolves(Log(run, k - 1)[i], Log(run, k)[i]);
        }
      }
    }
  }

  // ---------------------------------------------------------------- LastMaintenanceFailed

  /** How the latest attempt whose outcome was stored ended: Some(true) when it failed. An attempt
      ends when a run completes, when a run fails, and when a run fails to start. */
  ghost function LatestOutcome(run: Run, k: nat): Option<bool>
    requires k <= |run.turns|
  {
    if k == 0 then None
    else if run.turns[k - 1].seen.statusWritten && EffectAt(run, k - 1).move in {Misstart, Abort} then Some(true)
    else if run.turns[k - 1].seen.statusWritten && EffectAt(run, k - 1).move.Finish? then Some(false)
    else LatestOutcome(run, k - 1)
  }

  lemma EffectOutcome(trim: bool, spec: PolicySpec, s: Status, cr: CRState, o: Observation, e: Effect)
    requires ShapeOf(trim, spec, s, cr, o, e)
    ensures LastFailed(e.status) <==> e.move in {Misstart, Abort} || (!e.move.Finish? && LastFailed(s))
  {
  }

  lemma TurnOutcome(run: Run, k: nat)
    requires Plausible(run) && k < |run.turns|
    ensures LastFailed(State(true, run, k + 1).status) <==>
              if run.turns[k].seen.statusWritten && EffectAt(run, k).move in {Misstart, Abort, Finish}
              then !EffectAt(run, k).move.Finish? else LastFailed(State(true, run, k).status)
  {
    TurnFacts(run, k);
    RealShape(run, k);
    var w := Before(true, run, k);
    EffectOutcome(true, run.spec, w.status, w.cr, run.turns[k].seen, EffectAt(run, k));
  }

  /** The condition LastMaintenanceFailed is True exactly when the latest attempt failed. */
  lemma {:induction false} LastFailedTellsTheLatest(run: Run, k: nat)
    requires Plausible(run) && k <= |run.turns|
    ensures LastFailed(State(true, run, k).status) <==> LatestOutcome(run, k) == Some(true)
  {
    if k > 0 {
      LastFailedTellsTheLatest(run, k - 1);
      TurnOutcome(run, k - 1);
    }
  }

  /** What an effect's outcome means for the history. */
  lemma EffectShowsInHistory(spec: PolicySpec, s: Status, cr: CRState, o: Observation, e: Effect)
    requires Agreement(s) && ShapeOf(false, spec, s, cr, o, e)
    requires LastInProgress(s.history) ==> KnownRun(spec, s.history[|s.history| - 1])
    ensures var h, h' := s.history, e.status.history;
            && (e.move.Finish? <==> LastInProgress(h) && |h'| == |h| && h'[|h| - 1].status.Completed?)
            && (e.move.Abort? <==> LastInProgress(h) && |h'| == |h| && h'[|h| - 1].status.Failed?)
            && (e.move.Start? <==> LastInProgress(h') && |h'| == |h| + 1)
            && (e.move.Misstart? ==> h' == h && !LastInProgress(h))
  {
    UnderWayIsLast(s);
  }

  /** What those outcomes mean for the log. When the status is stored, a run completes at turn `k` exactly
      when the newest record turns from InProgress to Completed there, fails there exactly when it turns to
      Failed, starts there exactly when an InProgress record is added, and a run that fails to start leaves
      no record. When the status write is lost, nothing shows in the log. */
  lemma OutcomesShowInTheLog(run: Run, k: nat)
    requires Plausible(run) && k < |run.turns|
    ensures run.turns[k].seen.statusWritten ==>
              var h, h' := Log(run, k), Log(run, k + 1);
              && (EffectAt(run, k).move.Finish? <==> LastInProgress(h) && |h'| == |h| && h'[|h| - 1].status.Completed?)
              && (EffectAt(run, k).move.Abort? <==> LastInProgress(h) && |h'| == |h| && h'[|h| - 1].status.Failed?)
              && (EffectAt(run, k).move.Start? <==> LastInProgress(h') && |h'| == |h| + 1)
              && (EffectAt(run, k).move.Misstart? ==> h' == h && !LastInProgress(h))
    ensures !run.turns[k].seen.statusWritten ==> Log(run, k + 1) == Log(run, k)
  {
    TurnFacts(run, k);
    TurnShape(run, k);
    EffectShowsInHistory(run.spec, LogStatus(run, k), Before(false, run, k).cr, run.turns[k].seen, LogEffect(run, k));
  }

  // ---------------------------------------------------------------- what a record tells

  /** What a stored record always tells: how it stands, how far it got, and when it ended. */
  ghost predicate Consistent(r: MaintenanceRecord) {
    && (r.status.Skipped? <==> r.phase.NoPhase?)
    && (r.status.Skipped? <==> r.appliedMemory.None?)
    && (r.completedAt.Some? <==> r.status.Completed? || r.status.Failed?)
    && (r.completedAt.Some? ==> r.startedAt <= r.completedAt.value)
  }

  ghost predicate AllConsistent(history: seq<MaintenanceRecord>) {
    forall i :: 0 <= i < |history| ==> Consistent(history[i])
  }

  lemma EffectIsConsistent(spec: PolicySpec, s: Status, cr: CRState, o: Observation, e: Effect, horizon: Time)
    requires Agreement(s) && InOrder(s.history, horizon) && horizon <= o.clock.sync && o.clock.Ordered()
    requires ShapeOf(false, spec, s, cr, o, e) && AllConsistent(s.history)
    ensures AllConsistent(e.status.history)
  {
    UnderWayIsLast(s);
  }

  lemma ConsistencyStep(run: Run, k: nat)
    requires Plausible(run) && k < |run.turns| && AllConsistent(Log(run, k))
    ensures AllConsistent(Log(run, k + 1))
  {
    TurnFacts(run, k);
    TurnShape(run, k);
    var cr, o := Before(false, run, k).cr, run.turns[k].seen;
    EffectIsConsistent(run.spec, LogStatus(run, k), cr, o, LogEffect(run, k), Horizon(run, k));
  }

  /** The phase of a record is never cleared: a record has no phase exactly when its run was skipped.
      It has an end time exactly when it is Completed or Failed, and that is not before its start. */
  lemma {:induction false} RecordsAreConsistent(run: Run, k: nat)
    requires Plausible(run) && k <= |run.turns|
    ensures AllConsistent(Log(run, k))
  {
    if k > 0 {
      RecordsAreConsistent(run, k - 1);
      ConsistencyStep(run, k - 1);
    }
  }
}
