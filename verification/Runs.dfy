/** Runs: any number of reconciles of one policy, in an adversarial environment. */
module Runs {
  import opened Basics
  import opened PolicyTypes
  import opened Cron
  import opened StatusBook
  import opened Decision
  import opened Shapes

  /** The stored status and the CR. */
  datatype World = World(status: Status, cr: CRState)

  /** One turn of a run. Somebody else may have changed the CR since the last turn; then one reconcile
      observes the world. The turn records what that reconcile does and the world it leaves, and the same
      for a twin that never trims its history and so keeps the full log. */
  datatype Turn = Turn(
    outside: Option<CRState>,
    seen: Observation,
    effect: Effect,
    after: World,
    twinEffect: Effect,
    twinAfter: World)

  /** A policy that keeps its spec, the ticks of its cron expression, the time and the CR at first, and
      the turns that follow. The status starts empty. */
  datatype Run = Run(spec: PolicySpec, ticks: iset<Time>, since: Time, start: CRState, turns: seq<Turn>)

  const NO_STATUS := Status([], [], None, None)

  function EffectOn(trim: bool, spec: PolicySpec, w: World, o: Observation): Effect {
    if o.policyRead.PolicyFound? then Reconcile(trim, spec, w.status, w.cr, o)
    else Stay(w.status, if o.policyRead.PolicyGone? then Requeue(0) else Errored)
  }

  /** A lost status write keeps what the reconcile did to the CR. */
  function Next(w: World, o: Observation, e: Effect): World {
    World(if o.statusWritten then e.status else w.status, CRAfter(w.cr, e.write))
  }

  function Arrive(w: World, outside: Option<CRState>): World {
    if outside.Some? then w.(cr := outside.value) else w
  }

  /** The world after the first `k` turns: the real one with `trim`, the twin's without. */
  ghost function State(trim: bool, run: Run, k: nat): World
    requires k <= |run.turns|
  {
    if k == 0 then World(NO_STATUS, run.start) else if trim then run.turns[k - 1].after else run.turns[k - 1].twinAfter
  }

  /** What reconcile `k` finds. */
  ghost function Before(trim: bool, run: Run, k: nat): World
    requires k < |run.turns|
  {
    Arrive(State(trim, run, k), run.turns[k].outside)
  }

  /** What reconcile `k` does. */
  ghost function EffectAt(run: Run, k: nat): Effect
    requires k < |run.turns|
  {
    run.turns[k].effect
  }

  /** Every record ever stored, oldest first, as of turn `k`. */
  ghost function Log(run: Run, k: nat): seq<MaintenanceRecord>
    requires k <= |run.turns|
  {
    State(false, run, k).status.history
  }

  /** No clock reading before turn `k` is later than this one. */
  ghost function Horizon(run: Run, k: nat): Time
    requires k <= |run.turns|
  {
    if k == 0 then run.since else run.turns[k - 1].seen.clock.third
  }

  /** The turns follow one another as the program runs, clocks do not run backwards, and the cron
      oracle's answers are right when it gives one. */
  ghost predicate Plausible(run: Run) {
    forall k :: 0 <= k < |run.turns| ==> PlausibleTurn(run, k)
  }

  ghost predicate PlausibleTurn(run: Run, k: nat)
    requires k < |run.turns|
  {
    && PlausibleSight(run.ticks, Horizon(run, k), run.turns[k].seen)
    && Follows(run, k)
  }

  ghost predicate PlausibleSight(ticks: iset<Time>, horizon: Time, o: Observation) {
    && o.clock.Ordered() && horizon <= o.clock.sync
    && SoundAnswers(ticks, o.clock.now, o.prevTick, o.nextTick)
  }

  /** Turn `k` is what the reconciler does with what it sees. */
  ghost predicate Follows(run: Run, k: nat)
    requires k < |run.turns|
  {
    var turn := run.turns[k];
    && turn.effect == EffectOn(true, run.spec, Before(true, run, k), turn.seen)
    && turn.after == Next(Before(true, run, k), turn.seen, turn.effect)
    && turn.twinEffect == EffectOn(false, run.spec, Before(false, run, k), turn.seen)
    && turn.twinAfter == Next(Before(false, run, k), turn.seen, turn.twinEffect)
  }

  /** The run with one more turn. */
  ghost function Continue(run: Run, outside: Option<CRState>, o: Observation): Run {
    var n := |run.turns|;
    var w, v := Arrive(State(true, run, n), outside), Arrive(State(false, run, n), outside);
    var e, f := EffectOn(true, run.spec, w, o), EffectOn(false, run.spec, v, o);
    run.(turns := run.turns + [Turn(outside, o, e, Next(w, o, e), f, Next(v, o, f))])
  }

  /** Any run goes on with any plausible observation: nothing here is about fewer runs than there are. */
  lemma AnyTurnMayFollow(run: Run, outside: Option<CRState>, o: Observation)
    requires Plausible(run) && PlausibleSight(run.ticks, Horizon(run, |run.turns|), o)
    ensures Plausible(Continue(run, outside, o))
  {
    var longer, n := Continue(run, outside, o), |run.turns|;
    forall k | 0 <= k < n + 1 ensures PlausibleTurn(longer, k) {
      assert State(true, longer, k) == State(true, run, k) && State(false, longer, k) == State(false, run, k);
      if k < n {
        assert PlausibleTurn(run, k);
      }
    }
  }

  // ---------------------------------------------------------------- the invariant of the full log

  ghost predicate LastInProgress(history: seq<MaintenanceRecord>) {
    |history| > 0 && history[|history| - 1].status.InProgress?
  }

  /** At most one record is InProgress, it is the newest, and the condition is True exactly then. */
  ghost predicate Agreement(s: Status) {
    && (forall i :: 0 <= i < |s.history| - 1 ==> !s.history[i].status.InProgress?)
    && (Busy(s) <==> LastInProgress(s.history))
  }

  /** Records are in order of their start times, none of them later than `horizon`. */
  ghost predicate InOrder(history: seq<MaintenanceRecord>, horizon: Time) {
    && (forall i, j :: 0 <= i < j < |history| ==> history[i].startedAt <= history[j].startedAt)
    && (forall i :: 0 <= i < |history| ==> history[i].startedAt <= horizon)
  }

  /** After a Completed record, nothing is recorded any more in the opening it started in. */
  ghost predicate OnePerOpening(ticks: iset<Time>, history: seq<MaintenanceRecord>) {
    forall i, j :: 0 <= i < j < |history| && history[i].status.Completed? ==>
      !SameOpening(ticks, history[i].startedAt, history[j].startedAt)
  }

  /** A run under way knows its phase and what it applied. */
  ghost predicate KnownRun(spec: PolicySpec, r: MaintenanceRecord) {
    && r.appliedMemory.Some? && !r.phase.NoPhase?
    && (r.phase.PostActionsTriggered? ==> spec.postActions != [])
  }

  ghost predicate Invariant(spec: PolicySpec, ticks: iset<Time>, s: Status, horizon: Time) {
    && Agreement(s)
    && InOrder(s.history, horizon)
    && OnePerOpening(ticks, s.history)
    && (LastInProgress(s.history) ==> KnownRun(spec, s.history[|s.history| - 1]))
  }

  lemma UnderWayIsLast(s: Status)
    requires Agreement(s)
    ensures UnderWay(s) <==> Busy(s)
    ensures !Stale(s)
    ensures Busy(s) ==> FindInProgress(s.history) == |s.history| - 1
    ensures !Busy(s) ==> FindInProgress(s.history) == -1
  {
  }

  /** The guard, asked of the full log while an opening is current, can only hit the newest record. */
  lemma GuardHitsNewest(ticks: iset<Time>, history: seq<MaintenanceRecord>, p: Time, now: Time, windowEnd: Time)
    requires IsLatestTick(ticks, p, now) && InOrder(history, now) && OnePerOpening(ticks, history)
    ensures HasCompleted(history, p, windowEnd) <==>
              |history| > 0 && CompletedWithin(history[|history| - 1], p, windowEnd)
  {
    var last := |history| - 1;
    forall i | 0 <= i < last ensures !CompletedWithin(history[i], p, windowEnd) {
      assert history[i].status.Completed? ==> !SameOpening(ticks, history[i].startedAt, history[last].startedAt);
      assert history[i].startedAt <= history[last].startedAt <= now;
    }
  }

  /** Appending at a time the guard let through keeps one Completed record per opening. */
  lemma AppendKeepsInvariant(spec: PolicySpec, ticks: iset<Time>, s: Status, o: Observation, r: MaintenanceRecord,
                             horizon: Time, s': Status)
    requires Invariant(spec, ticks, s, horizon) && horizon <= o.clock.sync && o.clock.Ordered()
    requires SoundAnswers(ticks, o.clock.now, o.prevTick, o.nextTick) && MayStart(spec, s, o)
    requires o.clock.now <= r.startedAt <= o.clock.third && !r.status.Completed?
    requires s'.history == s.history + [r] && (Busy(s') <==> r.status.InProgress?)
    requires r.status.InProgress? ==> KnownRun(spec, r)
    ensures Invariant(spec, ticks, s', o.clock.third)
  {
    UnderWayIsLast(s);
    var p, n := o.prevTick.value, |s.history|;
    forall i | 0 <= i < n && s.history[i].status.Completed?
      ensures !SameOpening(ticks, s.history[i].startedAt, r.startedAt)
    {
      assert !CompletedWithin(s.history[i], p, p + WindowSeconds(spec.timeoutMinutes));
      assert p in ticks && s.history[i].startedAt < p <= r.startedAt;
    }
  }

  /** Changing the run under way, without touching its start time, keeps everything in place. */
  lemma ReplaceKeepsInvariant(spec: PolicySpec, ticks: iset<Time>, s: Status, r: MaintenanceRecord, horizon: Time,
                              s': Status, horizon': Time)
    requires Invariant(spec, ticks, s, horizon) && horizon <= horizon' && UnderWay(s)
    requires Replaced(s, s', r) && r.startedAt == Current(s).startedAt
    requires Busy(s') <==> r.status.InProgress?
    requires r.status.InProgress? ==> KnownRun(spec, r)
    ensures Invariant(spec, ticks, s', horizon')
  {
    UnderWayIsLast(s);
    var n := |s.history|;
    assert forall i :: 0 <= i < n ==> s'.history[i].startedAt == s.history[i].startedAt;
    assert forall i :: 0 <= i < n - 1 ==> s'.history[i] == s.history[i];
  }

  /** Every reconcile keeps the invariant, whatever it observes. */
  lemma StepKeepsInvariant(spec: PolicySpec, ticks: iset<Time>, w: World, o: Observation, horizon: Time)
    requires Invariant(spec, ticks, w.status, horizon) && horizon <= o.clock.sync && o.clock.Ordered()
    requires SoundAnswers(ticks, o.clock.now, o.prevTick, o.nextTick)
    ensures Invariant(spec, ticks, EffectOn(false, spec, w, o).status, o.clock.third)
  {
    if o.policyRead.PolicyFound? {
      var s, e := w.status, Reconcile(false, spec, w.status, w.cr, o);
      ReconcileShape(false, spec, s, w.cr, o);
      UnderWayIsLast(s);
      match e.move
      case Skip | Start =>
        AppendKeepsInvariant(spec, ticks, s, o, e.status.history[|s.history|], horizon, e.status);
      case Advance | Finish | Abort =>
        ReplaceKeepsInvariant(spec, ticks, s, e.status.history[|s.history| - 1], horizon, e.status, o.clock.third);
      case _ =>
    }
  }

  lemma TurnKeepsInvariant(run: Run, k: nat)
    requires Plausible(run) && k < |run.turns|
    requires Invariant(run.spec, run.ticks, State(false, run, k).status, Horizon(run, k))
    ensures Invariant(run.spec, run.ticks, State(false, run, k + 1).status, Horizon(run, k + 1))
  {
    assert PlausibleTurn(run, k);
    var w, o := Before(false, run, k), run.turns[k].seen;
    StepKeepsInvariant(run.spec, run.ticks, w, o, Horizon(run, k));
    assert Invariant(run.spec, run.ticks, w.status, o.clock.third);
  }

  /** The full log of every run satisfies the invariant at every turn. */
  lemma {:induction false} LogInvariant(run: Run, k: nat)
    requires Plausible(run) && k <= |run.turns|
    ensures Invariant(run.spec, run.ticks, State(false, run, k).status, Horizon(run, k))
  {
    if k > 0 {
      LogInvariant(run, k - 1);
      TurnKeepsInvariant(run, k - 1);
    }
  }
}
