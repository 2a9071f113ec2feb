/** What is known at every turn of a plausible run, in one place. */
module Facts {
  import opened PolicyTypes
  import opened Decision
  import opened Requirements
  import opened RequirementsMet
  import opened Shapes
  import opened Runs
  import opened Twin

  /** What the untrimmed twin does at turn `k`. */
  ghost function LogEffect(run: Run, k: nat): Effect
    requires k < |run.turns|
  {
    run.turns[k].twinEffect
  }

  /** The stored status the twin's reconcile `k` starts from. */
  ghost function LogStatus(run: Run, k: nat): Status
    requires k <= |run.turns|
  {
    State(false, run, k).status
  }

  /** What is known of one turn's effect. */
  ghost predicate EffectKnown(trim: bool, spec: PolicySpec, w: World, o: Observation, e: Effect) {
    && ShapeOf(trim, spec, w.status, w.cr, o, e)
    && (if o.policyRead.PolicyFound? then SignsOf(spec, w.status, w.cr, o, e) else e.move.Idle? && e.status == w.status)
  }

  lemma AnyEffectShape(trim: bool, spec: PolicySpec, w: World, o: Observation)
    ensures EffectKnown(trim, spec, w, o, EffectOn(trim, spec, w, o))
  {
    if o.policyRead.PolicyFound? {
      ReconcileShape(trim, spec, w.status, w.cr, o);
    }
  }

  /** Turn `k`: the invariant holds, and the real controller and its twin agree. */
  lemma TurnFacts(run: Run, k: nat)
    requires Plausible(run) && k < |run.turns|
    ensures PlausibleSight(run.ticks, Horizon(run, k), run.turns[k].seen)
    ensures Invariant(run.spec, run.ticks, LogStatus(run, k), Horizon(run, k))
    ensures Before(false, run, k).status == LogStatus(run, k)
    ensures Before(true, run, k) == World(Trimmed(LogStatus(run, k)), Before(false, run, k).cr)
    ensures EffectAt(run, k) == TrimmedEffect(LogEffect(run, k))
    ensures LogStatus(run, k + 1) ==
            if run.turns[k].seen.statusWritten then LogEffect(run, k).status else LogStatus(run, k)
    ensures Before(true, run, k).status == State(true, run, k).status
    ensures State(true, run, k + 1).status ==
            if run.turns[k].seen.statusWritten then EffectAt(run, k).status else State(true, run, k).status
    ensures State(true, run, k + 1).cr == CRAfter(Before(true, run, k).cr, EffectAt(run, k).write)
    ensures EffectAt(run, k).write.Some? ==> run.turns[k].seen.policyRead.PolicyFound?
  {
    assert PlausibleTurn(run, k);
    LogInvariant(run, k);
    TrimmingIsInvisible(run, k);
  }

  /** What the twin does at turn `k` has a known shape. */
  lemma TurnShape(run: Run, k: nat)
    requires Plausible(run) && k < |run.turns|
    ensures ShapeOf(false, run.spec, LogStatus(run, k), Before(false, run, k).cr, run.turns[k].seen, LogEffect(run, k))
    ensures EffectKnown(false, run.spec, Before(false, run, k), run.turns[k].seen, LogEffect(run, k))
  {
    assert PlausibleTurn(run, k);
    AnyEffectShape(false, run.spec, Before(false, run, k), run.turns[k].seen);
  }

  /** So does what the real controller does. */
  lemma RealShape(run: Run, k: nat)
    requires Plausible(run) && k < |run.turns|
    ensures var w := Before(true, run, k);
            ShapeOf(true, run.spec, w.status, w.cr, run.turns[k].seen, EffectAt(run, k))
    ensures EffectKnown(true, run.spec, Before(true, run, k), run.turns[k].seen, EffectAt(run, k))
  {
    assert PlausibleTurn(run, k);
    AnyEffectShape(true, run.spec, Before(true, run, k), run.turns[k].seen);
  }

  /** The case that turn `k` is in, for the real controller, */
  lemma RealCase(run: Run, k: nat) returns (c: Case)
    requires Plausible(run) && k < |run.turns| && run.turns[k].seen.policyRead.PolicyFound?
    ensures var w, o := Before(true, run, k), run.turns[k].seen;
            && InCase(c, run.spec, w.status, w.cr, o)
            && Gives(true, c, run.spec, w.status, w.cr, o, EffectAt(run, k))
  {
    assert PlausibleTurn(run, k);
    var w, o := Before(true, run, k), run.turns[k].seen;
    c := SomeCase(run.spec, w.status, w.cr, o);
    ReconcileMeets(true, c, run.spec, w.status, w.cr, o);
  }

  /** and for the twin. */
  lemma TurnCase(run: Run, k: nat) returns (c: Case)
    requires Plausible(run) && k < |run.turns| && run.turns[k].seen.policyRead.PolicyFound?
    ensures var w, o := Before(false, run, k), run.turns[k].seen;
            && InCase(c, run.spec, w.status, w.cr, o)
            && Gives(false, c, run.spec, w.status, w.cr, o, LogEffect(run, k))
  {
    assert PlausibleTurn(run, k);
    var w, o := Before(false, run, k), run.turns[k].seen;
    c := SomeCase(run.spec, w.status, w.cr, o);
    ReconcileMeets(false, c, run.spec, w.status, w.cr, o);
  }

  /** When there is no policy to be read nothing is done: for one that is gone nothing is asked for either,
      and for one that cannot be read the reconcile fails. */
  lemma NothingWithoutPolicy(run: Run, k: nat)
    requires Plausible(run) && k < |run.turns| && !run.turns[k].seen.policyRead.PolicyFound?
    ensures var e := EffectAt(run, k);
            && e.status == State(true, run, k).status && e.write.None? && e.restarted == [] && e.move == Idle
            && e.result == if run.turns[k].seen.policyRead == PolicyGone then Requeue(0) else Errored
    ensures State(true, run, k + 1) == Before(true, run, k)
  {
    assert PlausibleTurn(run, k);
  }
}
