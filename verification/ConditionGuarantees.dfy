/** What the stored conditions can be trusted to say about time, in every run. */
module ConditionGuarantees {
  import opened Basics
  import opened PolicyTypes
  import opened StatusBook
  import opened Dates
  import opened Runs
  import opened Facts
  import opened HistoryGuarantees

  ghost function StoredConditions(run: Run, k: nat): seq<Condition>
    requires k <= |run.turns|
  {
    State(true, run, k).status.conditions
  }

  /** When the status of a condition last changed, read off the stored statuses alone: a change shows
      from one turn to the next, and is dated by the clock of the reconcile between them. */
  ghost function LastChange(run: Run, k: nat, kind: ConditionType): Option<Time>
    requires k <= |run.turns|
  {
    if k == 0 then None
    else if StatusOf(StoredConditions(run, k), kind) == StatusOf(StoredConditions(run, k - 1), kind) then
      LastChange(run, k - 1, kind)
    else Some(Stamp(kind, EffectAt(run, k - 1).move, run.turns[k - 1].seen.clock))
  }

  /** The condition of this type, if there is one, tells since when its status is what it is. */
  ghost predicate TellsSince(run: Run, k: nat, kind: ConditionType)
    requires k <= |run.turns|
  {
    var i := IndexOf(StoredConditions(run, k), kind);
    LastChange(run, k, kind) == if i < 0 then None else Some(StoredConditions(run, k)[i].lastTransitionTime)
  }

  lemma TurnDates(run: Run, k: nat)
    requires Plausible(run) && k < |run.turns|
    ensures DatesAll(run.spec.generation, StoredConditions(run, k), StoredConditions(run, k + 1),
                     EffectAt(run, k).move, run.turns[k].seen.clock)
  {
    TurnFacts(run, k);
    ConditionAndRecordAgree(run, k);
    RealShape(run, k);
  }

  /** In every stored status, lost status writes or not, there is at most one condition of each type, it
      is about the policy's generation, and its transition time is that of the last stored change of its
      status; there is none exactly when its status was never set. */
  lemma {:induction false} StoredConditionsTellTheLastChange(run: Run, k: nat)
    requires Plausible(run) && k <= |run.turns|
    ensures Tidy(StoredConditions(run, k), run.spec.generation)
    ensures forall kind :: TellsSince(run, k, kind)
  {
    if k > 0 {
      StoredConditionsTellTheLastChange(run, k - 1);
      TurnDates(run, k - 1);
      forall kind: ConditionType ensures TellsSince(run, k, kind) {
        assert TellsSince(run, k - 1, kind);
        assert Dated(StoredConditions(run, k - 1), StoredConditions(run, k), kind,
                     EffectAt(run, k - 1).move, run.turns[k - 1].seen.clock);
      }
    }
  }
}
