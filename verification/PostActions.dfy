/** Post-actions (internal/controller/postactions.go): ordered loops that stop at the first failure. */
module PostActions {
  import opened PolicyTypes
  import Cluster

  predicate Supported(action: PostAction) {
    action.action.RolloutRestart? && !action.kind.UnknownKind?
  }

  /** Triggering action `i` works: the controller knows how, and reading and patching the workload succeed. */
  predicate TriggerWorks(actions: seq<PostAction>, triggers: seq<TriggerOutcome>, i: nat)
    requires i < |actions|
  {
    Supported(actions[i]) && i < |triggers| && triggers[i].Triggered?
  }

  /** Triggering action `i` restarts its workload, whether or not the client is told so. */
  predicate TriggerLands(actions: seq<PostAction>, triggers: seq<TriggerOutcome>, i: nat)
    requires i < |actions|
  {
    Supported(actions[i]) && i < |triggers| && !triggers[i].NotTriggered?
  }

  function CheckOf(actions: seq<PostAction>, checks: seq<TargetCheck>, i: nat): TargetCheck
    requires i < |actions|
  {
    if Supported(actions[i]) && i < |checks| then checks[i] else CheckError
  }

  /** Triggering gets as far as `n`: everything before works, and `n` is the end or does not. */
  ghost predicate GetsAsFarAs(actions: seq<PostAction>, triggers: seq<TriggerOutcome>, n: nat) {
    && n <= |actions|
    && (forall j :: 0 <= j < n ==> TriggerWorks(actions, triggers, j))
    && (n < |actions| ==> !TriggerWorks(actions, triggers, n))
  }

  function CountFrom(actions: seq<PostAction>, triggers: seq<TriggerOutcome>, i: nat): (n: nat)
    requires i <= |actions|
    ensures i <= n <= |actions|
    ensures forall j :: i <= j < n ==> TriggerWorks(actions, triggers, j)
    ensures n < |actions| ==> !TriggerWorks(actions, triggers, n)
    decreases |actions| - i
  {
    if i < |actions| && TriggerWorks(actions, triggers, i) then CountFrom(actions, triggers, i + 1) else i
  }

  /** How many actions, from the first on, the client is told are triggered. */
  function TriggeredCount(actions: seq<PostAction>, triggers: seq<TriggerOutcome>): (n: nat)
    ensures GetsAsFarAs(actions, triggers, n)
  {
    CountFrom(actions, triggers, 0)
  }

  /** How many workloads, from the first on, get restarted: the action that reports an error may have
      restarted its own. */
  function RestartedCount(actions: seq<PostAction>, triggers: seq<TriggerOutcome>): (n: nat)
    ensures TriggeredCount(actions, triggers) <= n <= |actions| && n <= TriggeredCount(actions, triggers) + 1
  {
    var n := TriggeredCount(actions, triggers);
    if n < |actions| && TriggerLands(actions, triggers, n) then n + 1 else n
  }

  method TriggerPostActions(cluster: Cluster.Cluster, actions: seq<PostAction>,
                            triggers: seq<TriggerOutcome>) returns (ok: bool)
    modifies cluster`restarted
    ensures cluster.restarted == old(cluster.restarted) + actions[..RestartedCount(actions, triggers)]
    ensures ok <==> TriggeredCount(actions, triggers) == |actions|
  {
    for i := 0 to |actions|
      invariant forall j :: 0 <= j < i ==> TriggerWorks(actions, triggers, j)
      invariant cluster.restarted == old(cluster.restarted) + actions[..i]
    {
      if !TriggerWorks(actions, triggers, i) {
        assert TriggeredCount(actions, triggers) == i;
        if TriggerLands(actions, triggers, i) {
          cluster.restarted := cluster.restarted + [actions[i]];
          assert actions[..i + 1] == actions[..i] + [actions[i]];
        }
        return false;
      }
      cluster.restarted := cluster.restarted + [actions[i]];
      assert actions[..i + 1] == actions[..i] + [actions[i]];
    }
    assert TriggeredCount(actions, triggers) == |actions|;
    return true;
  }

  // ---------------------------------------------------------------- what triggering means

  /** The controller knows how to restart such a workload. */
  ghost predicate Restartable(a: PostAction) {
    a.action == RolloutRestart && a.kind in {Deployment, StatefulSet, DaemonSet}
  }

  /** Triggering action `i` is reported to work. */
  ghost predicate ReportedAt(actions: seq<PostAction>, triggers: seq<TriggerOutcome>, i: int)
    requires 0 <= i < |actions|
  {
    Restartable(actions[i]) && i < |triggers| && triggers[i] == Triggered
  }

  ghost predicate AllReportedOf(actions: seq<PostAction>, triggers: seq<TriggerOutcome>) {
    forall i :: 0 <= i < |actions| ==> ReportedAt(actions, triggers, i)
  }

  /** Action `i` is the first whose triggering is not reported to work. */
  ghost predicate FirstUnreportedOf(actions: seq<PostAction>, triggers: seq<TriggerOutcome>, i: int) {
    && 0 <= i < |actions| && !ReportedAt(actions, triggers, i)
    && forall j :: 0 <= j < i ==> ReportedAt(actions, triggers, j)
  }

  /** The workloads restarted when triggering stops at action `i`: those before it, and its own when the
      patch was applied although an error came back. */
  ghost function RestartedUpTo(actions: seq<PostAction>, triggers: seq<TriggerOutcome>, i: int): seq<PostAction>
    requires 0 <= i < |actions|
  {
    var itself := Restartable(actions[i]) && i < |triggers| && triggers[i] == TriggeredWithError;
    actions[..if itself then i + 1 else i]
  }

  lemma KindsAreKnown(a: PostAction)
    ensures Supported(a) <==> Restartable(a)
  {
    assert a.kind.UnknownKind? || a.kind in {Deployment, StatefulSet, DaemonSet};
  }

  /** Triggering counts up to the first action that is not reported to work, and restarts what it reached. */
  lemma TriggeringMeans(actions: seq<PostAction>, triggers: seq<TriggerOutcome>)
    ensures var n := TriggeredCount(actions, triggers);
            && (n == |actions| <==> AllReportedOf(actions, triggers))
            && (n < |actions| ==>
                  && FirstUnreportedOf(actions, triggers, n)
                  && actions[..RestartedCount(actions, triggers)] == RestartedUpTo(actions, triggers, n))
  {
    forall i | 0 <= i < |actions| ensures TriggerWorks(actions, triggers, i) <==> ReportedAt(actions, triggers, i) {
      KindsAreKnown(actions[i]);
    }
    var n := TriggeredCount(actions, triggers);
    if n < |actions| {
      KindsAreKnown(actions[n]);
    }
  }

  // ---------------------------------------------------------------- completion

  function CheckFrom(actions: seq<PostAction>, checks: seq<TargetCheck>, i: nat): TargetCheck
    requires i <= |actions|
    decreases |actions| - i
  {
    if i == |actions| then Done
    else if CheckOf(actions, checks, i).Done? then CheckFrom(actions, checks, i + 1)
    else CheckOf(actions, checks, i)
  }

  /** What the completion check reports: the first target that is not done decides. */
  function Completion(actions: seq<PostAction>, checks: seq<TargetCheck>): TargetCheck {
    CheckFrom(actions, checks, 0)
  }

  method ArePostActionsComplete(actions: seq<PostAction>, checks: seq<TargetCheck>) returns (r: TargetCheck)
    ensures r == Completion(actions, checks)
  {
    for i := 0 to |actions|
      invariant Completion(actions, checks) == CheckFrom(actions, checks, i)
    {
      var check := CheckOf(actions, checks, i);
      if check.CheckError? {
        return CheckError;
      }
      if check.NotDone? {
        return NotDone;
      }
    }
    return Done;
  }

  lemma {:induction false} CheckFromMeans(actions: seq<PostAction>, checks: seq<TargetCheck>, i: nat)
    requires i <= |actions|
    ensures CheckFrom(actions, checks, i).Done? <==>
              forall j :: i <= j < |actions| ==> CheckOf(actions, checks, j).Done?
    ensures !CheckFrom(actions, checks, i).Done? ==>
              exists j :: i <= j < |actions| && CheckOf(actions, checks, j) == CheckFrom(actions, checks, i) &&
                          forall m :: i <= m < j ==> CheckOf(actions, checks, m).Done?
    decreases |actions| - i
  {
    if i < |actions| && CheckOf(actions, checks, i).Done? {
      CheckFromMeans(actions, checks, i + 1);
    }
  }

  /** What is found out about the target of action `i`. */
  ghost function FoundAt(actions: seq<PostAction>, checks: seq<TargetCheck>, i: int): TargetCheck
    requires 0 <= i < |actions|
  {
    if Restartable(actions[i]) && i < |checks| then checks[i] else CheckError
  }

  ghost predicate AllFoundDoneOf(actions: seq<PostAction>, checks: seq<TargetCheck>) {
    forall i :: 0 <= i < |actions| ==> FoundAt(actions, checks, i) == Done
  }

  /** The first target that is not done is found so. */
  ghost predicate StoppedBy(actions: seq<PostAction>, checks: seq<TargetCheck>, check: TargetCheck) {
    exists i :: 0 <= i < |actions| && FoundAt(actions, checks, i) == check &&
                forall j :: 0 <= j < i ==> FoundAt(actions, checks, j) == Done
  }

  /** The check reports Done exactly when every target is found done; otherwise it reports what the first is
      found that is not. */
  lemma CompletionMeans(actions: seq<PostAction>, checks: seq<TargetCheck>)
    ensures Completion(actions, checks) == Done <==> AllFoundDoneOf(actions, checks)
    ensures forall check :: check != Done ==>
              (Completion(actions, checks) == check <==> StoppedBy(actions, checks, check))
  {
    CheckFromMeans(actions, checks, 0);
    forall i | 0 <= i < |actions| ensures CheckOf(actions, checks, i) == FoundAt(actions, checks, i) {
      KindsAreKnown(actions[i]);
    }
  }
}
