/** The reconciler, step by step as the program runs (internal/controller/postgresmemorpolicy_controller.go).
    Each method is proved to have the effect module Decision computes. */
module Controller {
  import opened Basics
  import opened PolicyTypes
  import opened Cron
  import opened Sizing
  import opened StatusBook
  import opened MergePatch
  import opened ZalandoPatch
  import Cluster
  import Decision
  import PostActions
  import Requirements
  import RequirementsMet
  import Runs

  /** The CR after an effect: at most one write is merged into it. */
  function TreeAfter(spec: PolicySpec, tree: Option<Json>, write: Option<Write>): Option<Json> {
    if write.None? then tree else Some(Merge(tree, PatchOf(spec, write.value)))
  }

  lemma CRFollowsTree(spec: PolicySpec, tree: Option<Json>, write: Option<Write>)
    ensures ReadMemory(TreeAfter(spec, tree, write)) == Decision.CRAfter(ReadMemory(tree), write)
  {
    if write.Some? {
      WriteIsReadBack(spec, write.value, tree);
    }
  }

  method CalculatePGParams(spec: PolicySpec, params: ParamsOutcome) returns (r: ParamsOutcome)
    ensures r == Decision.Parameters(spec, params)
  {
    if |spec.postgresParameters| == 0 {
      return ParamsOk(map[]);
    }
    return params;
  }

  /** Sends one write to the CR as the reconciler sees it. */
  method Send(spec: PolicySpec, cluster: Cluster.Cluster, write: Write, response: PatchOutcome) returns (failed: bool)
    modifies cluster`tree
    ensures failed <==> Decision.PatchFails(ReadMemory(old(cluster.tree)), response)
    ensures var lands := Decision.PatchLands(ReadMemory(old(cluster.tree)), response);
            cluster.tree == TreeAfter(spec, old(cluster.tree), if lands then Some(write) else None)
  {
    failed := cluster.PatchResources(spec, write, response);
  }

  method FailMaintenance(policy: Policy, reason: Text, o: Observation) returns (result: ReconcileResult)
    modifies policy
    ensures policy.Value() == Decision.Failing(policy.spec, old(policy.Value()), reason, o)
    ensures result == Requeue(5 * 60)
  {
    policy.MarkRecordCompleted(Failed, reason, o.clock.first);
    var _ := policy.SetCondition(MaintenanceInProgress, False, MaintenanceFailed, reason, o.clock.second);
    var _ := policy.SetCondition(LastMaintenanceFailed, True, MaintenanceFailed, reason, o.clock.third);
    return Requeue(5 * 60);
  }

  /** The four status changes that end a run well. */
  method RecordCompletion(policy: Policy, memory: int, reason: Text, message: Text, o: Observation)
    modifies policy
    ensures policy.Value() == Decision.Completing(policy.spec, old(policy.Value()), memory, reason, message, o)
  {
    policy.currentMemory := Some(memory);
    policy.MarkRecordCompleted(Completed, reason, o.clock.first);
    var _ := policy.SetCondition(MaintenanceInProgress, False, MaintenanceCompleted, message, o.clock.second);
    var _ := policy.SetCondition(LastMaintenanceFailed, False, MaintenanceSucceeded, Standard, o.clock.third);
  }

  method CompleteMaintenance(policy: Policy, record: nat, window: WindowResult,
                             o: Observation) returns (result: ReconcileResult)
    requires record == FindInProgress(policy.history)
    modifies policy
    ensures var e := Decision.CompleteMaintenance(policy.spec, old(policy.Value()), Blank, Standard,
                                                  RequeueAfter(window, o.clock.now), o);
            policy.Value() == e.status && result == e.result
  {
    var applied := policy.history[record].appliedMemory;
    if applied.None? {
      result := FailMaintenance(policy, Detail("parsing applied memory"), o);
      return;
    }
    RecordCompletion(policy, applied.value, Blank, Standard, o);
    return Requeue(RequeueAfter(window, o.clock.now));
  }

  /** The condition and the record of a run whose patch went through. */
  method RecordStart(policy: Policy, memory: int, currentMemory: Option<int>, o: Observation)
    modifies policy
    ensures policy.Value() == Decision.Starting(true, policy.spec, old(policy.Value()), currentMemory, memory, o)
  {
    var _ := policy.SetCondition(MaintenanceInProgress, True, MaintenanceStarted, Standard, o.clock.first);
    policy.AddMaintenanceRecord(
      MaintenanceRecord(o.clock.second, None, InProgress, PatchApplied, Blank, currentMemory, Some(memory)));
  }

  method StartMaintenance(policy: Policy, cluster: Cluster.Cluster, rec: Recommendation, currentMemory: Option<int>,
                          o: Observation)
    returns (result: ReconcileResult)
    requires currentMemory == Decision.KnownMemory(ReadMemory(cluster.tree))
    modifies policy, cluster`tree
    ensures var cr := ReadMemory(old(cluster.tree));
            var e := Decision.StartMaintenance(true, policy.spec, old(policy.Value()), cr, rec, o);
            && policy.Value() == e.status && result == e.result && e.restarted == []
            && cluster.tree == TreeAfter(policy.spec, old(cluster.tree), e.write)
  {
    var params := CalculatePGParams(policy.spec, o.params);
    if params.ParamsError? {
      result := FailMaintenance(policy, Detail(params.text), o);
      return;
    }
    var failed := Send(policy.spec, cluster, Write(false, rec.memory, rec.cpu, params.values), o.patch);
    if failed {
      result := FailMaintenance(policy, Detail(Decision.PatchError(o.patch)), o);
      return;
    }
    RecordStart(policy, rec.memory, currentMemory, o);
    return Requeue(30);
  }

  method MonitorMaintenance(policy: Policy, cluster: Cluster.Cluster, record: nat, window: WindowResult, o: Observation)
    returns (result: ReconcileResult)
    requires record == FindInProgress(policy.history)
    modifies policy, cluster`restarted
    ensures var e := Decision.Monitor(policy.spec, old(policy.Value()), window, o);
            && policy.Value() == e.status && result == e.result && e.write == None
            && cluster.restarted == old(cluster.restarted) + e.restarted
  {
    match policy.history[record].phase {
      case PatchApplied =>
        if o.health.HealthUnknown? {
          return Errored;
        }
        if !o.health.Running? {
          return Requeue(30);
        }
        if |policy.spec.postActions| == 0 {
          result := CompleteMaintenance(policy, record, window, o);
          return;
        }
        var ok := PostActions.TriggerPostActions(cluster, policy.spec.postActions, o.triggers);
        if !ok {
          result := FailMaintenance(policy, Detail(o.triggerError), o);
          return;
        }
        assert policy.spec.postActions[..|policy.spec.postActions|] == policy.spec.postActions;
        policy.history := policy.history[record := policy.history[record].(phase := PostActionsTriggered)];
        return Requeue(30);

      case PostActionsTriggered =>
        var check := PostActions.ArePostActionsComplete(policy.spec.postActions, o.checks);
        if check.CheckError? {
          return Errored;
        }
        if !check.Done? {
          return Requeue(30);
        }
        result := CompleteMaintenance(policy, record, window, o);

      case NoPhase =>
        result := FailMaintenance(policy, Detail("unknown maintenance phase"), o);
    }
  }

  /** Whether everything the run still had to do is done, looked at once. */
  method CheckOnce(spec: PolicySpec, phase: Phase, o: Observation) returns (check: TargetCheck)
    ensures check == Decision.GraceCheck(spec, phase, o)
  {
    check := Done;
    if phase.PostActionsTriggered? {
      check := PostActions.ArePostActionsComplete(spec.postActions, o.checks);
    } else if phase.PatchApplied? {
      if |spec.postActions| > 0 {
        check := NotDone;
      }
    }
  }

  method HandleWindowExpired(policy: Policy, record: nat, o: Observation) returns (result: ReconcileResult)
    requires record == FindInProgress(policy.history)
    modifies policy
    ensures var e := Decision.WindowExpired(policy.spec, old(policy.Value()), o);
            policy.Value() == e.status && result == e.result && e.write == None && e.restarted == []
  {
    if o.health.HealthUnknown? {
      result := FailMaintenance(policy, Named(MaintenanceTimeout), o);
      return;
    }
    if o.health.Running? {
      var check := CheckOnce(policy.spec, policy.history[record].phase, o);
      if check.CheckError? {
        result := FailMaintenance(policy, Named(MaintenanceTimeout), o);
        return;
      }
      if check.Done? {
        var applied := policy.history[record].appliedMemory;
        if applied.None? {
          result := FailMaintenance(policy, Detail("parsing applied memory"), o);
          return;
        }
        RecordCompletion(policy, applied.value, GracePeriod, GracePeriod, o);
        return Requeue(5 * 60);
      }
    }
    result := FailMaintenance(policy, Named(MaintenanceTimeout), o);
  }

  /** Reads the VPA's container list and sizes the target. */
  method ReadRecommendation(spec: PolicySpec, vpa: VpaRead) returns (read: RecommendationRead)
    ensures read == Sizing.ReadRecommendation(spec, vpa)
  {
    match vpa {
      case VpaMissing => return Unavailable(VPANotFound, Standard);
      case VpaUnreadable => return ReadFailed;
      case VpaFound(containers) =>
        var found := ExtractContainerRecommendation(containers, ContainerName(spec));
        if !found.Recommended? {
          return found;
        }
        var clamped := Clamp(found.rec.memory, spec.memoryMin, spec.memoryMax);
        var buffered := ApplyMemoryBuffer(clamped, spec.memoryBuffer, spec.memoryMax);
        return Recommended(Recommendation(buffered, found.rec.cpu));
    }
  }

  /** Seeds a CR that has no memory request. */
  method ApplyInitialMemory(policy: Policy, cluster: Cluster.Cluster, memory: int,
                            o: Observation) returns (result: ReconcileResult)
    modifies policy, cluster`tree
    ensures var e := Decision.Bootstrap(policy.spec, old(policy.Value()), ReadMemory(old(cluster.tree)), memory, o);
            && policy.Value() == e.status && result == e.result && e.restarted == []
            && cluster.tree == TreeAfter(policy.spec, old(cluster.tree), e.write)
  {
    var params := CalculatePGParams(policy.spec, o.params);
    if params.ParamsError? {
      return Errored;
    }
    var write := Write(true, memory, Some(BootstrapCpu(memory)), params.values);
    var failed := Send(policy.spec, cluster, write, o.patch);
    if failed {
      return Errored;
    }
    policy.currentMemory := Some(memory);
    return Requeue(60);
  }

  /** The safety and change gates, and the start of a run when they let it through. */
  method ConsiderStarting(policy: Policy, cluster: Cluster.Cluster, rec: Recommendation, currentMemory: Option<int>,
                          window: WindowResult, o: Observation) returns (result: ReconcileResult)
    requires currentMemory == Decision.KnownMemory(ReadMemory(cluster.tree))
    modifies policy, cluster`tree
    ensures var cr := ReadMemory(old(cluster.tree));
            var e := Decision.Consider(true, policy.spec, old(policy.Value()), cr, rec, window, o);
            && policy.Value() == e.status && result == e.result && e.restarted == []
            && cluster.tree == TreeAfter(policy.spec, old(cluster.tree), e.write)
  {
    if window.inWindow {
      var completed := policy.HasCompletedMaintenanceInWindow(window.nextOpen, window.windowEnd);
      if completed {
        return Requeue(RequeueAfter(window, o.clock.now));
      }
    }
    if !window.inWindow {
      return Requeue(RequeueAfter(window, o.clock.now));
    }
    if policy.spec.safetyGates.requireHealthyCluster {
      if o.health.HealthUnknown? {
        return Errored;
      }
      if !o.health.Running? {
        policy.AddMaintenanceRecord(
          MaintenanceRecord(o.clock.first, None, Skipped, NoPhase, Named(ClusterUnhealthy), None, None));
        return Requeue(RequeueAfter(window, o.clock.now));
      }
    }
    if currentMemory.Some? {
      policy.currentMemory := currentMemory;
      var gate := EvaluateChangeGates(currentMemory.value, rec.memory, Some(policy.spec.safetyGates));
      if gate.Blocked? {
        policy.AddMaintenanceRecord(
          MaintenanceRecord(o.clock.first, None, Skipped, NoPhase, Named(gate.reason), None, None));
        var _ := policy.SetCondition(MaintenanceInProgress, False, gate.reason, Detail(o.gateText), o.clock.second);
        return Requeue(RequeueAfter(window, o.clock.now));
      }
    }
    result := StartMaintenance(policy, cluster, rec, currentMemory, o);
  }

  /** Takes the run under way, if there is one, a step further; clears the condition when there is no record for it. */
  method ContinueRun(policy: Policy, cluster: Cluster.Cluster, window: WindowResult, o: Observation)
    returns (underWay: bool, result: ReconcileResult)
    modifies policy, cluster`restarted
    ensures underWay == Decision.UnderWay(old(policy.Value()))
    ensures underWay ==>
              var e := if window.inWindow then Decision.Monitor(policy.spec, old(policy.Value()), window, o)
                       else Decision.WindowExpired(policy.spec, old(policy.Value()), o);
              && policy.Value() == e.status && result == e.result && e.write == None
              && cluster.restarted == old(cluster.restarted) + e.restarted
    ensures !underWay ==> policy.Value() == Decision.Unstuck(policy.spec, old(policy.Value()), o) && unchanged(cluster)
  {
    result := Errored;
    var inProgress := policy.IsConditionTrue(MaintenanceInProgress);
    if !inProgress {
      return false, Errored;
    }
    var record := policy.FindInProgressRecord();
    if record < 0 {
      var _ := policy.SetCondition(MaintenanceInProgress, False, StaleConditionCleared, Standard, o.clock.stale);
      return false, Errored;
    }
    if !window.inWindow {
      result := HandleWindowExpired(policy, record, o);
      return true, result;
    }
    result := MonitorMaintenance(policy, cluster, record, window, o);
    return true, result;
  }

  /** With a recommendation in hand: look at the window, then monitor the run under way or consider a new one. */
  method ActOnRecommendation(policy: Policy, cluster: Cluster.Cluster, rec: Recommendation,
                             currentMemory: Option<int>, o: Observation)
    returns (result: ReconcileResult)
    requires currentMemory == Decision.KnownMemory(ReadMemory(cluster.tree))
    modifies policy, cluster`tree, cluster`restarted
    ensures var cr := ReadMemory(old(cluster.tree));
            var e := Decision.WithRecommendation(true, policy.spec, old(policy.Value()), cr, rec, o);
            && policy.Value() == e.status && result == e.result
            && cluster.tree == TreeAfter(policy.spec, old(cluster.tree), e.write)
            && cluster.restarted == old(cluster.restarted) + e.restarted
  {
    var evaluation := Evaluate(o.cronValid, o.prevTick, o.nextTick, policy.spec.timeoutMinutes, o.clock.now);
    if !evaluation.Evaluated? {
      return Errored;
    }
    var underWay;
    underWay, result := ContinueRun(policy, cluster, evaluation.window, o);
    if !underWay {
      result := ConsiderStarting(policy, cluster, rec, currentMemory, evaluation.window, o);
    }
  }

  method ReconcilePolicy(policy: Policy, cluster: Cluster.Cluster, o: Observation) returns (result: ReconcileResult)
    modifies policy, cluster`tree, cluster`restarted
    ensures var e := Decision.Reconcile(true, policy.spec, old(policy.Value()), ReadMemory(old(cluster.tree)), o);
            && policy.Value() == e.status && result == e.result
            && cluster.tree == TreeAfter(policy.spec, old(cluster.tree), e.write)
            && cluster.restarted == old(cluster.restarted) + e.restarted
  {
    var cr := ReadMemory(cluster.tree);
    if !o.crReadable || cr.Malformed? {
      return Errored;
    }
    if !cr.Memory? && policy.spec.initialMemory.Some? {
      result := ApplyInitialMemory(policy, cluster, policy.spec.initialMemory.value, o);
      return;
    }
    var read := ReadRecommendation(policy.spec, o.vpa);
    if read.Unavailable? {
      var _ := policy.SetCondition(VPARecommendationReady, False, read.reason, read.message, o.clock.sync);
      return Requeue(5 * 60);
    }
    if read.ReadFailed? {
      return Errored;
    }
    var _ := policy.SetCondition(VPARecommendationReady, True, Ready, Standard, o.clock.sync);
    policy.memoryTarget := Some(read.rec.memory);
    result := ActOnRecommendation(policy, cluster, read.rec, Decision.KnownMemory(cr), o);
  }

  lemma WriteIsComplete(spec: PolicySpec, s: Status, tree: Option<Json>, o: Observation)
    ensures var write := Decision.Reconcile(true, spec, s, ReadMemory(tree), o).write;
            write.Some? ==>
              && Requirements.Writes(write.value.bootstrap, spec, o, write.value)
              && ShownIn(TreeAfter(spec, tree, write), spec, write.value)
  {
    var write := Decision.Reconcile(true, spec, s, ReadMemory(tree), o).write;
    if write.Some? {
      var c := RequirementsMet.SomeCase(spec, s, ReadMemory(tree), o);
      RequirementsMet.ReconcileMeets(true, c, spec, s, ReadMemory(tree), o);
      WriteIsShown(spec, write.value, tree);
    }
  }

  /** The stored status and the CR, as runs see them. */
  function WorldOf(cluster: Cluster.Cluster): Runs.World
    reads cluster
  {
    Runs.World(cluster.status, ReadMemory(cluster.tree))
  }

  /** One delivery: read the policy, run the reconcile, store the status. It takes the world exactly one
      turn further; when the status write is lost, what was done to the CR and the workloads stays. A write
      that lands is complete, and the CR shows all of it. */
  method Reconcile(spec: PolicySpec, cluster: Cluster.Cluster, o: Observation) returns (result: ReconcileResult)
    modifies cluster
    ensures var e := Runs.EffectOn(true, spec, old(WorldOf(cluster)), o);
            && WorldOf(cluster) == Runs.Next(old(WorldOf(cluster)), o, e)
            && cluster.tree == TreeAfter(spec, old(cluster.tree), e.write)
            && cluster.restarted == old(cluster.restarted) + e.restarted
            && result == (if o.policyRead.PolicyFound? && !o.statusWritten then Errored else e.result)
            && (e.write.Some? ==>
                  && Requirements.Writes(e.write.value.bootstrap, spec, o, e.write.value)
                  && ShownIn(cluster.tree, spec, e.write.value))
  {
    if o.policyRead.PolicyUnreadable? {
      return Errored;
    }
    if o.policyRead.PolicyGone? {
      return Requeue(0);
    }
    var policy := new Policy(spec, cluster.status);
    ghost var e := Decision.Reconcile(true, spec, cluster.status, ReadMemory(cluster.tree), o);
    CRFollowsTree(spec, cluster.tree, e.write);
    WriteIsComplete(spec, cluster.status, cluster.tree, o);
    result := ReconcilePolicy(policy, cluster, o);
    if o.statusWritten {
      cluster.status := policy.Value();
    } else {
      result := Errored;
    }
  }
}
