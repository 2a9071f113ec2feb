/** The policy, its status, and what one reconcile can observe of the world around it. */
module PolicyTypes {
  import opened Basics

  /** Whole seconds. */
  type Time = int

  datatype ConditionType = MaintenanceInProgress | LastMaintenanceFailed | VPARecommendationReady

  datatype ConditionStatus = True | False

  datatype Reason =
    | VPANotFound
    | NoRecommendationYet
    | Ready
    | StaleConditionCleared
    | ClusterUnhealthy
    | ChangeGateAbsoluteDiff
    | ChangeGateRelativeDiff
    | MaintenanceTimeout
    | MaintenanceStarted
    | MaintenanceCompleted
    | MaintenanceSucceeded
    | MaintenanceFailed

  /** The text beside a reason: nothing, the one fixed sentence that goes with the reason, the
      grace-period sentence, one of the three sentences about a VPA that has no figure (none at all,
      none for the container, none for its memory), a reason name, or a formatted text. */
  datatype Text =
    | Blank
    | Standard
    | GracePeriod
    | NothingYet
    | NoContainerFigure
    | NoMemoryFigure
    | Named(reason: Reason)
    | Detail(text: string)

  datatype Condition = Condition(
    kind: ConditionType,
    status: ConditionStatus,
    reason: Reason,
    message: Text,
    lastTransitionTime: Time,
    observedGeneration: int)

  datatype RunStatus = InProgress | Completed | Failed | Skipped

  /** NoPhase stands for every phase text the controller does not know, the empty one included. */
  datatype Phase = NoPhase | PatchApplied | PostActionsTriggered

  /** A memory text is its number of bytes; None is the empty text. */
  datatype MaintenanceRecord = MaintenanceRecord(
    startedAt: Time,
    completedAt: Option<Time>,
    status: RunStatus,
    phase: Phase,
    reason: Text,
    previousMemory: Option<int>,
    appliedMemory: Option<int>)

  datatype Status = Status(
    conditions: seq<Condition>,
    history: seq<MaintenanceRecord>,
    memoryTarget: Option<int>,
    currentMemory: Option<int>)

  datatype SafetyGates = SafetyGates(
    requireHealthyCluster: bool,
    absoluteThreshold: Option<int>,
    relativeThreshold: Option<int>)

  datatype ActionType = RolloutRestart | UnknownAction
  datatype TargetKind = Deployment | StatefulSet | DaemonSet | UnknownKind
  datatype PostAction = PostAction(action: ActionType, kind: TargetKind, name: string, namespace: string)

  datatype PolicySpec = PolicySpec(
    generation: int,
    vpaContainerName: string,
    memoryMin: int,
    memoryMax: int,
    overcommit: real,
    memoryBuffer: real,
    initialMemory: Option<int>,
    timeoutMinutes: int,
    safetyGates: SafetyGates,
    postActions: seq<PostAction>,
    postgresParameters: map<string, string>)

  /** What the controller can tell about the Zalando CR: no such object, no memory request,
      a memory request, or a memory text that is not a quantity (reading it panics). */
  datatype CRState = Absent | NoMemory | Memory(bytes: int) | Malformed

  /** One entry of a VPA's container recommendations; CPU is in thousandths of a core. */
  datatype ContainerTarget = ContainerTarget(name: string, memory: Option<int>, cpu: Option<int>)

  datatype VpaRead =
    | VpaMissing
    | VpaUnreadable
    | VpaFound(containers: seq<ContainerTarget>)  // empty when the VPA has no recommendation

  datatype PolicyRead = PolicyFound | PolicyGone | PolicyUnreadable

  datatype ParamsOutcome = ParamsOk(values: map<string, string>) | ParamsError(text: string)

  /** AcceptedWithError: the API server applied the patch, but the client got an error. */
  datatype PatchOutcome = Accepted | Refused(text: string) | AcceptedWithError(text: string)

  /** TriggeredWithError: the workload was restarted, but the client got an error. */
  datatype TriggerOutcome = Triggered | NotTriggered | TriggeredWithError

  datatype Health = Running | NotRunning | HealthUnknown

  datatype TargetCheck = Done | NotDone | CheckError

  /** The clock readings of one reconcile, in program order: while syncing the recommendation,
      the `now` every window decision uses, while clearing a stale condition, and the up to
      three stamps of whatever the reconcile then does. */
  datatype Clock = Clock(sync: Time, now: Time, stale: Time, first: Time, second: Time, third: Time) {
    predicate Ordered() {
      sync <= now <= stale <= first <= second <= third
    }
  }

  /** Everything one reconcile reads. A field the reconcile does not get to is ignored. */
  datatype Observation = Observation(
    policyRead: PolicyRead,
    crReadable: bool,
    params: ParamsOutcome,
    patch: PatchOutcome,
    vpa: VpaRead,
    cronValid: bool,
    prevTick: Option<Time>,
    nextTick: Option<Time>,
    health: Health,
    gateText: string,
    triggers: seq<TriggerOutcome>,
    triggerError: string,
    checks: seq<TargetCheck>,
    clock: Clock,
    statusWritten: bool)

  /** What the controller asks for next: wake me in so many seconds, or retry with backoff. */
  datatype ReconcileResult = Requeue(after: int) | Errored
}
