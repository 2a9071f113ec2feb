/** The bounded status the state machine runs on (internal/controller/conditions.go). */
module StatusBook {
  import opened Basics
  import opened PolicyTypes

  // ---------------------------------------------------------------- conditions

  /** Position of the first condition of this type, or -1. */
  function IndexOf(conditions: seq<Condition>, kind: ConditionType): (i: int)
    ensures -1 <= i < |conditions|
    ensures i >= 0 ==> conditions[i].kind == kind && forall j :: 0 <= j < i ==> conditions[j].kind != kind
    ensures i < 0 ==> forall j :: 0 <= j < |conditions| ==> conditions[j].kind != kind
  {
    if conditions == [] then -1
    else if conditions[0].kind == kind then 0
    else
      var i := IndexOf(conditions[1..], kind);
      if i < 0 then -1 else i + 1
  }

  function StatusOf(conditions: seq<Condition>, kind: ConditionType): Option<ConditionStatus> {
    var i := IndexOf(conditions, kind);
    if i < 0 then None else Some(conditions[i].status)
  }

  predicate IsTrue(conditions: seq<Condition>, kind: ConditionType) {
    StatusOf(conditions, kind) == Some(True)
  }

  datatype Update = Update(
    kind: ConditionType,
    status: ConditionStatus,
    reason: Reason,
    message: Text,
    at: Time,
    generation: int)

  predicate Repeats(c: Condition, u: Update) {
    c.status == u.status && c.reason == u.reason && c.message == u.message
  }

  function Fresh(u: Update): Condition {
    Condition(u.kind, u.status, u.reason, u.message, u.at, u.generation)
  }

  /** The condition list after one update. */
  function SetTo(conditions: seq<Condition>, u: Update): (r: seq<Condition>)
    ensures forall kind :: StatusOf(r, kind) == if kind == u.kind then Some(u.status) else StatusOf(conditions, kind)
  {
    var i := IndexOf(conditions, u.kind);
    if i < 0 then
      AppendingKeepsPlaces(conditions, Fresh(u));
      conditions + [Fresh(u)]
    else if Repeats(conditions[i], u) then conditions
    else
      var since := if conditions[i].status != u.status then u.at else conditions[i].lastTransitionTime;
      ReplacingKeepsPlaces(conditions, i, Fresh(u).(lastTransitionTime := since));
      conditions[i := Fresh(u).(lastTransitionTime := since)]
  }

  lemma AppendingKeepsPlaces(conditions: seq<Condition>, c: Condition)
    requires IndexOf(conditions, c.kind) < 0
    ensures forall kind ::
              IndexOf(conditions + [c], kind) == if kind == c.kind then |conditions| else IndexOf(conditions, kind)
  {
    var after := conditions + [c];
    assert after[|conditions|] == c;
    forall kind
      ensures IndexOf(after, kind) == if kind == c.kind then |conditions| else IndexOf(conditions, kind)
    {
      var a, b := IndexOf(after, kind), IndexOf(conditions, kind);
      if 0 <= a < |conditions| { assert conditions[a].kind == kind; }
      if b >= 0 { assert after[b].kind == kind; }
    }
  }

  lemma ReplacingKeepsPlaces(conditions: seq<Condition>, i: int, c: Condition)
    requires 0 <= i < |conditions| && c.kind == conditions[i].kind
    ensures forall kind :: IndexOf(conditions[i := c], kind) == IndexOf(conditions, kind)
  {
    var after := conditions[i := c];
    forall kind ensures IndexOf(after, kind) == IndexOf(conditions, kind) {
      var a, b := IndexOf(after, kind), IndexOf(conditions, kind);
      if a >= 0 { assert conditions[a].kind == kind; }
      if b >= 0 { assert after[b].kind == kind; }
    }
  }

  ghost predicate AtMostOneOfEach(conditions: seq<Condition>) {
    forall i, j :: 0 <= i < j < |conditions| ==> conditions[i].kind != conditions[j].kind
  }

  /** The list left by a sequence of updates. */
  function Conditions(updates: seq<Update>): seq<Condition> {
    if updates == [] then [] else SetTo(Conditions(updates[..|updates| - 1]), updates[|updates| - 1])
  }

  /** The last update of a type, read off the updates alone. */
  function LastUpdate(updates: seq<Update>, kind: ConditionType): Option<Update> {
    if updates == [] then None
    else if updates[|updates| - 1].kind == kind then Some(updates[|updates| - 1])
    else LastUpdate(updates[..|updates| - 1], kind)
  }

  /** The status last asked for. */
  function LastStatus(updates: seq<Update>, kind: ConditionType): Option<ConditionStatus> {
    var u := LastUpdate(updates, kind);
    if u.None? then None else Some(u.value.status)
  }

  /** The update that made the current status: it changed the status, and nothing after it did. */
  ghost predicate MadeTheStatus(updates: seq<Update>, kind: ConditionType, m: int) {
    && 0 <= m < |updates| && updates[m].kind == kind
    && LastStatus(updates[..m], kind) != Some(updates[m].status)
    && forall j :: m <= j < |updates| && updates[j].kind == kind ==> updates[j].status == updates[m].status
  }

  /** After any updates: one condition for each type that was ever updated and no other, showing
      the status last asked for, with the time of the update that made that status. */
  lemma {:induction false} ConditionsTellTheUpdates(updates: seq<Update>)
    ensures AtMostOneOfEach(Conditions(updates))
    ensures forall kind :: StatusOf(Conditions(updates), kind) == LastStatus(updates, kind)
    ensures forall c :: c in Conditions(updates) ==>
              exists m :: MadeTheStatus(updates, c.kind, m) && c.lastTransitionTime == updates[m].at
  {
    if updates != [] {
      var n := |updates| - 1;
      var before, u := updates[..n], updates[n];
      assert updates == before + [u];
      ConditionsTellTheUpdates(before);
      var was, now := Conditions(before), Conditions(updates);
      assert now == SetTo(was, u);
      var i := IndexOf(was, u.kind);
      assert StatusOf(was, u.kind) == LastStatus(before, u.kind);
      forall k | 0 <= k < |now|
        ensures exists m :: MadeTheStatus(updates, now[k].kind, m) && now[k].lastTransitionTime == updates[m].at
      {
        if k < |was| && k != i {
          assert now[k] == was[k] && was[k].kind != u.kind;
          assert was[k] in was;
          KeptTransition(before, u, was[k]);
        } else if k == i && was[i].status == u.status {
          assert was[i] in was;
          KeptTransition(before, u, was[i]);
        } else {
          assert now[k].lastTransitionTime == u.at && now[k].kind == u.kind;
          assert MadeTheStatus(updates, u.kind, n);
        }
      }
    }
  }

  /** An update that leaves a condition's status alone leaves the update that made it in charge. */
  lemma KeptTransition(before: seq<Update>, u: Update, c: Condition)
    requires exists m :: MadeTheStatus(before, c.kind, m) && c.lastTransitionTime == before[m].at
    requires c.kind != u.kind || LastStatus(before, u.kind) == Some(u.status)
    ensures exists m :: MadeTheStatus(before + [u], c.kind, m) && c.lastTransitionTime == (before + [u])[m].at
  {
    var m :| MadeTheStatus(before, c.kind, m) && c.lastTransitionTime == before[m].at;
    LastStatusIsMade(before, c.kind, m);
    assert (before + [u])[..m] == before[..m];
    assert MadeTheStatus(before + [u], c.kind, m);
  }

  lemma LastStatusIsMade(updates: seq<Update>, kind: ConditionType, m: int)
    requires 0 <= m < |updates| && updates[m].kind == kind
    requires forall j :: m <= j < |updates| && updates[j].kind == kind ==> updates[j].status == updates[m].status
    ensures LastStatus(updates, kind) == Some(updates[m].status)
  {
    var j := LastUpdateIsAt(updates, kind, m);
  }

  lemma {:induction false} LastUpdateIsAt(updates: seq<Update>, kind: ConditionType, m: int) returns (j: int)
    requires 0 <= m < |updates| && updates[m].kind == kind
    ensures m <= j < |updates| && updates[j].kind == kind && LastUpdate(updates, kind) == Some(updates[j])
  {
    var n := |updates| - 1;
    if updates[n].kind == kind {
      j := n;
    } else {
      j := LastUpdateIsAt(updates[..n], kind, m);
    }
  }

  predicate SameWords(u: Update, v: Update) {
    u.status == v.status && u.reason == v.reason && u.message == v.message
  }

  /** The update that put the condition as it is: it said something new, and nothing after it did. */
  ghost predicate MadeTheWords(updates: seq<Update>, kind: ConditionType, m: int) {
    && 0 <= m < |updates| && updates[m].kind == kind
    && (LastUpdate(updates[..m], kind).Some? ==> !SameWords(LastUpdate(updates[..m], kind).value, updates[m]))
    && forall j :: m <= j < |updates| && updates[j].kind == kind ==> SameWords(updates[j], updates[m])
  }

  /** The condition shows what update `m` said, and the generation it was about. */
  ghost predicate Shows(updates: seq<Update>, c: Condition, m: int) {
    && MadeTheWords(updates, c.kind, m)
    && c.status == updates[m].status && c.reason == updates[m].reason && c.message == updates[m].message
    && c.observedGeneration == updates[m].generation
  }

  /** Every condition shows the status, reason and message last asked for, and the generation of the
      update that first said so: repeating a condition does not refresh it. */
  lemma {:induction false} ConditionsShowTheLastWords(updates: seq<Update>)
    ensures forall c :: c in Conditions(updates) ==> exists m :: Shows(updates, c, m)
  {
    if updates != [] {
      var n := |updates| - 1;
      var before, u := updates[..n], updates[n];
      assert updates == before + [u];
      ConditionsShowTheLastWords(before);
      ConditionsTellTheUpdates(before);
      var was, now := Conditions(before), Conditions(updates);
      assert now == SetTo(was, u);
      var i := IndexOf(was, u.kind);
      forall k | 0 <= k < |now| ensures exists m :: Shows(updates, now[k], m) {
        if k < |was| && now[k] == was[k] {
          assert was[k] in was;
          assert was[k].kind == u.kind ==> Repeats(was[k], u);
          KeptWords(before, u, was[k]);
        } else {
          if i >= 0 {
            assert was[i] in was;
            ShownWordsAreTheLast(before, was[i]);
            assert k == i && !Repeats(was[i], u);
          } else {
            assert StatusOf(was, u.kind) == LastStatus(before, u.kind);
          }
          NewWords(before, u, now[k]);
        }
      }
    }
  }

  lemma ShownWordsAreTheLast(updates: seq<Update>, c: Condition)
    requires exists m :: Shows(updates, c, m)
    ensures LastUpdate(updates, c.kind).Some? && Repeats(c, LastUpdate(updates, c.kind).value)
  {
    var m :| Shows(updates, c, m);
    var j := LastUpdateIsAt(updates, c.kind, m);
  }

  lemma KeptWords(before: seq<Update>, u: Update, c: Condition)
    requires exists m :: Shows(before, c, m)
    requires c.kind == u.kind ==> Repeats(c, u)
    ensures exists m :: Shows(before + [u], c, m)
  {
    var m :| Shows(before, c, m);
    assert (before + [u])[..m] == before[..m];
    assert Shows(before + [u], c, m);
  }

  lemma NewWords(before: seq<Update>, u: Update, c: Condition)
    requires c.kind == u.kind && Repeats(c, u) && c.observedGeneration == u.generation
    requires LastUpdate(before, u.kind).Some? ==> !SameWords(LastUpdate(before, u.kind).value, u)
    ensures exists m :: Shows(before + [u], c, m)
  {
    assert (before + [u])[..|before|] == before;
    assert Shows(before + [u], c, |before|);
  }

  // ---------------------------------------------------------------- one update and the dates

  /** What a condition shows, and since when. */
  datatype View = View(status: ConditionStatus, since: Time)

  function ViewOf(conditions: seq<Condition>, kind: ConditionType): (v: Option<View>)
    ensures StatusOf(conditions, kind) == if v.None? then None else Some(v.value.status)
  {
    var i := IndexOf(conditions, kind);
    if i < 0 then None else Some(View(conditions[i].status, conditions[i].lastTransitionTime))
  }

  /** One condition of each type at most, all of them about the same generation of the spec. */
  ghost predicate Tidy(conditions: seq<Condition>, generation: int) {
    && AtMostOneOfEach(conditions)
    && forall i :: 0 <= i < |conditions| ==> conditions[i].observedGeneration == generation
  }

  /** An update dates its own condition, when it changes the status, and no other. */
  lemma UpdateDates(conditions: seq<Condition>, u: Update)
    ensures forall kind :: ViewOf(SetTo(conditions, u), kind) ==
              var v := ViewOf(conditions, kind);
              if kind != u.kind || (v.Some? && v.value.status == u.status) then v else Some(View(u.status, u.at))
    ensures Tidy(conditions, u.generation) ==> Tidy(SetTo(conditions, u), u.generation)
  {
    var i := IndexOf(conditions, u.kind);
    if i < 0 {
      AppendingKeepsPlaces(conditions, Fresh(u));
    } else if !Repeats(conditions[i], u) {
      var since := if conditions[i].status != u.status then u.at else conditions[i].lastTransitionTime;
      ReplacingKeepsPlaces(conditions, i, Fresh(u).(lastTransitionTime := since));
    }
  }

  // ---------------------------------------------------------------- maintenance history

  const MAX_HISTORY := 10

  /** Position of the first InProgress record, or -1. */
  function FindInProgress(history: seq<MaintenanceRecord>): (i: int)
    ensures -1 <= i < |history|
    ensures i >= 0 ==> history[i].status.InProgress? && forall j :: 0 <= j < i ==> !history[j].status.InProgress?
    ensures i < 0 ==> forall j :: 0 <= j < |history| ==> !history[j].status.InProgress?
  {
    if history == [] then -1
    else if history[0].status.InProgress? then 0
    else
      var i := FindInProgress(history[1..]);
      if i < 0 then -1 else i + 1
  }

  /** A Completed record that started in [windowStart, windowEnd). */
  predicate CompletedWithin(r: MaintenanceRecord, windowStart: Time, windowEnd: Time) {
    r.status.Completed? && windowStart <= r.startedAt < windowEnd
  }

  predicate HasCompleted(history: seq<MaintenanceRecord>, windowStart: Time, windowEnd: Time) {
    exists i :: 0 <= i < |history| && CompletedWithin(history[i], windowStart, windowEnd)
  }

  function LastTen(history: seq<MaintenanceRecord>): seq<MaintenanceRecord> {
    if |history| > MAX_HISTORY then history[|history| - MAX_HISTORY..] else history
  }

  /** The controller trims; its untrimmed twin, which keeps the full log, does not. */
  function AddRecord(trim: bool, history: seq<MaintenanceRecord>, r: MaintenanceRecord): seq<MaintenanceRecord> {
    if trim then LastTen(history + [r]) else history + [r]
  }

  function MarkRecord(history: seq<MaintenanceRecord>, status: RunStatus, reason: Text,
                      at: Time): seq<MaintenanceRecord> {
    var i := FindInProgress(history);
    if i < 0 then history
    else history[i := history[i].(status := status, reason := reason, completedAt := Some(at))]
  }

  // ---------------------------------------------------------------- the policy object in memory

  method FindCondition(conditions: seq<Condition>, kind: ConditionType) returns (i: int)
    ensures i == IndexOf(conditions, kind)
  {
    i := 0;
    while i < |conditions|
      invariant 0 <= i <= |conditions|
      invariant forall j :: 0 <= j < i ==> conditions[j].kind != kind
    {
      if conditions[i].kind == kind {
        return;
      }
      i := i + 1;
    }
    i := -1;
  }

  /** The policy a reconcile works on: its spec, and the status fields it changes in place. */
  class Policy {
    const spec: PolicySpec
    var conditions: seq<Condition>
    var history: seq<MaintenanceRecord>
    var memoryTarget: Option<int>
    var currentMemory: Option<int>

    constructor (spec: PolicySpec, status: Status)
      ensures Value() == status && this.spec == spec
    {
      this.spec := spec;
      conditions := status.conditions;
      history := status.history;
      memoryTarget := status.memoryTarget;
      currentMemory := status.currentMemory;
    }

    function Value(): Status
      reads this
    {
      Status(conditions, history, memoryTarget, currentMemory)
    }

    method SetCondition(kind: ConditionType, status: ConditionStatus, reason: Reason, message: Text,
                        now: Time) returns (changed: bool)
      modifies this`conditions
      ensures var u, i := Update(kind, status, reason, message, now, spec.generation), IndexOf(old(conditions), kind);
              && conditions == SetTo(old(conditions), u)
              && (!changed <==> i >= 0 && Repeats(old(conditions)[i], u))
    {
      var i := FindCondition(conditions, kind);
      if i >= 0 && conditions[i].status == status && conditions[i].reason == reason
        && conditions[i].message == message
      {
        return false;
      }
      if i < 0 {
        conditions := conditions + [Condition(kind, status, reason, message, now, spec.generation)];
      } else {
        if conditions[i].status != status {
          conditions := conditions[i := conditions[i].(lastTransitionTime := now)];
        }
        conditions := conditions[i := conditions[i].(status := status, reason := reason, message := message,
                                                    observedGeneration := spec.generation)];
      }
      return true;
    }

    method IsConditionTrue(kind: ConditionType) returns (r: bool)
      ensures r == IsTrue(conditions, kind)
    {
      var i := FindCondition(conditions, kind);
      r := i >= 0 && conditions[i].status == True;
    }

    method AddMaintenanceRecord(r: MaintenanceRecord)
      modifies this`history
      ensures history == AddRecord(true, old(history), r)
    {
      history := history + [r];
      if |history| > MAX_HISTORY {
        history := history[|history| - MAX_HISTORY..];
      }
    }

    method FindInProgressRecord() returns (i: int)
      ensures i == FindInProgress(history)
    {
      i := 0;
      while i < |history|
        invariant 0 <= i <= |history|
        invariant forall j :: 0 <= j < i ==> !history[j].status.InProgress?
      {
        if history[i].status.InProgress? {
          return;
        }
        i := i + 1;
      }
      i := -1;
    }

    method HasCompletedMaintenanceInWindow(windowStart: Time, windowEnd: Time) returns (found: bool)
      ensures found == HasCompleted(history, windowStart, windowEnd)
    {
      for i := 0 to |history|
        invariant forall j :: 0 <= j < i ==> !CompletedWithin(history[j], windowStart, windowEnd)
      {
        var rec := history[i];
        if rec.status.Completed? && !(rec.startedAt < windowStart) && rec.startedAt < windowEnd {
          assert CompletedWithin(history[i], windowStart, windowEnd);
          return true;
        }
      }
      return false;
    }

    method MarkRecordCompleted(status: RunStatus, reason: Text, now: Time)
      modifies this`history
      ensures history == MarkRecord(old(history), status, reason, now)
    {
      var i := FindInProgressRecord();
      if i < 0 {
        return;
      }
      var rec := history[i];
      rec := rec.(status := status);
      rec := rec.(reason := reason);
      rec := rec.(completedAt := Some(now));
      history := history[i := rec];
    }
  }
}
