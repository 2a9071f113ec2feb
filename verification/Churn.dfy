/** How much a run can write: the ledger of maintenance writes, and the bound on their number. */
module Churn {
  import opened Basics
  import opened PolicyTypes
  import opened Sizing
  import opened Decision
  import opened Shapes
  import opened Runs
  import opened Facts
  import opened WriteGuarantees
  import opened ZalandoPatch

  // ---------------------------------------------------------------- the ledger

  /** Memory figures of the maintenance writes of the first `k` turns, oldest first. */
  ghost function MaintenanceWrites(run: Run, k: nat): seq<int>
    requires k <= |run.turns|
  {
    if k == 0 then [] else MaintenanceWrites(run, k - 1) + WrittenBy(EffectAt(run, k - 1).write)
  }

  function WrittenBy(write: Option<Write>): seq<int> {
    if IsMaintenance(write) then [write.value.memory] else []
  }

  /** Memory applied by the runs on record, oldest first; Skipped records applied nothing. */
  function Applied(history: seq<MaintenanceRecord>): seq<int> {
    if history == [] then []
    else
      var last := history[|history| - 1];
      Applied(history[..|history| - 1]) + (if last.appliedMemory.Some? then [last.appliedMemory.value] else [])
  }

  /** Every run on record began with the memory the run before it had applied. */
  predicate Chained(history: seq<MaintenanceRecord>) {
    history == [] ||
    var before, last := history[..|history| - 1], history[|history| - 1];
    && Chained(before)
    && (last.appliedMemory.Some? && Applied(before) != [] ==>
         last.previousMemory == Some(Applied(before)[|Applied(before)| - 1]))
  }

  /** Every status write arrives, and a patch that reports an error was not applied. */
  ghost predicate NothingLost(run: Run) {
    forall k :: 0 <= k < |run.turns| ==> run.turns[k].seen.statusWritten && !run.turns[k].seen.patch.AcceptedWithError?
  }

  lemma AppliedOfAppend(history: seq<MaintenanceRecord>, r: MaintenanceRecord)
    ensures Applied(history + [r]) == Applied(history) + (if r.appliedMemory.Some? then [r.appliedMemory.value] else [])
    ensures Chained(history + [r]) <==>
              && Chained(history)
              && (r.appliedMemory.Some? && Applied(history) != [] ==>
                   r.previousMemory == Some(Applied(history)[|Applied(history)| - 1]))
  {
    assert (history + [r])[..|history|] == history;
  }

  lemma AppliedOfReplace(history: seq<MaintenanceRecord>, r: MaintenanceRecord)
    requires |history| > 0
    requires r.appliedMemory == history[|history| - 1].appliedMemory
    requires r.previousMemory == history[|history| - 1].previousMemory
    ensures Applied(history[|history| - 1 := r]) == Applied(history)
    ensures Chained(history[|history| - 1 := r]) == Chained(history)
  {
    assert history[|history| - 1 := r][..|history| - 1] == history[..|history| - 1];
  }

  /** The books are in order: writes, records and the CR tell the same story. */
  ghost predicate Balanced(writes: seq<int>, history: seq<MaintenanceRecord>, cr: CRState) {
    && writes == Applied(history)
    && Chained(history)
    && (writes != [] ==> cr == Memory(writes[|writes| - 1]))
  }

  lemma AppendBalances(writes: seq<int>, history: seq<MaintenanceRecord>, cr: CRState, r: MaintenanceRecord,
                       write: Option<Write>)
    requires Balanced(writes, history, cr)
    requires WrittenBy(write) == if r.appliedMemory.Some? then [r.appliedMemory.value] else []
    requires r.appliedMemory.Some? ==> r.previousMemory == KnownMemory(cr)
    requires write.Some? ==> !write.value.bootstrap
    ensures Balanced(writes + WrittenBy(write), history + [r], CRAfter(cr, write))
  {
    AppliedOfAppend(history, r);
  }

  lemma ReplaceBalances(writes: seq<int>, s: Status, cr: CRState, s': Status, r: MaintenanceRecord)
    requires Agreement(s) && UnderWay(s) && Replaced(s, s', r)
    requires r.appliedMemory == Current(s).appliedMemory && r.previousMemory == Current(s).previousMemory
    requires Balanced(writes, s.history, cr)
    ensures Balanced(writes + WrittenBy(None), s'.history, CRAfter(cr, None))
  {
    UnderWayIsLast(s);
    AppliedOfReplace(s.history, r);
  }

  lemma EffectBalances(spec: PolicySpec, s: Status, cr: CRState, o: Observation, e: Effect, writes: seq<int>)
    requires Agreement(s) && ShapeOf(false, spec, s, cr, o, e) && !o.patch.AcceptedWithError?
    requires Balanced(writes, s.history, cr)
    ensures Balanced(writes + WrittenBy(e.write), e.status.history, CRAfter(cr, e.write))
  {
    UnderWayIsLast(s);
    match e.move
    case Skip | Start =>
      AppendBalances(writes, s.history, cr, e.status.history[|s.history|], e.write);
    case Advance | Finish | Abort =>
      ReplaceBalances(writes, s, cr, e.status, e.status.history[|s.history| - 1]);
    case _ =>
  }

  lemma LedgerStep(run: Run, k: nat)
    requires Plausible(run) && Untouched(run) && NothingLost(run) && k < |run.turns|
    requires Balanced(MaintenanceWrites(run, k), Log(run, k), State(true, run, k).cr)
    ensures Balanced(MaintenanceWrites(run, k + 1), Log(run, k + 1), State(true, run, k + 1).cr)
  {
    TurnFacts(run, k);
    UntouchedTurn(run, k);
    assert run.turns[k].seen.statusWritten && !run.turns[k].seen.patch.AcceptedWithError?;
    TurnShape(run, k);
    EffectBalances(run.spec, LogStatus(run, k), Before(false, run, k).cr, run.turns[k].seen, LogEffect(run, k),
                   MaintenanceWrites(run, k));
  }

  /** With nothing lost and nobody interfering, the maintenance writes are exactly the memory figures of
      the runs on record, in order; each run began with what the one before it applied; and the CR
      has what the latest one applied. */
  lemma {:induction false} LedgerBalances(run: Run, k: nat)
    requires Plausible(run) && Untouched(run) && NothingLost(run) && k <= |run.turns|
    ensures Balanced(MaintenanceWrites(run, k), Log(run, k), State(true, run, k).cr)
  {
    if k == 0 {
      LedgerOpens(run);
    } else {
      LedgerBalances(run, k - 1);
      LedgerStep(run, k - 1);
    }
  }

  lemma LedgerOpens(run: Run)
    ensures Balanced(MaintenanceWrites(run, 0), Log(run, 0), State(true, run, 0).cr)
  {
  }

  // ---------------------------------------------------------------- bounded churn

  /** A change of the CR's memory must be larger than this. */
  ghost function Threshold(run: Run): int {
    LeastChange(Some(run.spec.safetyGates))
  }

  /** The target a reconcile reads, if it gets that far. */
  ghost function TargetSeen(spec: PolicySpec, w: World, o: Observation): seq<int> {
    var read := ReadRecommendation(spec, o.vpa);
    if o.policyRead.PolicyFound? && PastBootstrap(spec, w.cr, o) && read.Recommended? then [read.rec.memory] else []
  }

  /** All targets read in the first `k` turns, oldest first. */
  ghost function Targets(run: Run, k: nat): seq<int>
    requires k <= |run.turns|
  {
    if k == 0 then [] else Targets(run, k - 1) + TargetSeen(run.spec, Before(true, run, k - 1), run.turns[k - 1].seen)
  }

  /** How far a sequence of figures travels in all. */
  function Variation(ts: seq<int>): nat {
    if |ts| < 2 then 0 else Variation(ts[..|ts| - 1]) + Abs(ts[|ts| - 1] - ts[|ts| - 2])
  }

  function Last(ts: seq<int>): int
    requires ts != []
  {
    ts[|ts| - 1]
  }

  /** After `n` writes with threshold `a`, the CR having got the last of them. */
  ghost predicate Bounded(n: nat, a: int, targets: seq<int>, cr: CRState) {
    n > 0 ==> cr.Memory? && targets != [] && (n - 1) * (a + 1) + Abs(Last(targets) - cr.bytes) <= Variation(targets)
  }

  /** Reading one more target keeps the bound. */
  lemma ReadingKeepsBound(n: nat, a: int, targets: seq<int>, cr: CRState, seen: seq<int>)
    requires Bounded(n, a, targets, cr) && |seen| <= 1
    ensures Bounded(n, a, targets + seen, cr)
  {
    var ts := targets + seen;
    if seen == [] {
      assert ts == targets;
    } else if targets != [] {
      assert ts[..|ts| - 1] == targets;
      assert Variation(ts) == Variation(targets) + Abs(Last(ts) - Last(targets));
    }
  }

  /** Writing the target just read, far enough from the CR's memory, keeps it too. */
  lemma WritingKeepsBound(n: nat, a: nat, targets: seq<int>, cr: CRState)
    requires Bounded(n, a, targets, cr) && targets != []
    requires cr.Memory? ==> Abs(Last(targets) - cr.bytes) > a
    ensures Bounded(n + 1, a, targets, Memory(Last(targets)))
  {
    if n > 0 {
      assert n * (a + 1) == (n - 1) * (a + 1) + (a + 1);
    }
  }

  lemma EffectIsBounded(spec: PolicySpec, w: World, o: Observation, e: Effect, n: nat, targets: seq<int>)
    requires ShapeOf(true, spec, w.status, w.cr, o, e) && (e.write.Some? ==> o.policyRead.PolicyFound?)
    requires LeastChange(Some(spec.safetyGates)) >= 0
    requires Bounded(n, LeastChange(Some(spec.safetyGates)), targets, w.cr)
    ensures Bounded(n + |WrittenBy(e.write)|, LeastChange(Some(spec.safetyGates)),
                    targets + TargetSeen(spec, w, o), CRAfter(w.cr, e.write))
  {
    var a, seen := LeastChange(Some(spec.safetyGates)), TargetSeen(spec, w, o);
    ReadingKeepsBound(n, a, targets, w.cr, seen);
    if e.write.Some? {
      EffectWrites(true, spec, w.status, w.cr, o, e);
      if !e.write.value.bootstrap {
        if w.cr.Memory? {
          GatesOpenExactly(w.cr.bytes, Target(spec, o), Some(spec.safetyGates));
        }
        assert seen == [Target(spec, o)] && Last(targets + seen) == Target(spec, o);
        WritingKeepsBound(n, a, targets + seen, w.cr);
      }
    }
  }

  lemma ChurnStep(run: Run, k: nat)
    requires Plausible(run) && Untouched(run) && k < |run.turns| && Threshold(run) >= 0
    requires Bounded(|MaintenanceWrites(run, k)|, Threshold(run), Targets(run, k), State(true, run, k).cr)
    ensures Bounded(|MaintenanceWrites(run, k + 1)|, Threshold(run), Targets(run, k + 1), State(true, run, k + 1).cr)
  {
    TurnFacts(run, k);
    UntouchedTurn(run, k);
    RealShape(run, k);
    EffectIsBounded(run.spec, Before(true, run, k), run.turns[k].seen, EffectAt(run, k), |MaintenanceWrites(run, k)|,
                    Targets(run, k));
  }

  lemma {:induction false} ChurnInvariant(run: Run, k: nat)
    requires Plausible(run) && Untouched(run) && k <= |run.turns| && Threshold(run) >= 0
    ensures Bounded(|MaintenanceWrites(run, k)|, Threshold(run), Targets(run, k), State(true, run, k).cr)
  {
    if k == 0 {
      NothingWrittenYet(run);
    } else {
      ChurnInvariant(run, k - 1);
      ChurnStep(run, k - 1);
    }
  }

  lemma NothingWrittenYet(run: Run)
    ensures MaintenanceWrites(run, 0) == []
  {
  }

  /** Bounded churn: however often status writes are lost, k maintenance writes take a total movement of
      the targets read of at least (k - 1) times one more than the absolute threshold. */
  lemma ChurnIsBounded(run: Run, k: nat)
    requires Plausible(run) && Untouched(run) && k <= |run.turns| && Threshold(run) >= 0
    ensures (|MaintenanceWrites(run, k)| - 1) * (Threshold(run) + 1) <= Variation(Targets(run, k))
  {
    ChurnInvariant(run, k);
  }

  ghost predicate Nondecreasing(ts: seq<int>) {
    forall i, j :: 0 <= i < j < |ts| ==> ts[i] <= ts[j]
  }

  ghost predicate Nonincreasing(ts: seq<int>) {
    forall i, j :: 0 <= i < j < |ts| ==> ts[i] >= ts[j]
  }

  lemma {:induction false} MonotoneVariation(ts: seq<int>)
    requires Nondecreasing(ts) || Nonincreasing(ts)
    ensures Variation(ts) == if ts == [] then 0 else Abs(Last(ts) - ts[0])
  {
    if |ts| > 1 {
      MonotoneVariation(ts[..|ts| - 1]);
    }
  }

  lemma {:induction false} TargetsInRange(run: Run, k: nat)
    requires k <= |run.turns| && 0 <= run.spec.memoryMin <= run.spec.memoryMax
    ensures forall t :: t in Targets(run, k) ==> run.spec.memoryMin <= t <= run.spec.memoryMax
  {
    if k > 0 {
      TargetsInRange(run, k - 1);
      var vpa := run.turns[k - 1].seen.vpa;
      if vpa.VpaFound? && Extract(vpa.containers, ContainerName(run.spec)).Recommended? {
        TargetInRange(run.spec, Extract(vpa.containers, ContainerName(run.spec)).rec.memory);
      }
    }
  }

  lemma NegativeFactor(a: int, d: int)
    requires d > 0 && a * d < 0
    ensures a < 0
  {
  }

  lemma QuotientBound(n: int, d: int, x: int)
    requires d > 0 && n * d <= x
    ensures n <= x / d
  {
    var q := x / d;
    assert x < (q + 1) * d;
    assert (n - (q + 1)) * d == n * d - (q + 1) * d;
    NegativeFactor(n - (q + 1), d);
  }

  lemma MonotoneSpan(ts: seq<int>, lo: int, hi: int)
    requires Nondecreasing(ts) || Nonincreasing(ts)
    requires forall t :: t in ts ==> lo <= t <= hi
    requires lo <= hi
    ensures Variation(ts) <= hi - lo
  {
    MonotoneVariation(ts);
    if ts != [] {
      assert ts[0] in ts && Last(ts) in ts;
    }
  }

  lemma MonotoneCost(n: nat, d: int, ts: seq<int>, lo: int, hi: int)
    requires d > 0 && (n - 1) * d <= Variation(ts) && lo <= hi
    requires Nondecreasing(ts) || Nonincreasing(ts)
    requires forall t :: t in ts ==> lo <= t <= hi
    ensures n <= (hi - lo) / d + 1
  {
    MonotoneSpan(ts, lo, hi);
    QuotientBound(n - 1, d, hi - lo);
  }

  /** Targets that only move one way, between `lo` and `hi`, cost at most (hi - lo) / (threshold + 1) + 1 writes. */
  lemma MonotoneTargetsCostLittle(run: Run, k: nat, lo: int, hi: int)
    requires Plausible(run) && Untouched(run) && k <= |run.turns| && Threshold(run) >= 0
    requires lo <= hi && forall t :: t in Targets(run, k) ==> lo <= t <= hi
    requires Nondecreasing(Targets(run, k)) || Nonincreasing(Targets(run, k))
    ensures |MaintenanceWrites(run, k)| <= (hi - lo) / (Threshold(run) + 1) + 1
  {
    ChurnIsBounded(run, k);
    MonotoneCost(|MaintenanceWrites(run, k)|, Threshold(run) + 1, Targets(run, k), lo, hi);
  }

  /** The policy's memory bounds are such `lo` and `hi`. */
  lemma MonotoneTargetsCostAtMostTheRange(run: Run, k: nat)
    requires Plausible(run) && Untouched(run) && k <= |run.turns| && Threshold(run) >= 0
    requires 0 <= run.spec.memoryMin <= run.spec.memoryMax
    requires Nondecreasing(Targets(run, k)) || Nonincreasing(Targets(run, k))
    ensures |MaintenanceWrites(run, k)| <=
            (run.spec.memoryMax - run.spec.memoryMin) / (Threshold(run) + 1) + 1
  {
    TargetsInRange(run, k);
    MonotoneTargetsCostLittle(run, k, run.spec.memoryMin, run.spec.memoryMax);
  }

  /** A recommendation that stays put causes at most one write. */
  lemma SteadyTargetCostsOneWrite(run: Run, k: nat, target: int)
    requires Plausible(run) && Untouched(run) && k <= |run.turns| && Threshold(run) >= 0
    requires forall t :: t in Targets(run, k) ==> t == target
    ensures |MaintenanceWrites(run, k)| <= 1
  {
    var ts := Targets(run, k);
    assert Nondecreasing(ts) by {
      assert forall i :: 0 <= i < |ts| ==> ts[i] in ts;
    }
    MonotoneTargetsCostLittle(run, k, target, target);
  }
}
