/** What is written to the CR, and when, in every run. */
module WriteGuarantees {
  import opened Basics
  import opened PolicyTypes
  import opened Cron
  import opened Sizing
  import opened StatusBook
  import opened Decision
  import opened Requirements
  import opened RequirementsMet
  import opened Shapes
  import opened Runs
  import opened Twin
  import opened Facts
  import opened HistoryGuarantees
  import opened RunGuarantees

  // ---------------------------------------------------------------- when a run starts

  /** The patch of a run that is attempted is sent, and reaches the CR. */
  ghost predicate Sends(spec: PolicySpec, cr: CRState, o: Observation) {
    Computed(spec, o).Some? && cr != Absent && !o.patch.Refused?
  }

  /** Given whether a run may be considered: exactly when it is attempted, when it starts, when it
      writes, and when it is recorded as skipped. */
  ghost predicate ActsExactly(spec: PolicySpec, considered: bool, cr: CRState, o: Observation, e: Effect)
    requires considered ==> ReadRecommendation(spec, o.vpa).Recommended?
  {
    && (e.move in {Start, Misstart} <==> considered && HealthAllows(spec, o) && ChangeAllows(spec, cr, o))
    && (e.move.Start? <==> e.move in {Start, Misstart} && Sends(spec, cr, o) && o.patch.Accepted?)
    && (IsMaintenance(e.write) <==> e.move in {Start, Misstart} && Sends(spec, cr, o))
    && (e.move.Skip? <==>
          && considered
          && (HealthAllows(spec, o) ==> !ChangeAllows(spec, cr, o))
          && !(spec.safetyGates.requireHealthyCluster && o.health.HealthUnknown?))
  }

  /** Every reconcile, from any status, acts exactly so. */
  lemma RunStartsExactlyWhen(trim: bool, spec: PolicySpec, s: Status, cr: CRState, o: Observation)
    ensures ActsExactly(spec, Considered(spec, s, cr, o), cr, o, Reconcile(trim, spec, s, cr, o))
  {
    var c := SomeCase(spec, s, cr, o);
    ReconcileMeets(trim, c, spec, s, cr, o);
    WordsAgree(spec, s, cr, o);
    PartOf(c, spec, s, cr, o);
    CaseActs(c, spec, s, cr, o, Reconcile(trim, spec, s, cr, o));
  }

  lemma CaseActs(c: Case, spec: PolicySpec, s: Status, cr: CRState, o: Observation, e: Effect)
    requires InCase(c, spec, s, cr, o) && e.move == MoveOf(c) && GivesWrite(c, spec, cr, o, e.write)
    ensures ActsExactly(spec, MayRun(spec, s, cr, o), cr, o, e)
  {
  }

  // ---------------------------------------------------------------- every write is justified

  /** A maintenance write at turn `k`: the clock is inside the opening of the latest tick, the full log
      has no run under way and no Completed record of that opening, the cluster was seen Running if
      that is required, and the write is the target just read, far enough from the current memory. */
  ghost predicate JustifiedMaintenance(run: Run, k: nat, memory: int)
    requires k < |run.turns|
  {
    var spec, cr, o := run.spec, Before(true, run, k).cr, run.turns[k].seen;
    && o.prevTick.Some? && IsLatestTick(run.ticks, o.prevTick.value, o.clock.now)
    && InOpening(o.prevTick.value, spec.timeoutMinutes, o.clock.now)
    && !LastInProgress(Log(run, k))
    && !HasCompleted(Log(run, k), o.prevTick.value, o.prevTick.value + WindowSeconds(spec.timeoutMinutes))
    && HealthAllows(spec, o)
    && ReadRecommendation(spec, o.vpa).Recommended? && memory == Target(spec, o)
    && (cr.Memory? ==>
          var change := Abs(memory - cr.bytes);
          && change > LeastChange(Some(spec.safetyGates))
          && PercentExceeded(cr.bytes, change, LeastPercent(Some(spec.safetyGates))))
  }

  lemma EffectWrites(trim: bool, spec: PolicySpec, s: Status, cr: CRState, o: Observation, e: Effect)
    requires ShapeOf(trim, spec, s, cr, o, e) && e.write.Some?
    ensures || BootstrapWrite(spec, cr, e.write)
            || (Attempted(spec, s, cr, o) && MaintenanceWrite(spec, o, e.write) && e.move in {Start, Misstart})
  {
  }

  /** Every write in every run is a bootstrap of a CR without memory, or a justified maintenance write. */
  lemma WritesAreJustified(run: Run, k: nat)
    requires Plausible(run) && k < |run.turns| && EffectAt(run, k).write.Some?
    ensures var write := EffectAt(run, k).write.value;
            if write.bootstrap then Before(true, run, k).cr.NoMemory? && run.spec.initialMemory == Some(write.memory)
            else JustifiedMaintenance(run, k, write.memory)
  {
    TurnFacts(run, k);
    var s, cr, o := LogStatus(run, k), Before(true, run, k).cr, run.turns[k].seen;
    TurnShape(run, k);
    EffectWrites(false, run.spec, s, cr, o, LogEffect(run, k));
    if !EffectAt(run, k).write.value.bootstrap {
      UnderWayIsLast(s);
      if cr.Memory? {
        GatesOpenExactly(cr.bytes, Target(run.spec, o), Some(run.spec.safetyGates));
      }
    }
  }

  // ---------------------------------------------------------------- what is written

  /** The figures of a maintenance write: the first entry of the container the policy names, `postgres` when
      it names none, has a memory figure, which is sized, and its CPU figure, if any, is taken as it is. */
  ghost predicate FiguresFrom(spec: PolicySpec, vpa: VpaRead, memory: int, cpu: Option<int>) {
    var name := if spec.vpaContainerName == "" then "postgres" else spec.vpaContainerName;
    && vpa.VpaFound?
    && exists i :: 0 <= i < |vpa.containers| && FirstOf(vpa.containers, name, i) &&
                   vpa.containers[i].memory.Some? && IsTarget(spec, vpa.containers[i].memory.value, memory) &&
                   cpu == vpa.containers[i].cpu
  }

  /** The parameters of a write: none when the policy lists none, and the computed ones otherwise. */
  ghost predicate ParametersFrom(spec: PolicySpec, o: Observation, parameters: map<string, string>) {
    if spec.postgresParameters == map[] then parameters == map[] else o.params == ParamsOk(parameters)
  }

  lemma FiguresRead(spec: PolicySpec, vpa: VpaRead, memory: int, cpu: Option<int>)
    requires ReadRecommendation(spec, vpa) == Recommended(Recommendation(memory, cpu))
    ensures FiguresFrom(spec, vpa, memory, cpu)
  {
    ReadIsExact(spec, vpa);
    var name := if spec.vpaContainerName == "" then "postgres" else spec.vpaContainerName;
    var i := FindFirst(vpa.containers, name);
    assert i < |vpa.containers| && FirstOf(vpa.containers, name, i);
    TargetIsExact(spec, vpa.containers[i].memory.value, memory);
  }

  /** Every maintenance write of every run carries the sized memory, the CPU and the parameters. */
  lemma MaintenanceWriteCarries(run: Run, k: nat)
    requires Plausible(run) && k < |run.turns| && IsMaintenance(EffectAt(run, k).write)
    ensures var o, write := run.turns[k].seen, EffectAt(run, k).write.value;
            && FiguresFrom(run.spec, o.vpa, write.memory, write.cpu)
            && ParametersFrom(run.spec, o, write.parameters)
  {
    TurnFacts(run, k);
    var c := RealCase(run, k);
    var o, write := run.turns[k].seen, EffectAt(run, k).write.value;
    FiguresRead(run.spec, o.vpa, write.memory, write.cpu);
  }

  /** The initial memory is asked for: the CR can be read and has no memory, or is not there. */
  ghost predicate AsksForSeed(run: Run, k: nat)
    requires k < |run.turns|
  {
    var cr, o := Before(true, run, k).cr, run.turns[k].seen;
    o.policyRead == PolicyFound && o.crReadable && cr in {NoMemory, Absent} && run.spec.initialMemory != None
  }

  /** And its patch reaches the CR. */
  ghost predicate SeedLands(run: Run, k: nat)
    requires k < |run.turns|
  {
    var cr, o := Before(true, run, k).cr, run.turns[k].seen;
    && AsksForSeed(run, k) && cr == NoMemory && !o.patch.Refused?
    && (run.spec.postgresParameters == map[] || o.params.ParamsOk?)
  }

  /** A turn makes a bootstrap write exactly when one is asked for and lands, and the write is complete: the
      initial memory, a tenth of its Gi in cores, but 100 thousandths at least, and the parameters. The
      status tells of it exactly when the client is told so; any other turn that is asked for one leaves the
      status as it is and fails. */
  lemma BootstrapExactlyWhen(run: Run, k: nat)
    requires Plausible(run) && k < |run.turns|
    ensures var e, o := EffectAt(run, k), run.turns[k].seen;
            && (e.write.Some? && e.write.value.bootstrap <==> SeedLands(run, k))
            && (SeedLands(run, k) ==>
                  var write := e.write.value;
                  && Some(write.memory) == run.spec.initialMemory
                  && write.cpu.Some? && SeedCpu(write.memory, write.cpu.value)
                  && ParametersFrom(run.spec, o, write.parameters))
            && (e.move == Boot <==> SeedLands(run, k) && o.patch == Accepted)
            && (e.move == Boot ==>
                  && e.status == State(true, run, k).status.(currentMemory := run.spec.initialMemory)
                  && e.result == Requeue(60))
            && (AsksForSeed(run, k) && e.move != Boot ==>
                  e.status == State(true, run, k).status && e.result == Errored)
            && (AsksForSeed(run, k) ==> e.restarted == [])
  {
    TurnFacts(run, k);
    if run.turns[k].seen.policyRead.PolicyFound? {
      var c := RealCase(run, k);
      var w, o := Before(true, run, k), run.turns[k].seen;
      PartOf(c, run.spec, w.status, w.cr, o);
      assert WantsSeed(run.spec, w.cr, o) <==> AsksForSeed(run, k);
      SeedByCase(c, run.spec, w.status, w.cr, o, EffectAt(run, k));
    } else {
      NothingWithoutPolicy(run, k);
    }
  }

  lemma SeedByCase(c: Case, spec: PolicySpec, s: Status, cr: CRState, o: Observation, e: Effect)
    requires InCase(c, spec, s, cr, o) && Gives(true, c, spec, s, cr, o, e)
    ensures var lands := WantsSeed(spec, cr, o) && Computed(spec, o).Some? && cr == NoMemory && !o.patch.Refused?;
            && (e.write.Some? && e.write.value.bootstrap <==> lands)
            && (lands ==> Writes(true, spec, o, e.write.value))
            && (e.move == Boot <==> lands && o.patch == Accepted)
            && (e.move == Boot ==> e.status == s.(currentMemory := spec.initialMemory) && e.result == Requeue(60))
            && (WantsSeed(spec, cr, o) && e.move != Boot ==> e.status == s && e.result == Errored)
            && (WantsSeed(spec, cr, o) ==> e.restarted == [])
  {
    PartOf(c, spec, s, cr, o);
  }

  // ---------------------------------------------------------------- a second write in one opening

  /** Turn `k` sees the opening of tick `p` as current. */
  ghost predicate SeesOpening(run: Run, k: nat, p: Time)
    requires k < |run.turns|
  {
    var o := run.turns[k].seen;
    o.cronValid && o.prevTick == Some(p) && o.clock.now < p + WindowSeconds(run.spec.timeoutMinutes)
  }

  /** Every record stored since turn `j` is of a run that failed or was skipped. */
  ghost predicate OnlyFailuresSince(run: Run, j: nat, k: nat)
    requires j < k < |run.turns|
  {
    forall i :: |Log(run, j)| <= i < |Log(run, k)| ==> Log(run, k)[i].status.Failed? || Log(run, k)[i].status.Skipped?
  }

  /** Once an opening has let a run in, it lets in another exactly when every record stored since is of
      a run that failed or was skipped. */
  lemma ReopenedOnlyByFailure(run: Run, j: nat, k: nat, p: Time)
    requires Plausible(run) && j < k < |run.turns|
    requires SeesOpening(run, j, p) && SeesOpening(run, k, p)
    requires MayStart(run.spec, Before(true, run, j).status, run.turns[j].seen)
    ensures MayStart(run.spec, Before(true, run, k).status, run.turns[k].seen) <==> OnlyFailuresSince(run, j, k)
  {
    RecordsSince(run, j, k, p);
    var end := p + WindowSeconds(run.spec.timeoutMinutes);
    GuardSince(Log(run, j), Log(run, k), p, end, run.turns[k].seen.clock.now);
    StoredGuard(run, k, p);
  }

  /** What may start is decided on the stored status as on the full log. */
  lemma StoredGuard(run: Run, k: nat, p: Time)
    requires Plausible(run) && k < |run.turns| && SeesOpening(run, k, p)
    ensures MayStart(run.spec, Before(true, run, k).status, run.turns[k].seen) <==>
              && !HasCompleted(Log(run, k), p, p + WindowSeconds(run.spec.timeoutMinutes))
              && FindInProgress(Log(run, k)) < 0
  {
    TurnFacts(run, k);
    GuardSeesTheFullLog(run, k, p);
    TrimmedMayStart(run.spec, LogStatus(run, k), run.turns[k].seen, p);
  }

  lemma TrimmedMayStart(spec: PolicySpec, s: Status, o: Observation, p: Time)
    requires Agreement(s)
    requires o.cronValid && o.prevTick == Some(p) && o.clock.now < p + WindowSeconds(spec.timeoutMinutes)
    requires HasCompleted(LastTen(s.history), p, p + WindowSeconds(spec.timeoutMinutes)) ==
             HasCompleted(s.history, p, p + WindowSeconds(spec.timeoutMinutes))
    ensures MayStart(spec, Trimmed(s), o) <==>
              !HasCompleted(s.history, p, p + WindowSeconds(spec.timeoutMinutes)) && FindInProgress(s.history) < 0
  {
    UnderWayIsLast(s);
    LookupsAgree(s);
  }

  /** `h'` goes on from `h`, which has nothing under way and nothing completed in [p, end), with records
      from `p` to `now`. */
  ghost predicate GoesOn(h: seq<MaintenanceRecord>, h': seq<MaintenanceRecord>, p: Time, end: Time, now: Time) {
    && |h| <= |h'|
    && (forall i :: 0 <= i < |h| ==> h'[i] == h[i] && !h[i].status.InProgress?)
    && !HasCompleted(h, p, end)
    && (forall i :: |h| <= i < |h'| ==> p <= h'[i].startedAt <= now)
  }

  lemma RecordsSince(run: Run, j: nat, k: nat, p: Time)
    requires Plausible(run) && j < k < |run.turns|
    requires SeesOpening(run, j, p) && SeesOpening(run, k, p)
    requires MayStart(run.spec, Before(true, run, j).status, run.turns[j].seen)
    ensures GoesOn(Log(run, j), Log(run, k), p, p + WindowSeconds(run.spec.timeoutMinutes), run.turns[k].seen.clock.now)
  {
    StoredGuard(run, j, p);
    TurnFacts(run, j);
    LogOnlyGrows(run, j, k);
    AddedRecordsAreLater(run, j, k);
    TurnFacts(run, k);
  }

  /** What the guard comes down to on a history that goes on so. */
  lemma GuardSince(h: seq<MaintenanceRecord>, h': seq<MaintenanceRecord>, p: Time, end: Time, now: Time)
    requires GoesOn(h, h', p, end, now) && now < end
    ensures !HasCompleted(h', p, end) && FindInProgress(h') < 0 <==>
              forall i :: |h| <= i < |h'| ==> h'[i].status.Failed? || h'[i].status.Skipped?
  {
    forall i | 0 <= i < |h| ensures !CompletedWithin(h'[i], p, end) {
      assert h'[i] == h[i];
    }
    forall i | |h| <= i < |h'| ensures CompletedWithin(h'[i], p, end) <==> h'[i].status.Completed? {
    }
  }

  ghost predicate WritesForMaintenance(run: Run, k: nat)
    requires k < |run.turns|
  {
    IsMaintenance(EffectAt(run, k).write)
  }

  /** A turn writes for maintenance exactly when it finds the policy, a run is attempted, and the patch is
      sent and lands. The stored status counts alone: a first write that was not recorded is not seen. */
  lemma WritesExactlyWhen(run: Run, k: nat)
    requires Plausible(run) && k < |run.turns|
    ensures var w, o := Before(true, run, k), run.turns[k].seen;
            WritesForMaintenance(run, k) <==>
              o.policyRead.PolicyFound? && Attempted(run.spec, w.status, w.cr, o) && Sends(run.spec, w.cr, o)
  {
    assert PlausibleTurn(run, k);
    RunStartsExactlyWhen(true, run.spec, Before(true, run, k).status, Before(true, run, k).cr, run.turns[k].seen);
  }

  /** Turn `k` adds a record of a run under way. */
  ghost predicate PutsOnRecord(run: Run, k: nat)
    requires k < |run.turns|
  {
    |Log(run, k + 1)| == |Log(run, k)| + 1 && LastInProgress(Log(run, k + 1))
  }

  /** A run that is attempted is put on record exactly when its patch is sent, is applied with the client
      being told so, and the status write arrives; otherwise the attempt leaves no record at all. */
  lemma AttemptIsTrackedExactlyWhen(run: Run, k: nat)
    requires Plausible(run) && k < |run.turns| && run.turns[k].seen.policyRead.PolicyFound?
    requires Attempted(run.spec, Before(true, run, k).status, Before(true, run, k).cr, run.turns[k].seen)
    ensures var cr, o := Before(true, run, k).cr, run.turns[k].seen;
            PutsOnRecord(run, k) <==> Sends(run.spec, cr, o) && o.patch.Accepted? && o.statusWritten
    ensures !PutsOnRecord(run, k) ==> Log(run, k + 1) == Log(run, k)
  {
    assert PlausibleTurn(run, k);
    RunStartsExactlyWhen(true, run.spec, Before(true, run, k).status, Before(true, run, k).cr, run.turns[k].seen);
    OutcomesShowInTheLog(run, k);
  }

  /** So a maintenance write is on record exactly when the client was told of it and the status write arrived. */
  lemma WriteIsTrackedExactlyWhen(run: Run, k: nat)
    requires Plausible(run) && k < |run.turns| && WritesForMaintenance(run, k)
    ensures PutsOnRecord(run, k) <==> run.turns[k].seen.patch.Accepted? && run.turns[k].seen.statusWritten
    ensures !PutsOnRecord(run, k) ==> Log(run, k + 1) == Log(run, k)
  {
    WritesExactlyWhen(run, k);
    AttemptIsTrackedExactlyWhen(run, k);
  }

  /** Turn `k` can read all it needs for a run, is allowed one, and its patch is sent and lands. */
  ghost predicate ReadyToWrite(run: Run, k: nat)
    requires k < |run.turns|
  {
    var cr, o := Before(true, run, k).cr, run.turns[k].seen;
    && o.policyRead.PolicyFound? && PastBootstrap(run.spec, cr, o) && ReadRecommendation(run.spec, o.vpa).Recommended?
    && HealthAllows(run.spec, o) && ChangeAllows(run.spec, cr, o) && Sends(run.spec, cr, o)
  }

  /** After a maintenance write in an opening, recorded or not, a later turn of the same tick writes again
      exactly when it is still in that opening, every record stored since the write is of a run that
      failed or was skipped, and it is ready to. */
  lemma SecondWriteExactlyWhen(run: Run, j: nat, k: nat)
    requires Plausible(run) && j < k < |run.turns| && WritesForMaintenance(run, j)
    requires run.turns[j].seen.prevTick == run.turns[k].seen.prevTick
    ensures run.turns[j].seen.prevTick.Some?
    ensures WritesForMaintenance(run, k) <==>
              && SeesOpening(run, k, run.turns[j].seen.prevTick.value)
              && OnlyFailuresSince(run, j, k)
              && ReadyToWrite(run, k)
  {
    WritesExactlyWhen(run, j);
    WritesExactlyWhen(run, k);
    var p := run.turns[j].seen.prevTick.value;
    if SeesOpening(run, k, p) {
      ReopenedOnlyByFailure(run, j, k, p);
    }
  }

  /** A run whose start was stored is on record ever after. */
  lemma StartIsOnRecord(run: Run, j: nat, k: nat)
    requires Plausible(run) && j < k <= |run.turns|
    requires EffectAt(run, j).move.Start? && run.turns[j].seen.statusWritten
    ensures |Log(run, j)| < |Log(run, k)| && !Log(run, k)[|Log(run, j)|].status.Skipped?
  {
    OutcomesShowInTheLog(run, j);
    LogOnlyGrows(run, j + 1, k);
    RecordsAreConsistent(run, j + 1);
    RecordsAreConsistent(run, k);
    var n := |Log(run, j)|;
    assert Evolves(Log(run, j + 1)[n], Log(run, k)[n]) && Consistent(Log(run, j + 1)[n]) && Consistent(Log(run, k)[n]);
  }

  /** So if the first write's run was recorded, that run has failed by the time of the second. */
  lemma SecondWriteNeedsFailure(run: Run, j: nat, k: nat)
    requires Plausible(run) && j < k < |run.turns|
    requires WritesForMaintenance(run, j) && WritesForMaintenance(run, k)
    requires run.turns[j].seen.prevTick == run.turns[k].seen.prevTick
    ensures || !run.turns[j].seen.statusWritten
            || EffectAt(run, j).move.Misstart?
            || (|Log(run, j)| < |Log(run, k)| && Log(run, k)[|Log(run, j)|].status.Failed?)
  {
    SecondWriteExactlyWhen(run, j, k);
    RealShape(run, j);
    if run.turns[j].seen.statusWritten && EffectAt(run, j).move.Start? {
      StartIsOnRecord(run, j, k);
    }
  }

  // ---------------------------------------------------------------- memory agrees with the records

  /** Nobody but the controller changes the CR. */
  ghost predicate Untouched(run: Run) {
    forall k :: 0 <= k < |run.turns| ==> run.turns[k].outside.None?
  }

  lemma UntouchedTurn(run: Run, k: nat)
    requires Plausible(run) && Untouched(run) && k < |run.turns|
    ensures Before(true, run, k).cr == Before(false, run, k).cr == State(true, run, k).cr
    ensures EffectAt(run, k).write == LogEffect(run, k).write
    ensures State(true, run, k + 1).cr == CRAfter(State(true, run, k).cr, LogEffect(run, k).write)
  {
    TurnFacts(run, k);
    assert run.turns[k].outside.None?;
  }

  /** If a run is under way, the CR has the memory it applied. */
  ghost predicate CarriesAppliedMemory(h: seq<MaintenanceRecord>, cr: CRState) {
    LastInProgress(h) ==> h[|h| - 1].appliedMemory.Some? && cr == Memory(h[|h| - 1].appliedMemory.value)
  }

  lemma EffectMemory(spec: PolicySpec, s: Status, cr: CRState, o: Observation, e: Effect)
    requires Agreement(s) && ShapeOf(false, spec, s, cr, o, e)
    requires CarriesAppliedMemory(s.history, cr)
    requires LastInProgress(s.history) ==> KnownRun(spec, s.history[|s.history| - 1])
    ensures LastInProgress(s.history) ==> CRAfter(cr, e.write) == cr
    ensures CarriesAppliedMemory(e.status.history, CRAfter(cr, e.write))
    ensures e.move.Finish? ==>
              e.status.currentMemory.Some? && CRAfter(cr, e.write) == Memory(e.status.currentMemory.value)
  {
    UnderWayIsLast(s);
  }

  lemma MemoryStep(run: Run, k: nat)
    requires Plausible(run) && Untouched(run) && k < |run.turns|
    requires CarriesAppliedMemory(Log(run, k), State(true, run, k).cr)
    ensures CarriesAppliedMemory(Log(run, k + 1), State(true, run, k + 1).cr)
  {
    TurnFacts(run, k);
    UntouchedTurn(run, k);
    TurnShape(run, k);
    EffectMemory(run.spec, LogStatus(run, k), Before(false, run, k).cr, run.turns[k].seen, LogEffect(run, k));
  }

  /** While a run is under way the CR has the memory the run applied, lost status writes or not. */
  lemma {:induction false} MemoryAgreesWithRun(run: Run, k: nat)
    requires Plausible(run) && Untouched(run) && k <= |run.turns|
    ensures CarriesAppliedMemory(Log(run, k), State(true, run, k).cr)
  {
    if k > 0 {
      MemoryAgreesWithRun(run, k - 1);
      MemoryStep(run, k - 1);
    }
  }

  /** On completion the status reports that memory, and it is what the CR has. */
  lemma MemoryAgreesOnCompletion(run: Run, k: nat)
    requires Plausible(run) && Untouched(run) && k < |run.turns| && EffectAt(run, k).move.Finish?
    ensures |Log(run, k)| > 0
    ensures var memory := EffectAt(run, k).status.currentMemory;
            memory.Some? && memory == Newest(run, k).appliedMemory && State(true, run, k + 1).cr == Memory(memory.value)
  {
    MemoryAgreesWithRun(run, k);
    TurnFacts(run, k);
    UntouchedTurn(run, k);
    UnderWayIsLast(LogStatus(run, k));
    TurnShape(run, k);
    EffectMemory(run.spec, LogStatus(run, k), Before(false, run, k).cr, run.turns[k].seen, LogEffect(run, k));
  }
}
