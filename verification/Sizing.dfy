/** Memory and CPU arithmetic: the VPA recommendation (internal/controller/vpa.go), the change gates
    and limits (internal/controller/zalando.go), and the CPU figures of the reconciler. */
module Sizing {
  import opened Basics
  import opened PolicyTypes

  const GI := 1024 * 1024 * 1024
  const DEFAULT_ABSOLUTE_THRESHOLD := 5 * GI
  const DEFAULT_RELATIVE_THRESHOLD := 0.10

  // ---------------------------------------------------------------- recommendation

  datatype Recommendation = Recommendation(memory: int, cpu: Option<int>)

  /** Unavailable is the typed RecommendationError; ReadFailed is any other error. */
  datatype RecommendationRead =
    | Recommended(rec: Recommendation)
    | Unavailable(reason: Reason, message: Text)
    | ReadFailed

  function Clamp(q: int, min: int, max: int): int {
    if q < min then min else if q > max then max else q
  }

  function ApplyMemoryBuffer(q: int, bufferPercent: real, max: int): int {
    if bufferPercent <= 0.0 then q
    else
      var buffered := Truncate((q as real) * (1.0 + bufferPercent / 100.0));
      if buffered > max then max else buffered
  }

  function MemoryTarget(spec: PolicySpec, recommended: int): int {
    ApplyMemoryBuffer(Clamp(recommended, spec.memoryMin, spec.memoryMax), spec.memoryBuffer, spec.memoryMax)
  }

  function ContainerName(spec: PolicySpec): string {
    if spec.vpaContainerName == "" then "postgres" else spec.vpaContainerName
  }

  /** Only the first entry of that name counts, even when it has no memory figure. */
  function ExtractNamed(containers: seq<ContainerTarget>, name: string): RecommendationRead {
    if containers == [] then Unavailable(NoRecommendationYet, NoContainerFigure)
    else if containers[0].name != name then ExtractNamed(containers[1..], name)
    else if containers[0].memory.None? then Unavailable(NoRecommendationYet, NoMemoryFigure)
    else Recommended(Recommendation(containers[0].memory.value, containers[0].cpu))
  }

  function Extract(containers: seq<ContainerTarget>, name: string): RecommendationRead {
    if containers == [] then Unavailable(NoRecommendationYet, NothingYet) else ExtractNamed(containers, name)
  }

  function ReadRecommendation(spec: PolicySpec, vpa: VpaRead): RecommendationRead {
    match vpa
    case VpaMissing => Unavailable(VPANotFound, Standard)
    case VpaUnreadable => ReadFailed
    case VpaFound(containers) =>
      match Extract(containers, ContainerName(spec))
      case Recommended(rec) => Recommended(rec.(memory := MemoryTarget(spec, rec.memory)))
      case other => other
  }

  method ExtractContainerRecommendation(containers: seq<ContainerTarget>,
                                        name: string) returns (read: RecommendationRead)
    ensures read == Extract(containers, name)
  {
    if |containers| == 0 {
      return Unavailable(NoRecommendationYet, NothingYet);
    }
    assert containers[0..] == containers;
    for i := 0 to |containers|
      invariant ExtractNamed(containers, name) == ExtractNamed(containers[i..], name)
    {
      var c := containers[i];
      assert containers[i..][1..] == containers[i + 1..];
      if c.name != name {
        continue;
      }
      if c.memory.None? {
        return Unavailable(NoRecommendationYet, NoMemoryFigure);
      }
      return Recommended(Recommendation(c.memory.value, c.cpu));
    }
    return Unavailable(NoRecommendationYet, NoContainerFigure);
  }

  /** Extraction picks the first entry of the wanted name, and nothing else; when there is no figure
      the message says what is missing. */
  lemma ExtractFindsFirst(containers: seq<ContainerTarget>, name: string)
    ensures var read := Extract(containers, name);
            && (read.Recommended? <==>
                  exists i :: 0 <= i < |containers| && FirstOf(containers, name, i) && containers[i].memory.Some?)
            && (forall i :: 0 <= i < |containers| && FirstOf(containers, name, i) && containers[i].memory.Some? ==>
                  read == Recommended(Recommendation(containers[i].memory.value, containers[i].cpu)))
            && (read == Unavailable(NoRecommendationYet, NoMemoryFigure) <==>
                  exists i :: 0 <= i < |containers| && FirstOf(containers, name, i) && containers[i].memory.None?)
            && (read == Unavailable(NoRecommendationYet, NoContainerFigure) <==>
                  containers != [] && forall i :: 0 <= i < |containers| ==> containers[i].name != name)
            && (read == Unavailable(NoRecommendationYet, NothingYet) <==> containers == [])
  {
    if containers != [] {
      var i := FindFirst(containers, name);
      if i < |containers| {
        assert FirstOf(containers, name, i);
      }
    }
  }

  /** Where the first entry of that name is, or the end of the list, and what extraction makes of it. */
  lemma {:induction false} FindFirst(containers: seq<ContainerTarget>, name: string) returns (i: nat)
    ensures i <= |containers| && forall j :: 0 <= j < i ==> containers[j].name != name
    ensures i == |containers| ==> ExtractNamed(containers, name) == Unavailable(NoRecommendationYet, NoContainerFigure)
    ensures i < |containers| ==>
              && containers[i].name == name
              && ExtractNamed(containers, name) ==
                 if containers[i].memory.None? then Unavailable(NoRecommendationYet, NoMemoryFigure)
                 else Recommended(Recommendation(containers[i].memory.value, containers[i].cpu))
  {
    if containers == [] || containers[0].name == name {
      i := 0;
    } else {
      var rest := containers[1..];
      var n := FindFirst(rest, name);
      i := n + 1;
      forall j | 0 <= j < i ensures containers[j].name != name {
        if j > 0 { assert rest[j - 1] == containers[j]; }
      }
    }
  }

  ghost predicate FirstOf(containers: seq<ContainerTarget>, name: string, i: int)
    requires 0 <= i < |containers|
  {
    containers[i].name == name && forall j :: 0 <= j < i ==> containers[j].name != name
  }

  /** What is read of a VPA: the first entry of the container the policy names, `postgres` when it names
      none, decides, with its memory sized and its CPU as it is; the message says what is missing. */
  lemma ReadIsExact(spec: PolicySpec, vpa: VpaRead)
    ensures var name := if spec.vpaContainerName == "" then "postgres" else spec.vpaContainerName;
            match vpa
            case VpaMissing => ReadRecommendation(spec, vpa) == Unavailable(VPANotFound, Standard)
            case VpaUnreadable => ReadRecommendation(spec, vpa) == ReadFailed
            case VpaFound(containers) => ReadsFirst(spec, containers, name, ReadRecommendation(spec, vpa))
  {
    if vpa.VpaFound? {
      var name := if spec.vpaContainerName == "" then "postgres" else spec.vpaContainerName;
      ExtractFindsFirst(vpa.containers, name);
      if vpa.containers != [] {
        var i := FindFirst(vpa.containers, name);
      }
    }
  }

  ghost predicate ReadsFirst(spec: PolicySpec, containers: seq<ContainerTarget>, name: string,
                             read: RecommendationRead) {
    && (containers == [] ==> read == Unavailable(NoRecommendationYet, NothingYet))
    && (containers != [] && (forall i :: 0 <= i < |containers| ==> containers[i].name != name) ==>
          read == Unavailable(NoRecommendationYet, NoContainerFigure))
    && (forall i :: 0 <= i < |containers| && FirstOf(containers, name, i) ==>
          read == match containers[i].memory
                  case None => Unavailable(NoRecommendationYet, NoMemoryFigure)
                  case Some(bytes) => Recommended(Recommendation(MemoryTarget(spec, bytes), containers[i].cpu)))
  }

  lemma TruncateMonotone(x: real, y: real)
    requires x <= y
    ensures Truncate(x) <= Truncate(y)
  {
  }

  lemma TruncateScaled(q: int, factor: real)
    requires q >= 0 && factor >= 1.0
    ensures Truncate((q as real) * factor) >= q
  {
    assert (q as real) * factor >= (q as real) * 1.0;
    TruncateMonotone(q as real, (q as real) * factor);
  }

  lemma BufferKeepsBounds(q: int, bufferPercent: real, min: int, max: int)
    requires 0 <= min <= q <= max
    ensures q <= ApplyMemoryBuffer(q, bufferPercent, max) <= max
  {
    if bufferPercent > 0.0 {
      TruncateScaled(q, 1.0 + bufferPercent / 100.0);
    }
  }

  lemma ProductMonotone(x: real, x': real, f: real, f': real)
    requires 0.0 <= x <= x' && 0.0 <= f <= f'
    ensures x * f <= x' * f'
  {
    assert (x' - x) * f >= 0.0;
    assert x' * (f' - f) >= 0.0;
  }

  lemma BufferMonotone(q: int, q': int, percent: real, percent': real, max: int)
    requires 0 <= q <= q' <= max && percent <= percent'
    ensures ApplyMemoryBuffer(q, percent, max) <= ApplyMemoryBuffer(q', percent', max)
  {
    if percent > 0.0 {
      var f, f' := 1.0 + percent / 100.0, 1.0 + percent' / 100.0;
      ProductMonotone(q as real, q' as real, f, f');
      TruncateMonotone((q as real) * f, (q' as real) * f');
    } else {
      BufferKeepsBounds(q', percent', 0, max);
    }
  }

  /** `c` is `q` cut to the range: a figure below memoryMin becomes memoryMin, one above memoryMax that is
      not below memoryMin becomes memoryMax, and any other stays. */
  ghost predicate IsCut(spec: PolicySpec, q: int, c: int) {
    && (q < spec.memoryMin ==> c == spec.memoryMin)
    && (spec.memoryMin <= q && spec.memoryMax < q ==> c == spec.memoryMax)
    && (spec.memoryMin <= q <= spec.memoryMax ==> c == q)
  }

  /** `n` is `x` without its fraction. */
  ghost predicate IsWhole(x: real, n: int) {
    if x >= 0.0 then (n as real) <= x < (n as real) + 1.0 else (n as real) - 1.0 < x <= (n as real)
  }

  /** A buffer cannot take the target above memoryMax. */
  ghost function Capped(spec: PolicySpec, n: int): int {
    if spec.memoryBuffer > 0.0 && n > spec.memoryMax then spec.memoryMax else n
  }

  /** The target is the recommendation cut to the range and, when there is a buffer, raised by that
      percentage, without the fraction, but not above memoryMax. */
  ghost predicate IsTarget(spec: PolicySpec, recommended: int, target: int) {
    exists c, n :: IsCut(spec, recommended, c) && IsBuffered(spec, c, n) && target == Capped(spec, n)
  }

  ghost predicate IsBuffered(spec: PolicySpec, c: int, n: int) {
    if spec.memoryBuffer > 0.0 then IsWhole((c as real) * (1.0 + spec.memoryBuffer / 100.0), n) else n == c
  }

  lemma TruncateIsWhole(x: real)
    ensures IsWhole(x, Truncate(x))
    ensures forall n :: IsWhole(x, n) ==> n == Truncate(x)
  {
  }

  lemma CutIsClamp(spec: PolicySpec, recommended: int, c: int)
    ensures IsCut(spec, recommended, c) <==> c == Clamp(recommended, spec.memoryMin, spec.memoryMax)
  {
  }

  ghost function Buffered(spec: PolicySpec, c: int): int {
    if spec.memoryBuffer > 0.0 then Truncate((c as real) * (1.0 + spec.memoryBuffer / 100.0)) else c
  }

  lemma BufferedIsTruncated(spec: PolicySpec, c: int)
    ensures forall n :: IsBuffered(spec, c, n) <==> n == Buffered(spec, c)
  {
    TruncateIsWhole((c as real) * (1.0 + spec.memoryBuffer / 100.0));
  }

  lemma BufferIsCapped(spec: PolicySpec, c: int)
    ensures ApplyMemoryBuffer(c, spec.memoryBuffer, spec.memoryMax) == Capped(spec, Buffered(spec, c))
  {
    var x := (c as real) * (1.0 + spec.memoryBuffer / 100.0);
    if spec.memoryBuffer > 0.0 {
      assert Buffered(spec, c) == Truncate(x);
    }
  }

  /** There is one such target, and it is the one computed. */
  lemma TargetIsExact(spec: PolicySpec, recommended: int, target: int)
    ensures IsTarget(spec, recommended, target) <==> target == MemoryTarget(spec, recommended)
  {
    var c := Clamp(recommended, spec.memoryMin, spec.memoryMax);
    forall d ensures IsCut(spec, recommended, d) <==> d == c {
      CutIsClamp(spec, recommended, d);
    }
    BufferedIsTruncated(spec, c);
    BufferIsCapped(spec, c);
    assert IsCut(spec, recommended, c) && IsBuffered(spec, c, Buffered(spec, c));
  }

  /** The target lies in [memoryMin, memoryMax] exactly when that range is not empty; the buffer
      never takes anything off the clamped recommendation. */
  lemma TargetInRange(spec: PolicySpec, recommended: int)
    requires 0 <= spec.memoryMin
    ensures spec.memoryMin <= MemoryTarget(spec, recommended) <= spec.memoryMax <==> spec.memoryMin <= spec.memoryMax
    ensures spec.memoryMin <= spec.memoryMax ==>
              Clamp(recommended, spec.memoryMin, spec.memoryMax) <= MemoryTarget(spec, recommended)
  {
    if spec.memoryMin <= spec.memoryMax {
      var clamped := Clamp(recommended, spec.memoryMin, spec.memoryMax);
      BufferKeepsBounds(clamped, spec.memoryBuffer, spec.memoryMin, spec.memoryMax);
    }
  }

  /** With an empty range the target jumps from memoryMin down to memoryMax once the recommendation
      reaches memoryMin, and is always memoryMax when there is a buffer. */
  lemma TargetInEmptyRange(spec: PolicySpec, recommended: int)
    requires 0 <= spec.memoryMax < spec.memoryMin
    ensures MemoryTarget(spec, recommended) ==
            if spec.memoryBuffer <= 0.0 && recommended < spec.memoryMin then spec.memoryMin else spec.memoryMax
  {
    if spec.memoryBuffer > 0.0 {
      TruncateScaled(Clamp(recommended, spec.memoryMin, spec.memoryMax), 1.0 + spec.memoryBuffer / 100.0);
    }
  }

  /** Raising the recommendation, or the buffer, takes an unbuffered target from memoryMin to memoryMax,
      which is less. */
  ghost predicate JumpsDown(spec: PolicySpec, recommended: int, recommended': int, memoryBuffer': real) {
    && spec.memoryMax < spec.memoryMin
    && spec.memoryBuffer <= 0.0 && recommended < spec.memoryMin
    && (memoryBuffer' > 0.0 || recommended' >= spec.memoryMin)
  }

  /** More recommended memory, or a larger buffer, lowers the target exactly in that case. */
  lemma TargetMonotone(spec: PolicySpec, spec': PolicySpec, recommended: int, recommended': int)
    requires 0 <= spec.memoryMin && 0 <= spec.memoryMax
    requires spec'.memoryMin == spec.memoryMin && spec'.memoryMax == spec.memoryMax
    requires recommended <= recommended' && spec.memoryBuffer <= spec'.memoryBuffer
    ensures MemoryTarget(spec, recommended) <= MemoryTarget(spec', recommended') <==>
              !JumpsDown(spec, recommended, recommended', spec'.memoryBuffer)
  {
    if spec.memoryMin <= spec.memoryMax {
      var q := Clamp(recommended, spec.memoryMin, spec.memoryMax);
      var q' := Clamp(recommended', spec.memoryMin, spec.memoryMax);
      BufferMonotone(q, q', spec.memoryBuffer, spec'.memoryBuffer, spec.memoryMax);
    } else {
      TargetInEmptyRange(spec, recommended);
      TargetInEmptyRange(spec', recommended');
    }
  }

  // ---------------------------------------------------------------- change gates

  datatype GateResult = Open | Blocked(reason: Reason)

  function AbsoluteThreshold(gates: Option<SafetyGates>): int {
    if gates.Some? && gates.value.absoluteThreshold.Some? then gates.value.absoluteThreshold.value
    else DEFAULT_ABSOLUTE_THRESHOLD
  }

  function RelativeThreshold(gates: Option<SafetyGates>): real {
    if gates.Some? && gates.value.relativeThreshold.Some? then (gates.value.relativeThreshold.value as real) / 100.0
    else DEFAULT_RELATIVE_THRESHOLD
  }

  function EvaluateChangeGates(current: int, target: int, gates: Option<SafetyGates>): GateResult {
    if Abs(target - current) <= AbsoluteThreshold(gates) then Blocked(ChangeGateAbsoluteDiff)
    else if current == 0 then Open
    else if (Abs(target - current) as real) / (current as real) <= RelativeThreshold(gates) then
      Blocked(ChangeGateRelativeDiff)
    else Open
  }

  /** A change must be larger than the policy's own absolute threshold, or than 5Gi when it has none, */
  ghost function LeastChange(gates: Option<SafetyGates>): int {
    match gates
    case Some(SafetyGates(_, Some(bytes), _)) => bytes
    case _ => 5 * 1024 * 1024 * 1024
  }

  /** and than the policy's own percentage of the current memory, or than 10 percent when it has none. */
  ghost function LeastPercent(gates: Option<SafetyGates>): int {
    match gates
    case Some(SafetyGates(_, _, Some(percent))) => percent
    case _ => 10
  }

  lemma RatioAtMost(diff: real, base: real, bound: real)
    requires base > 0.0
    ensures diff / base <= bound <==> diff <= bound * base
  {
    var ratio := diff / base;
    assert ratio * base == diff;
    if ratio <= bound {
      assert (bound - ratio) * base >= 0.0;
    } else {
      assert (ratio - bound) * base > 0.0;
    }
  }

  lemma PercentAtMost(diff: int, base: int, percent: int)
    requires base != 0
    ensures (diff as real) / (base as real) <= (percent as real) / 100.0 <==>
              if base > 0 then 100 * diff <= percent * base else 100 * diff >= percent * base
  {
    if base > 0 {
      RatioAtMost(diff as real, base as real, (percent as real) / 100.0);
    } else {
      assert (diff as real) / (base as real) == ((-diff) as real) / ((-base) as real);
      RatioAtMost((-diff) as real, (-base) as real, (percent as real) / 100.0);
    }
    assert ((percent * base) as real) == (percent as real) * (base as real);
    assert (percent as real) / 100.0 * (base as real) == (percent as real) * (base as real) / 100.0;
  }

  /** The change is more than the least percentage of the current memory. (A negative figure, which no CR
      has, turns the comparison round.) */
  ghost predicate PercentExceeded(current: int, change: int, percent: int) {
    if current >= 0 then current == 0 || 100 * change > percent * current else 100 * change < percent * current
  }

  /** The gates in whole numbers: the change must exceed the absolute threshold and, unless there is
      nothing to compare with, the percentage of the current memory. The reason names the first threshold
      that is missed. */
  lemma GatesOpenExactly(current: int, target: int, gates: Option<SafetyGates>)
    ensures var gate := EvaluateChangeGates(current, target, gates);
            var change := if target < current then current - target else target - current;
            && (gate == Open <==> change > LeastChange(gates) && PercentExceeded(current, change, LeastPercent(gates)))
            && (gate == Blocked(ChangeGateAbsoluteDiff) <==> change <= LeastChange(gates))
            && (gate == Blocked(ChangeGateRelativeDiff) <==>
                  change > LeastChange(gates) && !PercentExceeded(current, change, LeastPercent(gates)))
  {
    if current != 0 {
      PercentAtMost(Abs(target - current), current, LeastPercent(gates));
    }
  }

  // ---------------------------------------------------------------- limits and CPU

  function MemoryLimit(spec: PolicySpec, request: int): int {
    Truncate((request as real) * (if spec.overcommit < 1.0 then 1.0 else spec.overcommit))
  }

  /** The limit is the overcommitted request rounded down, and never below the request. */
  lemma LimitCoversRequest(spec: PolicySpec, request: int)
    requires request >= 0
    ensures MemoryLimit(spec, request) >= request
    ensures spec.overcommit <= 1.0 ==> MemoryLimit(spec, request) == request
    ensures spec.overcommit >= 1.0 ==>
              var limit := MemoryLimit(spec, request) as real;
              limit <= (request as real) * spec.overcommit < limit + 1.0
  {
    TruncateScaled(request, if spec.overcommit < 1.0 then 1.0 else spec.overcommit);
  }

  /** CPU of a bootstrap, in thousandths of a core: 100 for each Gi of memory, at least 100. */
  function BootstrapCpu(memory: int): int {
    var millis := Truncate((memory as real) / (GI as real) * 100.0);
    if millis < 100 then 100 else millis
  }

  function CpuCores(cpu: Option<int>): int {
    if cpu.None? then 0
    else
      var cores := GoDiv(cpu.value, 1000);
      if GoMod(cpu.value, 1000) > 0 then cores + 1 else cores
  }

  /** Whole cores are the ceiling of the thousandths, for negative figures too. */
  lemma CpuCoresIsCeiling(millis: int)
    ensures 1000 * (CpuCores(Some(millis)) - 1) < millis <= 1000 * CpuCores(Some(millis))
    ensures CpuCores(None) == 0
  {
  }

  /** The CPU of a bootstrap is a tenth of a core below one Gi, and from there on the 10:1 ratio rounded down. */
  lemma BootstrapCpuRatio(memory: int)
    ensures memory < 1024 * 1024 * 1024 ==> BootstrapCpu(memory) == 100
    ensures memory >= 1024 * 1024 * 1024 ==>
              var cpu := BootstrapCpu(memory);
              cpu * (1024 * 1024 * 1024) <= 100 * memory < (cpu + 1) * (1024 * 1024 * 1024)
  {
    var x := (memory as real) / (GI as real) * 100.0;
    assert x * (GI as real) == 100.0 * (memory as real);
    if memory >= GI {
      assert x >= 100.0;
      var f := Truncate(x);
      assert f >= 100 && (f as real) <= x < (f as real) + 1.0;
      assert (f as real) * (GI as real) <= x * (GI as real) < ((f as real) + 1.0) * (GI as real);
      assert ((f * GI) as real) == (f as real) * (GI as real);
      assert (((f + 1) * GI) as real) == ((f as real) + 1.0) * (GI as real);
      assert ((100 * memory) as real) == 100.0 * (memory as real);
    } else {
      assert x < 100.0;
    }
  }
}
