/** The Zalando CR as a document: how memory is read from it and what the controller patches into it
    (internal/controller/zalando.go). */
module ZalandoPatch {
  import opened Basics
  import opened PolicyTypes
  import opened MergePatch
  import opened Sizing

  const REQUEST_PATH: seq<string> := ["spec", "resources", "requests", "memory"]
  const LIMIT_PATH: seq<string> := ["spec", "resources", "limits", "memory"]
  const CPU_REQUEST_PATH: seq<string> := ["spec", "resources", "requests", "cpu"]
  const CPU_LIMIT_PATH: seq<string> := ["spec", "resources", "limits", "cpu"]
  const PARAMETERS_PATH: seq<string> := ["spec", "postgresql", "parameters"]

  /** Quantity.Value() rounds thousandths away from zero. */
  function WholeUnits(milli: int): int {
    if milli >= 0 then (milli + 999) / 1000 else -((-milli + 999) / 1000)
  }

  /** The printed text of a whole number of units. */
  function Printed(units: int): Json {
    Amount(1000 * units)
  }

  function ReadMemory(tree: Option<Json>): CRState {
    if tree.None? then Absent
    else
      match Lookup(tree, REQUEST_PATH)
      case Some(Amount(milli)) => Memory(WholeUnits(milli))
      case Some(Text(s)) => if s == "" then NoMemory else Malformed
      case _ => NoMemory
  }

  /** What is read of a CR: nothing when there is none, no memory when there is no text or an empty one,
      the figure rounded to whole bytes away from zero, and nothing sensible for any other text. */
  lemma ReadMemoryIsExact(tree: Option<Json>)
    ensures match Lookup(tree, ["spec", "resources", "requests", "memory"])
            case Some(Amount(milli)) =>
              && ReadMemory(tree).Memory?
              && var bytes := ReadMemory(tree).bytes;
                 if milli >= 0 then 1000 * (bytes - 1) < milli <= 1000 * bytes
                 else 1000 * bytes <= milli < 1000 * (bytes + 1)
            case Some(Text(s)) => ReadMemory(tree) == if s == "" then NoMemory else Malformed
            case _ => ReadMemory(tree) == if tree == None then Absent else NoMemory
  {
    if tree.None? {
      NothingBelowNone(REQUEST_PATH);
    }
  }

  function ResourcesPatch(requests: map<string, Json>, limits: map<string, Json>): Json {
    var resources := map["requests" := Object(requests), "limits" := Object(limits)];
    Object(map["spec" := Object(map["resources" := Object(resources)])])
  }

  function BuildMemoryPatch(request: int, limit: int): Json {
    ResourcesPatch(map["memory" := Printed(request)], map["memory" := Printed(limit)])
  }

  function BuildMemoryCPUPatch(request: int, limit: int, cpuMillis: int): Json {
    ResourcesPatch(map["memory" := Printed(request), "cpu" := Amount(cpuMillis)], map["memory" := Printed(limit)])
  }

  predicate HasSpec(patch: Json) {
    patch.Object? && "spec" in patch.fields && patch.fields["spec"].Object?
  }

  function Texts(values: map<string, string>): map<string, Json> {
    map name | name in values :: Text(values[name])
  }

  /** The patch with `spec.postgresql.parameters` set; other fields of `spec.postgresql` stay. */
  function WithParameters(patch: Json, values: map<string, string>): Json
    requires HasSpec(patch)
  {
    var spec := patch.fields["spec"].fields;
    var postgresql := FieldsOf(Field(spec, "postgresql"));
    var postgresql' := postgresql["parameters" := Object(Texts(values))];
    Object(patch.fields["spec" := Object(spec["postgresql" := Object(postgresql')])])
  }

  method AddPostgresParametersPatch(patch: Json, values: map<string, string>) returns (extended: Json)
    requires HasSpec(patch)
    ensures extended == WithParameters(patch, values)
  {
    var params: map<string, Json> := map[];
    var left := values.Keys;
    while left != {}
      invariant left <= values.Keys
      invariant params.Keys == values.Keys - left
      invariant forall name :: name in params ==> params[name] == Text(values[name])
      decreases |left|
    {
      var name :| name in left;
      params := params[name := Text(values[name])];
      left := left - {name};
    }
    assert params == Texts(values);
    var spec := patch.fields["spec"].fields;
    var postgresql: map<string, Json> := map[];
    if "postgresql" in spec && spec["postgresql"].Object? {
      postgresql := spec["postgresql"].fields;
    }
    postgresql := postgresql["parameters" := Object(params)];
    spec := spec["postgresql" := Object(postgresql)];
    extended := Object(patch.fields["spec" := Object(spec)]);
  }

  /** One write the controller sends to the CR. */
  datatype Write = Write(bootstrap: bool, memory: int, cpu: Option<int>, parameters: map<string, string>)

  function PatchOf(spec: PolicySpec, write: Write): Json {
    var limit := MemoryLimit(spec, write.memory);
    var patch :=
      if write.cpu.None? then BuildMemoryPatch(write.memory, limit)
      else BuildMemoryCPUPatch(write.memory, limit, write.cpu.value);
    if |write.parameters| > 0 then WithParameters(patch, write.parameters) else patch
  }

  function RequestFields(write: Write): map<string, Json> {
    if write.cpu.None? then map["memory" := Printed(write.memory)]
    else map["memory" := Printed(write.memory), "cpu" := Amount(write.cpu.value)]
  }

  function LimitFields(spec: PolicySpec, write: Write): map<string, Json> {
    map["memory" := Printed(MemoryLimit(spec, write.memory))]
  }

  /** A document with a single `spec`, whose fields are these. */
  ghost predicate OnlySpec(patch: Json, inSpec: map<string, Json>) {
    patch.Object? && patch.fields.Keys == {"spec"} && patch.fields["spec"] == Object(inSpec)
  }

  /** The fields of `spec` that a write patches. */
  ghost predicate PatchedSpec(spec: PolicySpec, write: Write, inSpec: map<string, Json>) {
    && inSpec.Keys == {"resources"} + (if |write.parameters| > 0 then {"postgresql"} else {})
    && inSpec["resources"] ==
       Object(map["requests" := Object(RequestFields(write)), "limits" := Object(LimitFields(spec, write))])
    && (|write.parameters| > 0 ==> inSpec["postgresql"] == Object(map["parameters" := Object(Texts(write.parameters))]))
  }

  /** The shape of the built patch. */
  lemma PatchShape(spec: PolicySpec, write: Write) returns (inSpec: map<string, Json>)
    ensures OnlySpec(PatchOf(spec, write), inSpec) && PatchedSpec(spec, write, inSpec)
  {
    var requests, limits := Object(RequestFields(write)), Object(LimitFields(spec, write));
    var resources := Object(map["requests" := requests, "limits" := limits]);
    var plain := ResourcesPatch(RequestFields(write), LimitFields(spec, write));
    inSpec := map["resources" := resources];
    assert OnlySpec(plain, inSpec);
    PatchIsPlainOrExtended(spec, write);
    if |write.parameters| > 0 {
      inSpec := ParametersAreAdded(plain, resources, write.parameters);
    }
  }

  lemma PatchIsPlainOrExtended(spec: PolicySpec, write: Write)
    ensures var plain := ResourcesPatch(RequestFields(write), LimitFields(spec, write));
            && HasSpec(plain)
            && PatchOf(spec, write) == if |write.parameters| > 0 then WithParameters(plain, write.parameters) else plain
  {
  }

  lemma ParametersAreAdded(plain: Json, resources: Json, values: map<string, string>)
    returns (inSpec: map<string, Json>)
    requires OnlySpec(plain, map["resources" := resources])
    ensures OnlySpec(WithParameters(plain, values), inSpec)
    ensures inSpec.Keys == {"resources", "postgresql"} && inSpec["resources"] == resources
    ensures inSpec["postgresql"] == Object(map["parameters" := Object(Texts(values))])
  {
    assert |"postgresql"| != |"resources"|;
    var before := plain.fields["spec"].fields;
    assert "postgresql" !in before;
    inSpec := before["postgresql" := Object(map["parameters" := Object(Texts(values))])];
  }

  lemma LookupStep(fields: map<string, Json>, path: seq<string>)
    requires path != [] && path[0] in fields
    ensures Lookup(Some(Object(fields)), path) == Lookup(Some(fields[path[0]]), path[1..])
  {
  }

  lemma LookupInSpec(patch: Json, inSpec: map<string, Json>, path: seq<string>)
    requires OnlySpec(patch, inSpec)
    requires |path| > 1 && path[0] == "spec" && path[1] in inSpec
    ensures Lookup(Some(patch), path) == Lookup(Some(inSpec[path[1]]), path[2..])
  {
    LookupStep(patch.fields, path);
    LookupStep(inSpec, path[1..]);
    assert path[1..][1..] == path[2..];
  }

  lemma LookupTwo(outer: map<string, Json>, inner: map<string, Json>, first: string, second: string)
    requires first in outer && outer[first] == Object(inner) && second in inner
    ensures Lookup(Some(Object(outer)), [first, second]) == Some(inner[second])
  {
    LookupStep(outer, [first, second]);
    assert [first, second][1..] == [second];
    LookupStep(inner, [second]);
  }

  /** What the patch puts where. */
  lemma PatchContents(spec: PolicySpec, write: Write)
    ensures var patch := Some(PatchOf(spec, write));
            && Lookup(patch, REQUEST_PATH) == Some(Printed(write.memory))
            && Lookup(patch, LIMIT_PATH) == Some(Printed(MemoryLimit(spec, write.memory)))
            && (write.cpu.Some? ==> Lookup(patch, CPU_REQUEST_PATH) == Some(Amount(write.cpu.value)))
  {
    var inSpec := PatchShape(spec, write);
    ResourcesContents(PatchOf(spec, write), inSpec, RequestFields(write), LimitFields(spec, write));
    assert |"memory"| != |"cpu"|;
  }

  lemma ResourcesContents(patch: Json, inSpec: map<string, Json>, requests: map<string, Json>,
                          limits: map<string, Json>)
    requires OnlySpec(patch, inSpec) && "resources" in inSpec
    requires inSpec["resources"] == Object(map["requests" := Object(requests), "limits" := Object(limits)])
    requires "memory" in requests && "memory" in limits
    ensures Lookup(Some(patch), REQUEST_PATH) == Some(requests["memory"])
    ensures Lookup(Some(patch), LIMIT_PATH) == Some(limits["memory"])
    ensures "cpu" in requests ==> Lookup(Some(patch), CPU_REQUEST_PATH) == Some(requests["cpu"])
  {
    var resources := map["requests" := Object(requests), "limits" := Object(limits)];
    assert |"requests"| != |"limits"|;
    LookupInSpec(patch, inSpec, REQUEST_PATH);
    assert REQUEST_PATH[2..] == ["requests", "memory"];
    LookupTwo(resources, requests, "requests", "memory");
    LookupInSpec(patch, inSpec, LIMIT_PATH);
    assert LIMIT_PATH[2..] == ["limits", "memory"];
    LookupTwo(resources, limits, "limits", "memory");
    if "cpu" in requests {
      LookupInSpec(patch, inSpec, CPU_REQUEST_PATH);
      assert CPU_REQUEST_PATH[2..] == ["requests", "cpu"];
      LookupTwo(resources, requests, "requests", "cpu");
    }
  }

  lemma PrintedIsRead(tree: Json, units: int)
    requires Lookup(Some(tree), REQUEST_PATH) == Some(Printed(units))
    ensures ReadMemory(Some(tree)) == Memory(units)
  {
    assert WholeUnits(1000 * units) == units;
  }

  /** Reading memory back after any write, to any document, gives the request that was written;
      the limit and the CPU request are as asked for. */
  lemma WriteIsReadBack(spec: PolicySpec, write: Write, tree: Option<Json>)
    ensures var after := Some(Merge(tree, PatchOf(spec, write)));
            && ReadMemory(after) == Memory(write.memory)
            && Lookup(after, LIMIT_PATH) == Some(Printed(MemoryLimit(spec, write.memory)))
            && (write.cpu.Some? ==> Lookup(after, CPU_REQUEST_PATH) == Some(Amount(write.cpu.value)))
  {
    PatchContents(spec, write);
    LeavesArrive(PatchOf(spec, write), tree, write.memory, MemoryLimit(spec, write.memory), write.cpu);
  }

  lemma LeavesArrive(patch: Json, tree: Option<Json>, request: int, limit: int, cpu: Option<int>)
    requires Lookup(Some(patch), REQUEST_PATH) == Some(Printed(request))
    requires Lookup(Some(patch), LIMIT_PATH) == Some(Printed(limit))
    requires cpu.Some? ==> Lookup(Some(patch), CPU_REQUEST_PATH) == Some(Amount(cpu.value))
    ensures var after := Some(Merge(tree, patch));
            && ReadMemory(after) == Memory(request)
            && Lookup(after, LIMIT_PATH) == Some(Printed(limit))
            && (cpu.Some? ==> Lookup(after, CPU_REQUEST_PATH) == Some(Amount(cpu.value)))
  {
    MergeSets(tree, patch, REQUEST_PATH, Printed(request));
    PrintedIsRead(Merge(tree, patch), request);
    MergeSets(tree, patch, LIMIT_PATH, Printed(limit));
    if cpu.Some? {
      MergeSets(tree, patch, CPU_REQUEST_PATH, Amount(cpu.value));
    }
  }

  /** Every parameter of the write arrives. */
  lemma ParametersArrive(spec: PolicySpec, write: Write, tree: Option<Json>, name: string)
    requires name in write.parameters
    ensures Lookup(Some(Merge(tree, PatchOf(spec, write))), PARAMETERS_PATH + [name]) ==
            Some(Text(write.parameters[name]))
  {
    var patch, path := PatchOf(spec, write), PARAMETERS_PATH + [name];
    assert |write.parameters| > 0;
    var inSpec := PatchShape(spec, write);
    LookupInSpec(patch, inSpec, path);
    assert path[2..] == ["parameters", name];
    LookupTwo(map["parameters" := Object(Texts(write.parameters))], Texts(write.parameters), "parameters", name);
    MergeSets(tree, patch, path, Text(write.parameters[name]));
  }

  /** The document has the memory request of the write, its limit, its CPU request if it has one, and every
      one of its parameters. */
  ghost predicate ShownIn(tree: Option<Json>, spec: PolicySpec, write: Write) {
    && Lookup(tree, ["spec", "resources", "requests", "memory"]) == Some(Amount(1000 * write.memory))
    && Lookup(tree, ["spec", "resources", "limits", "memory"]) == Some(Amount(1000 * MemoryLimit(spec, write.memory)))
    && (write.cpu.Some? ==> Lookup(tree, ["spec", "resources", "requests", "cpu"]) == Some(Amount(write.cpu.value)))
    && forall name :: name in write.parameters ==>
         Lookup(tree, ["spec", "postgresql", "parameters", name]) == Some(Text(write.parameters[name]))
  }

  /** After a write any document shows it. */
  lemma WriteIsShown(spec: PolicySpec, write: Write, tree: Option<Json>)
    ensures ShownIn(Some(Merge(tree, PatchOf(spec, write))), spec, write)
  {
    PatchContents(spec, write);
    MergeSets(tree, PatchOf(spec, write), REQUEST_PATH, Printed(write.memory));
    WriteIsReadBack(spec, write, tree);
    forall name | name in write.parameters
      ensures Lookup(Some(Merge(tree, PatchOf(spec, write))), ["spec", "postgresql", "parameters", name]) ==
              Some(Text(write.parameters[name]))
    {
      ParametersArrive(spec, write, tree, name);
      assert PARAMETERS_PATH + [name] == ["spec", "postgresql", "parameters", name];
    }
  }

  /** The only paths a write can change: inside or above the memory request, the memory limit, the
      CPU request when the write has a CPU figure, and the parameters it lists. */
  ghost predicate WrittenPath(write: Write, path: seq<string>) {
    || path <= REQUEST_PATH || REQUEST_PATH <= path
    || path <= LIMIT_PATH || LIMIT_PATH <= path
    || (write.cpu.Some? && (path <= CPU_REQUEST_PATH || CPU_REQUEST_PATH <= path))
    || (|write.parameters| > 0 && path <= PARAMETERS_PATH)
    || exists name :: name in write.parameters && PARAMETERS_PATH + [name] <= path
  }

  lemma NamesStep(fields: map<string, Json>, path: seq<string>)
    requires path != []
    ensures Names(Object(fields), path) <==> path[0] in fields && Names(fields[path[0]], path[1..])
  {
  }

  lemma ResourcesName(requests: map<string, Json>, limits: map<string, Json>, path: seq<string>)
    requires Names(Object(map["requests" := Object(requests), "limits" := Object(limits)]), path)
    ensures |path| > 0 ==> path[0] == "requests" || path[0] == "limits"
    ensures |path| > 1 ==> path[1] in (if path[0] == "requests" then requests else limits)
  {
    assert |"requests"| != |"limits"|;
    if |path| > 1 {
      var fields := map["requests" := Object(requests), "limits" := Object(limits)];
      NamesStep(fields, path);
      NamesStep(fields[path[0]].fields, path[1..]);
    }
  }

  lemma ParametersName(values: map<string, string>, path: seq<string>)
    requires Names(Object(map["parameters" := Object(Texts(values))]), path)
    ensures |path| > 0 ==> path[0] == "parameters"
    ensures |path| > 1 ==> path[1] in values
  {
    if |path| > 1 {
      NamesStep(map["parameters" := Object(Texts(values))], path);
      NamesStep(Texts(values), path[1..]);
    }
  }

  /** A path that starts like a given one and goes on along it, or past its end. */
  lemma AlongPath(full: seq<string>, path: seq<string>)
    requires forall i :: 0 <= i < |path| && i < |full| ==> path[i] == full[i]
    ensures path <= full || full <= path
  {
  }

  lemma ResourcesPathIsWritten(write: Write, path: seq<string>)
    requires |path| > 1 && path[0] == "spec" && path[1] == "resources"
    requires |path| > 2 ==> path[2] == "requests" || path[2] == "limits"
    requires |path| > 3 ==> path[3] == "memory" || (path[2] == "requests" && path[3] == "cpu" && write.cpu.Some?)
    ensures WrittenPath(write, path)
  {
    if |path| == 2 || path[2] == "requests" {
      if |path| > 3 && path[3] == "cpu" {
        AlongPath(CPU_REQUEST_PATH, path);
      } else {
        AlongPath(REQUEST_PATH, path);
      }
    } else {
      AlongPath(LIMIT_PATH, path);
    }
  }

  lemma ParametersPathIsWritten(write: Write, path: seq<string>)
    requires |path| > 1 && path[0] == "spec" && path[1] == "postgresql" && |write.parameters| > 0
    requires |path| > 2 ==> path[2] == "parameters"
    requires |path| > 3 ==> path[3] in write.parameters
    ensures WrittenPath(write, path)
  {
    AlongPath(PARAMETERS_PATH, path);
    if |path| > 3 {
      AlongPath(PARAMETERS_PATH + [path[3]], path);
    }
  }

  lemma PatchNamesOnlyWrittenPaths(spec: PolicySpec, write: Write, path: seq<string>)
    requires Names(PatchOf(spec, write), path)
    ensures WrittenPath(write, path)
  {
    var inSpec := PatchShape(spec, write);
    PathsOfSuchAPatch(PatchOf(spec, write), inSpec, spec, write, path);
  }

  lemma PathsOfSuchAPatch(patch: Json, inSpec: map<string, Json>, spec: PolicySpec, write: Write, path: seq<string>)
    requires OnlySpec(patch, inSpec) && PatchedSpec(spec, write, inSpec)
    requires Names(patch, path)
    ensures WrittenPath(write, path)
  {
    if |path| > 0 {
      NamesStep(patch.fields, path);
    }
    if |path| > 1 {
      NamesStep(inSpec, path[1..]);
      assert path[1..][1..] == path[2..];
      if path[1] == "resources" {
        ResourcesName(RequestFields(write), LimitFields(spec, write), path[2..]);
        ResourcesPathIsWritten(write, path);
      } else {
        ParametersName(write.parameters, path[2..]);
        ParametersPathIsWritten(write, path);
      }
    } else {
      AlongPath(REQUEST_PATH, path);
    }
  }

  /** A write leaves everything else in the document as it was: an existing CPU limit, other
      fields of spec.postgresql, other parameters, and so on. */
  lemma WriteLeavesTheRest(spec: PolicySpec, write: Write, tree: Option<Json>, path: seq<string>)
    requires !WrittenPath(write, path)
    ensures Lookup(Some(Merge(tree, PatchOf(spec, write))), path) == Lookup(tree, path)
  {
    if Names(PatchOf(spec, write), path) {
      PatchNamesOnlyWrittenPaths(spec, write, path);
    }
    MergeFrame(tree, PatchOf(spec, write), path);
  }

  /** The controller has no CPU limits of its own: it never sets, changes or removes one. */
  lemma CpuLimitIsNeverTouched(spec: PolicySpec, write: Write, tree: Option<Json>)
    ensures Lookup(Some(Merge(tree, PatchOf(spec, write))), CPU_LIMIT_PATH) == Lookup(tree, CPU_LIMIT_PATH)
  {
    assert CPU_LIMIT_PATH[3] != LIMIT_PATH[3] && CPU_LIMIT_PATH[2] != CPU_REQUEST_PATH[2]
        && CPU_LIMIT_PATH[1] != PARAMETERS_PATH[1] by {
      assert |"cpu"| != |"memory"| && |"limits"| != |"requests"| && |"resources"| != |"postgresql"|;
    }
    WriteLeavesTheRest(spec, write, tree, CPU_LIMIT_PATH);
  }

  /** Sending the same write again changes nothing. */
  lemma WriteIsIdempotent(spec: PolicySpec, write: Write, tree: Option<Json>)
    ensures var after := Merge(tree, PatchOf(spec, write));
            Merge(Some(after), PatchOf(spec, write)) == after
  {
    MergeIdempotent(tree, PatchOf(spec, write));
  }
}
