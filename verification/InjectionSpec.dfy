/** What auto-instrumentation makes of a container's environment, as functions of the list of variables. */
module InjectionSpec {
  import opened Env
  import opened Options
  import opened ResourceAttributes
  import Text

  const SERVICE_NAME := "OTEL_SERVICE_NAME"
  const ENDPOINT := "OTEL_EXPORTER_OTLP_ENDPOINT"
  const ATTRIBUTES := "OTEL_RESOURCE_ATTRIBUTES"
  const PROPAGATORS := "OTEL_PROPAGATORS"
  const SAMPLER := "OTEL_TRACES_SAMPLER"
  const SAMPLER_ARG := "OTEL_TRACES_SAMPLER_ARG"
  const POD_NAME_VAR := "OTEL_RESOURCE_ATTRIBUTES_POD_NAME"
  const POD_UID_VAR := "OTEL_RESOURCE_ATTRIBUTES_POD_UID"
  const NODE_NAME_VAR := "OTEL_RESOURCE_ATTRIBUTES_NODE_NAME"

  /** The variables that take their value from the pod: the only ones added without a look at what is there. */
  const HELPERS := {POD_NAME_VAR, POD_UID_VAR, NODE_NAME_VAR}

  const JAVA_TOOL_OPTIONS := "JAVA_TOOL_OPTIONS"
  const NODE_OPTIONS := "NODE_OPTIONS"
  const PYTHONPATH := "PYTHONPATH"
  const STARTUP_HOOKS := "DOTNET_STARTUP_HOOKS"
  const ADDITIONAL_DEPS := "DOTNET_ADDITIONAL_DEPS"
  const SHARED_STORE := "DOTNET_SHARED_STORE"
  const AUTO_HOME := "OTEL_DOTNET_AUTO_HOME"
  const TARGET_EXE := "OTEL_GO_AUTO_TARGET_EXE"

  // ------------------------------------------------------------------ the variables of a language

  /** A variable a language sets: kept if it is there, or else extended on both sides if it is there. */
  datatype Own =
    | Fixed(name: string, value: string)
    | Extended(name: string, value: string, before: string, after: string)

  /** Instrumentations that edit the chosen container. Two of them set no variable of their own. */
  datatype Language = Java | NodeJS | Python | DotNet | ApacheHttpd | Sdk

  const JVM := " -javaagent:/otel-auto-instrumentation/javaagent.jar"
  const REQUIRE := " --require /otel-auto-instrumentation/autoinstrumentation.js"
  const PREFIX := "/otel-auto-instrumentation/opentelemetry/instrumentation/auto_instrumentation"
  const ROOT := "/otel-auto-instrumentation"

  function Listed(name: string, path: string): Own {
    Extended(name, path, "", ":" + path)
  }

  const JAVA_OWN := Extended(JAVA_TOOL_OPTIONS, JVM, "", JVM)
  const NODE_OWN := Extended(NODE_OPTIONS, REQUIRE, "", REQUIRE)
  const PYTHON_OWN := Extended(PYTHONPATH, PREFIX + ":" + ROOT, PREFIX + ":", ":" + ROOT)
  const TRACES_EXPORTER := Fixed("OTEL_TRACES_EXPORTER", "otlp")
  const TRACES_PROTOCOL := Fixed("OTEL_EXPORTER_OTLP_TRACES_PROTOCOL", "http/protobuf")
  const METRICS_EXPORTER := Fixed("OTEL_METRICS_EXPORTER", "otlp")
  const METRICS_PROTOCOL := Fixed("OTEL_EXPORTER_OTLP_METRICS_PROTOCOL", "http/protobuf")
  const PROFILING := Fixed("CORECLR_ENABLE_PROFILING", "1")
  const PROFILER := Fixed("CORECLR_PROFILER", "{918728DD-259F-4A6A-AC2B-B85E1B658318}")
  const PROFILER_PATH :=
    Fixed("CORECLR_PROFILER_PATH", "/otel-auto-instrumentation/linux-x64/OpenTelemetry.AutoInstrumentation.Native.so")
  const HOOKS_OWN :=
    Listed(STARTUP_HOOKS, "/otel-auto-instrumentation/net/OpenTelemetry.AutoInstrumentation.StartupHook.dll")
  const DEPS_OWN := Listed(ADDITIONAL_DEPS, "/otel-auto-instrumentation/AdditionalDeps")
  const HOME_OWN := Fixed(AUTO_HOME, ROOT)
  const STORE_OWN := Listed(SHARED_STORE, "/otel-auto-instrumentation/store")

  function Owns(l: Language): seq<Own> {
    match l
    case Java => [JAVA_OWN]
    case NodeJS => [NODE_OWN]
    case Python => [PYTHON_OWN, TRACES_EXPORTER, TRACES_PROTOCOL, METRICS_EXPORTER, METRICS_PROTOCOL]
    case DotNet => [PROFILING, PROFILER, PROFILER_PATH, HOOKS_OWN, DEPS_OWN, HOME_OWN, STORE_OWN]
    case ApacheHttpd => []
    case Sdk => []
  }

  /** The variables a container must not take from elsewhere. */
  function Validated(l: Language): seq<string> {
    match l
    case Java => [JAVA_TOOL_OPTIONS]
    case NodeJS => [NODE_OPTIONS]
    case Python => [PYTHONPATH]
    case DotNet => [STARTUP_HOOKS, ADDITIONAL_DEPS, SHARED_STORE]
    case ApacheHttpd => []
    case Sdk => []
  }

  ghost predicate HasPlain(env: Vars, n: string) {
    Lookup(env, n).Some? ==> Lookup(env, n).value.valueFrom.None?
  }

  ghost predicate AllPlain(env: Vars, names: seq<string>) {
    forall i :: 0 <= i < |names| ==> HasPlain(env, names[i])
  }

  ghost predicate Accepts(l: Language, env: Vars, vars: Vars) {
    AllPlain(env, Validated(l)) && (l.DotNet? ==> !Has(env, AUTO_HOME) && !Has(vars, AUTO_HOME))
  }

  ghost function Applied(env: Vars, o: Own): Vars {
    if !Has(env, o.name) then env + [Var(o.name, o.value)]
    else if o.Fixed? then env
    else Revalued(env, o.name, o.before + Lookup(env, o.name).value.value + o.after)
  }

  ghost function AppliedAll(env: Vars, os: seq<Own>): Vars {
    if os == [] then env else Applied(AppliedAll(env, os[..|os| - 1]), os[|os| - 1])
  }

  lemma AppliedOneMore(env: Vars, os: seq<Own>, o: Own)
    ensures AppliedAll(env, os + [o]) == Applied(AppliedAll(env, os), o)
  {
    assert (os + [o])[..|os|] == os;
  }

  // ------------------------------------------------------------------ the common configuration

  datatype Instrumentation = Instrumentation(
    languageEnv: Vars, commonEnv: Vars, endpoint: string, propagators: seq<string>, samplerType: string,
    samplerArgument: string, addUid: bool, attributes: Attributes, pod: PodInfo)

  /** A missing attribute reads as the empty text. */
  function Get(res: Attributes, k: string): string {
    if k in res then res[k] else ""
  }

  function ServiceName(res: Attributes, container: string): string {
    if Get(res, "k8s.deployment.name") != "" then Get(res, "k8s.deployment.name")
    else if Get(res, "k8s.statefulset.name") != "" then Get(res, "k8s.statefulset.name")
    else if Get(res, "k8s.job.name") != "" then Get(res, "k8s.job.name")
    else if Get(res, "k8s.cronjob.name") != "" then Get(res, "k8s.cronjob.name")
    else if Get(res, POD_NAME) != "" then Get(res, POD_NAME)
    else container
  }

  /** The attributes the container's own text defines. */
  ghost function Existing(env: Vars): set<string> {
    if Has(env, ATTRIBUTES) then Keys(Lookup(env, ATTRIBUTES).value.value) else {}
  }

  ghost function Resources(env: Vars, i: Instrumentation): Attributes {
    Created(Existing(env), i.attributes, K8sResources(i.pod))
  }

  /** A reference to a variable in the text of another one. */
  function Ref(name: string): string {
    "$(" + name + ")"
  }

  function FromField(name: string, field: string): EnvVar {
    EnvVar(name, "", Some(field))
  }

  /** The attributes that are not known yet are read from the pod, through one variable each. */
  function Completed(res: Attributes, addUid: bool): Attributes {
    var a := if Get(res, POD_NAME) == "" then res[POD_NAME := Ref(POD_NAME_VAR)] else res;
    var b := if addUid && Get(a, POD_UID) == "" then a[POD_UID := Ref(POD_UID_VAR)] else a;
    if Get(b, NODE_NAME) == "" then b[NODE_NAME := Ref(NODE_NAME_VAR)] else b
  }

  function PodNameHelper(res: Attributes): Vars {
    if Get(res, POD_NAME) == "" then [FromField(POD_NAME_VAR, "metadata.name")] else []
  }

  function PodUidHelper(res: Attributes, addUid: bool): Vars {
    if addUid && Get(res, POD_UID) == "" then [FromField(POD_UID_VAR, "metadata.uid")] else []
  }

  function NodeNameHelper(res: Attributes): Vars {
    if Get(res, NODE_NAME) == "" then [FromField(NODE_NAME_VAR, "spec.nodeName")] else []
  }

  function Helpers(res: Attributes, addUid: bool): Vars {
    PodNameHelper(res) + PodUidHelper(res, addUid) + NodeNameHelper(res)
  }

  function Service(res: Attributes, i: Instrumentation): Vars {
    [Var(SERVICE_NAME, ServiceName(res, i.pod.container))]
  }

  function Export(i: Instrumentation): Vars {
    if i.endpoint != "" then [Var(ENDPOINT, i.endpoint)] else []
  }

  function Propagation(i: Instrumentation): Vars {
    if i.propagators != [] then [Var(PROPAGATORS, Text.Join(i.propagators, ','))] else []
  }

  /** The sampler and its argument come together, and only where neither is set. */
  ghost function Sampling(env: Vars, i: Instrumentation): Vars {
    if i.samplerType == "" || Has(env, SAMPLER) || Has(env, SAMPLER_ARG) then []
    else [Var(SAMPLER, i.samplerType)] + if i.samplerArgument != "" then [Var(SAMPLER_ARG, i.samplerArgument)] else []
  }

  ghost function WithAttributes(env: Vars, text: string): Vars {
    if Has(env, ATTRIBUTES) then Revalued(env, ATTRIBUTES, Joined(Lookup(env, ATTRIBUTES).value.value, text))
    else env + [Var(ATTRIBUTES, text)]
  }

  ghost function Described(env: Vars, res: Attributes, i: Instrumentation): Vars {
    EnsuredAll(EnsuredAll(env, Service(res, i)), Export(i)) + Helpers(res, i.addUid)
  }

  ghost function Sampled(env: Vars, i: Instrumentation): Vars {
    var e := EnsuredAll(env, Propagation(i));
    e + Sampling(e, i)
  }

  /** The common configuration, given the attributes that were found for the container that is observed. */
  ghost function Configured(env: Vars, res: Attributes, i: Instrumentation): Vars {
    MovedLast(Sampled(WithAttributes(Described(env, res, i), Printed(Completed(res, i.addUid))), i), ATTRIBUTES)
  }

  // ------------------------------------------------------------------ whole injections

  /** An instrumentation without a language has no variables of its own. */
  function LanguageVars(l: Language, i: Instrumentation): Vars {
    if l.Sdk? then [] else i.languageEnv
  }

  /** The environment after the language's part and the common variables. */
  ghost function Merged(env: Vars, l: Language, i: Instrumentation): Vars {
    EnsuredAll(AppliedAll(EnsuredAll(env, LanguageVars(l, i)), Owns(l)), i.commonEnv)
  }

  ghost function Injected(env: Vars, l: Language, i: Instrumentation): Vars {
    var m := Merged(env, l, i);
    if Accepts(l, env, LanguageVars(l, i)) then Configured(m, Resources(m, i), i) else env
  }

  datatype Request = Request(language: Language, inst: Instrumentation)

  ghost function InjectedAll(env: Vars, rs: seq<Request>): Vars {
    if rs == [] then env
    else
      var r := rs[|rs| - 1];
      Injected(InjectedAll(env, rs[..|rs| - 1]), r.language, r.inst)
  }

  lemma InjectedOneMore(env: Vars, rs: seq<Request>, r: Request)
    ensures InjectedAll(env, rs + [r]) == Injected(InjectedAll(env, rs), r.language, r.inst)
  {
    assert (rs + [r])[..|rs|] == rs;
  }

  // ------------------------------------------------------------------ Go

  /** What a pod says about Go: whether processes are shared, which containers are meant, and what is to be run. */
  datatype GoPod = GoPod(shareProcesses: Option<bool>, containerNames: Option<string>, execPath: Option<string>)

  /** Go takes an agent beside the container. It needs shared processes, and at most one container to look at. */
  predicate GoAccepts(g: GoPod) {
    g.shareProcesses != Some(false) && (g.containerNames.Some? ==> |Text.Split(g.containerNames.value, ',')| <= 1)
  }

  function ExecPath(g: GoPod): Vars {
    if g.execPath.Some? then [Var(TARGET_EXE, g.execPath.value)] else []
  }

  ghost function GoMerged(g: GoPod, i: Instrumentation): Vars {
    EnsuredAll(EnsuredAll(ExecPath(g), i.languageEnv), i.commonEnv)
  }

  /** The environment of the agent; the attributes are those of the container it observes. */
  ghost function GoAgent(observed: Vars, g: GoPod, i: Instrumentation): Vars {
    Configured(GoMerged(g, i), Resources(observed, i), i)
  }

  /** The agent is kept only if it knows what to observe. */
  ghost predicate GoKept(observed: Vars, g: GoPod, i: Instrumentation) {
    GoAccepts(g) && Has(GoAgent(observed, g, i), TARGET_EXE)
  }
}
