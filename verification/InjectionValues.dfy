/** What an injection sets, as texts: names and values are written out, apart from what the container brings. */
module InjectionValues {
  import opened Env
  import opened InjectionSpec
  import opened InjectionLaws
  import opened Options
  import opened ResourceAttributes
  import Text

  // ------------------------------------------------------------------ when a language refuses

  lemma AcceptsIff(env: Vars, vars: Vars)
    ensures Accepts(Java, env, vars) <==> HasPlain(env, "JAVA_TOOL_OPTIONS")
    ensures Accepts(NodeJS, env, vars) <==> HasPlain(env, "NODE_OPTIONS")
    ensures Accepts(Python, env, vars) <==> HasPlain(env, "PYTHONPATH")
    ensures Accepts(DotNet, env, vars) <==>
            && HasPlain(env, "DOTNET_STARTUP_HOOKS") && HasPlain(env, "DOTNET_ADDITIONAL_DEPS")
            && HasPlain(env, "DOTNET_SHARED_STORE")
            && !Has(env, "OTEL_DOTNET_AUTO_HOME") && !Has(vars, "OTEL_DOTNET_AUTO_HOME")
    ensures Accepts(ApacheHttpd, env, vars) && Accepts(Sdk, env, vars)
  {
    AllPlainOne(env, JAVA_TOOL_OPTIONS);
    AllPlainOne(env, NODE_OPTIONS);
    AllPlainOne(env, PYTHONPATH);
    AllPlainThree(env, STARTUP_HOOKS, ADDITIONAL_DEPS, SHARED_STORE);
  }

  lemma AllPlainOne(env: Vars, n: string)
    ensures AllPlain(env, [n]) <==> HasPlain(env, n)
  {
    if AllPlain(env, [n]) { assert HasPlain(env, [n][0]); }
  }

  lemma AllPlainThree(env: Vars, a: string, b: string, c: string)
    ensures AllPlain(env, [a, b, c]) <==> HasPlain(env, a) && HasPlain(env, b) && HasPlain(env, c)
  {
    var names := [a, b, c];
    if AllPlain(env, names) { assert HasPlain(env, names[0]) && HasPlain(env, names[1]) && HasPlain(env, names[2]); }
  }

  // ------------------------------------------------------------------ the variables of a language

  /** What the container, or else the language's variables, hold under a name. */
  ghost function Found(env: Vars, i: Instrumentation, n: string): Option<EnvVar> {
    OrElse(Lookup(env, n), Lookup(i.languageEnv, n))
  }

  /** The variable is new with one text, or its value stands between two. */
  ghost predicate Wraps(env: Vars, l: Language, i: Instrumentation, n: string, alone: string, before: string,
                        after: string) {
    Accepts(l, env, LanguageVars(l, i)) ==>
      var x, y := Found(env, i, n), Lookup(Injected(env, l, i), n);
      y.Some? && y.value.value == if x.None? then alone else before + x.value.value + after
  }

  /** The variable is kept, and has a default value. */
  ghost predicate Defaulted(env: Vars, l: Language, i: Instrumentation, n: string, value: string) {
    Accepts(l, env, LanguageVars(l, i)) ==>
      Lookup(Injected(env, l, i), n) == OrElse(Found(env, i, n), Some(EnvVar(n, value, None)))
  }

  lemma OwnAt(env: Vars, l: Language, i: Instrumentation, k: nat)
    requires k < |Owns(l)|
    ensures var o := Owns(l)[k];
            if o.Extended? then Wraps(env, l, i, o.name, o.value, o.before, o.after)
            else Defaulted(env, l, i, o.name, o.value)
  {
    var o := Owns(l)[k];
    AttributesAreNotOwn(l);
    OwnIsFound(l, o);
    if Accepts(l, env, LanguageVars(l, i)) { LookupExtended(env, l, i, o); }
  }

  lemma JavaValues(env: Vars, i: Instrumentation)
    ensures Wraps(env, Java, i, "JAVA_TOOL_OPTIONS", " -javaagent:/otel-auto-instrumentation/javaagent.jar",
                  "", " -javaagent:/otel-auto-instrumentation/javaagent.jar")
  {
    OwnAt(env, Java, i, 0);
  }

  lemma NodeJSValues(env: Vars, i: Instrumentation)
    ensures Wraps(env, NodeJS, i, "NODE_OPTIONS", " --require /otel-auto-instrumentation/autoinstrumentation.js",
                  "", " --require /otel-auto-instrumentation/autoinstrumentation.js")
  {
    OwnAt(env, NodeJS, i, 0);
  }

  /** The path to the loader comes first and the directory of all packages last. */
  lemma PythonValues(env: Vars, i: Instrumentation)
    ensures var loader := "/otel-auto-instrumentation/opentelemetry/instrumentation/auto_instrumentation";
            Wraps(env, Python, i, "PYTHONPATH", loader + ":" + "/otel-auto-instrumentation",
                  loader + ":", ":" + "/otel-auto-instrumentation")
    ensures Defaulted(env, Python, i, "OTEL_TRACES_EXPORTER", "otlp")
    ensures Defaulted(env, Python, i, "OTEL_EXPORTER_OTLP_TRACES_PROTOCOL", "http/protobuf")
    ensures Defaulted(env, Python, i, "OTEL_METRICS_EXPORTER", "otlp")
    ensures Defaulted(env, Python, i, "OTEL_EXPORTER_OTLP_METRICS_PROTOCOL", "http/protobuf")
  {
    OwnAt(env, Python, i, 0);
    OwnAt(env, Python, i, 1);
    OwnAt(env, Python, i, 2);
    OwnAt(env, Python, i, 3);
    OwnAt(env, Python, i, 4);
  }

  /** A list of paths gets one more at its end. */
  ghost predicate GetsPath(env: Vars, i: Instrumentation, n: string, path: string) {
    Wraps(env, DotNet, i, n, path, "", ":" + path)
  }

  lemma DotNetLists(env: Vars, i: Instrumentation)
    ensures GetsPath(env, i, "DOTNET_STARTUP_HOOKS",
                     "/otel-auto-instrumentation/net/OpenTelemetry.AutoInstrumentation.StartupHook.dll")
    ensures GetsPath(env, i, "DOTNET_ADDITIONAL_DEPS", "/otel-auto-instrumentation/AdditionalDeps")
    ensures GetsPath(env, i, "DOTNET_SHARED_STORE", "/otel-auto-instrumentation/store")
  {
    DotNetList(env, i, 3, HOOKS_OWN);
    DotNetList(env, i, 4, DEPS_OWN);
    DotNetList(env, i, 6, STORE_OWN);
  }

  lemma DotNetList(env: Vars, i: Instrumentation, k: nat, o: Own)
    requires k < |Owns(DotNet)| && Owns(DotNet)[k] == o && o.Extended?
    ensures Wraps(env, DotNet, i, o.name, o.value, o.before, o.after)
  {
    OwnAt(env, DotNet, i, k);
  }

  lemma DotNetFixed(env: Vars, i: Instrumentation, k: nat, o: Own)
    requires k < |Owns(DotNet)| && Owns(DotNet)[k] == o && o.Fixed?
    ensures Defaulted(env, DotNet, i, o.name, o.value)
  {
    OwnAt(env, DotNet, i, k);
  }

  lemma DotNetValues(env: Vars, i: Instrumentation)
    ensures Defaulted(env, DotNet, i, "CORECLR_ENABLE_PROFILING", "1")
    ensures Defaulted(env, DotNet, i, "CORECLR_PROFILER", "{918728DD-259F-4A6A-AC2B-B85E1B658318}")
    ensures Defaulted(env, DotNet, i, "CORECLR_PROFILER_PATH",
                      "/otel-auto-instrumentation/linux-x64/OpenTelemetry.AutoInstrumentation.Native.so")
    ensures Defaulted(env, DotNet, i, "OTEL_DOTNET_AUTO_HOME", "/otel-auto-instrumentation")
  {
    DotNetFixed(env, i, 0, PROFILING);
    DotNetFixed(env, i, 1, PROFILER);
    DotNetFixed(env, i, 2, PROFILER_PATH);
    DotNetFixed(env, i, 5, HOME_OWN);
  }

  // ------------------------------------------------------------------ the common configuration

  /** The endpoint of the instrumentation, where the container has none. */
  lemma EndpointValue(env: Vars, res: Attributes, i: Instrumentation)
    ensures Lookup(Configured(env, res, i), "OTEL_EXPORTER_OTLP_ENDPOINT") ==
            OrElse(Lookup(env, "OTEL_EXPORTER_OTLP_ENDPOINT"),
                   if i.endpoint == "" then None else Some(EnvVar("OTEL_EXPORTER_OTLP_ENDPOINT", i.endpoint, None)))
  {
    assert |ENDPOINT| == 27 && |ATTRIBUTES| == 24 && |SERVICE_NAME| == 17;
    LookupConfigured(env, res, i, ENDPOINT);
    NotAHelper(res, i.addUid, ENDPOINT);
    TailLacks(env, i, ENDPOINT);
    LookupConcat(Description(res, i), Propagation(i) + Sampling(env, i), ENDPOINT);
    LookupConcat(Service(res, i) + Export(i), Helpers(res, i.addUid), ENDPOINT);
    LookupConcat(Service(res, i), Export(i), ENDPOINT);
    LookupOneOrNone(Export(i), ENDPOINT);
  }

  lemma TailLacks(env: Vars, i: Instrumentation, n: string)
    requires |n| > 23
    ensures Lookup(Propagation(i) + Sampling(env, i), n) == None
  {
    assert |PROPAGATORS| == 16 && |SAMPLER| == 19 && |SAMPLER_ARG| == 23;
    assert !Has(Propagation(i), n) && !Has(Sampling(env, i), n);
    LookupConcat(Propagation(i), Sampling(env, i), n);
  }

  lemma LookupOneOrNone(es: Vars, n: string)
    requires |es| <= 1 && (es != [] ==> es[0].name == n)
    ensures Lookup(es, n) == if es == [] then None else Some(es[0])
  {
    if es != [] {
      assert es == [es[0]] + [];
      LookupCons(es[0], [], n);
    }
  }

  /** The propagators of the instrumentation, where the container has none. Splitting at commas gives them back. */
  lemma PropagatorsValue(env: Vars, res: Attributes, i: Instrumentation)
    ensures Has(env, "OTEL_PROPAGATORS") || i.propagators == [] ==>
              Lookup(Configured(env, res, i), "OTEL_PROPAGATORS") == Lookup(env, "OTEL_PROPAGATORS")
    ensures !Has(env, "OTEL_PROPAGATORS") && i.propagators != [] ==>
              var x := Lookup(Configured(env, res, i), "OTEL_PROPAGATORS");
              && x.Some? && x.value.valueFrom.None?
              && ((forall k :: 0 <= k < |i.propagators| ==> ',' !in i.propagators[k]) ==>
                    Text.Split(x.value.value, ',') == i.propagators)
  {
    LookupPropagators(env, res, i);
    if i.propagators != [] && forall k :: 0 <= k < |i.propagators| ==> ',' !in i.propagators[k] {
      Text.SplitJoin(i.propagators, ',');
    }
  }

  lemma LookupPropagators(env: Vars, res: Attributes, i: Instrumentation)
    ensures Lookup(Configured(env, res, i), PROPAGATORS) ==
            OrElse(Lookup(env, PROPAGATORS),
                   if i.propagators == [] then None else Some(Var(PROPAGATORS, Text.Join(i.propagators, ','))))
  {
    assert |PROPAGATORS| == 16 && |ATTRIBUTES| == 24;
    LookupConfigured(env, res, i, PROPAGATORS);
    NotInDescription(res, i, PROPAGATORS);
    LookupConcat(Description(res, i), Propagation(i) + Sampling(env, i), PROPAGATORS);
    LookupInTail(env, i);
  }

  lemma LookupInTail(env: Vars, i: Instrumentation)
    ensures Lookup(Propagation(i) + Sampling(env, i), PROPAGATORS) ==
            if i.propagators == [] then None else Some(Var(PROPAGATORS, Text.Join(i.propagators, ',')))
  {
    assert |PROPAGATORS| == 16 && |SAMPLER| == 19 && |SAMPLER_ARG| == 23;
    assert !Has(Sampling(env, i), PROPAGATORS);
    LookupConcat(Propagation(i), Sampling(env, i), PROPAGATORS);
    LookupOneOrNone(Propagation(i), PROPAGATORS);
  }

  /** The names the configuration may set. */
  const CONFIGURED := {"OTEL_SERVICE_NAME", "OTEL_EXPORTER_OTLP_ENDPOINT", "OTEL_RESOURCE_ATTRIBUTES",
    "OTEL_PROPAGATORS", "OTEL_TRACES_SAMPLER", "OTEL_TRACES_SAMPLER_ARG", "OTEL_RESOURCE_ATTRIBUTES_POD_NAME",
    "OTEL_RESOURCE_ATTRIBUTES_POD_UID", "OTEL_RESOURCE_ATTRIBUTES_NODE_NAME"}

  /** The configuration has no say in any other variable. */
  lemma NoOtherVariables(env: Vars, res: Attributes, i: Instrumentation, n: string)
    requires n !in CONFIGURED
    ensures Lookup(Configured(env, res, i), n) == Lookup(env, n)
  {
    LookupConfigured(env, res, i, n);
    NotDescribed(res, i, n);
    NotInTail(env, i, n);
    LookupConcat(Description(res, i), Propagation(i) + Sampling(env, i), n);
  }

  lemma NotDescribed(res: Attributes, i: Instrumentation, n: string)
    requires n != SERVICE_NAME && n != ENDPOINT && n !in HELPERS
    ensures Lookup(Description(res, i), n) == None
  {
    HelperNames(res, i.addUid);
    assert !Has(Helpers(res, i.addUid), n) && !Has(Service(res, i), n) && !Has(Export(i), n);
    LookupConcat(Service(res, i) + Export(i), Helpers(res, i.addUid), n);
    LookupConcat(Service(res, i), Export(i), n);
  }

  lemma NotInTail(env: Vars, i: Instrumentation, n: string)
    requires n != PROPAGATORS && n != SAMPLER && n != SAMPLER_ARG
    ensures Lookup(Propagation(i) + Sampling(env, i), n) == None
  {
    assert !Has(Propagation(i), n) && !Has(Sampling(env, i), n);
    LookupConcat(Propagation(i), Sampling(env, i), n);
  }

  /** Who wins any other name without a language: the container, then the common variables. */
  lemma SdkPrecedence(env: Vars, i: Instrumentation, n: string)
    requires n !in CONFIGURED
    ensures Lookup(Injected(env, Sdk, i), n) == OrElse(Lookup(env, n), Lookup(i.commonEnv, n))
  {
    AcceptsIff(env, []);
    LookupInjected(env, Sdk, i, n);
    LookupNothing(n);
  }

  /** With Apache, its own variables come between. */
  lemma ApachePrecedence(env: Vars, i: Instrumentation, n: string)
    requires n !in CONFIGURED
    ensures Lookup(Injected(env, ApacheHttpd, i), n) ==
            OrElse(OrElse(Lookup(env, n), Lookup(i.languageEnv, n)), Lookup(i.commonEnv, n))
  {
    AcceptsIff(env, i.languageEnv);
    LookupInjected(env, ApacheHttpd, i, n);
  }

  lemma LookupInjected(env: Vars, l: Language, i: Instrumentation, n: string)
    requires n !in CONFIGURED && Accepts(l, env, LanguageVars(l, i)) && Owns(l) == []
    ensures Lookup(Injected(env, l, i), n) ==
            OrElse(OrElse(Lookup(env, n), Lookup(LanguageVars(l, i), n)), Lookup(i.commonEnv, n))
  {
    var m := Merged(env, l, i);
    NoOtherVariables(m, Resources(m, i), i, n);
    LookupMerged(env, l, i, n);
  }

  lemma LookupNothing(n: string)
    ensures Lookup([], n) == None
  {
  }

  /** An attribute of the pod that is not known is a reference to a variable that reads the pod's field. */
  ghost predicate LooksUp(res: Attributes, addUid: bool, k: string, name: string, field: string) {
    && EnvVar(name, "", Some(field)) in Helpers(res, addUid)
    && k in Completed(res, addUid) && Completed(res, addUid)[k] == "$(" + name + ")"
  }

  lemma HelperTexts(res: Attributes, addUid: bool)
    ensures Get(res, "k8s.pod.name") == "" ==>
              LooksUp(res, addUid, "k8s.pod.name", "OTEL_RESOURCE_ATTRIBUTES_POD_NAME", "metadata.name")
    ensures Get(res, "k8s.pod.uid") == "" && addUid ==>
              LooksUp(res, addUid, "k8s.pod.uid", "OTEL_RESOURCE_ATTRIBUTES_POD_UID", "metadata.uid")
    ensures Get(res, "k8s.node.name") == "" ==>
              LooksUp(res, addUid, "k8s.node.name", "OTEL_RESOURCE_ATTRIBUTES_NODE_NAME", "spec.nodeName")
  {
    PodKeysDiffer();
    var a, b, c := PodNameHelper(res), PodUidHelper(res, addUid), NodeNameHelper(res);
    assert forall h :: h in a || h in b || h in c ==> h in Helpers(res, addUid);
    if Get(res, POD_NAME) == "" { assert a[0] in a; }
    if Get(res, POD_UID) == "" && addUid { assert b[0] in b; }
    if Get(res, NODE_NAME) == "" { assert c[0] in c; }
  }

  /** Whoever sets the service's name, an accepted injection leaves one. */
  lemma ServiceIsNamed(env: Vars, l: Language, i: Instrumentation)
    requires Accepts(l, env, LanguageVars(l, i))
    ensures Has(Injected(env, l, i), "OTEL_SERVICE_NAME")
  {
    var m := Merged(env, l, i);
    var res := Resources(m, i);
    assert |SERVICE_NAME| != |ATTRIBUTES|;
    LookupConfigured(m, res, i, SERVICE_NAME);
    assert Description(res, i)[0].name == SERVICE_NAME;
    LookupConcat(Description(res, i), Propagation(i) + Sampling(m, i), SERVICE_NAME);
  }

  lemma {:induction false} ServiceIsNamedInEveryRun(env: Vars, rs: seq<Request>)
    requires AnyAccepted(env, rs)
    ensures Has(InjectedAll(env, rs), "OTEL_SERVICE_NAME")
  {
    var r, most := rs[|rs| - 1], rs[..|rs| - 1];
    if Accepts(r.language, InjectedAll(env, most), LanguageVars(r.language, r.inst)) {
      ServiceIsNamed(InjectedAll(env, most), r.language, r.inst);
    } else {
      ServiceIsNamedInEveryRun(env, most);
    }
  }

  // ------------------------------------------------------------------ the Go agent

  /** What the agent observes: the annotation's path, or else what the two lists say. */
  lemma GoTarget(observed: Vars, g: GoPod, i: Instrumentation)
    ensures Lookup(GoAgent(observed, g, i), "OTEL_GO_AUTO_TARGET_EXE") ==
            if g.execPath.Some? then Some(EnvVar("OTEL_GO_AUTO_TARGET_EXE", g.execPath.value, None))
            else OrElse(Lookup(i.languageEnv, "OTEL_GO_AUTO_TARGET_EXE"),
                        Lookup(i.commonEnv, "OTEL_GO_AUTO_TARGET_EXE"))
  {
    assert |TARGET_EXE| == 23 && |ATTRIBUTES| == 24;
    GoPrecedence(observed, g, i, TARGET_EXE);
    TargetIsNoDefault(GoMerged(g, i), Resources(observed, i), i);
    LookupOneOrNone(ExecPath(g), TARGET_EXE);
  }
}
