/** The injectors, editing the list of variables of a container in place. */
module Injection {
  import opened Env
  import opened InjectionLaws
  import opened InjectionSpec
  import opened InjectionValues
  import opened Options
  import opened ResourceAttributes
  import Text

  class Container {
    const name: string
    var env: Vars

    constructor (name: string, env: Vars)
      ensures this.name == name && this.env == env
    {
      this.name, this.env := name, env;
    }

    // ---------------------------------------------------------------- edits

    method Ensure(e: EnvVar)
      modifies this
      ensures env == Ensured(old(env), e)
    {
      var idx := GetIndexOfEnv(env, e.name);
      if idx == -1 {
        env := env + [e];
      }
    }

    method EnsureAll(es: Vars)
      modifies this
      ensures env == EnsuredAll(old(env), es)
    {
      for k := 0 to |es|
        invariant EnsuredAll(env, es[k..]) == EnsuredAll(old(env), es)
      {
        assert es[k..][1..] == es[k + 1..];
        Ensure(es[k]);
      }
    }

    /** Sets a variable of a language's own. */
    method Set(o: Own)
      modifies this
      ensures env == Applied(old(env), o)
    {
      var idx := GetIndexOfEnv(env, o.name);
      if idx == -1 {
        env := env + [Var(o.name, o.value)];
      } else if o.Extended? {
        FirstIsUnique(env, o.name, idx);
        env := env[idx := env[idx].(value := o.before + env[idx].value + o.after)];
      }
    }

    /** The same, as the next of a list that is applied to `base`. */
    method SetNext(o: Own, ghost base: Vars, ghost os: seq<Own>) returns (ghost os': seq<Own>)
      requires env == AppliedAll(base, os)
      modifies this
      ensures os' == os + [o] && env == AppliedAll(base, os')
    {
      Set(o);
      AppliedOneMore(base, os, o);
      os' := os + [o];
    }

    method MoveEnvToListEnd(idx: int)
      modifies this
      ensures env == if 0 <= idx < |old(env)| then Moved(old(env), idx) else old(env)
    {
      if 0 <= idx < |env| {
        env := env[..idx] + env[idx + 1..] + [env[idx]];
      }
    }

    // ---------------------------------------------------------------- languages

    method InjectJavaagent(vars: Vars) returns (ok: bool)
      modifies this
      ensures ok <==> Accepts(Java, old(env), vars)
      ensures env == if ok then AppliedAll(EnsuredAll(old(env), vars), Owns(Java)) else old(env)
    {
      ok := ValidateContainerEnv(env, [JAVA_TOOL_OPTIONS]);
      if ok {
        EnsureAll(vars);
        AppliedOneMore(env, [], JAVA_OWN);
        Set(JAVA_OWN);
      }
    }

    method InjectNodeJSSDK(vars: Vars) returns (ok: bool)
      modifies this
      ensures ok <==> Accepts(NodeJS, old(env), vars)
      ensures env == if ok then AppliedAll(EnsuredAll(old(env), vars), Owns(NodeJS)) else old(env)
    {
      ok := ValidateContainerEnv(env, [NODE_OPTIONS]);
      if ok {
        EnsureAll(vars);
        AppliedOneMore(env, [], NODE_OWN);
        Set(NODE_OWN);
      }
    }

    method InjectPythonSDK(vars: Vars) returns (ok: bool)
      modifies this
      ensures ok <==> Accepts(Python, old(env), vars)
      ensures env == if ok then AppliedAll(EnsuredAll(old(env), vars), Owns(Python)) else old(env)
    {
      ok := ValidateContainerEnv(env, [PYTHONPATH]);
      if ok {
        EnsureAll(vars);
        SetPythonOwns();
      }
    }

    method SetPythonOwns()
      modifies this
      ensures env == AppliedAll(old(env), Owns(Python))
    {
      ghost var base, os := env, [];
      os := SetNext(PYTHON_OWN, base, os);
      os := SetNext(TRACES_EXPORTER, base, os);
      os := SetNext(TRACES_PROTOCOL, base, os);
      os := SetNext(METRICS_EXPORTER, base, os);
      os := SetNext(METRICS_PROTOCOL, base, os);
      assert os == Owns(Python);
    }

    method InjectDotNetSDK(vars: Vars) returns (ok: bool)
      modifies this
      ensures ok <==> Accepts(DotNet, old(env), vars)
      ensures env == if ok then AppliedAll(EnsuredAll(old(env), vars), Owns(DotNet)) else old(env)
    {
      ok := ValidateContainerEnv(env, [STARTUP_HOOKS, ADDITIONAL_DEPS, SHARED_STORE]);
      if !ok {
        return;
      }
      var idx := GetIndexOfEnv(env, AUTO_HOME);
      if idx > -1 {
        return false;
      }
      idx := GetIndexOfEnv(vars, AUTO_HOME);
      if idx > -1 {
        return false;
      }
      EnsureAll(vars);
      SetDotNetOwns();
    }

    method SetDotNetOwns()
      modifies this
      ensures env == AppliedAll(old(env), Owns(DotNet))
    {
      ghost var base, os := env, [];
      os := SetNext(PROFILING, base, os);
      os := SetNext(PROFILER, base, os);
      os := SetNext(PROFILER_PATH, base, os);
      os := SetNext(HOOKS_OWN, base, os);
      assert os == [PROFILING, PROFILER, PROFILER_PATH, HOOKS_OWN];
      os := SetNext(DEPS_OWN, base, os);
      os := SetNext(HOME_OWN, base, os);
      os := SetNext(STORE_OWN, base, os);
      assert os == Owns(DotNet);
    }

    // ---------------------------------------------------------------- common configuration

    method InjectCommonEnvVar(i: Instrumentation)
      modifies this
      ensures env == EnsuredAll(old(env), i.commonEnv)
    {
      EnsureAll(i.commonEnv);
    }

    method CreateResources(i: Instrumentation) returns (res: Attributes)
      ensures res == Resources(env, i)
    {
      var text := None;
      var idx := GetIndexOfEnv(env, ATTRIBUTES);
      if idx > -1 {
        FirstIsUnique(env, ATTRIBUTES, idx);
        text := Some(env[idx].value);
      }
      res := CreateResourceMap(text, i.attributes, K8sResources(i.pod));
    }

    method AddHelpers(res: Attributes, addUid: bool) returns (completed: Attributes)
      modifies this
      ensures env == old(env) + Helpers(res, addUid)
      ensures completed == Completed(res, addUid)
    {
      assert |POD_NAME| == 12 && |POD_UID| == 11 && |NODE_NAME| == 13;
      completed := res;
      if Get(completed, POD_NAME) == "" {
        env := env + [FromField(POD_NAME_VAR, "metadata.name")];
        completed := completed[POD_NAME := Ref(POD_NAME_VAR)];
      }
      assert env == old(env) + PodNameHelper(res);
      if addUid {
        if Get(completed, POD_UID) == "" {
          env := env + [FromField(POD_UID_VAR, "metadata.uid")];
          completed := completed[POD_UID := Ref(POD_UID_VAR)];
        }
      }
      assert env == old(env) + PodNameHelper(res) + PodUidHelper(res, addUid);
      if Get(completed, NODE_NAME) == "" {
        env := env + [FromField(NODE_NAME_VAR, "spec.nodeName")];
        completed := completed[NODE_NAME := Ref(NODE_NAME_VAR)];
      }
    }

    method SetAttributes(text: string)
      modifies this
      ensures env == WithAttributes(old(env), text)
    {
      var idx := GetIndexOfEnv(env, ATTRIBUTES);
      if idx == -1 {
        env := env + [Var(ATTRIBUTES, text)];
      } else {
        FirstIsUnique(env, ATTRIBUTES, idx);
        var more := if EndsWithComma(env[idx].value) then text else "," + text;
        env := env[idx := env[idx].(value := env[idx].value + more)];
      }
    }

    method SetSampler(i: Instrumentation)
      modifies this
      ensures env == old(env) + Sampling(old(env), i)
    {
      var idx := GetIndexOfEnv(env, SAMPLER);
      if idx == -1 && i.samplerType != "" {
        var idxArg := GetIndexOfEnv(env, SAMPLER_ARG);
        if idxArg == -1 {
          env := env + [Var(SAMPLER, i.samplerType)];
          if i.samplerArgument != "" {
            env := env + [Var(SAMPLER_ARG, i.samplerArgument)];
          }
        }
      }
    }

    method Describe(res: Attributes, i: Instrumentation) returns (completed: Attributes)
      modifies this
      ensures env == Described(old(env), res, i)
      ensures completed == Completed(res, i.addUid)
    {
      EnsuredOne(env, Var(SERVICE_NAME, ServiceName(res, i.pod.container)));
      Ensure(Var(SERVICE_NAME, ServiceName(res, i.pod.container)));
      if i.endpoint != "" {
        EnsuredOne(env, Var(ENDPOINT, i.endpoint));
        Ensure(Var(ENDPOINT, i.endpoint));
      }
      completed := AddHelpers(res, i.addUid);
    }

    method SetPropagatorsAndSampler(i: Instrumentation)
      modifies this
      ensures env == Sampled(old(env), i)
    {
      if |i.propagators| > 0 {
        EnsuredOne(env, Var(PROPAGATORS, Text.Join(i.propagators, ',')));
        Ensure(Var(PROPAGATORS, Text.Join(i.propagators, ',')));
      }
      SetSampler(i);
    }

    method MoveAttributesLast()
      modifies this
      ensures env == MovedLast(old(env), ATTRIBUTES)
    {
      var idx := GetIndexOfEnv(env, ATTRIBUTES);
      if idx != -1 { FirstIsUnique(env, ATTRIBUTES, idx); }
      MoveEnvToListEnd(idx);
    }

    /** `res` holds the attributes of the container that is observed, which for Go is another one. */
    method InjectCommonSDKConfig(res: Attributes, i: Instrumentation)
      modifies this
      ensures env == Configured(old(env), res, i)
    {
      var completed := Describe(res, i);
      var text := ResourceMapToStr(completed);
      SetAttributes(text);
      SetPropagatorsAndSampler(i);
      MoveAttributesLast();
    }

    /** One instrumentation; a language that does not accept the container leaves it alone. */
    method InjectOne(l: Language, i: Instrumentation)
      modifies this
      ensures env == Injected(old(env), l, i)
    {
      var ok := true;
      match l {
        case Java => ok := InjectJavaagent(i.languageEnv);
        case NodeJS => ok := InjectNodeJSSDK(i.languageEnv);
        case Python => ok := InjectPythonSDK(i.languageEnv);
        case DotNet => ok := InjectDotNetSDK(i.languageEnv);
        case ApacheHttpd => EnsureAll(i.languageEnv);
        case Sdk =>
      }
      if ok {
        InjectCommonEnvVar(i);
        var res := CreateResources(i);
        InjectCommonSDKConfig(res, i);
      }
    }
  }

  lemma EnsuredOne(env: Vars, e: EnvVar)
    ensures EnsuredAll(env, [e]) == Ensured(env, e)
  {
    assert [e][1..] == [];
  }

  /** Refuses a container that takes the first variable of one of the names from elsewhere. */
  method ValidateContainerEnv(env: Vars, names: seq<string>) returns (ok: bool)
    ensures ok <==> AllPlain(env, names)
  {
    for k := 0 to |names|
      invariant AllPlain(env, names[..k])
    {
      var idx := GetIndexOfEnv(env, names[k]);
      if idx != -1 {
        FirstIsUnique(env, names[k], idx);
        if env[idx].valueFrom.Some? {
          assert !HasPlain(env, names[k]);
          return false;
        }
      }
      assert HasPlain(env, names[k]);
    }
    return true;
  }

  // ------------------------------------------------------------------ pods

  /** The instrumentations asked for, at most one of each kind. */
  datatype Instrumentations = Instrumentations(
    java: Option<Instrumentation>, nodeJS: Option<Instrumentation>, python: Option<Instrumentation>,
    dotNet: Option<Instrumentation>, go: Option<Instrumentation>, apacheHttpd: Option<Instrumentation>,
    sdk: Option<Instrumentation>)

  function Within(i: Instrumentation, name: string): Instrumentation {
    i.(pod := i.pod.(container := name))
  }

  function For(l: Language, i: Option<Instrumentation>, name: string): seq<Request> {
    if i.Some? then [Request(l, Within(i.value, name))] else []
  }

  /** They are carried out in a fixed order, with Go between these two groups. */
  function BeforeGo(insts: Instrumentations, name: string): seq<Request> {
    For(Java, insts.java, name) + For(NodeJS, insts.nodeJS, name) + For(Python, insts.python, name)
    + For(DotNet, insts.dotNet, name)
  }

  function Requests(insts: Instrumentations, name: string): seq<Request> {
    BeforeGo(insts, name) + For(ApacheHttpd, insts.apacheHttpd, name) + For(Sdk, insts.sdk, name)
  }

  ghost predicate Asks(rs: seq<Request>, k: nat, l: Language)
    requires k < |rs|
  {
    rs[k].language == l
  }

  /** A language that is asked for occurs, with its instrumentation and the container's name; another does not. */
  ghost predicate Serves(rs: seq<Request>, l: Language, i: Option<Instrumentation>, name: string) {
    && (i.Some? ==> exists k :: 0 <= k < |rs| && Asks(rs, k, l))
    && forall k :: 0 <= k < |rs| && Asks(rs, k, l) ==>
                     i.Some? && rs[k].inst == i.value.(pod := i.value.pod.(container := name))
  }

  function Rank(l: Language): nat {
    match l
    case Java => 0
    case NodeJS => 1
    case Python => 2
    case DotNet => 3
    case ApacheHttpd => 4
    case Sdk => 5
  }

  /** In the fixed order, so that no language occurs twice. */
  ghost predicate InOrder(rs: seq<Request>) {
    forall j, k :: 0 <= j < k < |rs| ==> Rank(rs[j].language) < Rank(rs[k].language)
  }

  function Asked(insts: Instrumentations, l: Language): Option<Instrumentation> {
    match l
    case Java => insts.java
    case NodeJS => insts.nodeJS
    case Python => insts.python
    case DotNet => insts.dotNet
    case ApacheHttpd => insts.apacheHttpd
    case Sdk => insts.sdk
  }

  /** The languages that rank below `n` are served, in order, and no other is there. */
  ghost predicate ServesBelow(rs: seq<Request>, insts: Instrumentations, name: string, n: nat) {
    && InOrder(rs)
    && (forall k :: 0 <= k < |rs| ==> Rank(rs[k].language) < n)
    && forall l :: Rank(l) < n ==> Serves(rs, l, Asked(insts, l), name)
  }

  lemma ServesOneMore(rs: seq<Request>, insts: Instrumentations, name: string, l: Language)
    requires ServesBelow(rs, insts, name, Rank(l))
    ensures ServesBelow(rs + For(l, Asked(insts, l), name), insts, name, Rank(l) + 1)
  {
    var more := rs + For(l, Asked(insts, l), name);
    assert forall k :: 0 <= k < |rs| ==> more[k] == rs[k];
    forall l' | Rank(l') <= Rank(l) ensures Serves(more, l', Asked(insts, l'), name) {
      if l' == l {
        if Asked(insts, l).Some? { assert Asks(more, |rs|, l); }
      } else {
        StillServes(rs, l, Asked(insts, l), l', Asked(insts, l'), name);
      }
    }
  }

  lemma StillServes(rs: seq<Request>, l: Language, i: Option<Instrumentation>, l': Language,
                    i': Option<Instrumentation>, name: string)
    requires l' != l && Serves(rs, l', i', name)
    ensures Serves(rs + For(l, i, name), l', i', name)
  {
    var more := rs + For(l, i, name);
    if i'.Some? {
      var k :| 0 <= k < |rs| && Asks(rs, k, l');
      assert Asks(more, k, l');
    }
    forall k | 0 <= k < |more| && Asks(more, k, l')
      ensures i'.Some? && more[k].inst == i'.value.(pod := i'.value.pod.(container := name))
    {
      assert Asks(rs, k, l');
    }
  }

  lemma ServesFirst(insts: Instrumentations, name: string)
    ensures ServesBelow(For(Java, insts.java, name), insts, name, 1)
  {
    var rs: seq<Request> := [];
    assert ServesBelow(rs, insts, name, 0);
    ServesOneMore(rs, insts, name, Java);
    assert rs + For(Java, insts.java, name) == For(Java, insts.java, name);
  }

  /** The next language, named by its field. */
  lemma ServesNext(rs: seq<Request>, insts: Instrumentations, name: string, l: Language, i: Option<Instrumentation>,
                   more: seq<Request>, n: nat)
    requires ServesBelow(rs, insts, name, n) && Rank(l) == n && Asked(insts, l) == i && more == rs + For(l, i, name)
    ensures ServesBelow(more, insts, name, n + 1)
  {
    ServesOneMore(rs, insts, name, l);
  }

  /** What comes before Go: the four languages with an agent of their own. */
  lemma BeforeGoServes(insts: Instrumentations, name: string)
    ensures ServesBelow(BeforeGo(insts, name), insts, name, 4)
  {
    var one := For(Java, insts.java, name);
    var two := one + For(NodeJS, insts.nodeJS, name);
    var three := two + For(Python, insts.python, name);
    ServesFirst(insts, name);
    ServesNext(one, insts, name, NodeJS, insts.nodeJS, two, 1);
    ServesNext(two, insts, name, Python, insts.python, three, 2);
    ServesNext(three, insts, name, DotNet, insts.dotNet, BeforeGo(insts, name), 3);
  }

  lemma AllServed(insts: Instrumentations, name: string)
    ensures ServesBelow(Requests(insts, name), insts, name, 6)
  {
    var five := BeforeGo(insts, name) + For(ApacheHttpd, insts.apacheHttpd, name);
    BeforeGoServes(insts, name);
    ServesNext(BeforeGo(insts, name), insts, name, ApacheHttpd, insts.apacheHttpd, five, 4);
    ServesNext(five, insts, name, Sdk, insts.sdk, Requests(insts, name), 5);
  }

  /** The instrumentations a container goes through: those asked for, each once, in order, and no other. */
  lemma RequestsServe(insts: Instrumentations, name: string)
    ensures var rs := Requests(insts, name);
            && InOrder(rs)
            && Serves(rs, Java, insts.java, name) && Serves(rs, NodeJS, insts.nodeJS, name)
            && Serves(rs, Python, insts.python, name) && Serves(rs, DotNet, insts.dotNet, name)
            && Serves(rs, ApacheHttpd, insts.apacheHttpd, name) && Serves(rs, Sdk, insts.sdk, name)
  {
    AllServed(insts, name);
    assert Asked(insts, Java) == insts.java && Asked(insts, NodeJS) == insts.nodeJS;
    assert Asked(insts, Python) == insts.python && Asked(insts, DotNet) == insts.dotNet;
    assert Asked(insts, ApacheHttpd) == insts.apacheHttpd && Asked(insts, Sdk) == insts.sdk;
  }

  lemma {:induction false} AcceptedSomewhere(env: Vars, rs: seq<Request>, k: nat)
    requires k < |rs| && (rs[k].language.Sdk? || rs[k].language.ApacheHttpd?)
    ensures AnyAccepted(env, rs)
    decreases |rs|
  {
    var most := rs[..|rs| - 1];
    if k == |rs| - 1 {
      AcceptsIff(InjectedAll(env, most), LanguageVars(rs[k].language, rs[k].inst));
    } else {
      AcceptedSomewhere(env, most, k);
    }
  }

  /** The plain SDK and Apache are refused by no container, so asking for one always names and describes the service. */
  lemma AlwaysConfigured(env: Vars, insts: Instrumentations, name: string)
    requires insts.sdk.Some? || insts.apacheHttpd.Some?
    ensures var f := InjectedAll(env, Requests(insts, name));
            Has(f, "OTEL_SERVICE_NAME") && AttributesLast(f)
  {
    var rs := Requests(insts, name);
    RequestsServe(insts, name);
    if insts.sdk.Some? {
      var k :| 0 <= k < |rs| && Asks(rs, k, Sdk);
      AcceptedSomewhere(env, rs, k);
    } else {
      var k :| 0 <= k < |rs| && Asks(rs, k, ApacheHttpd);
      AcceptedSomewhere(env, rs, k);
    }
    ServiceIsNamedInEveryRun(env, rs);
    AttributesEndEveryRun(env, rs);
  }

  /** The container meant by a name: the last one that has it, the first of the pod if none has. */
  ghost predicate Meant(containers: seq<Container>, name: string, index: nat)
    requires containers != []
  {
    && index < |containers|
    && (forall k :: index < k < |containers| ==> containers[k].name != name)
    && (containers[index].name != name ==> index == 0)
  }

  method ChooseContainer(containers: seq<Container>, name: string) returns (index: nat)
    requires containers != []
    ensures Meant(containers, name, index)
  {
    index := 0;
    for k := 0 to |containers|
      invariant index < |containers| && (k == 0 ==> index == 0)
      invariant forall j :: index < j < k ==> containers[j].name != name
      invariant containers[index].name != name ==> index == 0
    {
      if containers[k].name == name {
        index := k;
      }
    }
  }

  method InjectIf(c: Container, l: Language, i: Option<Instrumentation>, ghost base: Vars, ghost rs: seq<Request>)
    requires c.env == InjectedAll(base, rs)
    modifies c
    ensures c.env == InjectedAll(base, rs + For(l, i, c.name))
  {
    if i.Some? {
      InjectedOneMore(base, rs, Request(l, Within(i.value, c.name)));
      c.InjectOne(l, Within(i.value, c.name));
    } else {
      assert rs + For(l, i, c.name) == rs;
    }
  }

  method InjectBeforeGo(c: Container, insts: Instrumentations)
    modifies c
    ensures c.env == InjectedAll(old(c.env), BeforeGo(insts, c.name))
  {
    ghost var base := c.env;
    ghost var rs := [];
    InjectIf(c, Java, insts.java, base, rs);
    rs := rs + For(Java, insts.java, c.name);
    InjectIf(c, NodeJS, insts.nodeJS, base, rs);
    rs := rs + For(NodeJS, insts.nodeJS, c.name);
    InjectIf(c, Python, insts.python, base, rs);
    rs := rs + For(Python, insts.python, c.name);
    InjectIf(c, DotNet, insts.dotNet, base, rs);
    rs := rs + For(DotNet, insts.dotNet, c.name);
    assert rs == BeforeGo(insts, c.name);
  }

  method InjectAfterGo(c: Container, insts: Instrumentations, ghost base: Vars)
    requires c.env == InjectedAll(base, BeforeGo(insts, c.name))
    modifies c
    ensures c.env == InjectedAll(base, Requests(insts, c.name))
  {
    ghost var rs := BeforeGo(insts, c.name);
    InjectIf(c, ApacheHttpd, insts.apacheHttpd, base, rs);
    rs := rs + For(ApacheHttpd, insts.apacheHttpd, c.name);
    InjectIf(c, Sdk, insts.sdk, base, rs);
  }

  const SIDECAR := "opentelemetry-auto-instrumentation"

  /** Builds the agent for Go, and gives it up if it does not know what to observe. */
  method InjectGo(observed: Container, g: GoPod, i: Instrumentation) returns (agent: Option<Container>)
    ensures agent.Some? <==> GoKept(observed.env, g, Within(i, observed.name))
    ensures agent.Some? ==>
              && fresh(agent.value) && agent.value.name == SIDECAR
              && agent.value.env == GoAgent(observed.env, g, Within(i, observed.name))
  {
    if !GoAccepts(g) {
      return None;
    }
    var inst := Within(i, observed.name);
    var c := new Container(SIDECAR, ExecPath(g));
    c.EnsureAll(inst.languageEnv);
    c.InjectCommonEnvVar(inst);
    var res := observed.CreateResources(inst);
    c.InjectCommonSDKConfig(res, inst);
    var idx := GetIndexOfEnv(c.env, TARGET_EXE);
    if idx == -1 {
      return None;
    }
    return Some(c);
  }

  /** The pod as Go leaves it, given what its first container holds. */
  ghost predicate GoDone(containers: seq<Container>, seen: Vars, g: GoPod, go: Option<Instrumentation>,
                         pod: seq<Container>)
    requires containers != []
    reads pod
  {
    var first := containers[0].name;
    if go.Some? && GoKept(seen, g, Within(go.value, first))
    then && |pod| == |containers| + 1 && pod[..|containers|] == containers && pod[|containers|] !in containers
         && pod[|containers|].name == SIDECAR && pod[|containers|].env == GoAgent(seen, g, Within(go.value, first))
    else pod == containers
  }

  method WithGoAgent(containers: seq<Container>, g: GoPod, go: Option<Instrumentation>) returns (pod: seq<Container>)
    requires containers != []
    ensures GoDone(containers, containers[0].env, g, go, pod)
    ensures |pod| > |containers| ==> fresh(pod[|containers|])
  {
    pod := containers;
    if go.Some? {
      var agent := InjectGo(containers[0], g, go.value);
      if agent.Some? {
        pod := pod + [agent.value];
      }
    }
  }

  /** What the first container holds when it is Go's turn. */
  ghost function Observed(was: Vars, index: nat, insts: Instrumentations, name: string): Vars {
    if index == 0 then InjectedAll(was, BeforeGo(insts, name)) else was
  }

  /**
   Injects into one container of a pod and leaves the other containers alone. Only Go adds a container: an agent that
   observes the first container of the pod, whichever was chosen.
   */
  method Inject(containers: seq<Container>, insts: Instrumentations, g: GoPod, name: string)
    returns (pod: seq<Container>, index: nat)
    requires forall j, k :: 0 <= j < k < |containers| ==> containers[j] != containers[k]
    modifies set c | c in containers
    ensures containers == [] ==> pod == []
    ensures containers != [] ==> Meant(containers, name, index)
    ensures containers != [] ==>
              containers[index].env == InjectedAll(old(containers[index].env), Requests(insts, containers[index].name))
    ensures containers != [] && (insts.sdk.Some? || insts.apacheHttpd.Some?) ==>
              Has(containers[index].env, "OTEL_SERVICE_NAME") && AttributesLast(containers[index].env)
    ensures forall k :: 0 <= k < |containers| && k != index ==> containers[k].env == old(containers[k].env)
    ensures containers != [] ==>
              GoDone(containers, Observed(old(containers[0].env), index, insts, containers[0].name), g, insts.go, pod)
  {
    pod, index := containers, 0;
    if |containers| < 1 {
      return;
    }
    index := ChooseContainer(containers, name);
    ghost var base := containers[index].env;
    InjectBeforeGo(containers[index], insts);
    pod := WithGoAgent(containers, g, insts.go);
    InjectAfterGo(containers[index], insts, base);
    if insts.sdk.Some? || insts.apacheHttpd.Some? { AlwaysConfigured(base, insts, containers[index].name); }
  }

  /** When the first container was chosen, Go finds in it what the languages before left. */
  lemma GoFindsWhatCameBefore(was: Vars, insts: Instrumentations, name: string)
    requires AnyAccepted(was, BeforeGo(insts, name))
    ensures AttributesLast(Observed(was, 0, insts, name)) && Has(Observed(was, 0, insts, name), "OTEL_SERVICE_NAME")
  {
    AttributesEndEveryRun(was, BeforeGo(insts, name));
    ServiceIsNamedInEveryRun(was, BeforeGo(insts, name));
  }
}
