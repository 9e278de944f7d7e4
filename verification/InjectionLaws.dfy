/** What holds of every injection, and of every sequence of injections. */
module InjectionLaws {
  import opened Env
  import opened InjectionSpec
  import opened Options
  import opened ResourceAttributes

  // ------------------------------------------------------------------ what survives

  /**
   * `b` comes from `a` without loss: the variables of other names than `names` are still there, unchanged and in order,
   * in front of the new ones; and no name gets a second variable, helpers aside.
   */
  ghost predicate Kept(a: Vars, b: Vars, names: set<string>) {
    Without(a, names) <= Without(b, names) && (Unique(a, HELPERS) ==> Unique(b, HELPERS))
  }

  lemma KeptTransitive(a: Vars, b: Vars, c: Vars, names: set<string>)
    requires Kept(a, b, names) && Kept(b, c, names)
    ensures Kept(a, c, names)
  {
  }

  lemma KeptAppend(env: Vars, e: EnvVar, names: set<string>)
    requires e.name in HELPERS || !Has(env, e.name)
    ensures Kept(env, env + [e], names)
  {
    WithoutAppend(env, e, names);
    if Unique(env, HELPERS) { UniqueAppend(env, e, HELPERS); }
  }

  lemma {:induction false} KeptEnsuredAll(env: Vars, es: Vars, names: set<string>)
    ensures Kept(env, EnsuredAll(env, es), names)
    decreases |es|
  {
    if es == [] {
    } else {
      var env' := Ensured(env, es[0]);
      assert Kept(env, env', names) by { if !Has(env, es[0].name) { KeptAppend(env, es[0], names); } }
      KeptEnsuredAll(env', es[1..], names);
      KeptTransitive(env, env', EnsuredAll(env', es[1..]), names);
    }
  }

  lemma KeptRevalued(env: Vars, name: string, value: string, names: set<string>)
    requires Has(env, name) && name in names
    ensures Kept(env, Revalued(env, name, value), names)
  {
    var k := First(env, name);
    WithoutUpdate(env, k, env[k].(value := value), names);
    if Unique(env, HELPERS) { UniqueUpdate(env, k, env[k].(value := value), HELPERS); }
  }

  lemma KeptMovedLast(env: Vars, name: string, names: set<string>)
    requires name in names
    ensures Kept(env, MovedLast(env, name), names)
  {
    if Has(env, name) {
      var k := First(env, name);
      WithoutUpdate(env, k, env[k], names);
      if Unique(env, HELPERS) { UniqueMoved(env, k, HELPERS); }
    }
  }

  lemma KeptApplied(env: Vars, o: Own, names: set<string>)
    requires o.Extended? ==> o.name in names
    ensures Kept(env, Applied(env, o), names)
  {
    if !Has(env, o.name) {
      KeptAppend(env, Var(o.name, o.value), names);
    } else if o.Extended? {
      KeptRevalued(env, o.name, o.before + Lookup(env, o.name).value.value + o.after, names);
    }
  }

  ghost predicate Extends(os: seq<Own>, names: set<string>) {
    forall k :: 0 <= k < |os| && os[k].Extended? ==> os[k].name in names
  }

  lemma {:induction false} KeptAppliedAll(env: Vars, os: seq<Own>, names: set<string>)
    requires Extends(os, names)
    ensures Kept(env, AppliedAll(env, os), names)
  {
    if os == [] {
    } else {
      var most := os[..|os| - 1];
      KeptAppliedAll(env, most, names);
      KeptApplied(AppliedAll(env, most), os[|os| - 1], names);
      KeptTransitive(env, AppliedAll(env, most), AppliedAll(env, os), names);
    }
  }

  lemma KeptHelpers(env: Vars, es: Vars, names: set<string>)
    requires forall k :: 0 <= k < |es| ==> es[k].name in HELPERS
    ensures Kept(env, env + es, names)
    decreases |es|
  {
    if es == [] {
      assert env + es == env;
    } else {
      var most, e := es[..|es| - 1], es[|es| - 1];
      KeptHelpers(env, most, names);
      assert env + es == (env + most) + [e];
      KeptAppend(env + most, e, names);
      KeptTransitive(env, env + most, env + es, names);
    }
  }

  lemma HelperNames(res: Attributes, addUid: bool)
    ensures forall k :: 0 <= k < |Helpers(res, addUid)| ==> Helpers(res, addUid)[k].name in HELPERS
  {
  }

  lemma KeptDescribed(env: Vars, res: Attributes, i: Instrumentation, names: set<string>)
    ensures Kept(env, Described(env, res, i), names)
  {
    var a := EnsuredAll(env, Service(res, i));
    var b := EnsuredAll(a, Export(i));
    KeptEnsuredAll(env, Service(res, i), names);
    KeptEnsuredAll(a, Export(i), names);
    HelperNames(res, i.addUid);
    KeptHelpers(b, Helpers(res, i.addUid), names);
    KeptTransitive(env, a, b, names);
    KeptTransitive(env, b, Described(env, res, i), names);
  }

  lemma KeptAttributes(env: Vars, text: string, names: set<string>)
    requires ATTRIBUTES in names
    ensures Kept(env, WithAttributes(env, text), names)
  {
    if Has(env, ATTRIBUTES) {
      KeptRevalued(env, ATTRIBUTES, Joined(Lookup(env, ATTRIBUTES).value.value, text), names);
    } else {
      KeptAppend(env, Var(ATTRIBUTES, text), names);
    }
  }

  lemma KeptSampling(env: Vars, i: Instrumentation, names: set<string>)
    ensures Kept(env, env + Sampling(env, i), names)
  {
    var es := Sampling(env, i);
    if es == [] {
      assert env + es == env;
    } else {
      var a := env + [es[0]];
      KeptAppend(env, es[0], names);
      if |es| == 1 {
        assert env + es == a;
      } else {
        assert |SAMPLER| != |SAMPLER_ARG|;
        assert !Has(a, es[1].name);
        KeptAppend(a, es[1], names);
        assert env + es == a + [es[1]];
        KeptTransitive(env, a, env + es, names);
      }
    }
  }

  lemma KeptSampled(env: Vars, i: Instrumentation, names: set<string>)
    ensures Kept(env, Sampled(env, i), names)
  {
    var e := EnsuredAll(env, Propagation(i));
    KeptEnsuredAll(env, Propagation(i), names);
    KeptSampling(e, i, names);
    KeptTransitive(env, e, Sampled(env, i), names);
  }

  lemma KeptConfigured(env: Vars, res: Attributes, i: Instrumentation, names: set<string>)
    requires ATTRIBUTES in names
    ensures Kept(env, Configured(env, res, i), names)
  {
    var a := Described(env, res, i);
    var b := WithAttributes(a, Printed(Completed(res, i.addUid)));
    var c := Sampled(b, i);
    KeptDescribed(env, res, i, names);
    KeptAttributes(a, Printed(Completed(res, i.addUid)), names);
    KeptTransitive(env, a, b, names);
    KeptSampled(b, i, names);
    KeptTransitive(env, b, c, names);
    KeptMovedLast(c, ATTRIBUTES, names);
    KeptTransitive(env, c, Configured(env, res, i), names);
  }

  lemma KeptMerged(env: Vars, l: Language, i: Instrumentation, names: set<string>)
    requires Extends(Owns(l), names)
    ensures Kept(env, Merged(env, l, i), names)
  {
    var a := EnsuredAll(env, LanguageVars(l, i));
    var b := AppliedAll(a, Owns(l));
    KeptEnsuredAll(env, LanguageVars(l, i), names);
    KeptAppliedAll(a, Owns(l), names);
    KeptTransitive(env, a, b, names);
    KeptEnsuredAll(b, i.commonEnv, names);
    KeptTransitive(env, b, Merged(env, l, i), names);
  }

  lemma KeptInjected(env: Vars, l: Language, i: Instrumentation, names: set<string>)
    requires ATTRIBUTES in names && Extends(Owns(l), names)
    ensures Kept(env, Injected(env, l, i), names)
  {
    var m := Merged(env, l, i);
    KeptMerged(env, l, i, names);
    KeptConfigured(m, Resources(m, i), i, names);
    KeptTransitive(env, m, Configured(m, Resources(m, i), i), names);
  }

  /** The names that a sequence of injections may extend: the attributes, and what its languages extend. */
  ghost function ExtendedBy(rs: seq<Request>): set<string> {
    {ATTRIBUTES} + set k, o | 0 <= k < |rs| && o in Owns(rs[k].language) && o.Extended? :: o.name
  }

  ghost predicate Covers(names: set<string>, rs: seq<Request>) {
    ATTRIBUTES in names && forall k :: 0 <= k < |rs| ==> Extends(Owns(rs[k].language), names)
  }

  lemma {:induction false} OthersAreKept(env: Vars, rs: seq<Request>, names: set<string>)
    requires Covers(names, rs)
    ensures Kept(env, InjectedAll(env, rs), names)
  {
    if rs == [] {
    } else {
      var r, most := rs[|rs| - 1], rs[..|rs| - 1];
      OthersAreKept(env, most, names);
      KeptInjected(InjectedAll(env, most), r.language, r.inst, names);
      KeptTransitive(env, InjectedAll(env, most), InjectedAll(env, rs), names);
    }
  }

  lemma ExtendedByCovers(rs: seq<Request>)
    ensures Covers(ExtendedBy(rs), rs)
  {
    forall k, j | 0 <= k < |rs| && 0 <= j < |Owns(rs[k].language)| && Owns(rs[k].language)[j].Extended?
      ensures Owns(rs[k].language)[j].name in ExtendedBy(rs)
    {
      assert Owns(rs[k].language)[j] in Owns(rs[k].language);
    }
  }

  /**
   * Through any sequence of injections, accepted or not, nothing is lost but what the languages asked for extend, and
   * no name but a helper's is doubled.
   */
  lemma NothingIsLost(env: Vars, rs: seq<Request>)
    ensures Without(env, ExtendedBy(rs)) <= Without(InjectedAll(env, rs), ExtendedBy(rs))
    ensures Unique(env, HELPERS) ==> Unique(InjectedAll(env, rs), HELPERS)
  {
    ExtendedByCovers(rs);
    OthersAreKept(env, rs, ExtendedBy(rs));
  }

  // ------------------------------------------------------------------ what a name stands for afterwards

  ghost predicate DistinctNames(os: seq<Own>) {
    forall j, k :: 0 <= j < k < |os| ==> os[j].name != os[k].name
  }

  lemma OwnsAreDistinct(l: Language)
    ensures DistinctNames(Owns(l))
  {
    match l
    case Python =>
      assert |PYTHON_OWN.name| == 10 && |TRACES_EXPORTER.name| == 20 && |TRACES_PROTOCOL.name| == 34;
      assert |METRICS_EXPORTER.name| == 21 && |METRICS_PROTOCOL.name| == 35;
    case DotNet =>
      assert |PROFILING.name| == 24 && |PROFILER.name| == 16 && |PROFILER_PATH.name| == 21 && |HOOKS_OWN.name| == 20;
      assert |DEPS_OWN.name| == 22 && |HOME_OWN.name| == 21 && |STORE_OWN.name| == 19;
      assert PROFILER_PATH.name[0] == 'C' && HOME_OWN.name[0] == 'O';
    case _ =>
  }

  /** The language's own treatment of a name, if it has one. */
  function OwnFor(os: seq<Own>, n: string): Option<Own> {
    if os == [] then None
    else if os[|os| - 1].name == n then Some(os[|os| - 1])
    else OwnFor(os[..|os| - 1], n)
  }

  lemma {:induction false} OwnForNone(os: seq<Own>, n: string)
    requires forall k :: 0 <= k < |os| ==> os[k].name != n
    ensures OwnFor(os, n) == None
  {
    if os == [] {
    } else {
      OwnForNone(os[..|os| - 1], n);
    }
  }

  function Treated(o: Option<Own>, n: string, x: Option<EnvVar>): Option<EnvVar> {
    if o.None? then x
    else if x.None? then Some(Var(n, o.value.value))
    else if o.value.Fixed? then x
    else Some(x.value.(value := o.value.before + x.value.value + o.value.after))
  }

  lemma LookupApplied(env: Vars, o: Own, n: string)
    ensures Lookup(Applied(env, o), n) == Treated(if o.name == n then Some(o) else None, n, Lookup(env, n))
  {
    if !Has(env, o.name) {
      LookupAppend(env, Var(o.name, o.value), n);
    } else if o.Extended? {
      LookupRevalued(env, o.name, o.before + Lookup(env, o.name).value.value + o.after, n);
    }
  }

  lemma {:induction false} LookupAppliedAll(env: Vars, os: seq<Own>, n: string)
    requires DistinctNames(os)
    ensures Lookup(AppliedAll(env, os), n) == Treated(OwnFor(os, n), n, Lookup(env, n))
  {
    if os == [] {
    } else {
      var most, o := os[..|os| - 1], os[|os| - 1];
      LookupAppliedAll(env, most, n);
      LookupApplied(AppliedAll(env, most), o, n);
      if o.name == n { OwnForNone(most, n); }
    }
  }

  lemma LookupMerged(env: Vars, l: Language, i: Instrumentation, n: string)
    ensures Lookup(Merged(env, l, i), n) ==
            OrElse(Treated(OwnFor(Owns(l), n), n, OrElse(Lookup(env, n), Lookup(LanguageVars(l, i), n))),
                   Lookup(i.commonEnv, n))
  {
    var a := EnsuredAll(env, LanguageVars(l, i));
    LookupEnsuredAll(env, LanguageVars(l, i), n);
    OwnsAreDistinct(l);
    LookupAppliedAll(a, Owns(l), n);
    LookupEnsuredAll(AppliedAll(a, Owns(l)), i.commonEnv, n);
  }

  function Description(res: Attributes, i: Instrumentation): Vars {
    Service(res, i) + Export(i) + Helpers(res, i.addUid)
  }

  /** What the configuration adds below everything else. */
  ghost function Defaults(env: Vars, res: Attributes, i: Instrumentation): Vars {
    Description(res, i) + (Propagation(i) + Sampling(env, i))
  }

  lemma LookupDescribed(env: Vars, res: Attributes, i: Instrumentation, n: string)
    ensures Lookup(Described(env, res, i), n) ==
            OrElse(Lookup(env, n), Lookup(Description(res, i), n))
  {
    var a := EnsuredAll(env, Service(res, i));
    LookupEnsuredAll(env, Service(res, i), n);
    LookupEnsuredAll(a, Export(i), n);
    LookupConcat(EnsuredAll(a, Export(i)), Helpers(res, i.addUid), n);
    LookupConcat(Service(res, i), Export(i), n);
    LookupConcat(Service(res, i) + Export(i), Helpers(res, i.addUid), n);
  }

  lemma LookupWithAttributes(env: Vars, text: string, n: string)
    requires n != ATTRIBUTES
    ensures Lookup(WithAttributes(env, text), n) == Lookup(env, n)
  {
    if Has(env, ATTRIBUTES) {
      LookupRevalued(env, ATTRIBUTES, Joined(Lookup(env, ATTRIBUTES).value.value, text), n);
    } else {
      LookupAppend(env, Var(ATTRIBUTES, text), n);
    }
  }

  lemma LookupSampled(env: Vars, i: Instrumentation, n: string)
    ensures Lookup(Sampled(env, i), n) == OrElse(Lookup(env, n), Lookup(Propagation(i) + Sampling(env, i), n))
  {
    var e := EnsuredAll(env, Propagation(i));
    LookupEnsuredAll(env, Propagation(i), n);
    LookupEnsuredAll(env, Propagation(i), SAMPLER);
    LookupEnsuredAll(env, Propagation(i), SAMPLER_ARG);
    assert !Has(Propagation(i), SAMPLER) && !Has(Propagation(i), SAMPLER_ARG) by {
      assert |PROPAGATORS| == 16 && |SAMPLER| == 19 && |SAMPLER_ARG| == 23;
    }
    assert Sampling(e, i) == Sampling(env, i);
    LookupConcat(e, Sampling(e, i), n);
    LookupConcat(Propagation(i), Sampling(env, i), n);
  }

  /** The description sets none of the other variables of the configuration; their names differ in length. */
  lemma NotInDescription(res: Attributes, i: Instrumentation, n: string)
    requires |n| <= 24 && |n| != 17
    ensures Lookup(Description(res, i), n) == None
  {
    NotAHelper(res, i.addUid, n);
    assert |SERVICE_NAME| == 17 && |ENDPOINT| == 27;
    LookupConcat(Service(res, i), Export(i), n);
    LookupConcat(Service(res, i) + Export(i), Helpers(res, i.addUid), n);
  }

  lemma NotAHelper(res: Attributes, addUid: bool, n: string)
    requires |n| <= 27
    ensures !Has(Helpers(res, addUid), n)
  {
    HelperNames(res, addUid);
    HelpersAreLong();
  }

  lemma HelpersAreLong()
    ensures forall h :: h in HELPERS ==> |h| > 27
  {
  }

  lemma SamplingAfterDescription(env: Vars, res: Attributes, i: Instrumentation, text: string)
    ensures Sampling(WithAttributes(Described(env, res, i), text), i) == Sampling(env, i)
  {
    NotInDescription(res, i, SAMPLER);
    NotInDescription(res, i, SAMPLER_ARG);
    assert |ATTRIBUTES| == 24 && |SAMPLER| == 19 && |SAMPLER_ARG| == 23;
    LookupDescribed(env, res, i, SAMPLER);
    LookupDescribed(env, res, i, SAMPLER_ARG);
    LookupWithAttributes(Described(env, res, i), text, SAMPLER);
    LookupWithAttributes(Described(env, res, i), text, SAMPLER_ARG);
  }

  lemma LookupConfigured(env: Vars, res: Attributes, i: Instrumentation, n: string)
    requires n != ATTRIBUTES
    ensures Lookup(Configured(env, res, i), n) == OrElse(Lookup(env, n), Lookup(Defaults(env, res, i), n))
  {
    var text := Printed(Completed(res, i.addUid));
    var a := Described(env, res, i);
    var b := WithAttributes(a, text);
    LookupDescribed(env, res, i, n);
    LookupWithAttributes(a, text, n);
    SamplingAfterDescription(env, res, i, text);
    LookupSampled(b, i, n);
    LookupMovedLast(Sampled(b, i), ATTRIBUTES, n);
    LookupConcat(Description(res, i), Propagation(i) + Sampling(env, i), n);
  }

  /**
   * Who wins a name, for every name but the resource attributes: the container, then the language's variables, both
   * extended if the language extends the name; then the language's own default; then the common variables; then the
   * defaults of the configuration.
   */
  lemma Precedence(env: Vars, l: Language, i: Instrumentation, n: string)
    requires Accepts(l, env, LanguageVars(l, i)) && n != ATTRIBUTES
    ensures Lookup(Injected(env, l, i), n) ==
            OrElse(OrElse(Treated(OwnFor(Owns(l), n), n, OrElse(Lookup(env, n), Lookup(LanguageVars(l, i), n))),
                          Lookup(i.commonEnv, n)),
                   Lookup(Defaults(Merged(env, l, i), Resources(Merged(env, l, i), i), i), n))
  {
    LookupMerged(env, l, i, n);
    LookupConfigured(Merged(env, l, i), Resources(Merged(env, l, i), i), i, n);
  }

  /** A common variable that neither the container nor the language sets is lost exactly to a differing own default. */
  lemma CommonValueIsUsedIff(env: Vars, l: Language, i: Instrumentation, n: string)
    requires Accepts(l, env, LanguageVars(l, i)) && n != ATTRIBUTES
    requires !Has(env, n) && !Has(LanguageVars(l, i), n) && Has(i.commonEnv, n)
    ensures Lookup(Injected(env, l, i), n) == Lookup(i.commonEnv, n) <==>
            OwnFor(Owns(l), n).None? || Lookup(i.commonEnv, n) == Some(Var(n, OwnFor(Owns(l), n).value.value))
  {
    Precedence(env, l, i, n);
  }

  const OWNERS := ["k8s.deployment.name", "k8s.statefulset.name", "k8s.job.name", "k8s.cronjob.name", POD_NAME]

  /** A service without a name is called after the first owner that is known, or after its container. */
  lemma ServiceIsNamedAfterOwner(env: Vars, res: Attributes, i: Instrumentation, k: nat)
    requires k <= |OWNERS| && forall j :: 0 <= j < k ==> Get(res, OWNERS[j]) == ""
    requires k < |OWNERS| ==> Get(res, OWNERS[k]) != ""
    requires !Has(env, SERVICE_NAME)
    ensures Lookup(Configured(env, res, i), SERVICE_NAME) ==
            Some(Var(SERVICE_NAME, if k < |OWNERS| then Get(res, OWNERS[k]) else i.pod.container))
  {
    OwnersInOrder(res, i.pod.container, k);
    assert |SERVICE_NAME| != |ATTRIBUTES|;
    LookupConfigured(env, res, i, SERVICE_NAME);
    var rest := Propagation(i) + Sampling(env, i);
    LookupConcat(Description(res, i), rest, SERVICE_NAME);
    LookupConcat(Service(res, i) + Export(i), Helpers(res, i.addUid), SERVICE_NAME);
    LookupCons(Service(res, i)[0], Export(i), SERVICE_NAME);
  }

  lemma OwnersInOrder(res: Attributes, container: string, k: nat)
    requires k <= |OWNERS| && forall j :: 0 <= j < k ==> Get(res, OWNERS[j]) == ""
    requires k < |OWNERS| ==> Get(res, OWNERS[k]) != ""
    ensures ServiceName(res, container) == if k < |OWNERS| then Get(res, OWNERS[k]) else container
  {
    assert 0 < k ==> Get(res, OWNERS[0]) == "";
    assert 1 < k ==> Get(res, OWNERS[1]) == "";
    assert 2 < k ==> Get(res, OWNERS[2]) == "";
    assert 3 < k ==> Get(res, OWNERS[3]) == "";
    assert 4 < k ==> Get(res, OWNERS[4]) == "";
  }

  /** The sampler and its argument are never mixed: both come from the configuration, or neither does. */
  lemma SamplerComesWithArgument(env: Vars, res: Attributes, i: Instrumentation)
    ensures var f := Configured(env, res, i);
            if i.samplerType == "" || Has(env, SAMPLER) || Has(env, SAMPLER_ARG)
            then Lookup(f, SAMPLER) == Lookup(env, SAMPLER) && Lookup(f, SAMPLER_ARG) == Lookup(env, SAMPLER_ARG)
            else && Lookup(f, SAMPLER) == Some(Var(SAMPLER, i.samplerType))
                 && Lookup(f, SAMPLER_ARG) ==
                    if i.samplerArgument == "" then None else Some(Var(SAMPLER_ARG, i.samplerArgument))
  {
    LookupSampler(env, res, i, SAMPLER);
    LookupSampler(env, res, i, SAMPLER_ARG);
    if i.samplerType != "" && !Has(env, SAMPLER) && !Has(env, SAMPLER_ARG) { LookupSampling(env, i); }
  }

  lemma LookupSampler(env: Vars, res: Attributes, i: Instrumentation, n: string)
    requires n == SAMPLER || n == SAMPLER_ARG
    ensures Lookup(Configured(env, res, i), n) == OrElse(Lookup(env, n), Lookup(Sampling(env, i), n))
  {
    assert |SAMPLER| == 19 && |SAMPLER_ARG| == 23 && |ATTRIBUTES| == 24 && |PROPAGATORS| == 16;
    LookupConfigured(env, res, i, n);
    NotInDescription(res, i, n);
    LookupConcat(Description(res, i), Propagation(i) + Sampling(env, i), n);
    LookupConcat(Propagation(i), Sampling(env, i), n);
    assert !Has(Propagation(i), n);
  }

  lemma LookupSampling(env: Vars, i: Instrumentation)
    requires i.samplerType != "" && !Has(env, SAMPLER) && !Has(env, SAMPLER_ARG)
    ensures Lookup(Sampling(env, i), SAMPLER) == Some(Var(SAMPLER, i.samplerType))
    ensures Lookup(Sampling(env, i), SAMPLER_ARG) ==
            if i.samplerArgument == "" then None else Some(Var(SAMPLER_ARG, i.samplerArgument))
  {
    assert |SAMPLER| != |SAMPLER_ARG|;
    var first, rest := Var(SAMPLER, i.samplerType), Sampling(env, i)[1..];
    assert Sampling(env, i) == [first] + rest;
    LookupCons(first, rest, SAMPLER);
    LookupCons(first, rest, SAMPLER_ARG);
    if rest != [] {
      assert rest == [rest[0]] + [];
      LookupCons(rest[0], [], SAMPLER_ARG);
    }
  }

  /**
   * A language extends a text only. The value it extends comes from elsewhere, and the variable has two sources,
   * exactly when the language's own variables say so and the container does not set the name.
   */
  lemma ExtendedHasTwoSourcesIff(env: Vars, l: Language, i: Instrumentation, o: Own)
    requires Accepts(l, env, LanguageVars(l, i)) && o in Owns(l) && o.Extended?
    ensures var x := Lookup(Injected(env, l, i), o.name);
            && x.Some? && x.value.value != ""
            && (x.value.valueFrom.Some? <==>
                !Has(env, o.name) && Has(i.languageEnv, o.name) && Lookup(i.languageEnv, o.name).value.valueFrom.Some?)
  {
    OwnIsFound(l, o);
    LookupExtended(env, l, i, o);
    ValidatedIsPlain(env, l, i, o.name);
    TreatedSources(o, Lookup(env, o.name), Lookup(i.languageEnv, o.name));
  }

  /** Nothing but the container's and the language's variable decides what an own variable becomes. */
  lemma LookupExtended(env: Vars, l: Language, i: Instrumentation, o: Own)
    requires Accepts(l, env, LanguageVars(l, i)) && !l.Sdk?
             && OwnFor(Owns(l), o.name) == Some(o) && o.name != ATTRIBUTES
    ensures Lookup(Injected(env, l, i), o.name) ==
            Treated(Some(o), o.name, OrElse(Lookup(env, o.name), Lookup(i.languageEnv, o.name)))
  {
    Precedence(env, l, i, o.name);
  }

  lemma ValidatedIsPlain(env: Vars, l: Language, i: Instrumentation, n: string)
    requires Accepts(l, env, LanguageVars(l, i)) && n in Validated(l)
    ensures HasPlain(env, n)
  {
    var k :| 0 <= k < |Validated(l)| && Validated(l)[k] == n;
  }

  lemma TreatedSources(o: Own, x: Option<EnvVar>, y: Option<EnvVar>)
    requires o.Extended? && o.after != "" && o.value != "" && (x.Some? ==> x.value.valueFrom.None?)
    ensures var r := Treated(Some(o), o.name, OrElse(x, y));
            && r.Some? && r.value.value != ""
            && (r.value.valueFrom.Some? <==> x.None? && y.Some? && y.value.valueFrom.Some?)
  {
  }

  lemma OwnIsFound(l: Language, o: Own)
    requires o in Owns(l)
    ensures OwnFor(Owns(l), o.name) == Some(o) && !l.Sdk?
    ensures o.Extended? ==> o.name in Validated(l) && o.after != "" && o.value != "" && o.name != ATTRIBUTES
  {
    OwnsAreDistinct(l);
    var k :| 0 <= k < |Owns(l)| && Owns(l)[k] == o;
    OwnForAt(Owns(l), k);
    if o.Extended? { ExtendedOwn(l, o); }
  }

  lemma ExtendedOwn(l: Language, o: Own)
    requires o in Owns(l) && o.Extended?
    ensures o.name in Validated(l) && o.after != "" && o.value != "" && o.name != ATTRIBUTES
  {
    assert |ATTRIBUTES| == 24;
  }

  lemma {:induction false} OwnForAt(os: seq<Own>, k: nat)
    requires DistinctNames(os) && k < |os|
    ensures OwnFor(os, os[k].name) == Some(os[k])
  {
    if k < |os| - 1 { OwnForAt(os[..|os| - 1], k); }
  }

  // ------------------------------------------------------------------ the resource attributes

  ghost function AttributesVar(env: Vars, text: string): EnvVar {
    if Has(env, ATTRIBUTES)
    then Lookup(env, ATTRIBUTES).value.(value := Joined(Lookup(env, ATTRIBUTES).value.value, text))
    else Var(ATTRIBUTES, text)
  }

  lemma LookupAttributes(env: Vars, res: Attributes, i: Instrumentation, text: string)
    ensures var e := Sampled(WithAttributes(Described(env, res, i), text), i);
            Lookup(e, ATTRIBUTES) == Some(AttributesVar(env, text))
  {
    var a := Described(env, res, i);
    assert |ATTRIBUTES| == 24;
    NotInDescription(res, i, ATTRIBUTES);
    LookupDescribed(env, res, i, ATTRIBUTES);
    assert AttributesVar(a, text) == AttributesVar(env, text);
    if Has(a, ATTRIBUTES) {
      LookupRevalued(a, ATTRIBUTES, AttributesVar(a, text).value, ATTRIBUTES);
    } else {
      LookupAppend(a, Var(ATTRIBUTES, text), ATTRIBUTES);
    }
    LookupSampled(WithAttributes(a, text), i, ATTRIBUTES);
  }

  ghost predicate EndsWithAttributes(env: Vars, e: EnvVar) {
    env != [] && env[|env| - 1] == e && e.name == ATTRIBUTES
  }

  ghost function NewAttributes(env: Vars, res: Attributes, i: Instrumentation): EnvVar {
    AttributesVar(env, Printed(Completed(res, i.addUid)))
  }

  /** The last variable after a configuration: the container's own text, if any, joined with the new attributes. */
  lemma AttributesAreLast(env: Vars, res: Attributes, i: Instrumentation)
    ensures EndsWithAttributes(Configured(env, res, i), NewAttributes(env, res, i))
  {
    LookupAttributes(env, res, i, Printed(Completed(res, i.addUid)));
  }

  ghost predicate AttributesLast(env: Vars) {
    env != [] && env[|env| - 1].name == ATTRIBUTES
  }

  lemma InjectionEnds(env: Vars, l: Language, i: Instrumentation)
    ensures if Accepts(l, env, LanguageVars(l, i))
            then AttributesLast(Injected(env, l, i)) else Injected(env, l, i) == env
  {
    AttributesAreLast(Merged(env, l, i), Resources(Merged(env, l, i), i), i);
  }

  /** Some injection of the sequence was accepted, by what the ones before it had made of the container. */
  ghost predicate AnyAccepted(env: Vars, rs: seq<Request>) {
    rs != [] &&
    var r, most := rs[|rs| - 1], rs[..|rs| - 1];
    AnyAccepted(env, most) || Accepts(r.language, InjectedAll(env, most), LanguageVars(r.language, r.inst))
  }

  /** After any sequence of injections, the resource attributes are last once one was accepted; else nothing changed. */
  lemma {:induction false} AttributesEndEveryRun(env: Vars, rs: seq<Request>)
    ensures if AnyAccepted(env, rs) then AttributesLast(InjectedAll(env, rs)) else InjectedAll(env, rs) == env
  {
    if rs == [] {
    } else {
      var r, most := rs[|rs| - 1], rs[..|rs| - 1];
      AttributesEndEveryRun(env, most);
      InjectionEnds(InjectedAll(env, most), r.language, r.inst);
    }
  }

  /** A variable the attributes may refer to is defined before them. */
  lemma HelpersPrecede(env: Vars, res: Attributes, i: Instrumentation, h: EnvVar)
    requires h in Helpers(res, i.addUid)
    ensures exists k :: 0 <= k < |Configured(env, res, i)| - 1 && Configured(env, res, i)[k].name == h.name
  {
    HelperIsSet(env, res, i, h);
    AttributesAreLast(env, res, i);
    FoundBeforeLast(Configured(env, res, i), h.name);
  }

  lemma FoundBeforeLast(f: Vars, n: string)
    requires Has(f, n) && n != f[|f| - 1].name
    ensures exists k :: 0 <= k < |f| - 1 && f[k].name == n
  {
  }

  lemma HelperIsSet(env: Vars, res: Attributes, i: Instrumentation, h: EnvVar)
    requires h in Helpers(res, i.addUid)
    ensures h.name != ATTRIBUTES && Has(Configured(env, res, i), h.name)
  {
    HelperIsNotAttributes(res, i.addUid, h);
    LookupConfigured(env, res, i, h.name);
    HelperIsDefault(res, i, h, Propagation(i) + Sampling(env, i));
  }

  lemma HelperIsNotAttributes(res: Attributes, addUid: bool, h: EnvVar)
    requires h in Helpers(res, addUid)
    ensures h.name != ATTRIBUTES
  {
    assert |ATTRIBUTES| == 24;
    HelperNames(res, addUid);
    HelpersAreLong();
  }

  lemma HelperIsDefault(res: Attributes, i: Instrumentation, h: EnvVar, more: Vars)
    requires h in Helpers(res, i.addUid)
    ensures Has(Description(res, i) + more, h.name)
  {
    assert Has(Helpers(res, i.addUid), h.name);
    LookupConcat(Service(res, i) + Export(i), Helpers(res, i.addUid), h.name);
    LookupConcat(Description(res, i), more, h.name);
  }

  lemma AttributesAreNotOwn(l: Language)
    ensures OwnFor(Owns(l), ATTRIBUTES) == None
  {
    assert |ATTRIBUTES| == 24 && ATTRIBUTES[0] == 'O' && PROFILING.name[0] == 'C';
    assert forall k :: 0 <= k < |Owns(l)| ==> Owns(l)[k].name != ATTRIBUTES;
    OwnForNone(Owns(l), ATTRIBUTES);
  }

  /** The variable whose text an injection takes for the container's attributes. */
  ghost function AttributesFound(env: Vars, l: Language, i: Instrumentation): Option<EnvVar> {
    OrElse(OrElse(Lookup(env, ATTRIBUTES), Lookup(LanguageVars(l, i), ATTRIBUTES)), Lookup(i.commonEnv, ATTRIBUTES))
  }

  lemma LookupAttributesFound(env: Vars, l: Language, i: Instrumentation)
    ensures Lookup(Merged(env, l, i), ATTRIBUTES) == AttributesFound(env, l, i)
  {
    AttributesAreNotOwn(l);
    LookupMerged(env, l, i, ATTRIBUTES);
  }

  /**
   * No language refuses a container that takes the attributes from elsewhere. Text is added all the same, so the
   * variable that ends the list has two sources exactly when the one that was found is a reference.
   */
  lemma AttributesHaveTwoSourcesIff(env: Vars, l: Language, i: Instrumentation)
    requires Accepts(l, env, LanguageVars(l, i))
    ensures var f, x := Injected(env, l, i), AttributesFound(env, l, i);
            AttributesLast(f) && (TwoSources(f[|f| - 1]) <==> IsReference(x))
  {
    var m := Merged(env, l, i);
    AttributesAreLast(m, Resources(m, i), i);
    LookupAttributesFound(env, l, i);
    AttributesVarSources(m, Printed(Completed(Resources(m, i), i.addUid)));
    LastSources(Injected(env, l, i), NewAttributes(m, Resources(m, i), i), AttributesFound(env, l, i));
  }

  ghost predicate TwoSources(e: EnvVar) {
    e.value != "" && e.valueFrom.Some?
  }

  ghost predicate IsReference(x: Option<EnvVar>) {
    x.Some? && x.value.valueFrom.Some?
  }

  lemma AttributesVarSources(env: Vars, text: string)
    ensures TwoSources(AttributesVar(env, text)) <==> IsReference(Lookup(env, ATTRIBUTES))
  {
  }

  lemma LastSources(f: Vars, e: EnvVar, x: Option<EnvVar>)
    requires EndsWithAttributes(f, e) && (TwoSources(e) <==> IsReference(x))
    ensures AttributesLast(f) && (TwoSources(f[|f| - 1]) <==> IsReference(x))
  {
  }

  // ------------------------------------------------------------------ which attributes the text defines

  /** The attributes a configuration looks up from the pod if it does not know them. */
  function PodKeys(addUid: bool): set<string> {
    {POD_NAME, NODE_NAME} + if addUid then {POD_UID} else {}
  }

  lemma PodKeysDiffer()
    ensures POD_NAME != POD_UID && POD_NAME != NODE_NAME && POD_UID != NODE_NAME
  {
    assert |POD_NAME| == 12 && |POD_UID| == 11 && |NODE_NAME| == 13;
  }

  lemma CompletedKeys(res: Attributes, addUid: bool)
    ensures Completed(res, addUid).Keys == res.Keys + PodKeys(addUid)
  {
    PodKeysDiffer();
  }

  /** The field of a pod that holds an attribute. */
  function FieldOf(k: string): string
    requires k in PodKeys(true)
  {
    if k == POD_NAME then "metadata.name" else if k == POD_UID then "metadata.uid" else "spec.nodeName"
  }

  /** An attribute of the pod that is not known refers to a variable that reads the right field; all else is kept. */
  lemma UnknownAttributesAreLookedUp(res: Attributes, addUid: bool, k: string)
    ensures if k in PodKeys(addUid) && Get(res, k) == ""
            then exists h :: h in Helpers(res, addUid) && h.valueFrom == Some(FieldOf(k)) &&
                             Get(Completed(res, addUid), k) == Ref(h.name)
            else Get(Completed(res, addUid), k) == Get(res, k)
  {
    PodKeysDiffer();
    var a, b, c := PodNameHelper(res), PodUidHelper(res, addUid), NodeNameHelper(res);
    assert forall h :: h in a || h in b || h in c ==> h in Helpers(res, addUid);
    if k in PodKeys(addUid) && Get(res, k) == "" {
      var h := if k == POD_NAME then a[0] else if k == NODE_NAME then c[0] else b[0];
      assert h in Helpers(res, addUid) && h.valueFrom == Some(FieldOf(k));
    }
  }

  /** The attributes a container defines that an injection defines once more: those that are looked up from the pod. */
  lemma RedefinedAttributes(env: Vars, i: Instrumentation)
    ensures Completed(Resources(env, i), i.addUid).Keys * Existing(env) == PodKeys(i.addUid) * Existing(env)
  {
    CompletedKeys(Resources(env, i), i.addUid);
  }

  lemma PodKeysArePlain()
    ensures forall k :: k in {POD_NAME, POD_UID, NODE_NAME} ==> PrintableEntry(k, "")
  {
  }

  lemma HelpersArePlain()
    ensures forall h :: h in HELPERS ==> ',' !in h && '=' !in h
  {
  }

  lemma RefsArePlain()
    ensures forall h :: h in HELPERS ==> ',' !in Ref(h) && '=' !in Ref(h)
  {
    HelpersArePlain();
    forall h | h in HELPERS ensures ',' !in Ref(h) && '=' !in Ref(h) {
      RefIsPlain(h);
    }
  }

  lemma RefIsPlain(name: string)
    requires ',' !in name && '=' !in name
    ensures ',' !in Ref(name) && '=' !in Ref(name)
  {
  }

  lemma CompletedIsPrintable(res: Attributes, addUid: bool)
    requires Printable(res)
    ensures Printable(Completed(res, addUid))
  {
    var c := Completed(res, addUid);
    PodKeysArePlain();
    RefsArePlain();
    forall k | k in c ensures PrintableEntry(k, c[k]) {
      if k in res && c[k] == res[k] {
        assert PrintableEntry(k, res[k]);
      } else {
        assert k in {POD_NAME, POD_UID, NODE_NAME} && PrintableEntry(k, "");
      }
    }
  }

  lemma CreatedIsPrintable(existing: set<string>, attributes: Attributes, k8s: Attributes)
    requires Printable(attributes) && Printable(k8s)
    ensures Printable(Created(existing, attributes, k8s))
  {
    var res := Created(existing, attributes, k8s);
    forall k | k in res ensures PrintableEntry(k, res[k]) {
      assert k in attributes ==> PrintableEntry(k, attributes[k]);
      assert k in k8s ==> PrintableEntry(k, k8s[k]);
    }
  }

  /** Afterwards the text defines what it defined before, the new attributes and those of the pod: nothing else. */
  lemma AttributesDefined(env: Vars, i: Instrumentation)
    requires Printable(i.attributes) && Printable(K8sResources(i.pod))
    ensures Keys(NewAttributes(env, Resources(env, i), i).value) ==
            Existing(env) + Resources(env, i).Keys + PodKeys(i.addUid)
  {
    var res := Resources(env, i);
    var c := Completed(res, i.addUid);
    CreatedIsPrintable(Existing(env), i.attributes, K8sResources(i.pod));
    CompletedIsPrintable(res, i.addUid);
    CompletedKeys(res, i.addUid);
    PrintedKeys(c);
    TextKeys(env, Printed(c));
  }

  lemma TextKeys(env: Vars, text: string)
    ensures Keys(AttributesVar(env, text).value) == Existing(env) + Keys(text)
  {
    if Has(env, ATTRIBUTES) { JoinedKeys(Lookup(env, ATTRIBUTES).value.value, text); }
  }

  // ------------------------------------------------------------------ the Go agent

  /** Who wins a name in the agent: the pod's annotation, the language's variables, the common ones, the defaults. */
  lemma GoPrecedence(observed: Vars, g: GoPod, i: Instrumentation, n: string)
    requires n != ATTRIBUTES
    ensures Lookup(GoAgent(observed, g, i), n) ==
            OrElse(OrElse(OrElse(Lookup(ExecPath(g), n), Lookup(i.languageEnv, n)), Lookup(i.commonEnv, n)),
                   Lookup(Defaults(GoMerged(g, i), Resources(observed, i), i), n))
  {
    LookupEnsuredAll(ExecPath(g), i.languageEnv, n);
    LookupEnsuredAll(EnsuredAll(ExecPath(g), i.languageEnv), i.commonEnv, n);
    LookupConfigured(GoMerged(g, i), Resources(observed, i), i, n);
  }

  /**
   * The agent is kept exactly when processes may be shared, no two containers are meant, and the annotation or one of
   * the two lists names a target.
   */
  lemma GoKeptIff(observed: Vars, g: GoPod, i: Instrumentation)
    ensures GoKept(observed, g, i) <==>
            && g.shareProcesses != Some(false) && (g.containerNames.Some? ==> ',' !in g.containerNames.value)
            && (g.execPath.Some? || Has(i.languageEnv, TARGET_EXE) || Has(i.commonEnv, TARGET_EXE))
  {
    assert |TARGET_EXE| == 23 && |ATTRIBUTES| == 24;
    if g.containerNames.Some? { PiecesCountSeparators(g.containerNames.value, ','); }
    GoPrecedence(observed, g, i, TARGET_EXE);
    TargetIsNoDefault(GoMerged(g, i), Resources(observed, i), i);
    ExecPathHas(g);
  }

  lemma ExecPathHas(g: GoPod)
    ensures Has(ExecPath(g), TARGET_EXE) <==> g.execPath.Some?
  {
    if g.execPath.Some? { assert ExecPath(g)[0].name == TARGET_EXE; }
  }

  lemma TargetIsNoDefault(env: Vars, res: Attributes, i: Instrumentation)
    ensures Lookup(Defaults(env, res, i), TARGET_EXE) == None
  {
    assert |TARGET_EXE| == 23 && |PROPAGATORS| == 16 && |SAMPLER| == 19;
    assert TARGET_EXE[5] == 'G' && SAMPLER_ARG[5] == 'T';
    NotInDescription(res, i, TARGET_EXE);
    assert !Has(Propagation(i), TARGET_EXE) && !Has(Sampling(env, i), TARGET_EXE);
    LookupConcat(Propagation(i), Sampling(env, i), TARGET_EXE);
    LookupConcat(Description(res, i), Propagation(i) + Sampling(env, i), TARGET_EXE);
  }

  /** The agent's attributes come last too. */
  lemma GoAttributesAreLast(observed: Vars, g: GoPod, i: Instrumentation)
    ensures AttributesLast(GoAgent(observed, g, i))
  {
    AttributesAreLast(GoMerged(g, i), Resources(observed, i), i);
  }
}
