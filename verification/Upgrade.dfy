/** The upgrade chain that brings an instance from the version it was last managed by to the operator's version. */
module Upgrade {
  import opened Semver

  /** The version recorded in an instance's status: none yet, text that is no version, or a version. */
  datatype Stamp = Unset | Malformed(text: string) | At(version: Version)

  datatype Otelcol<S> = Otelcol(spec: S, version: Stamp)

  /** An upgrade step changes the spec it is given, also when it reports an error. */
  datatype Change<S> = Done(spec: S) | Broken(spec: S)

  datatype Entry<!S> = Entry(version: Version, upgrade: S -> Change<S>)

  datatype Result<S> = Result(otelcol: Otelcol<S>, ok: bool)

  ghost predicate Increasing<S>(table: seq<Entry<S>>) {
    forall i, j :: 0 <= i < j < |table| ==> Less(table[i].version, table[j].version)
  }

  /** The entries newer than a version, in table order. */
  ghost function Newer<S>(table: seq<Entry<S>>, v: Version): seq<Entry<S>> {
    if table == [] then []
    else (if Less(v, table[0].version) then [table[0]] else []) + Newer(table[1..], v)
  }

  ghost function Versions<S>(entries: seq<Entry<S>>): seq<Version> {
    seq(|entries|, i requires 0 <= i < |entries| => entries[i].version)
  }

  /** Runs upgrade steps one after the other, stamping each version reached, up to the first error. */
  ghost function Apply<S>(entries: seq<Entry<S>>, o: Otelcol<S>): Result<S> {
    if entries == [] then Result(o, true)
    else match entries[0].upgrade(o.spec)
      case Done(spec) => Apply(entries[1..], Otelcol(spec, At(entries[0].version)))
      case Broken(spec) => Result(o.(spec := spec), false)
  }

  /** An instance that the table has steps to look at: it has a version, not above the latest entry. */
  ghost predicate Due<S>(table: seq<Entry<S>>, o: Otelcol<S>)
    requires table != []
  {
    o.version.At? && !Less(table[|table| - 1].version, o.version.version)
  }

  ghost function Managed<S>(table: seq<Entry<S>>, operator: Stamp, o: Otelcol<S>): Result<S>
    requires table != []
  {
    if o.version.Malformed? then Result(o, false)
    else if !Due(table, o) then Result(o, true)
    else
      var r := Apply(Newer(table, o.version.version), o);
      if r.ok then Result(r.otelcol.(version := operator), true) else r
  }

  /** The steps a run attempts: all of these if it succeeds, the first few of them otherwise. */
  ghost function Steps<S>(table: seq<Entry<S>>, o: Otelcol<S>): seq<Version>
    requires table != []
  {
    if Due(table, o) then Versions(Newer(table, o.version.version)) else []
  }

  /** The version an instance bears after steps: that of the last one. */
  function StampAfter(first: Stamp, applied: seq<Version>): Stamp {
    if applied == [] then first else At(applied[|applied| - 1])
  }

  method ManagedInstance<S>(table: seq<Entry<S>>, operator: Stamp, instance: Otelcol<S>)
    returns (result: Result<S>, ghost applied: seq<Version>)
    requires table != []
    ensures result == Managed(table, operator, instance)
    ensures applied <= Steps(table, instance)
    ensures result.ok ==> applied == Steps(table, instance)
    ensures instance.version.Unset? ==> result == Result(instance, true)
    ensures instance.version.Malformed? ==> result == Result(instance, false)
    ensures instance.version.At? ==>
              if Less(table[|table| - 1].version, instance.version.version) then result == Result(instance, true)
              else result.otelcol.version == if result.ok then operator else StampAfter(instance.version, applied)
  {
    applied := [];
    match instance.version {
      case Unset =>
        return Result(instance, true), [];
      case Malformed(_) =>
        return Result(instance, false), [];
      case At(instanceV) =>
        if Less(table[|table| - 1].version, instanceV) {
          return Result(instance, true), [];
        }
        result, applied := RunSteps(table, instanceV, instance);
        if result.ok {
          result := Result(result.otelcol.(version := operator), true);
        }
    }
  }

  /** The loop over the table, up to the first error. */
  method RunSteps<S>(table: seq<Entry<S>>, instanceV: Version, instance: Otelcol<S>)
    returns (result: Result<S>, ghost applied: seq<Version>)
    ensures result == Apply(Newer(table, instanceV), instance)
    ensures applied <= Versions(Newer(table, instanceV))
    ensures result.ok ==> applied == Versions(Newer(table, instanceV))
    ensures result.otelcol.version == StampAfter(instance.version, applied)
  {
    applied := [];
    var otelcol := instance;
    var i := 0;
    assert table[0..] == table;
    while i < |table|
      invariant 0 <= i <= |table|
      invariant Apply(Newer(table, instanceV), instance) == Apply(Newer(table[i..], instanceV), otelcol)
      invariant applied + Versions(Newer(table[i..], instanceV)) == Versions(Newer(table, instanceV))
      invariant otelcol.version == StampAfter(instance.version, applied)
    {
      var available := table[i];
      NewerStep(table, i, instanceV);
      if Less(instanceV, available.version) {
        match available.upgrade(otelcol.spec) {
          case Broken(spec) =>
            return Result(otelcol.(spec := spec), false), applied;
          case Done(spec) =>
            otelcol := Otelcol(spec, At(available.version));
            applied := applied + [available.version];
        }
      }
      i := i + 1;
    }
    assert applied + [] == applied;
    result := Result(otelcol, true);
  }

  lemma NewerStep<S>(table: seq<Entry<S>>, i: nat, v: Version)
    requires i < |table|
    ensures var rest := Newer(table[i + 1..], v);
            if Less(v, table[i].version)
            then Newer(table[i..], v) == [table[i]] + rest &&
                 Versions(Newer(table[i..], v)) == [table[i].version] + Versions(rest)
            else Newer(table[i..], v) == rest
  {
    assert table[i..][1..] == table[i + 1..];
    if Less(v, table[i].version) {
      var rest := Newer(table[i + 1..], v);
      assert Newer(table[i..], v) == [table[i]] + rest;
    }
  }

  // ------------------------------------------------------------------ the table

  /** The versions the operator has upgrade steps for. */
  const VERSIONS: seq<Version> := [
    Version(0, 2, 10, []), Version(0, 9, 0, []), Version(0, 15, 0, []), Version(0, 19, 0, []), Version(0, 24, 0, []),
    Version(0, 31, 0, []), Version(0, 36, 0, []), Version(0, 38, 0, []), Version(0, 39, 0, []), Version(0, 41, 0, []),
    Version(0, 43, 0, []), Version(0, 56, 0, []), Version(0, 57, 2, []), Version(0, 61, 0, [])
  ]

  lemma TableIsIncreasing<S>(table: seq<Entry<S>>)
    requires Versions(table) == VERSIONS
    ensures Increasing(table)
  {
    forall i, j | 0 <= i < j < |table| ensures Less(table[i].version, table[j].version) {
      assert Versions(table)[i] == table[i].version && Versions(table)[j] == table[j].version;
      assert VERSIONS[i].minor < VERSIONS[j].minor;
    }
  }

  // ------------------------------------------------------------------ which steps, and in which order

  /** In an increasing table the newer entries are the tail from some point on: each once, in order, none skipped. */
  lemma {:induction false} NewerIsTail<S>(table: seq<Entry<S>>, v: Version) returns (k: nat)
    requires Increasing(table)
    ensures k <= |table| && Newer(table, v) == table[k..]
    ensures forall j :: 0 <= j < |table| ==> (j < k <==> !Less(v, table[j].version))
    decreases |table|
  {
    if table == [] {
      k := 0;
    } else if Less(v, table[0].version) {
      AllNewer(table, v);
      k := 0;
      forall j | 0 <= j < |table| ensures Less(v, table[j].version) {
        if j > 0 { LessTransitive(v, table[0].version, table[j].version); }
      }
    } else {
      var rest := table[1..];
      var k' := NewerIsTail(rest, v);
      k := k' + 1;
      assert rest[k'..] == table[k..];
      forall j | 0 <= j < |table| ensures j < k <==> !Less(v, table[j].version) {
        if j > 0 { assert table[j] == rest[j - 1]; }
      }
    }
  }

  lemma {:induction false} AllNewer<S>(table: seq<Entry<S>>, v: Version)
    requires Increasing(table) && (table != [] ==> Less(v, table[0].version))
    ensures Newer(table, v) == table
    decreases |table|
  {
    if table == [] {
    } else {
      if |table| > 1 { LessTransitive(v, table[0].version, table[1].version); }
      AllNewer(table[1..], v);
      assert table == [table[0]] + table[1..];
    }
  }

  /** A run with the operator's own stamp attempts no step exactly when the operator is at least at the latest entry. */
  lemma SecondRunIsIdle<S>(table: seq<Entry<S>>, v: Version, spec: S)
    requires table != [] && Increasing(table)
    ensures Steps(table, Otelcol(spec, At(v))) == [] <==> !Less(v, table[|table| - 1].version)
  {
    var latest := table[|table| - 1].version;
    var k := NewerIsTail(table, v);
    LessTotal(v, latest);
    var o := Otelcol(spec, At(v));
    if Less(v, latest) {
      assert Due(table, o);
      assert |Versions(Newer(table, v))| == |table| - k > 0;
    }
  }

  // ------------------------------------------------------------------ what a run leaves

  /** The specs a run goes through: each successful step takes one to the next. */
  ghost predicate Trace<S>(entries: seq<Entry<S>>, first: S, specs: seq<S>) {
    && 1 <= |specs| <= |entries| + 1 && specs[0] == first
    && forall j :: 0 <= j < |specs| - 1 ==> entries[j].upgrade(specs[j]) == Done(specs[j + 1])
  }

  /** How it ends: after the last step, or at the step that broke, whose spec is kept with the last good version. */
  ghost predicate Ends<S>(entries: seq<Entry<S>>, o: Otelcol<S>, specs: seq<S>, r: Result<S>)
    requires 1 <= |specs| <= |entries| + 1
  {
    var n := |specs| - 1;
    && (r.ok <==> n == |entries|)
    && r.otelcol.version == (if n == 0 then o.version else At(entries[n - 1].version))
    && if r.ok then r.otelcol.spec == specs[n] else entries[n].upgrade(specs[n]) == Broken(r.otelcol.spec)
  }

  lemma {:induction false} ApplyTrace<S>(entries: seq<Entry<S>>, o: Otelcol<S>) returns (specs: seq<S>)
    ensures Trace(entries, o.spec, specs) && Ends(entries, o, specs, Apply(entries, o))
    decreases |entries|
  {
    if entries == [] {
      specs := [o.spec];
    } else {
      match entries[0].upgrade(o.spec)
      case Broken(_) => specs := [o.spec];
      case Done(spec) =>
        var rest := ApplyTrace(entries[1..], Otelcol(spec, At(entries[0].version)));
        specs := [o.spec] + rest;
        assert forall j :: 0 < j < |specs| - 1 ==> entries[1..][j - 1] == entries[j] && specs[j] == rest[j - 1];
    }
  }

  /**
   A run on an instance that is not above the latest entry: from the first entry above its version on, every entry is
   run on the spec the one before left. A success bears the operator's version; a failure that of the last good step.
   */
  lemma RunOfDueInstance<S>(table: seq<Entry<S>>, operator: Stamp, o: Otelcol<S>) returns (k: nat, specs: seq<S>)
    requires table != [] && Increasing(table)
    requires o.version.At? && !Less(table[|table| - 1].version, o.version.version)
    ensures k <= |table| && forall j :: 0 <= j < |table| ==> (j < k <==> !Less(o.version.version, table[j].version))
    ensures Trace(table[k..], o.spec, specs)
    ensures var r, n := Managed(table, operator, o), |specs| - 1;
            && (r.ok <==> n == |table| - k)
            && (r.ok ==> r.otelcol == Otelcol(specs[n], operator))
            && (!r.ok ==> && table[k + n].upgrade(specs[n]) == Broken(r.otelcol.spec)
                          && r.otelcol.version == if n == 0 then o.version else At(table[k + n - 1].version))
  {
    k := NewerIsTail(table, o.version.version);
    specs := ApplyTrace(table[k..], o);
  }

  /** An instance without a version, or above the latest entry, is left alone; so is one whose version is no version. */
  lemma RunOfOtherInstance<S>(table: seq<Entry<S>>, operator: Stamp, o: Otelcol<S>)
    requires table != []
    requires o.version.At? ==> Less(table[|table| - 1].version, o.version.version)
    ensures Managed(table, operator, o) == Result(o, !o.version.Malformed?)
  {
  }

  /** Managing an instance again changes nothing, unless the operator itself is below the latest entry. */
  lemma ManagedTwice<S>(table: seq<Entry<S>>, operator: Stamp, o: Otelcol<S>)
    requires table != [] && Increasing(table) && Managed(table, operator, o).ok
    requires operator.At? ==> !Less(operator.version, table[|table| - 1].version)
    ensures var once := Managed(table, operator, o).otelcol;
            Managed(table, operator, once) == Result(once, !once.version.Malformed?)
  {
    var once := Managed(table, operator, o).otelcol;
    if once.version.At? && Due(table, once) {
      var latest := table[|table| - 1].version;
      assert once.version == operator;
      LessTotal(operator.version, latest);
      NothingNewer(table);
    }
  }

  lemma NothingNewer<S>(table: seq<Entry<S>>)
    requires table != [] && Increasing(table)
    ensures Newer(table, table[|table| - 1].version) == []
  {
    var latest := table[|table| - 1].version;
    var k := NewerIsTail(table, latest);
    LessTotal(latest, latest);
    assert |table| - 1 < k;
  }

  // ------------------------------------------------------------------ stopping on the way

  /** What the steps do to the spec does not depend on the stamp they start from. */
  lemma {:induction false} StampIsIrrelevant<S>(entries: seq<Entry<S>>, spec: S, a: Stamp, b: Stamp)
    ensures Apply(entries, Otelcol(spec, a)).ok == Apply(entries, Otelcol(spec, b)).ok
    ensures Apply(entries, Otelcol(spec, a)).otelcol.spec == Apply(entries, Otelcol(spec, b)).otelcol.spec
  {
  }

  lemma {:induction false} ApplyConcat<S>(first: seq<Entry<S>>, second: seq<Entry<S>>, o: Otelcol<S>)
    ensures var r := Apply(first, o);
            Apply(first + second, o) == if r.ok then Apply(second, r.otelcol) else r
    decreases |first|
  {
    if first == [] {
      assert first + second == second;
    } else {
      assert (first + second)[1..] == first[1..] + second;
      match first[0].upgrade(o.spec)
      case Done(spec) => ApplyConcat(first[1..], second, Otelcol(spec, At(first[0].version)));
      case Broken(_) =>
    }
  }

  lemma {:induction false} NewerConcat<S>(a: seq<Entry<S>>, b: seq<Entry<S>>, v: Version)
    ensures Newer(a + b, v) == Newer(a, v) + Newer(b, v)
    decreases |a|
  {
    if a == [] {
      assert a + b == b;
    } else {
      assert (a + b)[1..] == a[1..] + b;
      NewerConcat(a[1..], b, v);
    }
  }

  /** An operator release between two: it knows the first `k` entries, and its version cuts the table there. */
  ghost predicate Release<S>(table: seq<Entry<S>>, k: nat, release: Version)
    requires k <= |table|
  {
    && (forall j :: 0 <= j < k ==> !Less(release, table[j].version))
    && (forall j :: k <= j < |table| ==> Less(release, table[j].version))
  }

  lemma NewerThanRelease<S>(table: seq<Entry<S>>, k: nat, release: Version)
    requires Increasing(table) && k <= |table| && Release(table, k, release)
    ensures Newer(table, release) == table[k..]
  {
    var k' := NewerIsTail(table, release);
    assert k < |table| ==> Less(release, table[k].version);
    assert k' < |table| ==> Less(release, table[k'].version);
    assert k == k';
  }

  /** The steps of a direct upgrade are those of the first one, followed by all the entries it did not know. */
  lemma DirectSteps<S>(table: seq<Entry<S>>, k: nat, v: Version, o: Otelcol<S>)
    requires Increasing(table) && 1 <= k <= |table| && !Less(table[k - 1].version, v)
    ensures var r := Apply(Newer(table[..k], v), o);
            Apply(Newer(table, v), o) == if r.ok then Apply(table[k..], r.otelcol) else r
  {
    var early, tail := table[..k], table[k..];
    assert table == early + tail;
    NewerConcat(early, tail, v);
    if k < |table| { NotLessTransitive(v, table[k - 1].version, tail[0].version); }
    AllNewer(tail, v);
    ApplyConcat(Newer(early, v), tail, o);
  }

  lemma NoStepsBeyond<S>(table: seq<Entry<S>>, k: nat, release: Version)
    requires 1 <= k <= |table| && Release(table, k, release) && Less(table[|table| - 1].version, release)
    ensures table[k..] == []
  {
    LessTotal(table[|table| - 1].version, release);
  }

  /** What the second upgrade does to an instance that the release has just stamped. */
  lemma Resumed<S>(table: seq<Entry<S>>, k: nat, release: Version, operator: Stamp, spec: S, stamp: Stamp)
    requires Increasing(table) && 1 <= k <= |table| && Release(table, k, release)
    ensures var there := Managed(table, operator, Otelcol(spec, At(release)));
            var rest := Apply(table[k..], Otelcol(spec, stamp));
            there.ok == rest.ok && there.otelcol.spec == rest.otelcol.spec
  {
    NewerThanRelease(table, k, release);
    StampIsIrrelevant(table[k..], spec, stamp, At(release));
    if Less(table[|table| - 1].version, release) { NoStepsBeyond(table, k, release); }
  }

  /** Upgrading to an intermediate release first, and then further, gives the same spec as upgrading directly. */
  lemma StoppingOnTheWay<S>(table: seq<Entry<S>>, k: nat, release: Version, operator: Stamp, o: Otelcol<S>)
    requires Increasing(table) && 1 <= k <= |table| && Release(table, k, release)
    requires Managed(table[..k], At(release), o).ok
    ensures var there := Managed(table, operator, Managed(table[..k], At(release), o).otelcol);
            var direct := Managed(table, operator, o);
            there.ok == direct.ok && there.otelcol.spec == direct.otelcol.spec
  {
    if Due(table[..k], o) {
      var v := o.version.version;
      DueInLonger(table, k, v);
      DirectSteps(table, k, v, o);
      var mid := Apply(Newer(table[..k], v), o).otelcol;
      Resumed(table, k, release, operator, mid.spec, mid.version);
    }
  }

  lemma DueInLonger<S>(table: seq<Entry<S>>, k: nat, v: Version)
    requires Increasing(table) && 1 <= k <= |table| && !Less(table[k - 1].version, v)
    ensures !Less(table[|table| - 1].version, v)
  {
    var latest := table[|table| - 1].version;
    if k < |table| && Less(latest, v) {
      LessTransitive(table[k - 1].version, latest, v);
    }
  }
}
