/** A container's list of environment variables, and the edits an injection makes to it. */
module Env {
  import opened Options

  /** A variable holds a value, or takes it from a field of the pod. */
  datatype EnvVar = EnvVar(name: string, value: string, valueFrom: Option<string>)

  type Vars = seq<EnvVar>

  function Var(name: string, value: string): EnvVar {
    EnvVar(name, value, None)
  }

  predicate Has(env: Vars, name: string) {
    exists i :: 0 <= i < |env| && env[i].name == name
  }

  /** The position of the first variable of a name, or -1. */
  method GetIndexOfEnv(env: Vars, name: string) returns (idx: int)
    ensures idx == -1 <==> !Has(env, name)
    ensures idx != -1 ==> 0 <= idx < |env| && IsFirst(env, name, idx)
  {
    for i := 0 to |env|
      invariant forall j :: 0 <= j < i ==> env[j].name != name
    {
      if env[i].name == name {
        return i;
      }
    }
    return -1;
  }

  ghost predicate IsFirst(env: Vars, name: string, i: nat) {
    i < |env| && env[i].name == name && forall j :: 0 <= j < i ==> env[j].name != name
  }

  /** What an injection finds under a name: its first variable. */
  ghost function Lookup(env: Vars, name: string): Option<EnvVar> {
    if Has(env, name) then Some(env[First(env, name)]) else None
  }

  ghost function First(env: Vars, name: string): (i: nat)
    requires Has(env, name)
    ensures IsFirst(env, name, i)
  {
    if env[0].name == name then 0
    else
      assert Has(env[1..], name) by {
        var i :| 0 <= i < |env| && env[i].name == name;
        assert env[1..][i - 1] == env[i];
      }
      First(env[1..], name) + 1
  }

  lemma FirstIsUnique(env: Vars, name: string, i: nat)
    requires IsFirst(env, name, i)
    ensures Has(env, name) && First(env, name) == i && Lookup(env, name) == Some(env[i])
  {
  }

  // ------------------------------------------------------------------ edits

  /** Appends a variable unless its name is taken. */
  ghost function Ensured(env: Vars, e: EnvVar): Vars {
    if Has(env, e.name) then env else env + [e]
  }

  ghost function EnsuredAll(env: Vars, es: Vars): Vars
    decreases |es|
  {
    if es == [] then env else EnsuredAll(Ensured(env, es[0]), es[1..])
  }

  /** Replaces the value of the first variable of a name. */
  ghost function Revalued(env: Vars, name: string, value: string): Vars
    requires Has(env, name)
  {
    env[First(env, name) := env[First(env, name)].(value := value)]
  }

  function Moved(env: Vars, i: nat): Vars
    requires i < |env|
  {
    env[..i] + env[i + 1..] + [env[i]]
  }

  ghost function MovedLast(env: Vars, name: string): Vars {
    if Has(env, name) then Moved(env, First(env, name)) else env
  }

  // ------------------------------------------------------------------ what an edit does to one name

  lemma LookupAppend(env: Vars, e: EnvVar, n: string)
    ensures Lookup(env + [e], n) == if Has(env, n) then Lookup(env, n) else if e.name == n then Some(e) else None
  {
    var env' := env + [e];
    if Has(env, n) {
      var i := First(env, n);
      assert IsFirst(env', n, i);
      FirstIsUnique(env', n, i);
    } else if e.name == n {
      assert env'[|env|].name == n;
      assert IsFirst(env', n, |env|);
      FirstIsUnique(env', n, |env|);
    } else {
      assert !Has(env', n);
    }
  }

  lemma LookupEnsured(env: Vars, e: EnvVar, n: string)
    ensures Lookup(Ensured(env, e), n) == OrElse(Lookup(env, n), if e.name == n then Some(e) else None)
  {
    LookupAppend(env, e, n);
  }

  function OrElse(a: Option<EnvVar>, b: Option<EnvVar>): Option<EnvVar> {
    if a.Some? then a else b
  }

  lemma LookupCons(e: EnvVar, es: Vars, n: string)
    ensures Lookup([e] + es, n) == if e.name == n then Some(e) else Lookup(es, n)
  {
    var env := [e] + es;
    if e.name == n {
      assert IsFirst(env, n, 0);
      FirstIsUnique(env, n, 0);
    } else if Has(es, n) {
      var i := First(es, n);
      assert IsFirst(env, n, i + 1);
      FirstIsUnique(env, n, i + 1);
    } else {
      assert !Has(env, n);
    }
  }

  /** Layering a list under the variables already there: the earlier layer wins. */
  lemma {:induction false} LookupEnsuredAll(env: Vars, es: Vars, n: string)
    ensures Lookup(EnsuredAll(env, es), n) == OrElse(Lookup(env, n), Lookup(es, n))
    decreases |es|
  {
    if es == [] {
    } else {
      LookupEnsured(env, es[0], n);
      LookupEnsuredAll(Ensured(env, es[0]), es[1..], n);
      assert es == [es[0]] + es[1..];
      LookupCons(es[0], es[1..], n);
    }
  }

  lemma LookupConcat(env: Vars, es: Vars, n: string)
    ensures Lookup(env + es, n) == OrElse(Lookup(env, n), Lookup(es, n))
  {
    var env' := env + es;
    if Has(env, n) {
      var i := First(env, n);
      assert IsFirst(env', n, i);
      FirstIsUnique(env', n, i);
    } else if Has(es, n) {
      var i := First(es, n);
      assert forall j :: |env| <= j < |env| + i ==> env'[j] == es[j - |env|];
      assert IsFirst(env', n, |env| + i);
      FirstIsUnique(env', n, |env| + i);
    } else {
      assert !Has(env', n);
    }
  }

  lemma LookupMovedLast(env: Vars, name: string, n: string)
    requires n != name
    ensures Lookup(MovedLast(env, name), n) == Lookup(env, n)
  {
    if Has(env, name) {
      var k := First(env, name);
      var before, after := env[..k], env[k + 1..];
      assert env == before + ([env[k]] + after);
      LookupConcat(before, [env[k]] + after, n);
      LookupCons(env[k], after, n);
      LookupAppend(before + after, env[k], n);
      LookupConcat(before, after, n);
    }
  }

  lemma LookupRevalued(env: Vars, name: string, value: string, n: string)
    requires Has(env, name)
    ensures Lookup(Revalued(env, name, value), n) ==
            if n == name then Some(Lookup(env, name).value.(value := value)) else Lookup(env, n)
  {
    var env' := Revalued(env, name, value);
    forall j | 0 <= j < |env| ensures env'[j].name == env[j].name {}
    if Has(env, n) {
      var i := First(env, n);
      assert IsFirst(env', n, i);
      FirstIsUnique(env', n, i);
    } else {
      assert !Has(env', n);
    }
  }

  // ------------------------------------------------------------------ what an edit keeps of the whole list

  /** The variables whose names are outside `names`, in order. */
  ghost function Without(env: Vars, names: set<string>): Vars {
    if env == [] then []
    else
      var rest := Without(env[..|env| - 1], names);
      if env[|env| - 1].name in names then rest else rest + [env[|env| - 1]]
  }

  lemma WithoutAppend(env: Vars, e: EnvVar, names: set<string>)
    ensures Without(env + [e], names) == Without(env, names) + (if e.name in names then [] else [e])
  {
    assert (env + [e])[..|env|] == env;
  }

  lemma {:induction false} WithoutConcat(a: Vars, b: Vars, names: set<string>)
    ensures Without(a + b, names) == Without(a, names) + Without(b, names)
    decreases |b|
  {
    if b == [] {
      assert a + b == a;
    } else {
      var most, last := b[..|b| - 1], b[|b| - 1];
      WithoutConcat(a, most, names);
      assert a + b == (a + most) + [last];
      WithoutAppend(a + most, last, names);
    }
  }

  /** Editing or moving a variable of one of the names leaves the others where they are. */
  lemma WithoutUpdate(env: Vars, i: nat, e: EnvVar, names: set<string>)
    requires i < |env| && env[i].name in names && e.name in names
    ensures Without(env[i := e], names) == Without(env, names)
    ensures Without(Moved(env, i), names) == Without(env, names)
  {
    var before, after := env[..i], env[i + 1..];
    assert env == before + [env[i]] + after && env[i := e] == before + [e] + after;
    WithoutConcat(before + [env[i]], after, names);
    WithoutConcat(before + [e], after, names);
    WithoutAppend(before, env[i], names);
    WithoutAppend(before, e, names);
    WithoutAppend(before + after, env[i], names);
    WithoutConcat(before, after, names);
  }

  /** No name outside `free` occurs twice. */
  ghost predicate Unique(env: Vars, free: set<string>) {
    forall i, j :: 0 <= i < j < |env| && env[i].name == env[j].name ==> env[i].name in free
  }

  lemma UniqueAppend(env: Vars, e: EnvVar, free: set<string>)
    requires Unique(env, free) && (e.name in free || !Has(env, e.name))
    ensures Unique(env + [e], free)
  {
  }

  lemma UniqueUpdate(env: Vars, i: nat, e: EnvVar, free: set<string>)
    requires Unique(env, free) && i < |env| && e.name == env[i].name
    ensures Unique(env[i := e], free)
  {
  }

  lemma UniqueMoved(env: Vars, i: nat, free: set<string>)
    requires Unique(env, free) && i < |env|
    ensures Unique(Moved(env, i), free)
  {
    var env' := Moved(env, i);
    forall a, b | 0 <= a < b < |env'| && env'[a].name == env'[b].name ensures env'[a].name in free {
      var a' := if a < i then a else a + 1;
      var b' := if b < i then b else if b < |env| - 1 then b + 1 else i;
      assert env'[a] == env[a'] && env'[b] == env[b'];
      if a' < b' { assert env[a'].name == env[b'].name; } else { assert env[b'].name == env[a'].name; }
    }
  }
}
