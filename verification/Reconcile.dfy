/** Reconciliation of the workload objects of an instance: stateful sets, and daemon sets as those without claims. */
module Reconcile {
  import opened Options
  import Naming

  type Labels = map<string, string>

  /** A volume claim template; `rest` is everything of its spec except the volume mode. */
  datatype Claim = Claim(name: string, annotations: Labels, mode: Option<string>, rest: string)

  /** A workload spec; `rest` is everything except selector and claim templates. A daemon set has no claims. */
  datatype Spec = Spec(selector: Labels, claims: seq<Claim>, rest: string)

  datatype Object = Object(labels: Labels, annotations: Labels, owner: string, spec: Spec)

  datatype Id = Id(namespace: string, name: string)

  type Store = map<Id, Object>

  /** An instance and the object its builder produces; `wanted` when the instance's mode is the one of this object. */
  datatype Instance = Instance(namespace: string, name: string, wanted: bool, objectName: string, desired: Object) {
    function ObjectId(): Id {
      Id(namespace, objectName)
    }
  }

  const INSTANCE := "app.kubernetes.io/instance"
  const MANAGED_BY := "app.kubernetes.io/managed-by"
  const OPERATOR := "opentelemetry-operator"

  /** The label value the builder writes, and the one the clean-up looks for. */
  ghost function BuiltLabel(i: Instance): string {
    Naming.Truncated(Naming.Dotted(), 63, [Naming.Str(i.namespace), Naming.Str(i.name)])
  }

  function ListedLabel(i: Instance): string {
    i.namespace + "." + i.name
  }

  ghost predicate WellBuilt(i: Instance) {
    && INSTANCE in i.desired.labels && i.desired.labels[INSTANCE] == BuiltLabel(i)
    && MANAGED_BY in i.desired.labels && i.desired.labels[MANAGED_BY] == OPERATOR
  }

  predicate Labelled(o: Object, instance: string) {
    && INSTANCE in o.labels && o.labels[INSTANCE] == instance
    && MANAGED_BY in o.labels && o.labels[MANAGED_BY] == OPERATOR
  }

  // ------------------------------------------------------------------ comparing claims

  predicate Unset(mode: Option<string>) {
    mode.None? || mode.value == ""
  }

  /** The mode the API server reports for a claim that does not set one counts as the desired one. */
  function FillFrom(desired: Claim, existing: Claim): Claim {
    if Unset(desired.mode) then desired.(mode := existing.mode) else desired
  }

  function FillAll(desired: seq<Claim>, existing: seq<Claim>): seq<Claim>
    requires |desired| == |existing|
  {
    seq(|desired|, i requires 0 <= i < |desired| => FillFrom(desired[i], existing[i]))
  }

  ghost predicate ClaimsChanged(desired: seq<Claim>, existing: seq<Claim>) {
    |desired| != |existing| || FillAll(desired, existing) != existing
  }

  /** Two claims differ: in name, annotations or the rest of the spec, or in a mode that the desired one does set. */
  ghost predicate ClaimDiffers(desired: Claim, existing: Claim) {
    || desired.name != existing.name || desired.annotations != existing.annotations || desired.rest != existing.rest
    || (desired.mode.Some? && desired.mode.value != "" && desired.mode != existing.mode)
  }

  ghost predicate ClaimsDiffer(desired: seq<Claim>, existing: seq<Claim>) {
    |desired| != |existing| || exists j :: 0 <= j < |desired| && ClaimDiffers(desired[j], existing[j])
  }

  lemma ClaimsChangedIff(desired: seq<Claim>, existing: seq<Claim>)
    ensures ClaimsChanged(desired, existing) <==> ClaimsDiffer(desired, existing)
  {
    if |desired| == |existing| {
      forall j | 0 <= j < |desired|
        ensures FillFrom(desired[j], existing[j]) == existing[j] <==> !ClaimDiffers(desired[j], existing[j])
      {
        FilledIff(desired[j], existing[j]);
      }
      var filled := FillAll(desired, existing);
      assert filled == existing <==> forall j :: 0 <= j < |desired| ==> filled[j] == existing[j];
    }
  }

  lemma FilledIff(desired: Claim, existing: Claim)
    ensures FillFrom(desired, existing) == existing <==> !ClaimDiffers(desired, existing)
  {
  }

  /** Fills modes in place and compares, claim by claim, stopping at the first difference. */
  method HasVolumeClaimsTemplatesChanged(desired: seq<Claim>, existing: seq<Claim>)
    returns (changed: bool, filled: seq<Claim>)
    ensures changed <==> ClaimsDiffer(desired, existing)
    ensures !changed ==> filled == existing
  {
    filled := desired;
    if |desired| != |existing| {
      return true, filled;
    }
    for i := 0 to |desired|
      invariant |filled| == |desired|
      invariant forall j :: 0 <= j < i ==> filled[j] == existing[j] && !ClaimDiffers(desired[j], existing[j])
      invariant forall j :: i <= j < |desired| ==> filled[j] == desired[j]
    {
      if Unset(filled[i].mode) {
        filled := filled[i := filled[i].(mode := existing[i].mode)];
      }
      if filled[i].name != existing[i].name {
        assert ClaimDiffers(desired[i], existing[i]);
        return true, filled;
      }
      if filled[i].annotations != existing[i].annotations {
        assert ClaimDiffers(desired[i], existing[i]);
        return true, filled;
      }
      if filled[i].mode != existing[i].mode || filled[i].rest != existing[i].rest {
        assert ClaimDiffers(desired[i], existing[i]);
        return true, filled;
      }
    }
    return false, filled;
  }

  ghost predicate ImmutableChange(desired: Spec, existing: Spec) {
    desired.selector != existing.selector || ClaimsChanged(desired.claims, existing.claims)
  }

  // ------------------------------------------------------------------ one pass, as a function of the store

  /** What the API server stores for a new object: unset volume modes get the default. */
  function Defaulted(o: Object, defaultMode: string): Object {
    o.(spec := o.spec.(claims := seq(|o.spec.claims|, i requires 0 <= i < |o.spec.claims| =>
      if Unset(o.spec.claims[i].mode) then o.spec.claims[i].(mode := Some(defaultMode)) else o.spec.claims[i])))
  }

  function Merged(desired: Object, existing: Object, claims: seq<Claim>): Object {
    Object(existing.labels + desired.labels, existing.annotations + desired.annotations, desired.owner,
           desired.spec.(claims := claims))
  }

  ghost function Expected(store: Store, i: Instance, defaultMode: string): Store {
    var id := i.ObjectId();
    if !i.wanted then store
    else if id !in store then store[id := Defaulted(i.desired, defaultMode)]
    else if ImmutableChange(i.desired.spec, store[id].spec) then store - {id}
    else store[id := Merged(i.desired, store[id], FillAll(i.desired.spec.claims, store[id].spec.claims))]
  }

  predicate Extra(id: Id, o: Object, i: Instance) {
    id.namespace == i.namespace && Labelled(o, ListedLabel(i)) && !(i.wanted && id == i.ObjectId())
  }

  ghost function Cleaned(store: Store, i: Instance): Store {
    map id | id in store && !Extra(id, store[id], i) :: store[id]
  }

  ghost function Pass(store: Store, i: Instance, defaultMode: string): Store {
    Cleaned(Expected(store, i, defaultMode), i)
  }

  // ------------------------------------------------------------------ convergence

  ghost predicate SpecMatches(desired: Spec, actual: Spec) {
    && actual.selector == desired.selector && actual.rest == desired.rest
    && |actual.claims| == |desired.claims|
    && forall j :: 0 <= j < |desired.claims| ==> actual.claims[j] == FillFrom(desired.claims[j], actual.claims[j])
  }

  /** The object is as desired: spec up to the volume modes the server filled, labels and annotations included. */
  ghost predicate AsDesired(desired: Object, actual: Object) {
    && SpecMatches(desired.spec, actual.spec) && actual.owner == desired.owner
    && actual.labels + desired.labels == actual.labels
    && actual.annotations + desired.annotations == actual.annotations
  }

  lemma DefaultedIsAsDesired(o: Object, defaultMode: string)
    ensures AsDesired(o, Defaulted(o, defaultMode))
  {
    var d := Defaulted(o, defaultMode);
    forall j | 0 <= j < |o.spec.claims| ensures d.spec.claims[j] == FillFrom(o.spec.claims[j], d.spec.claims[j]) {}
  }

  lemma MergedIsAsDesired(desired: Object, existing: Object)
    requires !ImmutableChange(desired.spec, existing.spec)
    ensures AsDesired(desired, Merged(desired, existing, FillAll(desired.spec.claims, existing.spec.claims)))
  {
    var claims := FillAll(desired.spec.claims, existing.spec.claims);
    forall j | 0 <= j < |claims| ensures claims[j] == FillFrom(desired.spec.claims[j], claims[j]) {}
  }

  /** A pass over an object that is as desired changes nothing. */
  lemma AsDesiredIsStable(desired: Object, actual: Object)
    requires AsDesired(desired, actual)
    ensures !ImmutableChange(desired.spec, actual.spec)
    ensures Merged(desired, actual, FillAll(desired.spec.claims, actual.spec.claims)) == actual
  {
    assert FillAll(desired.spec.claims, actual.spec.claims) == actual.spec.claims;
  }

  /** A store that a further pass leaves as it is. */
  ghost predicate Settled(store: Store, i: Instance) {
    && (i.wanted ==> i.ObjectId() in store && AsDesired(i.desired, store[i.ObjectId()]))
    && forall id :: id in store ==> !Extra(id, store[id], i)
  }

  lemma SettledIsStable(store: Store, i: Instance, defaultMode: string)
    requires Settled(store, i)
    ensures Pass(store, i, defaultMode) == store
  {
    if i.wanted {
      AsDesiredIsStable(i.desired, store[i.ObjectId()]);
      assert Expected(store, i, defaultMode) == store;
    }
  }

  /** The wanted object is there, with fields that cannot be changed in place. */
  ghost predicate NeedsDeletion(store: Store, i: Instance) {
    i.wanted && i.ObjectId() in store && ImmutableChange(i.desired.spec, store[i.ObjectId()].spec)
  }

  /**
   One pass settles a store exactly when no immutable field of the wanted object changed. Otherwise the object is
   deleted, and missing until the next pass.
   */
  lemma OnePassSettlesIff(store: Store, i: Instance, defaultMode: string)
    ensures Settled(Pass(store, i, defaultMode), i) <==> !NeedsDeletion(store, i)
    ensures NeedsDeletion(store, i) ==> i.ObjectId() !in Pass(store, i, defaultMode)
  {
    var id := i.ObjectId();
    if i.wanted && id !in store {
      DefaultedIsAsDesired(i.desired, defaultMode);
    } else if i.wanted && !NeedsDeletion(store, i) {
      MergedIsAsDesired(i.desired, store[id]);
    }
  }

  /** From any store, two passes settle it, and a third changes nothing. */
  lemma TwoPassesSettle(store: Store, i: Instance, defaultMode: string)
    ensures var s := Pass(Pass(store, i, defaultMode), i, defaultMode);
            Settled(s, i) && Pass(s, i, defaultMode) == s
  {
    var s1 := Pass(store, i, defaultMode);
    var s2 := Pass(s1, i, defaultMode);
    OnePassSettlesIff(store, i, defaultMode);
    if NeedsDeletion(store, i) {
      OnePassSettlesIff(s1, i, defaultMode);
    } else {
      SettledIsStable(s1, i, defaultMode);
    }
    SettledIsStable(s2, i, defaultMode);
  }

  // ------------------------------------------------------------------ what is stored, field by field

  /** A claim as it is stored: what the desired one sets, and for an unset mode the one given. */
  ghost predicate StoredClaim(desired: Claim, stored: Claim, unset: Option<string>) {
    && stored.name == desired.name && stored.annotations == desired.annotations && stored.rest == desired.rest
    && stored.mode == if desired.mode.None? || desired.mode.value == "" then unset else desired.mode
  }

  /** A new object is stored as desired, with the server's default for a mode that is not set. */
  lemma CreatedFields(store: Store, i: Instance, defaultMode: string)
    requires i.wanted && i.ObjectId() !in store
    ensures i.ObjectId() in Pass(store, i, defaultMode)
    ensures var o, d := Pass(store, i, defaultMode)[i.ObjectId()], i.desired;
            && o.labels == d.labels && o.annotations == d.annotations && o.owner == d.owner
            && o.spec.selector == d.spec.selector && o.spec.rest == d.spec.rest && |o.spec.claims| == |d.spec.claims|
            && forall j :: 0 <= j < |d.spec.claims| ==>
                             StoredClaim(d.spec.claims[j], o.spec.claims[j], Some(defaultMode))
  {
  }

  /** One map laid over another: its own entries win, and what it does not name survives. */
  ghost predicate LaidOver(top: Labels, bottom: Labels, result: Labels) {
    && (forall k :: k in result <==> k in top || k in bottom)
    && (forall k :: k in result ==> result[k] == if k in top then top[k] else bottom[k])
  }

  /** A patched object gets the desired spec and owner; labels and annotations that are not desired survive. */
  lemma PatchedFields(store: Store, i: Instance, defaultMode: string)
    requires i.wanted && i.ObjectId() in store
    requires i.desired.spec.selector == store[i.ObjectId()].spec.selector
    requires !ClaimsDiffer(i.desired.spec.claims, store[i.ObjectId()].spec.claims)
    ensures i.ObjectId() in Pass(store, i, defaultMode)
    ensures var e, o, d := store[i.ObjectId()], Pass(store, i, defaultMode)[i.ObjectId()], i.desired;
            && LaidOver(d.labels, e.labels, o.labels) && LaidOver(d.annotations, e.annotations, o.annotations)
            && o.owner == d.owner && o.spec.rest == d.spec.rest
            && o.spec.selector == d.spec.selector && o.spec.claims == e.spec.claims
  {
    ClaimsChangedIff(i.desired.spec.claims, store[i.ObjectId()].spec.claims);
  }

  /** From any store, two passes leave the desired fields; in particular every mode that is set is the one stored. */
  lemma TwoPassesGiveDesired(store: Store, i: Instance, defaultMode: string)
    requires i.wanted
    ensures i.ObjectId() in Pass(Pass(store, i, defaultMode), i, defaultMode)
    ensures var o, d := Pass(Pass(store, i, defaultMode), i, defaultMode)[i.ObjectId()], i.desired;
            && (forall k :: k in d.labels ==> k in o.labels && o.labels[k] == d.labels[k])
            && (forall k :: k in d.annotations ==> k in o.annotations && o.annotations[k] == d.annotations[k])
            && o.owner == d.owner && o.spec.selector == d.spec.selector && o.spec.rest == d.spec.rest
            && |o.spec.claims| == |d.spec.claims|
            && forall j :: 0 <= j < |d.spec.claims| ==> !ClaimDiffers(d.spec.claims[j], o.spec.claims[j])
  {
    TwoPassesSettle(store, i, defaultMode);
    AsDesiredFields(i.desired, Pass(Pass(store, i, defaultMode), i, defaultMode)[i.ObjectId()]);
  }

  lemma AsDesiredFields(d: Object, o: Object)
    requires AsDesired(d, o)
    ensures forall k :: k in d.labels ==> k in o.labels && o.labels[k] == d.labels[k]
    ensures forall k :: k in d.annotations ==> k in o.annotations && o.annotations[k] == d.annotations[k]
    ensures |o.spec.claims| == |d.spec.claims|
    ensures forall j :: 0 <= j < |d.spec.claims| ==> !ClaimDiffers(d.spec.claims[j], o.spec.claims[j])
  {
    SameOver(d.labels, o.labels);
    SameOver(d.annotations, o.annotations);
    forall j | 0 <= j < |d.spec.claims| ensures !ClaimDiffers(d.spec.claims[j], o.spec.claims[j]) {
      FilledIff(d.spec.claims[j], o.spec.claims[j]);
    }
  }

  lemma SameOver(top: Labels, bottom: Labels)
    requires bottom + top == bottom
    ensures forall k :: k in top ==> k in bottom && bottom[k] == top[k]
  {
    forall k | k in top ensures k in bottom && bottom[k] == top[k] {
      assert k in bottom + top && (bottom + top)[k] == top[k];
    }
  }

  /** The object is in the instance's namespace and carries both labels that the clean-up lists by. */
  ghost predicate ListedFor(id: Id, o: Object, namespace: string, name: string) {
    && id.namespace == namespace
    && "app.kubernetes.io/instance" in o.labels && o.labels["app.kubernetes.io/instance"] == namespace + "." + name
    && "app.kubernetes.io/managed-by" in o.labels
    && o.labels["app.kubernetes.io/managed-by"] == "opentelemetry-operator"
  }

  /** Of the objects that are not wanted, a pass deletes exactly those listed for the instance and changes none. */
  lemma OthersGoIffListed(store: Store, i: Instance, defaultMode: string, id: Id)
    requires id in store && !(i.wanted && id == i.ObjectId())
    ensures id in Pass(store, i, defaultMode) <==> !ListedFor(id, store[id], i.namespace, i.name)
    ensures id in Pass(store, i, defaultMode) ==> Pass(store, i, defaultMode)[id] == store[id]
  {
  }

  /** No object appears that was not there or wanted. */
  lemma NothingElseAppears(store: Store, i: Instance, defaultMode: string, id: Id)
    requires id in Pass(store, i, defaultMode)
    ensures id in store || (i.wanted && id == Id(i.namespace, i.objectName))
  {
  }

  // ------------------------------------------------------------------ which objects carry the instance's labels

  /** An object that carries the labels the builder writes, but is not the one wanted now. */
  ghost predicate Stale(id: Id, o: Object, i: Instance) {
    id.namespace == i.namespace && Labelled(o, BuiltLabel(i)) && !(i.wanted && id == i.ObjectId())
  }

  ghost predicate NothingStale(store: Store, i: Instance) {
    forall id :: id in store ==> !Stale(id, store[id], i)
  }

  /** `namespace.name` is short enough, and starts and ends alphanumerically. */
  ghost predicate LabelFits(i: Instance) {
    && |i.namespace| + 1 + |i.name| <= 63 && i.namespace != "" && i.name != ""
    && Naming.AlphaNumeric(i.namespace[0]) && Naming.AlphaNumeric(i.name[|i.name| - 1])
  }

  /** Whatever else is in the store, a pass deletes a stale object exactly when truncation leaves the label alone. */
  lemma StaleObjectGoesIffLabelFits(store: Store, i: Instance, defaultMode: string, id: Id)
    requires id in store && Stale(id, store[id], i)
    ensures id in Pass(store, i, defaultMode) <==> !LabelFits(i)
    ensures !LabelFits(i) ==> Pass(store, i, defaultMode)[id] == store[id]
  {
    Naming.InstanceLabelIsPlain(i.namespace, i.name);
    if BuiltLabel(i) != ListedLabel(i) { StaleObjectStays(store, i, defaultMode, id); }
  }

  ghost function Passes(store: Store, i: Instance, defaultMode: string, n: nat): Store {
    if n == 0 then store else Pass(Passes(store, i, defaultMode, n - 1), i, defaultMode)
  }

  /** With a label that does not fit, no number of passes touches a stale object. */
  lemma {:induction false} StaleObjectNeverGoes(store: Store, i: Instance, defaultMode: string, id: Id, n: nat)
    requires id in store && Stale(id, store[id], i) && !LabelFits(i)
    ensures id in Passes(store, i, defaultMode, n) && Passes(store, i, defaultMode, n)[id] == store[id]
  {
    if n == 0 {
    } else {
      StaleObjectNeverGoes(store, i, defaultMode, id, n - 1);
      StaleObjectGoesIffLabelFits(Passes(store, i, defaultMode, n - 1), i, defaultMode, id);
    }
  }

  lemma StaleObjectStays(store: Store, i: Instance, defaultMode: string, id: Id)
    requires id in store && Stale(id, store[id], i) && BuiltLabel(i) != ListedLabel(i)
    ensures id in Pass(store, i, defaultMode) && Pass(store, i, defaultMode)[id] == store[id]
  {
    assert !Extra(id, store[id], i);
  }

  /** After a pass nothing is stale, exactly when the label fits or nothing was stale before. */
  lemma NothingStaleIff(store: Store, i: Instance, defaultMode: string)
    ensures NothingStale(Pass(store, i, defaultMode), i) <==> LabelFits(i) || NothingStale(store, i)
  {
    Naming.InstanceLabelIsPlain(i.namespace, i.name);
    var s := Pass(store, i, defaultMode);
    if !LabelFits(i) && !NothingStale(store, i) {
      var id :| id in store && Stale(id, store[id], i);
      StaleObjectStays(store, i, defaultMode, id);
    } else if NothingStale(store, i) {
      forall id | id in s ensures !Stale(id, s[id], i) {
        assert id in store || (i.wanted && id == i.ObjectId());
      }
    }
  }

  /**
   For an instance whose `namespace.name` fits, two passes from any store leave exactly the desired object among the
   objects that carry the instance's labels.
   */
  lemma ExactlyTheDesiredObject(store: Store, i: Instance, defaultMode: string)
    requires WellBuilt(i) && LabelFits(i)
    ensures var s := Pass(Pass(store, i, defaultMode), i, defaultMode);
            (set id | id in s && id.namespace == i.namespace && Labelled(s[id], BuiltLabel(i)))
            == (if i.wanted then {i.ObjectId()} else {})
  {
    Naming.InstanceLabelIsPlain(i.namespace, i.name);
    TwoPassesSettle(store, i, defaultMode);
    var s := Pass(Pass(store, i, defaultMode), i, defaultMode);
    if i.wanted {
      var o := s[i.ObjectId()];
      assert o.labels[INSTANCE] == (o.labels + i.desired.labels)[INSTANCE];
      assert o.labels[MANAGED_BY] == (o.labels + i.desired.labels)[MANAGED_BY];
    }
    forall id | id in s && id.namespace == i.namespace && Labelled(s[id], BuiltLabel(i))
      ensures i.wanted && id == i.ObjectId()
    {
      assert !Extra(id, s[id], i);
    }
  }

  // ------------------------------------------------------------------ the reconciler

  datatype Found = Missing | Got(existing: Object) | Error

  /** The API server. Every request may fail. */
  class Api {
    const defaultMode: string
    var objects: Store

    constructor (defaultMode: string)
      ensures this.defaultMode == defaultMode && objects == map[]
    {
      this.defaultMode, objects := defaultMode, map[];
    }

    method Get(id: Id) returns (found: Found)
      ensures found.Missing? ==> id !in objects
      ensures found.Got? ==> id in objects && objects[id] == found.existing
    {
      if * { return Error; }
      found := if id in objects then Got(objects[id]) else Missing;
    }

    method Create(id: Id, o: Object) returns (ok: bool)
      requires id !in objects
      modifies this
      ensures ok ==> objects == old(objects)[id := Defaulted(o, defaultMode)]
      ensures !ok ==> objects == old(objects)
    {
      ok := *;
      if ok { objects := objects[id := Defaulted(o, defaultMode)]; }
    }

    method Patch(id: Id, o: Object) returns (ok: bool)
      modifies this
      ensures objects == if ok then old(objects)[id := o] else old(objects)
    {
      ok := *;
      if ok { objects := objects[id := o]; }
    }

    method Delete(id: Id) returns (ok: bool)
      modifies this
      ensures objects == if ok then old(objects) - {id} else old(objects)
    {
      ok := *;
      if ok { objects := objects - {id}; }
    }

    method List(namespace: string, instance: string) returns (ok: bool, items: set<Id>)
      ensures ok ==> items == set id | id in objects && id.namespace == namespace && Labelled(objects[id], instance)
    {
      ok := *;
      items := set id | id in objects && id.namespace == namespace && Labelled(objects[id], instance);
    }
  }

  /** Creates, patches or deletes the wanted object. */
  method ExpectedObjects(api: Api, i: Instance) returns (ok: bool)
    modifies api
    ensures ok ==> api.objects == Expected(old(api.objects), i, api.defaultMode)
    ensures !ok ==> api.objects == old(api.objects)
  {
    if !i.wanted {
      return true;
    }
    var id := i.ObjectId();
    var found := api.Get(id);
    match found {
      case Error =>
        return false;
      case Missing =>
        ok := api.Create(id, i.desired);
      case Got(existing) =>
        var changed, claims := HasVolumeClaimsTemplatesChanged(i.desired.spec.claims, existing.spec.claims);
        ClaimsChangedIff(i.desired.spec.claims, existing.spec.claims);
        if i.desired.spec.selector != existing.spec.selector || changed {
          ok := api.Delete(id);
        } else {
          ok := api.Patch(id, Merged(i.desired, existing, claims));
        }
    }
  }

  ghost predicate Partly(store: Store, i: Instance, todo: set<Id>, now: Store) {
    now == map id | id in store && (id in todo || !Extra(id, store[id], i)) :: store[id]
  }

  /** Some objects that are not expected are gone, and nothing else changed. */
  ghost predicate Thinned(store: Store, i: Instance, now: Store) {
    now.Keys <= store.Keys
    && forall id :: id in store ==> if id in now then now[id] == store[id] else Extra(id, store[id], i)
  }

  /** Deletes the listed objects that are not expected, in any order, up to the first error. */
  method DeleteObjects(api: Api, i: Instance) returns (ok: bool)
    modifies api
    ensures ok ==> api.objects == Cleaned(old(api.objects), i)
    ensures Thinned(old(api.objects), i, api.objects)
  {
    var listed, items := api.List(i.namespace, ListedLabel(i));
    if !listed {
      return false;
    }
    var todo := items;
    ghost var store := api.objects;
    while todo != {}
      invariant todo <= items && Partly(store, i, todo, api.objects)
      decreases todo
    {
      var id :| id in todo;
      if !(i.wanted && id == i.ObjectId()) {
        ok := api.Delete(id);
        if !ok { return; }
      }
      todo := todo - {id};
    }
    ok := true;
  }

  /** One reconciliation pass. When no request fails, the store changes as `Pass` says; else it stops on the way. */
  method ReconcileObjects(api: Api, i: Instance) returns (ok: bool)
    modifies api
    ensures ok ==> api.objects == Pass(old(api.objects), i, api.defaultMode)
    ensures !ok ==>
              api.objects == old(api.objects) ||
              Thinned(Expected(old(api.objects), i, api.defaultMode), i, api.objects)
  {
    ok := ExpectedObjects(api, i);
    if ok {
      ok := DeleteObjects(api, i);
    }
  }
}
