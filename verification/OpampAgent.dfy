/** The OpAMP bridge agent: it keeps the collectors of a cluster equal to the remote configuration it received. */
module OpampAgent {
  import opened Options
  import opened CollectorKeys

  type Body = string

  datatype RemoteConfig = RemoteConfig(files: map<string, Body>, hash: string)

  datatype Status = Applied | Failed

  /** A request to the applier. A deletion also records the files of the configuration being applied. */
  datatype Request =
    | Apply(key: CollectorKey, body: Body, ok: bool)
    | Delete(key: CollectorKey, files: map<string, Body>, ok: bool)

  /**
   The applier and the cluster behind it. Any request may fail, and a failed request may or may not have had its
   effect; it touches no other collector.
   */
  class Cluster {
    var collectors: map<CollectorKey, Body>
    ghost var log: seq<Request>

    constructor ()
      ensures log == []
    {
      collectors, log := map[], [];
    }

    method Apply(key: CollectorKey, body: Body) returns (ok: bool)
      modifies this
      ensures collectors - {key} == old(collectors) - {key}
      ensures ok ==> key in collectors && collectors[key] == body
      ensures log == old(log) + [Request.Apply(key, body, ok)]
    {
      ok := *;
      var took := ok;
      if !ok { took := *; }
      if took {
        collectors := collectors[key := body];
      } else if * {
        collectors := collectors - {key};
      }
      log := log + [Request.Apply(key, body, ok)];
    }

    method Delete(key: CollectorKey, ghost files: map<string, Body>) returns (ok: bool)
      modifies this
      ensures collectors - {key} == old(collectors) - {key}
      ensures ok ==> key !in collectors
      ensures log == old(log) + [Request.Delete(key, files, ok)]
    {
      ok := *;
      var took := ok;
      if !ok { took := *; }
      if took {
        collectors := collectors - {key};
      }
      log := log + [Request.Delete(key, files, ok)];
    }
  }

  // ------------------------------------------------------------------ what the log says

  /** The keys ever applied with success. */
  ghost function EverApplied(log: seq<Request>): set<CollectorKey> {
    set i | 0 <= i < |log| && log[i].Apply? && log[i].ok :: log[i].key
  }

  /** Every deletion was of a key applied with success before, and absent from the configuration at hand. */
  ghost predicate SafeDeletions(log: seq<Request>) {
    forall i :: 0 <= i < |log| && log[i].Delete? ==>
      log[i].key in EverApplied(log[..i]) && log[i].key.String() !in log[i].files
  }

  ghost predicate AllOk(reqs: seq<Request>) {
    forall j :: 0 <= j < |reqs| ==> reqs[j].ok
  }

  /** Every entry that the agent does not skip, outside `todo`, has a key of the right form. */
  ghost predicate Parsed(files: map<string, Body>, todo: set<string>) {
    forall key :: key in files && key !in todo && key != "" && files[key] != "" ==> FromKey(key).Some?
  }

  lemma LogApply(log: seq<Request>, key: CollectorKey, body: Body, ok: bool)
    ensures var log' := log + [Request.Apply(key, body, ok)];
            && EverApplied(log') == EverApplied(log) + (if ok then {key} else {})
            && (SafeDeletions(log) ==> SafeDeletions(log'))
  {
    var log' := log + [Request.Apply(key, body, ok)];
    EverAppliedAppend(log, log'[|log|]);
    forall i | 0 <= i < |log| ensures log'[..i] == log[..i] {}
  }

  lemma LogDelete(log: seq<Request>, key: CollectorKey, files: map<string, Body>, ok: bool)
    requires key in EverApplied(log) && key.String() !in files
    ensures var log' := log + [Request.Delete(key, files, ok)];
            && EverApplied(log') == EverApplied(log)
            && (SafeDeletions(log) ==> SafeDeletions(log'))
  {
    var log' := log + [Request.Delete(key, files, ok)];
    EverAppliedAppend(log, log'[|log|]);
    forall i | 0 <= i <= |log| ensures log'[..i] == log[..i] {}
  }

  lemma EverAppliedAppend(log: seq<Request>, r: Request)
    ensures EverApplied(log + [r]) == EverApplied(log) + (if r.Apply? && r.ok then {r.key} else {})
  {
    var log' := log + [r];
    forall k | k in EverApplied(log) ensures k in EverApplied(log') {
      var i :| 0 <= i < |log| && log[i].Apply? && log[i].ok && log[i].key == k;
      assert log'[i] == log[i];
    }
    assert log'[|log|] == r;
  }

  lemma AllOkAppend(reqs: seq<Request>, r: Request)
    ensures AllOk(reqs + [r]) <==> AllOk(reqs) && r.ok
  {
    var more := reqs + [r];
    assert more[|reqs|] == r;
    assert forall j :: 0 <= j < |reqs| ==> more[j] == reqs[j];
  }

  lemma EverAppliedConcat(a: seq<Request>, b: seq<Request>)
    ensures EverApplied(a + b) == EverApplied(a) + EverApplied(b)
    decreases |b|
  {
    if b == [] {
      assert a + b == a;
    } else {
      var most, r := b[..|b| - 1], b[|b| - 1];
      assert a + b == (a + most) + [r] && b == most + [r];
      EverAppliedConcat(a, most);
      EverAppliedAppend(a + most, r);
      EverAppliedAppend(most, r);
    }
  }

  // ------------------------------------------------------------------ what is asked for

  ghost predicate Wanted(files: map<string, Body>, k: CollectorKey) {
    k.String() in files && files[k.String()] != ""
  }

  /** The configuration has an entry for the key that parses and is not empty. */
  ghost predicate Usable(files: map<string, Body>, k: CollectorKey) {
    SlashFree(k) && Wanted(files, k)
  }

  ghost predicate Asks(reqs: seq<Request>, k: CollectorKey) {
    exists j :: 0 <= j < |reqs| && reqs[j].key == k
  }

  ghost predicate NoRepeats(reqs: seq<Request>) {
    forall i, j :: 0 <= i < j < |reqs| ==> reqs[i].key != reqs[j].key
  }

  lemma AsksAppend(reqs: seq<Request>, r: Request)
    ensures forall k :: Asks(reqs + [r], k) <==> Asks(reqs, k) || k == r.key
    ensures NoRepeats(reqs) && !Asks(reqs, r.key) ==> NoRepeats(reqs + [r])
  {
    var more := reqs + [r];
    assert more[|reqs|] == r;
    forall k | Asks(reqs, k) ensures Asks(more, k) {
      var j :| 0 <= j < |reqs| && reqs[j].key == k;
      assert more[j].key == k;
    }
  }

  ghost predicate GoodApply(files: map<string, Body>, todo: set<string>, r: Request) {
    r.Apply? && Usable(files, r.key) && r.body == files[r.key.String()] && r.key.String() !in todo
  }

  ghost predicate ApplyAsked(files: map<string, Body>, todo: set<string>, reqs: seq<Request>, k: CollectorKey) {
    Usable(files, k) && k.String() !in todo ==> Asks(reqs, k)
  }

  /** Exactly one request, with the right body, for each usable entry outside `todo`, and no other request. */
  ghost predicate Applies(files: map<string, Body>, todo: set<string>, reqs: seq<Request>) {
    && NoRepeats(reqs)
    && (forall j :: 0 <= j < |reqs| ==> GoodApply(files, todo, reqs[j]))
    && (forall k :: ApplyAsked(files, todo, reqs, k))
  }

  lemma AppliesOneMore(files: map<string, Body>, todo: set<string>, reqs: seq<Request>, key: string, r: Request)
    requires Applies(files, todo, reqs) && key in todo && key in files && files[key] != ""
    requires FromKey(key) == Some(r.key) && r.Apply? && r.body == files[key]
    ensures !Asks(reqs, r.key) && Applies(files, todo - {key}, reqs + [r])
  {
    var todo', more := todo - {key}, reqs + [r];
    ParseThenPrint(key);
    forall j | 0 <= j < |reqs| ensures reqs[j].key != r.key { assert GoodApply(files, todo, reqs[j]); }
    AsksAppend(reqs, r);
    forall j | 0 <= j < |more| ensures GoodApply(files, todo', more[j]) {
      if j < |reqs| { assert GoodApply(files, todo, reqs[j]); }
    }
    forall k ensures ApplyAsked(files, todo', more, k) {
      assert ApplyAsked(files, todo, reqs, k);
      if Usable(files, k) && k.String() == key { PrintThenParse(k); }
    }
  }

  /** An entry that is skipped or does not parse is nobody's usable entry. */
  lemma AppliesSkip(files: map<string, Body>, todo: set<string>, reqs: seq<Request>, key: string)
    requires Applies(files, todo, reqs) && key in files
    requires key == "" || files[key] == "" || FromKey(key).None?
    ensures Applies(files, todo - {key}, reqs)
  {
    var todo' := todo - {key};
    forall j | 0 <= j < |reqs| ensures GoodApply(files, todo', reqs[j]) { assert GoodApply(files, todo, reqs[j]); }
    forall k ensures ApplyAsked(files, todo', reqs, k) {
      assert ApplyAsked(files, todo, reqs, k);
      if Usable(files, k) && k.String() == key { PrintThenParse(k); }
    }
  }

  ghost predicate GoodDelete(files: map<string, Body>, applied: set<CollectorKey>, todo: set<CollectorKey>,
                             r: Request) {
    r.Delete? && r.files == files && r.key in applied && r.key !in todo && r.key.String() !in files
  }

  ghost predicate DeleteAsked(files: map<string, Body>, applied: set<CollectorKey>, todo: set<CollectorKey>,
                              reqs: seq<Request>, k: CollectorKey) {
    k in applied && k !in todo && k.String() !in files ==> Asks(reqs, k)
  }

  /** Exactly one deletion of each remembered key outside `todo` that the configuration omits, and no other request. */
  ghost predicate Deletes(files: map<string, Body>, applied: set<CollectorKey>, todo: set<CollectorKey>,
                          reqs: seq<Request>) {
    && NoRepeats(reqs)
    && (forall j :: 0 <= j < |reqs| ==> GoodDelete(files, applied, todo, reqs[j]))
    && (forall k :: DeleteAsked(files, applied, todo, reqs, k))
  }

  lemma DeletesOneMore(files: map<string, Body>, applied: set<CollectorKey>, todo: set<CollectorKey>,
                       reqs: seq<Request>, r: Request)
    requires Deletes(files, applied, todo, reqs) && r.Delete? && r.files == files
    requires r.key in applied && r.key in todo && r.key.String() !in files
    ensures !Asks(reqs, r.key) && Deletes(files, applied, todo - {r.key}, reqs + [r])
  {
    var todo', more := todo - {r.key}, reqs + [r];
    forall j | 0 <= j < |reqs| ensures reqs[j].key != r.key { assert GoodDelete(files, applied, todo, reqs[j]); }
    AsksAppend(reqs, r);
    forall j | 0 <= j < |more| ensures GoodDelete(files, applied, todo', more[j]) {
      if j < |reqs| { assert GoodDelete(files, applied, todo, reqs[j]); }
    }
    forall k ensures DeleteAsked(files, applied, todo', more, k) {
      assert DeleteAsked(files, applied, todo, reqs, k);
    }
  }

  lemma DeletesSkip(files: map<string, Body>, applied: set<CollectorKey>, todo: set<CollectorKey>, reqs: seq<Request>,
                    k: CollectorKey)
    requires Deletes(files, applied, todo, reqs) && k.String() in files
    ensures Deletes(files, applied, todo - {k}, reqs)
  {
    var todo' := todo - {k};
    forall j | 0 <= j < |reqs| ensures GoodDelete(files, applied, todo', reqs[j]) {
      assert GoodDelete(files, applied, todo, reqs[j]);
    }
    forall k' ensures DeleteAsked(files, applied, todo', reqs, k') {
      assert DeleteAsked(files, applied, todo, reqs, k');
    }
  }

  // ------------------------------------------------------------------ what the cluster makes of it

  ghost predicate SameAt(a: map<CollectorKey, Body>, b: map<CollectorKey, Body>, k: CollectorKey) {
    (k in a <==> k in b) && (k in a ==> a[k] == b[k])
  }

  ghost predicate SparedBy(was: map<CollectorKey, Body>, reqs: seq<Request>, now: map<CollectorKey, Body>,
                           k: CollectorKey) {
    Asks(reqs, k) || SameAt(was, now, k)
  }

  ghost predicate HadEffect(r: Request, now: map<CollectorKey, Body>) {
    r.ok ==> if r.Apply? then r.key in now && now[r.key] == r.body else r.key !in now
  }

  /** Each request that succeeded had its effect, which lasts, and no collector changed that was not asked for. */
  ghost predicate Faithful(was: map<CollectorKey, Body>, reqs: seq<Request>, now: map<CollectorKey, Body>) {
    && (forall k :: SparedBy(was, reqs, now, k))
    && (forall j :: 0 <= j < |reqs| ==> HadEffect(reqs[j], now))
  }

  lemma FaithfulOneMore(was: map<CollectorKey, Body>, reqs: seq<Request>, now: map<CollectorKey, Body>, r: Request,
                        now': map<CollectorKey, Body>)
    requires Faithful(was, reqs, now) && !Asks(reqs, r.key)
    requires now' - {r.key} == now - {r.key} && HadEffect(r, now')
    ensures Faithful(was, reqs + [r], now')
  {
    var more := reqs + [r];
    forall k | k != r.key ensures SameAt(now, now', k) {
      assert k in now - {r.key} <==> k in now' - {r.key};
      assert k in now ==> (now - {r.key})[k] == (now' - {r.key})[k];
    }
    AsksAppend(reqs, r);
    forall k ensures SparedBy(was, more, now', k) {
      assert SparedBy(was, reqs, now, k);
      if k != r.key { assert SameAt(now, now', k); }
    }
    forall j | 0 <= j < |more| ensures HadEffect(more[j], now') {
      if j < |reqs| { assert HadEffect(reqs[j], now) && SameAt(now, now', reqs[j].key); }
    }
  }

  lemma FaithfulConcat(was: map<CollectorKey, Body>, a: seq<Request>, mid: map<CollectorKey, Body>, b: seq<Request>,
                       now: map<CollectorKey, Body>)
    requires Faithful(was, a, mid) && Faithful(mid, b, now)
    requires forall j :: 0 <= j < |a| ==> !Asks(b, a[j].key)
    ensures Faithful(was, a + b, now)
  {
    var c := a + b;
    forall k ensures SparedBy(was, c, now, k) {
      assert SparedBy(was, a, mid, k) && SparedBy(mid, b, now, k);
      if Asks(a, k) {
        var j :| 0 <= j < |a| && a[j].key == k;
        assert c[j].key == k;
      }
      if Asks(b, k) {
        var j :| 0 <= j < |b| && b[j].key == k;
        assert c[|a| + j].key == k;
      }
    }
    forall j | 0 <= j < |c| ensures HadEffect(c[j], now) {
      if j < |a| {
        assert HadEffect(a[j], mid) && SparedBy(mid, b, now, a[j].key);
      } else {
        assert HadEffect(b[j - |a|], now);
      }
    }
  }

  // ------------------------------------------------------------------ a whole configuration

  /** What a call amounts to, whatever fails: the requests it makes are these, and this is what they did. */
  ghost predicate Served(files: map<string, Body>, was: map<CollectorKey, Body>, applied: set<CollectorKey>,
                         applies: seq<Request>, deletes: seq<Request>, now: map<CollectorKey, Body>) {
    Applies(files, {}, applies) && Deletes(files, applied, {}, deletes) && Faithful(was, applies + deletes, now)
  }

  lemma PassesServe(files: map<string, Body>, was: map<CollectorKey, Body>, mid: map<CollectorKey, Body>,
                    applied: set<CollectorKey>, applies: seq<Request>, deletes: seq<Request>,
                    now: map<CollectorKey, Body>)
    requires Applies(files, {}, applies) && Faithful(was, applies, mid)
    requires Deletes(files, applied, {}, deletes) && Faithful(mid, deletes, now)
    ensures Served(files, was, applied, applies, deletes, now)
  {
    forall j | 0 <= j < |applies| ensures !Asks(deletes, applies[j].key) {
      assert GoodApply(files, {}, applies[j]);
      forall i | 0 <= i < |deletes| ensures deletes[i].key != applies[j].key {
        assert GoodDelete(files, applied, {}, deletes[i]);
      }
    }
    FaithfulConcat(was, applies, mid, deletes, now);
  }

  /** Every usable entry is tried exactly once. If that went well it is in place and remembered, whatever else fails. */
  lemma EntryIsTriedOnce(files: map<string, Body>, was: map<CollectorKey, Body>, applied: set<CollectorKey>,
                         applies: seq<Request>, deletes: seq<Request>, now: map<CollectorKey, Body>, key: string)
    returns (j: nat)
    requires Served(files, was, applied, applies, deletes, now)
    requires key in files && key != "" && files[key] != "" && FromKey(key).Some?
    ensures j < |applies| && applies[j].Apply? && applies[j].body == files[key]
    ensures forall i :: 0 <= i < |applies| ==> (applies[i].key == FromKey(key).value <==> i == j)
    ensures applies[j].ok ==> FromKey(key).value in now && now[FromKey(key).value] == files[key]
    ensures applies[j].ok ==> FromKey(key).value in EverApplied(applies)
  {
    var k := FromKey(key).value;
    ParseThenPrint(key);
    assert ApplyAsked(files, {}, applies, k);
    j :| 0 <= j < |applies| && applies[j].key == k;
    assert GoodApply(files, {}, applies[j]);
    assert (applies + deletes)[j] == applies[j] && HadEffect((applies + deletes)[j], now);
  }

  /** Every remembered key that the configuration omits is asked to be deleted exactly once, whatever else failed. */
  lemma OmittedIsDeletedOnce(files: map<string, Body>, was: map<CollectorKey, Body>, applied: set<CollectorKey>,
                             applies: seq<Request>, deletes: seq<Request>, now: map<CollectorKey, Body>,
                             k: CollectorKey)
    returns (j: nat)
    requires Served(files, was, applied, applies, deletes, now)
    requires k in applied && k.String() !in files
    ensures j < |deletes| && deletes[j].Delete?
    ensures forall i :: 0 <= i < |deletes| ==> (deletes[i].key == k <==> i == j)
    ensures deletes[j].ok ==> k !in now
  {
    assert DeleteAsked(files, applied, {}, deletes, k);
    j :| 0 <= j < |deletes| && deletes[j].key == k;
    assert GoodDelete(files, applied, {}, deletes[j]);
    var n := |applies| + j;
    assert (applies + deletes)[n] == deletes[j] && HadEffect((applies + deletes)[n], now);
  }

  /** The configuration's entry `key` is in place, unless it is one the agent skips. */
  ghost predicate InPlace(files: map<string, Body>, key: string, cluster: map<CollectorKey, Body>) {
    key in files && key != "" && files[key] != "" ==>
      FromKey(key).Some? && FromKey(key).value in cluster && cluster[FromKey(key).value] == files[key]
  }

  ghost predicate OutcomeAt(files: map<string, Body>, was: map<CollectorKey, Body>, cluster: map<CollectorKey, Body>,
                            k: CollectorKey) {
    if k.String() !in files then k !in cluster
    else if files[k.String()] == "" then SameAt(was, cluster, k)
    else k in cluster && cluster[k] == files[k.String()]
  }

  /**
   After a successful call: every key ever applied is deleted if the configuration omits it, holds the configured body
   if there is one, and is as it was if the configuration names it with an empty body. Every other usable entry of the
   configuration is in place too.
   */
  ghost predicate Outcome(files: map<string, Body>, was: map<CollectorKey, Body>, applied: set<CollectorKey>,
                          cluster: map<CollectorKey, Body>) {
    && (forall k :: k in applied ==> OutcomeAt(files, was, cluster, k))
    && (forall key :: key in files ==> InPlace(files, key, cluster))
  }

  ghost predicate LeftAlone(files: map<string, Body>, was: map<CollectorKey, Body>, applied: set<CollectorKey>,
                            cluster: map<CollectorKey, Body>) {
    forall k :: k !in applied && !Wanted(files, k) ==> SameAt(was, cluster, k)
  }

  lemma NotAsked(files: map<string, Body>, was: map<CollectorKey, Body>, applied: set<CollectorKey>,
                 applies: seq<Request>, deletes: seq<Request>, now: map<CollectorKey, Body>, k: CollectorKey)
    requires Served(files, was, applied, applies, deletes, now)
    requires !Wanted(files, k) && (k in applied ==> k.String() in files)
    ensures SameAt(was, now, k)
  {
    var reqs := applies + deletes;
    forall j | 0 <= j < |reqs| ensures reqs[j].key != k {
      if j < |applies| {
        assert GoodApply(files, {}, applies[j]);
      } else {
        assert GoodDelete(files, applied, {}, deletes[j - |applies|]);
      }
    }
    assert SparedBy(was, reqs, now, k);
  }

  /** When nothing failed, the configuration is in force. */
  lemma ServedGivesOutcome(files: map<string, Body>, was: map<CollectorKey, Body>, applied: set<CollectorKey>,
                           applies: seq<Request>, deletes: seq<Request>, now: map<CollectorKey, Body>)
    requires Served(files, was, applied, applies, deletes, now)
    requires Parsed(files, {}) && AllOk(applies) && AllOk(deletes)
    requires forall k :: k in applied ==> SlashFree(k)
    ensures Outcome(files, was, applied, now)
  {
    forall key | key in files ensures InPlace(files, key, now) {
      if key != "" && files[key] != "" { var j := EntryIsTriedOnce(files, was, applied, applies, deletes, now, key); }
    }
    forall k | k in applied ensures OutcomeAt(files, was, now, k) {
      if k.String() !in files {
        var j := OmittedIsDeletedOnce(files, was, applied, applies, deletes, now, k);
      } else if files[k.String()] == "" {
        NotAsked(files, was, applied, applies, deletes, now, k);
      } else {
        PrintThenParse(k);
        assert InPlace(files, k.String(), now);
      }
    }
  }

  /** Whatever fails, a key that is neither remembered nor wanted is as it was. */
  lemma ServedLeavesAlone(files: map<string, Body>, was: map<CollectorKey, Body>, applied: set<CollectorKey>,
                          applies: seq<Request>, deletes: seq<Request>, now: map<CollectorKey, Body>)
    requires Served(files, was, applied, applies, deletes, now)
    ensures LeftAlone(files, was, applied, now)
  {
    forall k | k !in applied && !Wanted(files, k) ensures SameAt(was, now, k) {
      NotAsked(files, was, applied, applies, deletes, now, k);
    }
  }

  /** Among the keys ever applied, exactly those with a nonempty body in the configuration exist. */
  ghost predicate Converged(files: map<string, Body>, applied: set<CollectorKey>, cluster: map<CollectorKey, Body>) {
    forall k :: k in applied ==> (k in cluster <==> Wanted(files, k))
  }

  /**
   A successful call converges exactly when no key applied before, whose collector still exists, now comes with an
   empty body: such a collector is neither updated nor deleted.
   */
  lemma ConvergesUnlessEmptied(files: map<string, Body>, was: map<CollectorKey, Body>, applied: set<CollectorKey>,
                               cluster: map<CollectorKey, Body>)
    requires Outcome(files, was, applied, cluster)
    ensures Converged(files, applied, cluster) <==>
            forall k :: k in applied && k.String() in files && files[k.String()] == "" ==> k !in was
  {
    if forall k :: k in applied && k.String() in files && files[k.String()] == "" ==> k !in was {
      forall k | k in applied ensures k in cluster <==> Wanted(files, k) {
        assert OutcomeAt(files, was, cluster, k);
      }
    } else {
      var k :| k in applied && k.String() in files && files[k.String()] == "" && k in was;
      assert OutcomeAt(files, was, cluster, k);
      assert k in cluster && !Wanted(files, k);
    }
  }

  // ------------------------------------------------------------------ the agent

  class Agent {
    const cluster: Cluster
    const remoteConfigEnabled: bool
    var appliedKeys: set<CollectorKey>
    var lastHash: string

    /** The agent remembers exactly the keys it ever applied with success. */
    ghost predicate Valid()
      reads this, cluster
    {
      && appliedKeys == EverApplied(cluster.log)
      && SafeDeletions(cluster.log)
      && (forall k :: k in appliedKeys ==> SlashFree(k))
    }

    constructor (cluster: Cluster, remoteConfigEnabled: bool)
      requires cluster.log == []
      ensures Valid() && this.cluster == cluster && this.remoteConfigEnabled == remoteConfigEnabled
      ensures appliedKeys == {} && lastHash == ""
    {
      this.cluster, this.remoteConfigEnabled := cluster, remoteConfigEnabled;
      appliedKeys, lastHash := {}, "";
    }

    /** One entry. `reqs` are the requests of this pass so far, after `base`. */
    method ApplyEntry(files: map<string, Body>, key: string, soFar: bool, ghost todo: set<string>,
                      ghost was: map<CollectorKey, Body>, ghost base: seq<Request>, ghost reqs: seq<Request>)
      returns (ok: bool, ghost reqs': seq<Request>)
      requires Valid() && cluster.log == base + reqs && key in todo && key in files
      requires Applies(files, todo, reqs) && Faithful(was, reqs, cluster.collectors)
      requires soFar <==> Parsed(files, todo) && AllOk(reqs)
      modifies this`appliedKeys, cluster
      ensures Valid() && cluster.log == base + reqs'
      ensures Applies(files, todo - {key}, reqs') && Faithful(was, reqs', cluster.collectors)
      ensures ok <==> Parsed(files, todo - {key}) && AllOk(reqs')
    {
      reqs' := reqs;
      if key == "" || files[key] == "" {
        AppliesSkip(files, todo, reqs, key);
        return soFar, reqs;
      }
      var colKey := FromKey(key);
      if colKey.None? {
        AppliesSkip(files, todo, reqs, key);
        return false, reqs;
      }
      var k := colKey.value;
      ghost var before := cluster.collectors;
      var applied := cluster.Apply(k, files[key]);
      ghost var r := Request.Apply(k, files[key], applied);
      LogApply(base + reqs, k, files[key], applied);
      AppliesOneMore(files, todo, reqs, key, r);
      FaithfulOneMore(was, reqs, before, r, cluster.collectors);
      ParseThenPrint(key);
      if applied {
        appliedKeys := appliedKeys + {k};
      }
      reqs' := reqs + [r];
      assert base + reqs + [r] == base + reqs';
      AllOkAppend(reqs, r);
      ok := soFar && applied;
    }

    /** First pass, in any order of the entries; a failing entry does not stop it. */
    method ApplyFiles(files: map<string, Body>) returns (ok: bool, ghost reqs: seq<Request>)
      requires Valid()
      modifies this`appliedKeys, cluster
      ensures Valid() && cluster.log == old(cluster.log) + reqs
      ensures appliedKeys == old(appliedKeys) + EverApplied(reqs)
      ensures Applies(files, {}, reqs) && Faithful(old(cluster.collectors), reqs, cluster.collectors)
      ensures ok <==> Parsed(files, {}) && AllOk(reqs)
    {
      ok, reqs := true, [];
      ghost var was, base := cluster.collectors, cluster.log;
      var todo := files.Keys;
      assert Applies(files, todo, reqs) && Faithful(was, reqs, was);
      while todo != {}
        invariant todo <= files.Keys && Valid() && cluster.log == base + reqs
        invariant Applies(files, todo, reqs) && Faithful(was, reqs, cluster.collectors)
        invariant ok <==> Parsed(files, todo) && AllOk(reqs)
        decreases todo
      {
        var key :| key in todo;
        ok, reqs := ApplyEntry(files, key, ok, todo, was, base, reqs);
        todo := todo - {key};
      }
      EverAppliedConcat(base, reqs);
    }

    method DeleteIfGone(files: map<string, Body>, k: CollectorKey, soFar: bool, ghost first: bool,
                        ghost todo: set<CollectorKey>, ghost was: map<CollectorKey, Body>,
                        ghost base: seq<Request>, ghost reqs: seq<Request>)
      returns (ok: bool, ghost reqs': seq<Request>)
      requires Valid() && cluster.log == base + reqs && k in todo && k in appliedKeys
      requires Deletes(files, appliedKeys, todo, reqs) && Faithful(was, reqs, cluster.collectors)
      requires soFar <==> first && AllOk(reqs)
      modifies cluster
      ensures Valid() && cluster.log == base + reqs'
      ensures Deletes(files, appliedKeys, todo - {k}, reqs') && Faithful(was, reqs', cluster.collectors)
      ensures ok <==> first && AllOk(reqs')
    {
      reqs' := reqs;
      if k.String() in files {
        DeletesSkip(files, appliedKeys, todo, reqs, k);
        return soFar, reqs;
      }
      ghost var before := cluster.collectors;
      var deleted := cluster.Delete(k, files);
      ghost var r := Request.Delete(k, files, deleted);
      LogDelete(base + reqs, k, files, deleted);
      DeletesOneMore(files, appliedKeys, todo, reqs, r);
      FaithfulOneMore(was, reqs, before, r, cluster.collectors);
      reqs' := reqs + [r];
      assert base + reqs + [r] == base + reqs';
      AllOkAppend(reqs, r);
      ok := soFar && deleted;
    }

    /** Second pass: every key ever applied that the configuration no longer names is deleted, again and again. */
    method DeleteGone(files: map<string, Body>, soFar: bool) returns (ok: bool, ghost reqs: seq<Request>)
      requires Valid()
      modifies cluster
      ensures Valid() && cluster.log == old(cluster.log) + reqs
      ensures Deletes(files, appliedKeys, {}, reqs) && Faithful(old(cluster.collectors), reqs, cluster.collectors)
      ensures ok <==> soFar && AllOk(reqs)
    {
      ok, reqs := soFar, [];
      ghost var was, base := cluster.collectors, cluster.log;
      var todo := appliedKeys;
      assert Deletes(files, appliedKeys, todo, reqs) && Faithful(was, reqs, was);
      while todo != {}
        invariant todo <= appliedKeys && Valid() && cluster.log == base + reqs
        invariant Deletes(files, appliedKeys, todo, reqs) && Faithful(was, reqs, cluster.collectors)
        invariant ok <==> soFar && AllOk(reqs)
        decreases todo
      {
        var k :| k in todo;
        ok, reqs := DeleteIfGone(files, k, ok, soFar, todo, was, base, reqs);
        todo := todo - {k};
      }
    }

    /**
     Applies a whole configuration. Whatever fails, the requests are those that `Served` says, in two passes, and what
     was applied is remembered. The status tells whether every key parsed and every request went well.
     */
    method ApplyRemoteConfig(config: RemoteConfig)
      returns (status: Status, ghost applies: seq<Request>, ghost deletes: seq<Request>)
      requires Valid()
      modifies this`appliedKeys, this`lastHash, cluster
      ensures Valid() && lastHash == config.hash
      ensures cluster.log == old(cluster.log) + applies + deletes
      ensures appliedKeys == old(appliedKeys) + EverApplied(applies)
      ensures Served(config.files, old(cluster.collectors), appliedKeys, applies, deletes, cluster.collectors)
      ensures status == Applied <==> Parsed(config.files, {}) && AllOk(applies) && AllOk(deletes)
      ensures status == Applied ==> Outcome(config.files, old(cluster.collectors), appliedKeys, cluster.collectors)
    {
      ghost var was := cluster.collectors;
      var ok;
      ok, applies := ApplyFiles(config.files);
      ghost var mid := cluster.collectors;
      ok, deletes := DeleteGone(config.files, ok);
      lastHash := config.hash;
      PassesServe(config.files, was, mid, appliedKeys, applies, deletes, cluster.collectors);
      if !ok {
        return Failed, applies, deletes;
      }
      ServedGivesOutcome(config.files, was, appliedKeys, applies, deletes, cluster.collectors);
      return Applied, applies, deletes;
    }

    /** A configuration is applied when remote configuration is enabled and its hash is not the last one seen. */
    method OnMessage(remoteConfig: Option<RemoteConfig>)
      returns (status: Option<Status>, ghost applies: seq<Request>, ghost deletes: seq<Request>)
      requires Valid()
      modifies this`appliedKeys, this`lastHash, cluster
      ensures Valid() && old(appliedKeys) <= appliedKeys
      ensures status.Some? <==> remoteConfigEnabled && remoteConfig.Some? && remoteConfig.value.hash != old(lastHash)
      ensures status.None? ==> unchanged(this) && unchanged(cluster)
      ensures status.Some? ==>
                && lastHash == remoteConfig.value.hash && cluster.log == old(cluster.log) + applies + deletes
                && Served(remoteConfig.value.files, old(cluster.collectors), appliedKeys,
                          applies, deletes, cluster.collectors)
      ensures status == Some(Applied) ==>
                Outcome(remoteConfig.value.files, old(cluster.collectors), appliedKeys, cluster.collectors)
    {
      applies, deletes := [], [];
      if remoteConfigEnabled && remoteConfig.Some? && lastHash != remoteConfig.value.hash {
        var s;
        s, applies, deletes := ApplyRemoteConfig(remoteConfig.value);
        return Some(s), applies, deletes;
      }
      return None, [], [];
    }
  }
}
