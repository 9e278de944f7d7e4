/** The upgrade step to 0.39.0: a processor field is dropped, and the httpd receiver becomes the apache receiver. */
module RenameReceivers {
  import opened Options

  /** A collector configuration as a tree. */
  datatype Node = Null | Scalar(text: string) | List(items: seq<Node>) | Map(entries: Config)

  type Config = map<string, Node>

  predicate HasPrefix(s: string, prefix: string) {
    |prefix| <= |s| && s[..|prefix|] == prefix
  }

  const HTTPD := "httpd"
  const APACHE := "apache"

  function Renamed(key: string): string {
    if HasPrefix(key, HTTPD) then APACHE + key[|HTTPD|..] else key
  }

  /** Only the prefix is replaced, and only where there is one. */
  lemma RenamedText(key: string)
    ensures (exists rest :: key == "httpd" + rest) ==> key[..5] == "httpd" && Renamed(key) == "apache" + key[5..]
    ensures !(exists rest :: key == "httpd" + rest) ==> Renamed(key) == key
  {
    if HasPrefix(key, HTTPD) { assert key == "httpd" + key[5..]; }
  }

  lemma RenamedIsNew(key: string)
    ensures !HasPrefix(Renamed(key), HTTPD)
  {
    if HasPrefix(key, HTTPD) {
      assert Renamed(key)[0] == 'a';
    }
  }

  lemma RenamedIsInjective(a: string, b: string)
    requires HasPrefix(a, HTTPD) && HasPrefix(b, HTTPD) && Renamed(a) == Renamed(b)
    ensures a == b
  {
    assert Renamed(a)[|APACHE|..] == a[|HTTPD|..];
    assert Renamed(b)[|APACHE|..] == b[|HTTPD|..];
    assert a == a[..|HTTPD|] + a[|HTTPD|..] && b == b[..|HTTPD|] + b[|HTTPD|..];
  }

  // ------------------------------------------------------------------ looking into a configuration

  /** The map under a key, if there is one. */
  function Section(cfg: Config, key: string): Option<Config> {
    if key in cfg && cfg[key].Map? then Some(cfg[key].entries) else None
  }

  function Receivers(cfg: Config): Config {
    var r := Section(cfg, "receivers");
    if r.Some? then r.value else map[]
  }

  function Pipelines(cfg: Config): Option<Config> {
    var service := Section(cfg, "service");
    if service.None? then None else Section(service.value, "pipelines")
  }

  ghost predicate HasHttpd(receivers: Config) {
    exists k :: k in receivers && HasPrefix(k, HTTPD)
  }

  /** The service section has the shape the step expects; it gives up otherwise. */
  predicate Shaped(pipelines: Option<Config>) {
    && pipelines.Some?
    && ("metrics" in pipelines.value ==>
          && pipelines.value["metrics"].Map?
          && ("receivers" in pipelines.value["metrics"].entries ==>
                pipelines.value["metrics"].entries["receivers"].List?))
  }

  /** The receivers a pipeline refers to. */
  function Refs(pipelines: Config, p: string): seq<Node> {
    if p in pipelines && pipelines[p].Map? && "receivers" in pipelines[p].entries
       && pipelines[p].entries["receivers"].List?
    then pipelines[p].entries["receivers"].items else []
  }

  ghost predicate AllText(refs: seq<Node>) {
    forall i :: 0 <= i < |refs| ==> refs[i].Scalar?
  }

  // ------------------------------------------------------------------ the step as a function

  function DroppedField(key: string, processor: Node): Node {
    if HasPrefix(key, "memory_limiter") && processor.Map? then Map(processor.entries - {"ballast_size_mib"})
    else processor
  }

  ghost function Dropped(cfg: Config): Config {
    var processors := Section(cfg, "processors");
    if processors.None? then cfg
    else cfg["processors" := Map(map k | k in processors.value :: DroppedField(k, processors.value[k]))]
  }

  function RenamedRefs(refs: seq<Node>): seq<Node> {
    seq(|refs|, i requires 0 <= i < |refs| => if refs[i].Scalar? then Scalar(Renamed(refs[i].text)) else refs[i])
  }

  /** The pipelines after the references of the metrics pipeline were renamed. */
  function RenamedPipelines(pipelines: Config): Config {
    if "metrics" in pipelines && pipelines["metrics"].Map? && "receivers" in pipelines["metrics"].entries
       && pipelines["metrics"].entries["receivers"].List?
    then
      var metrics := pipelines["metrics"].entries;
      pipelines["metrics" := Map(metrics["receivers" := List(RenamedRefs(metrics["receivers"].items))])]
    else pipelines
  }

  function WithPipelines(cfg: Config, pipelines: Config): Config {
    var service := Section(cfg, "service");
    if service.None? then cfg else cfg["service" := Map(service.value["pipelines" := Map(pipelines)])]
  }

  /** Every httpd receiver moved to its new key, where it replaces whatever was there. */
  ghost function RenamedReceivers(receivers: Config): Config {
    map k | k in (set r | r in receivers :: Renamed(r)) :: Source(receivers, k)
  }

  ghost function Source(receivers: Config, k: string): Node
    requires exists r :: r in receivers && Renamed(r) == k
  {
    if exists r :: r in receivers && HasPrefix(r, HTTPD) && Renamed(r) == k
    then var r :| r in receivers && HasPrefix(r, HTTPD) && Renamed(r) == k; receivers[r]
    else receivers[k]
  }

  /** What the step stores: when it gives up, the receivers stay as they were. */
  ghost function Upgraded(cfg: Config): Config {
    var dropped := Dropped(cfg);
    if !HasHttpd(Receivers(cfg)) || !Shaped(Pipelines(cfg)) then dropped
    else WithPipelines(dropped["receivers" := Map(RenamedReceivers(Receivers(cfg)))],
                       RenamedPipelines(Pipelines(cfg).value))
  }

  lemma SourceOfHttpd(receivers: Config, r: string)
    requires r in receivers && HasPrefix(r, HTTPD)
    ensures Renamed(r) in RenamedReceivers(receivers) && RenamedReceivers(receivers)[Renamed(r)] == receivers[r]
  {
    forall r' | r' in receivers && HasPrefix(r', HTTPD) && Renamed(r') == Renamed(r) ensures r' == r {
      RenamedIsInjective(r', r);
    }
  }

  // ------------------------------------------------------------------ the step as the operator runs it

  /** A processor after the step: a memory limiter has lost its ballast, any other is as it was. */
  ghost predicate LostBallast(key: string, before: Node, after: Node) {
    if |key| >= 14 && key[..14] == "memory_limiter" && before.Map?
    then && after.Map?
         && (forall f :: f in after.entries <==> f in before.entries && f != "ballast_size_mib")
         && (forall f :: f in after.entries ==> after.entries[f] == before.entries[f])
    else after == before
  }

  lemma DroppedFieldIsBallast(key: string, processor: Node)
    ensures LostBallast(key, processor, DroppedField(key, processor))
  {
    assert |"memory_limiter"| == 14;
  }

  method DropFields(processors: Config) returns (result: Config)
    ensures result == map k | k in processors :: DroppedField(k, processors[k])
    ensures result.Keys == processors.Keys && forall k :: k in processors ==> LostBallast(k, processors[k], result[k])
  {
    forall k | k in processors ensures LostBallast(k, processors[k], DroppedField(k, processors[k])) {
      DroppedFieldIsBallast(k, processors[k]);
    }
    result := processors;
    var todo := processors.Keys;
    while todo != {}
      invariant todo <= processors.Keys && result.Keys == processors.Keys
      invariant forall k :: k in processors ==>
                  result[k] == if k in todo then processors[k] else DroppedField(k, processors[k])
      decreases todo
    {
      var k :| k in todo;
      todo := todo - {k};
      if HasPrefix(k, "memory_limiter") && result[k].Map? {
        result := result[k := Map(result[k].entries - {"ballast_size_mib"})];
      }
    }
  }

  method RenameRefs(refs: seq<Node>) returns (result: seq<Node>)
    requires forall i :: 0 <= i < |refs| ==> refs[i].Scalar?
    ensures result == RenamedRefs(refs)
  {
    result := refs;
    for i := 0 to |refs|
      invariant |result| == |refs|
      invariant forall j :: 0 <= j < |refs| ==> result[j] == if j < i then RenamedRefs(refs)[j] else refs[j]
    {
      if HasPrefix(result[i].text, HTTPD) {
        result := result[i := Scalar(APACHE + result[i].text[|HTTPD|..])];
      }
    }
  }

  lemma RenamedRefsTwice(refs: seq<Node>)
    ensures RenamedRefs(RenamedRefs(refs)) == RenamedRefs(refs)
  {
    forall i | 0 <= i < |refs| ensures RenamedRefs(RenamedRefs(refs))[i] == RenamedRefs(refs)[i] {
      if refs[i].Scalar? { RenamedIsNew(refs[i].text); }
    }
  }

  /** Renames the references of the metrics pipeline, or gives up on a service section of another shape. */
  method RenameInPipelines(pipelines: Option<Config>) returns (ok: bool, result: Config)
    requires pipelines.Some? ==> AllText(Refs(pipelines.value, "metrics"))
    ensures ok <==> Shaped(pipelines)
    ensures ok ==> result == RenamedPipelines(pipelines.value)
  {
    result := map[];
    if pipelines.None? {
      return false, result;
    }
    result := pipelines.value;
    if "metrics" !in result {
      return true, result;
    }
    if !result["metrics"].Map? {
      return false, result;
    }
    var metrics := result["metrics"].entries;
    if "receivers" !in metrics {
      return true, result;
    }
    if !metrics["receivers"].List? {
      return false, result;
    }
    var refs := RenameRefs(metrics["receivers"].items);
    return true, result["metrics" := Map(metrics["receivers" := List(refs)])];
  }

  /** The entry under `k` while the httpd receivers outside `todo` have moved. */
  ghost predicate EntryAt(receivers: Config, todo: set<string>, now: Config, k: string) {
    if exists r :: Moved(receivers, todo, r, k)
    then k in now && forall r :: Moved(receivers, todo, r, k) ==> now[k] == receivers[r]
    else if k in receivers && !(HasPrefix(k, HTTPD) && k !in todo) then k in now && now[k] == receivers[k]
    else k !in now
  }

  ghost predicate Moved(receivers: Config, todo: set<string>, r: string, k: string) {
    r in receivers && r !in todo && HasPrefix(r, HTTPD) && Renamed(r) == k
  }

  ghost predicate Moving(receivers: Config, todo: set<string>, now: Config) {
    forall k :: EntryAt(receivers, todo, now, k)
  }

  lemma MoveOne(receivers: Config, todo: set<string>, now: Config, r: string)
    requires Moving(receivers, todo, now) && r in todo && r in receivers && HasPrefix(r, HTTPD)
    ensures r in now && now[r] == receivers[r]
    ensures Moving(receivers, todo - {r}, now[Renamed(r) := now[r]] - {r})
  {
    var todo' := todo - {r};
    assert EntryAt(receivers, todo, now, r);
    RenamedIsNew(r);
    forall r' ensures !Moved(receivers, todo, r', r) { if HasPrefix(r', HTTPD) { RenamedIsNew(r'); } }
    var now' := now[Renamed(r) := now[r]] - {r};
    forall k ensures EntryAt(receivers, todo', now', k) {
      assert EntryAt(receivers, todo, now, k);
      assert forall r' :: Moved(receivers, todo', r', k) <==>
                          Moved(receivers, todo, r', k) || (r' == r && k == Renamed(r));
      if k == Renamed(r) {
        assert Moved(receivers, todo', r, k);
        forall r' | Moved(receivers, todo', r', k) ensures r' == r { RenamedIsInjective(r', r); }
      } else if exists r' :: Moved(receivers, todo, r', k) {
        var r' :| Moved(receivers, todo, r', k);
        assert Moved(receivers, todo', r', k);
      }
    }
  }

  lemma SkipOne(receivers: Config, todo: set<string>, now: Config, r: string)
    requires Moving(receivers, todo, now) && !HasPrefix(r, HTTPD)
    ensures Moving(receivers, todo - {r}, now)
  {
    var todo' := todo - {r};
    forall k ensures EntryAt(receivers, todo', now, k) {
      assert EntryAt(receivers, todo, now, k);
      assert forall r' :: Moved(receivers, todo', r', k) <==> Moved(receivers, todo, r', k);
    }
  }

  lemma MovedAll(receivers: Config, now: Config)
    requires Moving(receivers, {}, now)
    ensures now == RenamedReceivers(receivers)
  {
    var renamed := RenamedReceivers(receivers);
    forall k ensures k in now <==> k in renamed {
      assert EntryAt(receivers, {}, now, k);
      if exists r :: Moved(receivers, {}, r, k) {
        var r :| Moved(receivers, {}, r, k);
        SourceOfHttpd(receivers, r);
      } else if k in receivers && !HasPrefix(k, HTTPD) {
        assert Renamed(k) == k;
      } else if k in renamed {
        var r :| r in receivers && Renamed(r) == k;
        assert HasPrefix(r, HTTPD) ==> Moved(receivers, {}, r, k);
      }
    }
    forall k | k in now ensures now[k] == renamed[k] {
      assert EntryAt(receivers, {}, now, k);
      if exists r :: Moved(receivers, {}, r, k) {
        var r :| Moved(receivers, {}, r, k);
        SourceOfHttpd(receivers, r);
      } else {
        assert forall r :: r in receivers && HasPrefix(r, HTTPD) ==> !Moved(receivers, {}, r, k) ==> Renamed(r) != k;
      }
    }
  }

  lemma RenamedPipelinesTwice(pipelines: Config)
    ensures RenamedPipelines(RenamedPipelines(pipelines)) == RenamedPipelines(pipelines)
    ensures Shaped(Some(pipelines)) ==> Shaped(Some(RenamedPipelines(pipelines)))
    ensures AllText(Refs(pipelines, "metrics")) ==> AllText(Refs(RenamedPipelines(pipelines), "metrics"))
  {
    var refs := Refs(pipelines, "metrics");
    RenamedRefsTwice(refs);
    var once := RenamedPipelines(pipelines);
    if once != pipelines {
      var metrics := once["metrics"].entries;
      assert metrics["receivers"] == List(RenamedRefs(refs));
      assert metrics["receivers" := metrics["receivers"]] == metrics;
      assert once["metrics" := once["metrics"]] == once;
    }
  }

  /** What the loop over the receivers has done to the pipelines: nothing before the first httpd receiver. */
  ghost predicate PipelinesAt(before: Option<Config>, now: Option<Config>, started: bool) {
    if started then Shaped(before) && now == Some(RenamedPipelines(before.value)) else now == before
  }

  /**
   The step takes the receivers in any order. It stores the configuration once the field is dropped, and again at the
   end; when it gives up in between, the renaming done so far is not stored.
   */
  method Upgrade0_39_0(cfg: Config) returns (stored: Config)
    requires HasHttpd(Receivers(cfg)) && Pipelines(cfg).Some? ==> AllText(Refs(Pipelines(cfg).value, "metrics"))
    ensures stored == Upgraded(cfg)
    ensures ProcessorsAfter(cfg, stored) && NothingElseChanges(cfg, stored)
  {
    UpgradedProcessors(cfg);
    UpgradedFrame(cfg);
    stored := cfg;
    var processors := Section(cfg, "processors");
    if processors.Some? {
      var dropped := DropFields(processors.value);
      stored := stored["processors" := Map(dropped)];
    }
    var receivers, pipelines := Receivers(cfg), Pipelines(cfg);
    var todo := receivers.Keys;
    var started := false;
    StartMoving(receivers);
    while todo != {}
      invariant todo <= Receivers(cfg).Keys && Moving(Receivers(cfg), todo, receivers)
      invariant PipelinesAt(Pipelines(cfg), pipelines, started)
      invariant started <==> exists k :: k in Receivers(cfg) && k !in todo && HasPrefix(k, HTTPD)
      decreases todo
    {
      var k :| k in todo;
      if HasPrefix(k, HTTPD) {
        assert HasHttpd(Receivers(cfg));
        MoveOne(Receivers(cfg), todo, receivers, k);
        receivers := receivers[Renamed(k) := receivers[k]] - {k};
        if Pipelines(cfg).Some? { RenamedPipelinesTwice(Pipelines(cfg).value); }
        var ok, renamed := RenameInPipelines(pipelines);
        if !ok {
          return;
        }
        pipelines := Some(renamed);
        started := true;
      } else {
        SkipOne(Receivers(cfg), todo, receivers, k);
      }
      todo := todo - {k};
    }
    MovedAll(Receivers(cfg), receivers);
    if started {
      stored := WithPipelines(stored["receivers" := Map(receivers)], pipelines.value);
    }
  }

  lemma StartMoving(receivers: Config)
    ensures Moving(receivers, receivers.Keys, receivers)
  {
    forall k ensures EntryAt(receivers, receivers.Keys, receivers, k) {}
  }

  // ------------------------------------------------------------------ what the step means for a configuration

  lemma StoredSections(cfg: Config)
    requires HasHttpd(Receivers(cfg)) && Shaped(Pipelines(cfg))
    ensures Receivers(Upgraded(cfg)) == RenamedReceivers(Receivers(cfg))
    ensures Pipelines(Upgraded(cfg)) == Some(RenamedPipelines(Pipelines(cfg).value))
  {
  }

  /** The processors after the step. */
  ghost predicate ProcessorsAfter(cfg: Config, after: Config) {
    if "processors" in cfg && cfg["processors"].Map?
    then && "processors" in after && after["processors"].Map?
         && after["processors"].entries.Keys == cfg["processors"].entries.Keys
         && forall p :: p in cfg["processors"].entries ==>
                          LostBallast(p, cfg["processors"].entries[p], after["processors"].entries[p])
    else SameEntry(cfg, after, "processors")
  }

  ghost predicate SameEntry(before: Config, after: Config, k: string) {
    (k in before <==> k in after) && (k in before ==> after[k] == before[k])
  }

  /** The entries of a map are those of another one, except for a key. */
  ghost predicate SameBut(before: Node, after: Node, key: string) {
    if before.Map?
    then && after.Map? && after.entries.Keys == before.entries.Keys
         && forall k :: k in before.entries && k != key ==> after.entries[k] == before.entries[k]
    else after == before
  }

  /** Sections, service entries, pipelines and entries of the metrics pipeline that the step has no business with. */
  ghost predicate NothingElseChanges(cfg: Config, after: Config) {
    && after.Keys == cfg.Keys
    && (forall k :: k in cfg && k !in {"processors", "receivers", "service"} ==> after[k] == cfg[k])
    && ("receivers" in cfg && !cfg["receivers"].Map? ==> after["receivers"] == cfg["receivers"])
    && ("service" in cfg ==> SameBut(cfg["service"], after["service"], "pipelines"))
    && (Pipelines(cfg).Some? ==>
          && Pipelines(after).Some?
          && SameBut(Map(Pipelines(cfg).value), Map(Pipelines(after).value), "metrics")
          && ("metrics" in Pipelines(cfg).value ==>
                SameBut(Pipelines(cfg).value["metrics"], Pipelines(after).value["metrics"], "receivers")))
  }

  lemma UpgradedProcessors(cfg: Config)
    ensures ProcessorsAfter(cfg, Upgraded(cfg))
  {
    assert Section(Upgraded(cfg), "processors") == Section(Dropped(cfg), "processors");
    if Section(cfg, "processors").Some? {
      var processors := cfg["processors"].entries;
      forall p | p in processors ensures LostBallast(p, processors[p], DroppedField(p, processors[p])) {
        DroppedFieldIsBallast(p, processors[p]);
      }
    }
  }

  lemma UpgradedFrame(cfg: Config)
    ensures NothingElseChanges(cfg, Upgraded(cfg))
  {
    if HasHttpd(Receivers(cfg)) && Shaped(Pipelines(cfg)) {
      StoredSections(cfg);
      RenamedPipelinesFrame(Pipelines(cfg).value);
    }
  }

  lemma RenamedPipelinesFrame(pipelines: Config)
    ensures SameBut(Map(pipelines), Map(RenamedPipelines(pipelines)), "metrics")
    ensures "metrics" in pipelines ==>
              SameBut(pipelines["metrics"], RenamedPipelines(pipelines)["metrics"], "receivers")
  {
  }

  /**
   The receivers after the step. If it is given up, or has nothing to do, they are as they were. Otherwise a key is
   there exactly if it is that of another receiver, or comes from an httpd receiver whose configuration it then has.
   */
  lemma ReceiversAfter(cfg: Config, k: string)
    ensures !HasHttpd(Receivers(cfg)) || !Shaped(Pipelines(cfg)) ==> Receivers(Upgraded(cfg)) == Receivers(cfg)
    ensures HasHttpd(Receivers(cfg)) && Shaped(Pipelines(cfg)) ==>
              var before, after := Receivers(cfg), Receivers(Upgraded(cfg));
              var from := if |k| >= 6 && k[..6] == "apache" then "httpd" + k[6..] else "";
              if from != "" && from in before then k in after && after[k] == before[from]
              else && (k in after <==> k in before && !(|k| >= 5 && k[..5] == "httpd"))
                   && (k in after ==> after[k] == before[k])
  {
    if HasHttpd(Receivers(cfg)) && Shaped(Pipelines(cfg)) {
      StoredSections(cfg);
      RenamedReceiverAt(Receivers(cfg), k);
    } else {
      assert Receivers(Dropped(cfg)) == Receivers(cfg);
    }
  }

  lemma RenamedReceiverAt(before: Config, k: string)
    ensures var after := RenamedReceivers(before);
            var from := if |k| >= 6 && k[..6] == "apache" then "httpd" + k[6..] else "";
            if from != "" && from in before then k in after && after[k] == before[from]
            else && (k in after <==> k in before && !(|k| >= 5 && k[..5] == "httpd"))
                 && (k in after ==> after[k] == before[k])
  {
    var after := RenamedReceivers(before);
    var from := if |k| >= 6 && k[..6] == "apache" then "httpd" + k[6..] else "";
    if from != "" && from in before {
      assert HasPrefix(from, HTTPD) && from[5..] == k[6..] && k == "apache" + k[6..];
      assert Renamed(from) == k;
      SourceOfHttpd(before, from);
    } else {
      forall r | r in before && HasPrefix(r, HTTPD) ensures Renamed(r) != k {
        assert Renamed(r)[..6] == "apache" && Renamed(r)[6..] == r[5..];
        assert r == "httpd" + r[5..];
      }
      if HasPrefix(k, HTTPD) {
        forall r | r in before ensures Renamed(r) != k { RenamedIsNew(r); }
      } else if k in before {
        assert Renamed(k) == k;
      }
    }
  }

  /** When the step is carried out, each reference of the metrics pipeline is renamed by its text, in place. */
  lemma MetricsRefsAfter(cfg: Config, i: nat)
    requires HasHttpd(Receivers(cfg)) && Shaped(Pipelines(cfg))
    requires i < |Refs(Pipelines(cfg).value, "metrics")| && Refs(Pipelines(cfg).value, "metrics")[i].Scalar?
    ensures Pipelines(Upgraded(cfg)).Some?
    ensures var ref := Refs(Pipelines(cfg).value, "metrics")[i].text;
            var refs := Refs(Pipelines(Upgraded(cfg)).value, "metrics");
            && |refs| == |Refs(Pipelines(cfg).value, "metrics")|
            && refs[i] == Scalar(if |ref| >= 5 && ref[..5] == "httpd" then "apache" + ref[5..] else ref)
  {
    StoredSections(cfg);
  }

  /** No httpd receiver is left exactly when there was none, or the service section had the expected shape. */
  lemma HttpdGoneUnlessGivenUp(cfg: Config)
    ensures !HasHttpd(Receivers(Upgraded(cfg))) <==> !HasHttpd(Receivers(cfg)) || Shaped(Pipelines(cfg))
  {
    if HasHttpd(Receivers(cfg)) && Shaped(Pipelines(cfg)) {
      StoredSections(cfg);
      forall r | r in Receivers(cfg) ensures !HasPrefix(Renamed(r), HTTPD) { RenamedIsNew(r); }
    } else {
      assert Receivers(Dropped(cfg)) == Receivers(cfg);
    }
  }

  /** Whether what is under a key, if anything, is a map. */
  ghost predicate MapIfThere(cfg: Config, key: string) {
    key in cfg ==> cfg[key].Map?
  }

  /** The rename is given up exactly when a section on the way to the references is missing or is of another kind. */
  lemma GivenUpIff(cfg: Config)
    requires HasHttpd(Receivers(cfg))
    ensures Receivers(Upgraded(cfg)) != Receivers(cfg) <==>
            && "service" in cfg && cfg["service"].Map?
            && "pipelines" in cfg["service"].entries && cfg["service"].entries["pipelines"].Map?
            && var pipelines := cfg["service"].entries["pipelines"].entries;
               && MapIfThere(pipelines, "metrics")
               && ("metrics" in pipelines && "receivers" in pipelines["metrics"].entries ==>
                     pipelines["metrics"].entries["receivers"].List?)
  {
    HttpdGoneUnlessGivenUp(cfg);
    if !Shaped(Pipelines(cfg)) { assert Receivers(Dropped(cfg)) == Receivers(cfg); }
  }

  /** No receiver sits where another one is going, unless it is configured alike. */
  ghost predicate NoClash(receivers: Config) {
    forall r :: r in receivers && HasPrefix(r, HTTPD) && Renamed(r) in receivers ==>
      receivers[Renamed(r)] == receivers[r]
  }

  ghost predicate OthersUntouched(before: Config, after: Config) {
    forall k :: k in before && !HasPrefix(k, HTTPD) ==> k in after && after[k] == before[k]
  }

  /**
   Every other receiver keeps its configuration exactly when no renamed receiver lands on one configured otherwise, or
   the rename is given up.
   */
  lemma OthersUntouchedIff(cfg: Config)
    ensures OthersUntouched(Receivers(cfg), Receivers(Upgraded(cfg))) <==>
            NoClash(Receivers(cfg)) || !Shaped(Pipelines(cfg))
  {
    if HasHttpd(Receivers(cfg)) && Shaped(Pipelines(cfg)) {
      StoredSections(cfg);
      RenamedKeepsOthersIff(Receivers(cfg));
    } else {
      assert Receivers(Dropped(cfg)) == Receivers(cfg);
    }
  }

  lemma RenamedKeepsOthersIff(receivers: Config)
    ensures OthersUntouched(receivers, RenamedReceivers(receivers)) <==> NoClash(receivers)
  {
    var after := RenamedReceivers(receivers);
    forall r | r in receivers && HasPrefix(r, HTTPD) ensures Renamed(r) in after && after[Renamed(r)] == receivers[r] {
      SourceOfHttpd(receivers, r);
    }
    if NoClash(receivers) {
      forall k | k in receivers && !HasPrefix(k, HTTPD) ensures k in after && after[k] == receivers[k] {
        assert Renamed(k) == k;
      }
    } else {
      var r :| r in receivers && HasPrefix(r, HTTPD) && Renamed(r) in receivers
               && receivers[Renamed(r)] != receivers[r];
      RenamedIsNew(r);
    }
  }

  ghost predicate DeclaredIn(refs: seq<Node>, receivers: Config) {
    forall i :: 0 <= i < |refs| ==> refs[i].Scalar? && refs[i].text in receivers
  }

  /** A reference of the metrics pipeline still means the same receiver after the step. */
  lemma ReferencesKeepMeaning(cfg: Config, i: nat)
    requires HasHttpd(Receivers(cfg)) && Shaped(Pipelines(cfg)) && NoClash(Receivers(cfg))
    requires DeclaredIn(Refs(Pipelines(cfg).value, "metrics"), Receivers(cfg))
    requires i < |Refs(Pipelines(cfg).value, "metrics")|
    ensures var before, after := Refs(Pipelines(cfg).value, "metrics"),
                                 Refs(RenamedPipelines(Pipelines(cfg).value), "metrics");
            && Pipelines(Upgraded(cfg)) == Some(RenamedPipelines(Pipelines(cfg).value))
            && |after| == |before| && after[i].Scalar?
            && after[i].text in Receivers(Upgraded(cfg))
            && Receivers(Upgraded(cfg))[after[i].text] == Receivers(cfg)[before[i].text]
  {
    StoredSections(cfg);
    var receivers := Receivers(cfg);
    var ref := Refs(Pipelines(cfg).value, "metrics")[i].text;
    if HasPrefix(ref, HTTPD) {
      SourceOfHttpd(receivers, ref);
    } else {
      RenamedKeepsOthersIff(receivers);
    }
  }

  /** Every pipeline refers to declared receivers only. */
  ghost predicate AllDeclared(pipelines: Config, receivers: Config) {
    forall p :: p in pipelines ==> DeclaredIn(Refs(pipelines, p), receivers)
  }

  ghost predicate MentionsHttpd(refs: seq<Node>) {
    exists i :: 0 <= i < |refs| && refs[i].Scalar? && HasPrefix(refs[i].text, HTTPD)
  }

  /** Only the pipeline named `metrics` is followed: another one that mentions an httpd receiver is left dangling. */
  lemma AllDeclaredIffOnlyMetrics(cfg: Config)
    requires HasHttpd(Receivers(cfg)) && Shaped(Pipelines(cfg))
    requires AllDeclared(Pipelines(cfg).value, Receivers(cfg))
    ensures AllDeclared(Pipelines(Upgraded(cfg)).value, Receivers(Upgraded(cfg))) <==>
            forall p :: p in Pipelines(cfg).value && p != "metrics" ==> !MentionsHttpd(Refs(Pipelines(cfg).value, p))
  {
    StoredSections(cfg);
    OnlyMetricsIsFollowed(Pipelines(cfg).value, Receivers(cfg));
  }

  lemma OnlyMetricsIsFollowed(pipelines: Config, receivers: Config)
    requires AllDeclared(pipelines, receivers)
    ensures AllDeclared(RenamedPipelines(pipelines), RenamedReceivers(receivers)) <==>
            forall p :: p in pipelines && p != "metrics" ==> !MentionsHttpd(Refs(pipelines, p))
  {
    var after := RenamedPipelines(pipelines);
    assert after.Keys == pipelines.Keys;
    if forall p :: p in pipelines && p != "metrics" ==> !MentionsHttpd(Refs(pipelines, p)) {
      forall p | p in after ensures DeclaredIn(Refs(after, p), RenamedReceivers(receivers)) {
        OnePipelineDeclared(pipelines, receivers, p);
      }
    } else {
      var p :| p in pipelines && p != "metrics" && MentionsHttpd(Refs(pipelines, p));
      OnePipelineDangles(pipelines, receivers, p);
    }
  }

  lemma OnePipelineDangles(pipelines: Config, receivers: Config, p: string)
    requires p in pipelines && p != "metrics" && MentionsHttpd(Refs(pipelines, p))
    ensures !DeclaredIn(Refs(RenamedPipelines(pipelines), p), RenamedReceivers(receivers))
  {
    forall r | r in receivers ensures !HasPrefix(Renamed(r), HTTPD) { RenamedIsNew(r); }
    assert Refs(RenamedPipelines(pipelines), p) == Refs(pipelines, p);
    var i :| 0 <= i < |Refs(pipelines, p)| && Refs(pipelines, p)[i].Scalar?
             && HasPrefix(Refs(pipelines, p)[i].text, HTTPD);
    assert Refs(pipelines, p)[i].text !in RenamedReceivers(receivers);
  }

  lemma OnePipelineDeclared(pipelines: Config, receivers: Config, p: string)
    requires p in pipelines && DeclaredIn(Refs(pipelines, p), receivers)
    requires p != "metrics" ==> !MentionsHttpd(Refs(pipelines, p))
    ensures DeclaredIn(Refs(RenamedPipelines(pipelines), p), RenamedReceivers(receivers))
  {
    var before, after := Refs(pipelines, p), Refs(RenamedPipelines(pipelines), p);
    forall i | 0 <= i < |after| ensures after[i].Scalar? && after[i].text in RenamedReceivers(receivers) {
      assert after[i].text == Renamed(before[i].text);
    }
  }
}
