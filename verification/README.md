# A verified model of the OpenTelemetry operator's core

This project models the parts of the OpenTelemetry operator whose behaviour spans many steps, and proves what holds of
every input, every run or every reachable state.

* **Target allocation.** The target allocator spreads scrape targets over collectors. Both strategies share a `Ledger`
  (collectors with their counters, targets with the collector they name, and an index by collector and job). Its
  invariant is `Settled`: every target names a live collector, every counter is the exact number of targets less what
  it is known to be behind by, and the index lists a target under a collector and a job exactly when the target says
  so. No counter of the least-weighted strategy is ever behind. `LeastWeighted` and
  `ConsistentHashing` are the two strategies as classes; `LeastWeightedSpec` and `ConsistentHashingSpec` describe runs
  of calls; `Leveling` is the arithmetic of handing items to a least loaded receiver; `CollectorWatch` is the pod watch
  that feeds an allocator; `Diff` computes the changes both start from.
* **The OpAMP bridge.** `OpampAgent` is the agent that applies remote configurations to a cluster that may fail at any
  request; `CollectorKeys` is the text form of its keys.
* **Auto-instrumentation.** `Injection` edits a container's environment in place, `InjectionSpec` says what each edit
  amounts to, `InjectionLaws` what holds of any sequence of injections, `InjectionValues` which texts are set, and
  `ResourceAttributes` is the printer and the reader of resource attributes.
* **Reconciliation, upgrades, names.** `Reconcile` is the create, patch and delete pass over stateful sets and daemon
  sets; `Upgrade` the chain of version steps; `RenameReceivers` the step to 0.39.0; `Naming` the truncation and
  sanitising of names.

`dafny verify dfyconfig.toml` checks the whole project.

## Where the code falls short of its promises

Each of these has a lemma that says exactly when the promise holds.

* Adding a collector moves no target, so the spread can grow (`CollectorsSpread`, `JoiningCollectorWidensSpread`).
* The consistent-hashing allocator un-counts a target that arrives already naming a live collector, although that
  collector never counted it. Its counter stays behind until the collector leaves (`NoDebtsIffUnclaimed`,
  `BehindIffClaimed`).
* A hash joins job, address and labels without a separator, so it need not determine the job. Assignment and counts do
  not depend on that, answers by job do (`HistoryDoesNotMatter`, `AnswersAgreeIffArrivedAlike`).
* Updates of targets and collectors do not commute before the first collector is known, and a counter depends on the
  order when a new target names a collector that joins (`UpdatesCommute`, `JoinerIsCharged`).
* A remote configuration that keeps a key with an empty body neither applies nor deletes it
  (`ConvergesUnlessEmptied`).
* The label that objects get is truncated to 63 bytes and trimmed, the one that stale objects are listed by is not, so
  with a long name stale objects are never deleted (`StaleObjectGoesIffLabelFits`, `StaleObjectNeverGoes`).
* An object whose immutable fields changed is deleted and is missing until the next pass (`OnePassSettlesIff`).
* The rename of `httpd` receivers is given up when the pipelines have an unexpected shape, overwrites a receiver that
  has the new name, and only follows references in the pipeline named `metrics` (`HttpdGoneUnlessGivenUp`,
  `OthersUntouchedIff`, `AllDeclaredIffOnlyMetrics`).
* A DNS name compares an offset in bytes with a length in characters, so a name with wider characters can end in a
  dash (`DNSNameEnd`).
* A comment says that resource attributes set by the user win. The pod name, the node name and, if asked for, the pod
  identifier are nevertheless added a second time (`RedefinedAttributes`).
* A common variable loses to a language's built-in default (`CommonValueIsUsedIff`). A variable that a language extends
  can end up with both a value and a reference (`ExtendedHasTwoSourcesIff`), and so can the resource attributes, which
  no language validates (`AttributesHaveTwoSourcesIff`).

## Model

| member | source | states |
|---|---|---|
| `Diff.Maps` | cmd/otel-allocator/diff/diff.go:43-63 | the two loops compute the change set whose additions and removals are given by key and hash |
| `Diff.PatchReachesNew` | cmd/otel-allocator/diff/diff.go:43-63 | removing the removals and adding the additions gives the new map up to equal hashes, keeps agreeing entries, leaves no further change; both sides are empty iff the maps already agree |
| `Diff.KeyedByHash` | cmd/otel-allocator/diff/diff.go:43-63 | for maps keyed by hash, additions and removals are the two set differences of the keys |
| `Placements.MoveKeeps` | cmd/otel-allocator/allocation/consistent_hashing.go:107-120 | detaching a target from a live collector and attaching it elsewhere keeps counters exact and the index right |
| `Placements.AttachKeeps` | cmd/otel-allocator/allocation/least_weighted.go:139-146 | so does attaching a target that is new or names a removed collector |
| `Placements.ForgetKeeps` | cmd/otel-allocator/allocation/least_weighted.go:153-162 | so does removing a target |
| `Placements.RetireKeeps` | cmd/otel-allocator/allocation/least_weighted.go:181-185 | so does dropping a collector with its whole index, while its targets still name it |
| `Placements.EnlistKeeps` | cmd/otel-allocator/allocation/least_weighted.go:187-189 | so does adding a collector that no target names |
| `Placements.SettledTotal` | cmd/otel-allocator/allocation/least_weighted.go:40-56 | in a settled state the counts add up to the number of targets |
| `Placements.SettledIsDetermined` | cmd/otel-allocator/allocation/least_weighted.go:40-56 | collector names and placements determine every count and every answer of the index |
| `Placements.AnswersPartitionJob` | cmd/otel-allocator/allocation/least_weighted.go:63-79 | the answers for a job, over all collectors, are disjoint and together are exactly the job's targets |
| `Ledgers.Ledger.AddCollectorTargetItemMapping` | cmd/otel-allocator/allocation/least_weighted.go:123-131 | files the target under its collector and job, making the inner maps when missing |
| `Ledgers.Ledger.Assign` | cmd/otel-allocator/allocation/least_weighted.go:141-144 | names the collector, stores, files and counts the target: the whole new state |
| `Ledgers.Ledger.Unassign` | cmd/otel-allocator/allocation/consistent_hashing.go:109-113 | un-counts and un-files a target at its previous collector: the whole new state |
| `Ledgers.Ledger.RemoveTargets` | cmd/otel-allocator/allocation/consistent_hashing.go:127-136 | the removal loop drops exactly the targets of the removals that are held and keeps the invariant |
| `Ledgers.Ledger.RetireCollectors` | cmd/otel-allocator/allocation/consistent_hashing.go:155-160 | drops exactly the removed collectors and what they were behind by; the others stay counted although targets still name the removed ones |
| `Ledgers.Ledger.EnlistCollectors` | cmd/otel-allocator/allocation/consistent_hashing.go:162-165 | adds the new collectors, with counters that are right and nothing behind |
| `Ledgers.Ledger.GetTargetsForCollectorAndJob` | cmd/otel-allocator/allocation/least_weighted.go:63-79 | returns, without repetition, exactly the targets that name that collector and that job, as a scan of all targets would |
| `Ledgers.Ledger.AnswerIsScan` | cmd/otel-allocator/allocation/consistent_hashing.go:222-238 | the index answers like a scan of all targets, for known and unknown collectors and jobs |
| `Ledgers.Ledger.CountersFallShortByDebt` | cmd/otel-allocator/allocation/consistent_hashing.go:107-120 | every counter is the number of targets that name its collector, less what it is behind by |
| `Ledgers.Ledger.CountersAreExactIff` | cmd/otel-allocator/allocation/consistent_hashing.go:107-120 | all counters are right iff none is behind |
| `Leveling.ReceiversAreLevel` | cmd/otel-allocator/allocation/least_weighted.go:107-118 | handing items to least loaded receivers: whoever received one ends with at most one more than anyone |
| `Leveling.FillKeepsSpread` | cmd/otel-allocator/allocation/least_weighted.go:107-118 | a spread of at least one is never exceeded by handing out more |
| `Leveling.LevelIsFloorOrCeiling` | cmd/otel-allocator/allocation/least_weighted.go:107-118 | with a spread of at most one, every load is the floor or the ceiling of the mean |
| `Leveling.FillClosesDeficit` | cmd/otel-allocator/allocation/least_weighted.go:107-118 | what is missing to a level shrinks by one per item until it is zero, whatever least receiver is picked |
| `Leveling.SpreadAfterFill` | cmd/otel-allocator/allocation/least_weighted.go:107-118 | the spread afterwards is within a bound iff the items suffice to lift everyone to within the bound of the fullest |
| `LeastWeighted.LeastWeightedAllocator.FindNextCollector` | cmd/otel-allocator/allocation/least_weighted.go:107-118 | finds a collector with the fewest targets, whatever the iteration order |
| `LeastWeighted.LeastWeightedAllocator.AddTargetToTargetItems` | cmd/otel-allocator/allocation/least_weighted.go:139-146 | places one target at a least loaded collector and nothing else |
| `LeastWeighted.LeastWeightedAllocator.HandleTargets` | cmd/otel-allocator/allocation/least_weighted.go:151-174 | from the change set: keeps what stays, places each new target at a then least loaded collector, ends with exactly the new hashes |
| `LeastWeighted.LeastWeightedAllocator.ReallocateTargets` | cmd/otel-allocator/allocation/least_weighted.go:191-196 | the third loop re-places exactly the targets of removed collectors, with counters exact throughout |
| `LeastWeighted.LeastWeightedAllocator.HandleCollectors` | cmd/otel-allocator/allocation/least_weighted.go:179-197 | ends settled on the new collectors, with the same targets; only targets of removed collectors moved |
| `LeastWeighted.LeastWeightedAllocator.SetTargets` | cmd/otel-allocator/allocation/least_weighted.go:202-224 | is a step of the specification and keeps the invariant; without collectors nothing changes |
| `LeastWeighted.LeastWeightedAllocator.SetCollectors` | cmd/otel-allocator/allocation/least_weighted.go:228-246 | is a step of the specification and keeps the invariant; an empty map changes nothing |
| `LeastWeighted.LeastWeightedAllocator.CountersAreExact` | cmd/otel-allocator/allocation/least_weighted.go:139-174 | between calls every counter is exactly the number of targets that name the collector |
| `LeastWeightedSpec.EveryRun` | cmd/otel-allocator/allocation/least_weighted.go:202-246 | after any run: the collectors are those of the last nonempty update, the targets those of the last update made with a collector known, every target names a live collector, loads add up to the targets |
| `LeastWeightedSpec.StepEffect` | cmd/otel-allocator/allocation/least_weighted.go:202-246 | what one call does to names and hashes, including the ignored calls |
| `LeastWeightedSpec.TargetsStayPut` | cmd/otel-allocator/allocation/least_weighted.go:151-197 | a target whose collector remains never moves |
| `LeastWeightedSpec.ReceiversEndLevel` | cmd/otel-allocator/allocation/least_weighted.go:107-197 | within one call, a collector that received a target ends with at most one more than every other |
| `LeastWeightedSpec.AddingTargetsKeepsSpread` | cmd/otel-allocator/allocation/least_weighted.go:151-174 | a target update that removes none never raises the spread above the larger of one and the old spread |
| `LeastWeightedSpec.TargetsSpread` | cmd/otel-allocator/allocation/least_weighted.go:151-174 | after any target update, removals included, the spread is within a bound iff the new targets cover the deficit of what stayed |
| `LeastWeightedSpec.DroppingCollectorsKeepsSpread` | cmd/otel-allocator/allocation/least_weighted.go:179-197 | nor does a collector update that adds none |
| `LeastWeightedSpec.CollectorsSpread` | cmd/otel-allocator/allocation/least_weighted.go:179-197 | after any collector update the spread is within a bound iff the moved targets cover the deficit of what stayed |
| `LeastWeightedSpec.JoiningCollectorWidensSpread` | cmd/otel-allocator/allocation/least_weighted.go:186-196 | one collector with two or more targets, joined by a second: the spread passes one, and no target moves |
| `LeastWeightedSpec.FreshAllocationIsBalanced` | cmd/otel-allocator/allocation/least_weighted.go:202-261 | collectors and then targets on a fresh allocator: everyone holds the floor or the ceiling of the mean |
| `ConsistentHashingSpec.ReassignKeeps` | cmd/otel-allocator/allocation/consistent_hashing.go:107-120 | re-locating a held target keeps counters and index right, whether its old collector is live or removed |
| `ConsistentHashingSpec.EveryRun` | cmd/otel-allocator/allocation/consistent_hashing.go:176-220 | after any run the collectors are those of the last nonempty update, and the hashes those of the last update made with a collector known |
| `ConsistentHashingSpec.HistoryDoesNotMatter` | cmd/otel-allocator/allocation/consistent_hashing.go:107-220 | two runs that end with the same names and hashes put every target on the same collector |
| `ConsistentHashingSpec.JobOfArrival` | cmd/otel-allocator/allocation/consistent_hashing.go:138-147 | a held target has the job it came with in the one call that brought it when it was not held, and ever since; what came later is ignored |
| `ConsistentHashingSpec.SameMemoryIffArrivedAlike` | cmd/otel-allocator/allocation/consistent_hashing.go:107-220 | two runs that end with the same names and hashes end in the very same memory iff every hash last arrived with the same job in both |
| `ConsistentHashingSpec.JobsDoNotDependOnHistory` | cmd/otel-allocator/allocation/consistent_hashing.go:107-220 | so they do if no call gives a hash another job |
| `ConsistentHashingSpec.HashesDetermineCounts` | cmd/otel-allocator/allocation/consistent_hashing.go:107-120 | names and hashes alone determine who holds what, and every count |
| `ConsistentHashingSpec.AnswersAgreeIffJobsDo` | cmd/otel-allocator/allocation/consistent_hashing.go:91-99 | for equal names and hashes, the answers of two indexes agree iff the jobs do |
| `ConsistentHashingSpec.AnswersAgreeIffArrivedAlike` | cmd/otel-allocator/allocation/consistent_hashing.go:107-238 | after two such runs every query is answered alike iff every hash last arrived with the same job in both |
| `ConsistentHashingSpec.MemoryDeterminesBooks` | cmd/otel-allocator/allocation/consistent_hashing.go:107-220 | names and jobs determine the assignment, the count of every collector and every answer of the index; the counters themselves are these counts less what each is behind by |
| `ConsistentHashingSpec.UpdatesCommute` | cmd/otel-allocator/allocation/consistent_hashing.go:107-220 | a target update and a nonempty collector update leave the same names and jobs in either order iff a collector was known or there is no target, and the same shortfall of every counter iff no new target names a collector that joins |
| `ConsistentHashingSpec.JoinerIsCharged` | cmd/otel-allocator/allocation/consistent_hashing.go:109-118 | an example: equal names and jobs in both orders, and a counter that is one short in one of them |
| `ConsistentHashingSpec.NoDebtsIffUnclaimed` | cmd/otel-allocator/allocation/consistent_hashing.go:109-118 | counters are right after a target update iff they were before and no new target arrived naming a live collector |
| `ConsistentHashingSpec.BehindIffClaimed` | cmd/otel-allocator/allocation/consistent_hashing.go:107-220 | after any run a counter is behind iff, since its collector last joined, a target that was not held arrived naming it |
| `ConsistentHashing.ConsistentHashingAllocator.AddTargetToTargetItems` | cmd/otel-allocator/allocation/consistent_hashing.go:107-120 | the whole new state: a held target is un-counted where it was if that collector is live, located, filed and counted; for a new one the collector it names falls behind by one |
| `ConsistentHashing.ConsistentHashingAllocator.HandleTargets` | cmd/otel-allocator/allocation/consistent_hashing.go:125-148 | ends with exactly the new hashes, each on its owner and filed; every counter falls behind by the new targets that arrived naming its collector |
| `ConsistentHashing.ConsistentHashingAllocator.SetTargets` | cmd/otel-allocator/allocation/consistent_hashing.go:176-198 | keeps the invariant from every reachable state; memory and shortfalls make the specified step; without collectors nothing changes |
| `ConsistentHashing.ConsistentHashingAllocator.ReallocateTargets` | cmd/otel-allocator/allocation/consistent_hashing.go:167-170 | the third loop locates every target again and no counter falls further behind, although targets name removed collectors |
| `ConsistentHashing.ConsistentHashingAllocator.HandleCollectors` | cmd/otel-allocator/allocation/consistent_hashing.go:153-171 | ends valid on the new collectors with the same targets; who stays keeps its shortfall, who joins has none |
| `ConsistentHashing.ConsistentHashingAllocator.SetCollectors` | cmd/otel-allocator/allocation/consistent_hashing.go:202-220 | keeps the invariant and the targets from every reachable state; memory and shortfalls make the specified step |
| `ConsistentHashing.SameHashesSameAllocation` | cmd/otel-allocator/allocation/consistent_hashing.go:107-220 | two allocators with the same ring, collectors and hashes put every target on the same collector; their counters agree iff they are behind alike |
| `ConsistentHashing.SameMemorySameAnswers` | cmd/otel-allocator/allocation/consistent_hashing.go:222-238 | with the same memory they also answer every query alike |
| `CollectorWatch.Watcher.UpdateMap` | cmd/otel-allocator/collector/collector.go:131-136 | an added pod is in the map, a deleted one is not, any other event changes nothing |
| `CollectorWatch.Watcher.HandleEvent` | cmd/otel-allocator/collector/collector.go:131-137 | keeps: map equals watched pods, allocator equals last nonempty value, targets untouched |
| `CollectorWatch.Watcher.RunWatch` | cmd/otel-allocator/collector/collector.go:111-140 | the same over any signals; reports a closed client exactly when that is what ended the watch |
| `CollectorWatch.Watcher.Watch` | cmd/otel-allocator/collector/collector.go:66-109 | over any events and restarts the allocator, of either strategy, has the most recent nonempty set of pods and the very targets it had |
| `CollectorWatch.PodsAfterIff` | cmd/otel-allocator/collector/collector.go:131-136 | a pod is watched iff its last addition or deletion was an addition, or there was none and it was listed |
| `CollectorWatch.LastSeenIff` | cmd/otel-allocator/collector/collector.go:111-140 | what the allocator is left with is the set after the last event that left any pod, or what it knew at first |
| `CollectorWatch.DeliveredIsFront` | cmd/otel-allocator/collector/collector.go:111-140 | a watch takes the pod events up to the first other signal, and ends for good iff that one closes the client |
| `CollectorWatch.SessionsFollow` | cmd/otel-allocator/collector/collector.go:85-109 | watches follow each other up to the first that cannot start or closes the client |
| `CollectorKeys.ParseThenPrint` | cmd/operator-opamp-bridge/agent/collector_key.go:32-43 | a key that parses prints as itself, and its parts have no slash |
| `CollectorKeys.PrintThenParse` | cmd/operator-opamp-bridge/agent/collector_key.go:32-43 | a printed key parses back iff its parts have no slash |
| `CollectorKeys.KeyParts` | cmd/operator-opamp-bridge/agent/collector_key.go:32-43 | the part before the slash is the name and the part after it the namespace |
| `OpampAgent.Agent.ApplyFiles` | cmd/operator-opamp-bridge/agent/agent.go:206-221 | whatever fails: exactly one request per usable entry and no other; what succeeded is in place and remembered, all else is untouched |
| `OpampAgent.Agent.DeleteGone` | cmd/operator-opamp-bridge/agent/agent.go:223-230 | whatever fails: exactly one deletion of each remembered key that the configuration omits and no other; what succeeded is gone, all else is untouched |
| `OpampAgent.Agent.ApplyRemoteConfig` | cmd/operator-opamp-bridge/agent/agent.go:203-243 | keeps: only keys once applied and now omitted were ever asked to be deleted; both passes are carried out whatever fails; stores the hash; succeeds iff every key parsed and every request went well, and then the configuration is in force |
| `OpampAgent.Agent.OnMessage` | cmd/operator-opamp-bridge/agent/agent.go:262-279 | a configuration is applied iff enabled, present and of a new hash; otherwise agent and cluster are unchanged |
| `OpampAgent.EntryIsTriedOnce` | cmd/operator-opamp-bridge/agent/agent.go:206-221 | every usable entry is tried exactly once with its body, and if that went well it is in place and remembered, whatever else failed |
| `OpampAgent.OmittedIsDeletedOnce` | cmd/operator-opamp-bridge/agent/agent.go:223-230 | every remembered key that is omitted is asked to be deleted exactly once, and if that went well it is gone, whatever else failed |
| `OpampAgent.ServedGivesOutcome` | cmd/operator-opamp-bridge/agent/agent.go:206-230 | two passes without an error give, key by key, the outcome the configuration asks for |
| `OpampAgent.ServedLeavesAlone` | cmd/operator-opamp-bridge/agent/agent.go:206-230 | also with errors, a key neither wanted nor ever applied is as it was |
| `OpampAgent.ConvergesUnlessEmptied` | cmd/operator-opamp-bridge/agent/agent.go:206-230 | the remembered keys in the cluster are exactly the wanted ones iff no remembered key that is there was given an empty body |
| `Injection.Container.EnsureAll` | pkg/instrumentation/javaagent.go:38-43 | appends, in order, exactly the variables whose names are not taken yet |
| `Injection.Container.Set` | pkg/instrumentation/dotnet.go:122-134 | appends the variable, or extends the first of its name, or leaves it |
| `Injection.Container.InjectJavaagent` | pkg/instrumentation/javaagent.go:28-53 | refuses iff the option variable comes from elsewhere; otherwise language variables, then the agent argument |
| `Injection.Container.InjectNodeJSSDK` | pkg/instrumentation/nodejs.go:28-53 | the same with the require argument |
| `Injection.Container.InjectPythonSDK` | pkg/instrumentation/python.go:35-91 | the same with the path around the old one, and four defaults |
| `Injection.Container.InjectDotNetSDK` | pkg/instrumentation/dotnet.go:43-90 | refuses iff one of three variables comes from elsewhere or the home variable is set; otherwise seven variables in order |
| `Injection.ValidateContainerEnv` | pkg/instrumentation/sdk.go:436-448 | succeeds iff the first variable of each name has a value of its own |
| `Injection.Container.InjectCommonSDKConfig` | pkg/instrumentation/sdk.go:173-281 | the whole new environment, as a function of the old one |
| `Injection.Container.InjectOne` | pkg/instrumentation/sdk.go:69-80 | one instrumentation, Apache and the plain SDK included: all of it, or nothing when it is refused |
| `Injection.InjectGo` | pkg/instrumentation/golang.go:33-95 | builds the agent from annotation, language and common variables and the attributes of the first container; gives it up iff the pod forbids it or no target is named |
| `Injection.ChooseContainer` | pkg/instrumentation/sdk.go:59-66 | the last container of the name, the first of the pod if there is none |
| `Injection.Inject` | pkg/instrumentation/sdk.go:54-153 | the chosen container goes through the requested instrumentations in order, every other container is unchanged, and an agent is added iff Go is asked for and kept; with the plain SDK or Apache asked for, the chosen container has a service name and ends with the resource attributes |
| `Injection.RequestsServe` | pkg/instrumentation/sdk.go:68-151 | each instrumentation asked for occurs exactly once, with the name of the chosen container, in the order Java, NodeJS, Python, DotNet, Apache, plain SDK; no other occurs |
| `Injection.GoFindsWhatCameBefore` | pkg/instrumentation/sdk.go:116-135 | Go observes the first container as the four languages before it left it |
| `InjectionLaws.NothingIsLost` | pkg/instrumentation/sdk.go:54-281 | through any sequence of injections, every variable survives unchanged and in order that is neither the resource attributes nor extended by a language asked for, and no name but the three helpers gets a second variable |
| `InjectionLaws.Precedence` | pkg/instrumentation/sdk.go:54-281 | who wins a name: container, language, the language's default, common, configuration default |
| `InjectionLaws.CommonValueIsUsedIff` | pkg/instrumentation/sdk.go:155-164 | a common variable that nobody else sets is used iff the language has no differing default for it |
| `InjectionLaws.ExtendedHasTwoSourcesIff` | pkg/instrumentation/javaagent.go:32-53 | an extended variable also keeps a reference iff the language's variables bring one and the container has no such variable |
| `InjectionLaws.AttributesAreLast` | pkg/instrumentation/sdk.go:230-278 | the resource attributes come last, and are the old text joined with the new attributes |
| `InjectionLaws.AttributesHaveTwoSourcesIff` | pkg/instrumentation/sdk.go:230-242 | the resource attributes end with both a value and a reference iff the variable found for them, in the container, the language or the common list, is a reference |
| `InjectionLaws.AttributesEndEveryRun` | pkg/instrumentation/sdk.go:54-281 | over any sequence of injections they are last once one was accepted, and nothing changed if none was |
| `InjectionLaws.HelpersPrecede` | pkg/instrumentation/sdk.go:193-278 | every variable that the attributes may refer to is defined before them |
| `InjectionLaws.ServiceIsNamedAfterOwner` | pkg/instrumentation/sdk.go:283-300 | a service without a name is called after the first known of deployment, stateful set, job, cron job and pod, else after its container |
| `InjectionLaws.SamplerComesWithArgument` | pkg/instrumentation/sdk.go:253-269 | sampler and argument both come from the configuration, which takes that neither is set, or both stay as they were |
| `InjectionLaws.UnknownAttributesAreLookedUp` | pkg/instrumentation/sdk.go:193-228 | an attribute of the pod that is not known refers to a variable that reads the right field of the pod; all others are kept |
| `InjectionLaws.AttributesDefined` | pkg/instrumentation/sdk.go:230-242 | the final text defines the old keys, the new ones and those looked up from the pod, and no other |
| `InjectionLaws.RedefinedAttributes` | pkg/instrumentation/sdk.go:302-341 | of the keys the container defines, exactly those looked up from the pod are defined again |
| `InjectionLaws.GoKeptIff` | pkg/instrumentation/sdk.go:117-135 | the Go agent is kept iff the pod allows it, and the annotation, the language or the common variables name a target |
| `InjectionLaws.GoPrecedence` | pkg/instrumentation/golang.go:67-83 | who wins a name in the agent: annotation, language, common, configuration default |
| `InjectionLaws.GoAttributesAreLast` | pkg/instrumentation/sdk.go:173-281 | the resource attributes are last in the agent too |
| `InjectionValues.AcceptsIff` | pkg/instrumentation/sdk.go:436-448 | which variables make each language refuse a container, by name |
| `InjectionValues.JavaValues` | pkg/instrumentation/javaagent.go:24-53 | the options variable as text: new, or extended at its end |
| `InjectionValues.NodeJSValues` | pkg/instrumentation/nodejs.go:24-53 | the same for the require argument |
| `InjectionValues.PythonValues` | pkg/instrumentation/python.go:25-91 | the path as text, loader first and packages last around the old value; the four defaults |
| `InjectionValues.DotNetLists` | pkg/instrumentation/dotnet.go:78-90 | the three lists of paths, each with one more at its end |
| `InjectionValues.DotNetValues` | pkg/instrumentation/dotnet.go:78-90 | the four defaults, which an existing value beats |
| `InjectionValues.EndpointValue` | pkg/instrumentation/sdk.go:183-191 | the configured endpoint, where there is one and the container has none |
| `InjectionValues.PropagatorsValue` | pkg/instrumentation/sdk.go:244-251 | the configured propagators, where there are any and the container has none; splitting at commas gives them back |
| `InjectionValues.NoOtherVariables` | pkg/instrumentation/sdk.go:173-281 | the configuration has no say in any variable but nine |
| `InjectionValues.SdkPrecedence` | pkg/instrumentation/sdk.go:146-151 | without a language the container beats the common variables, and nothing else has a say |
| `InjectionValues.ApachePrecedence` | pkg/instrumentation/sdk.go:137-145 | with Apache, its own variables come between |
| `InjectionValues.HelperTexts` | pkg/instrumentation/sdk.go:193-228 | name, field and reference of each variable that reads from the pod |
| `InjectionValues.GoTarget` | pkg/instrumentation/golang.go:67-83 | what the Go agent observes: the annotation, else the language, else the common list |
| `ResourceAttributes.ExistingKeys` | pkg/instrumentation/sdk.go:308-317 | the reader finds the keys of the pieces with exactly one equals sign |
| `ResourceAttributes.CreateResourceMap` | pkg/instrumentation/sdk.go:304-341 | configured attributes, overridden by what the cluster knows, without any key the container defines |
| `ResourceAttributes.AttributeValues` | pkg/instrumentation/sdk.go:319-340 | which field of the pod each of five attributes has; a nonempty one beats the configured value, and a key the container defines is left out |
| `ResourceAttributes.OtherAttributeValues` | pkg/instrumentation/sdk.go:319-340 | every other attribute has its owner's value, else the configured one |
| `ResourceAttributes.ResourceMapToStr` | pkg/instrumentation/sdk.go:399-415 | prints the entries in key order, whatever order the map yields |
| `ResourceAttributes.KeyOfEntry` | pkg/instrumentation/sdk.go:310-316 | a printed entry gives its key back iff neither part has an equals sign and the key is not indented |
| `ResourceAttributes.IndentIsIgnored` | pkg/instrumentation/sdk.go:311 | white space before a piece does not matter |
| `ResourceAttributes.PrintedKeys` | pkg/instrumentation/sdk.go:399-415 | reading the keys of a printed map gives exactly its keys |
| `ResourceAttributes.PrintedPieces` | pkg/instrumentation/sdk.go:399-415 | the printed text has one piece per attribute, key, equals sign and value, in key order |
| `ResourceAttributes.JoinedKeys` | pkg/instrumentation/sdk.go:237-242 | a text joined with another defines the keys of both and no other, with or without a trailing comma |
| `ResourceAttributes.JoinedPieces` | pkg/instrumentation/sdk.go:237-242 | the pieces of the old text come first and in order, then those of the new one |
| `Reconcile.HasVolumeClaimsTemplatesChanged` | pkg/collector/reconcile/statefulset.go:165-188 | reports a change iff the counts differ, or some claim differs in name, annotations or rest, or sets a mode that differs from the existing one; without a change the filled claims are the existing ones |
| `Reconcile.ExpectedObjects` | pkg/collector/reconcile/statefulset.go:54-114 | creates, patches, or deletes on an immutable change: the whole new store; an error leaves it as it was |
| `Reconcile.DeleteObjects` | pkg/collector/reconcile/statefulset.go:116-148 | deletes exactly the listed objects that are not expected; on an error only some of them, and nothing else |
| `Reconcile.ReconcileObjects` | pkg/collector/reconcile/statefulset.go:34-52 | one pass without an error is the specified pass; an error stops it on the way |
| `Reconcile.OnePassSettlesIff` | pkg/collector/reconcile/statefulset.go:34-148 | one pass settles a store iff no immutable field, selector or volume claims, of a wanted object that is there has changed; otherwise the object is missing until the next pass |
| `Reconcile.SettledIsStable` | pkg/collector/reconcile/statefulset.go:34-148 | a settled store is a fixed point |
| `Reconcile.TwoPassesSettle` | pkg/collector/reconcile/statefulset.go:34-148 | from any store, two passes settle it and a third changes nothing |
| `Reconcile.CreatedFields` | pkg/collector/reconcile/statefulset.go:54-74 | a new object has every desired field, and the server's default for a mode that is not set |
| `Reconcile.PatchedFields` | pkg/collector/reconcile/statefulset.go:86-108 | a patched object has the desired spec and owner; labels and annotations that the desired object does not name survive |
| `Reconcile.TwoPassesGiveDesired` | pkg/collector/reconcile/statefulset.go:34-148 | from any store two passes leave every desired field; every mode that is set is the one stored |
| `Reconcile.OthersGoIffListed` | pkg/collector/reconcile/statefulset.go:116-148 | of the objects that are not wanted, a pass deletes exactly those in the namespace with both labels, and changes none |
| `Reconcile.NothingElseAppears` | pkg/collector/reconcile/statefulset.go:34-148 | no object appears that was neither there nor wanted |
| `Reconcile.StaleObjectGoesIffLabelFits` | pkg/collector/reconcile/statefulset.go:116-148 | in every store, a pass deletes a stale object of the instance iff namespace and name fit the label, and otherwise leaves it as it is |
| `Reconcile.StaleObjectNeverGoes` | pkg/collector/reconcile/statefulset.go:116-148 | if they do not fit, no number of passes touches it |
| `Reconcile.NothingStaleIff` | pkg/collector/reconcile/statefulset.go:116-148 | after a pass nothing is stale iff the label fits or nothing was stale before |
| `Reconcile.ExactlyTheDesiredObject` | pkg/collector/reconcile/statefulset.go:34-148 | then two passes leave exactly the desired object among those of the instance |
| `Semver.LessTransitive` | pkg/collector/upgrade/upgrade.go:110-116 | precedence of versions, section 11 of Semantic Versioning 2.0.0, is transitive |
| `Semver.LessTotal` | pkg/collector/upgrade/upgrade.go:110-116 | and a strict total order |
| `Semver.PreIsDecided` | pkg/collector/upgrade/upgrade.go:110-116 | of two pre-releases the first identifier that differs decides, and more identifiers rank higher |
| `Semver.StandardExamples` | pkg/collector/upgrade/upgrade.go:110-116 | the chain of examples of section 11 of Semantic Versioning 2.0.0 |
| `Upgrade.ManagedInstance` | pkg/collector/upgrade/upgrade.go:98-135 | a success applies exactly the entries newer than the instance, once each and in order, and bears the operator's version; a failure applies some first ones of them and bears the version of the last; an unset or newer instance is returned unchanged |
| `Upgrade.RunOfDueInstance` | pkg/collector/upgrade/upgrade.go:115-131 | the specs a run goes through, step by step, and how it ends: with the last spec and the operator's version, or with the broken step's spec and the version of the last good step |
| `Upgrade.RunOfOtherInstance` | pkg/collector/upgrade/upgrade.go:100-113 | any other instance is left alone |
| `Upgrade.ManagedTwice` | pkg/collector/upgrade/upgrade.go:98-135 | managing the result again returns it unchanged, if the operator is not below the latest entry |
| `Upgrade.TableIsIncreasing` | pkg/collector/upgrade/versions.go:31-88 | the table of versions is strictly increasing |
| `Upgrade.NewerIsTail` | pkg/collector/upgrade/upgrade.go:115-116 | the entries newer than a version are the end of the table from some place on |
| `Upgrade.SecondRunIsIdle` | pkg/collector/upgrade/upgrade.go:110-131 | an instance at a version has no steps left iff the version is not below the latest entry |
| `Upgrade.StoppingOnTheWay` | pkg/collector/upgrade/upgrade.go:98-135 | an intermediate release that knows a part of the table, and then the operator, give the same spec as a direct upgrade |
| `RenameReceivers.Upgrade0_39_0` | pkg/collector/upgrade/v0_39_0.go:29-113 | the stored configuration: a memory limiter loses exactly its ballast field, receivers and metrics references are renamed or the rename given up, and every other section, service entry, pipeline and entry of the metrics pipeline is unchanged |
| `RenameReceivers.ReceiversAfter` | pkg/collector/upgrade/v0_39_0.go:61-112 | which receivers there are afterwards, key by key, and with which configuration |
| `RenameReceivers.MetricsRefsAfter` | pkg/collector/upgrade/v0_39_0.go:97-104 | each metrics reference afterwards, as text |
| `RenameReceivers.GivenUpIff` | pkg/collector/upgrade/v0_39_0.go:71-96 | the rename is given up iff a section on the way to the references is missing or of another kind |
| `RenameReceivers.RenamedText` | pkg/collector/upgrade/v0_39_0.go:64-66 | only the prefix is replaced, and only where there is one |
| `RenameReceivers.DropFields` | pkg/collector/upgrade/v0_39_0.go:37-52 | a processor whose name starts with memory_limiter loses exactly the field ballast_size_mib; every other processor and field is unchanged |
| `RenameReceivers.RenamedIsInjective` | pkg/collector/upgrade/v0_39_0.go:64-67 | renamed receivers do not collide with each other |
| `RenameReceivers.HttpdGoneUnlessGivenUp` | pkg/collector/upgrade/v0_39_0.go:61-112 | no `httpd` receiver is left iff there was none or the pipelines have the expected shape |
| `RenameReceivers.OthersUntouchedIff` | pkg/collector/upgrade/v0_39_0.go:61-112 | the step leaves all other receivers untouched iff no renamed one lands on a name that is taken, or what has that name is configured alike, or the rename is given up |
| `RenameReceivers.ReferencesKeepMeaning` | pkg/collector/upgrade/v0_39_0.go:61-110 | every reference of the metrics pipeline is declared afterwards, with the receiver configuration it had |
| `RenameReceivers.AllDeclaredIffOnlyMetrics` | pkg/collector/upgrade/v0_39_0.go:83-108 | all pipelines stay declared iff no other pipeline mentions an `httpd` receiver |
| `Naming.ShortenValues` | pkg/naming/triming.go:40-57 | the loop takes the excess off the string arguments, in turn |
| `Naming.ShrinkKeepsFronts` | pkg/naming/triming.go:40-57 | each string keeps a front of itself, and one is cut only once all before it are empty |
| `Naming.Truncate` | pkg/naming/triming.go:35-67 | formats, shortens, caps or trims, as specified |
| `Naming.ShrinkReachesBound` | pkg/naming/triming.go:38-59 | the shortened text has the bound's length, or only its fixed part is left |
| `Naming.TrimEffect` | pkg/naming/triming.go:71-74 | trimming drops non-alphanumerics at the two ends only, and leaves none there |
| `Naming.TruncateBound` | pkg/naming/triming.go:35-67 | the result never exceeds the bound |
| `Naming.TruncateFrames` | pkg/naming/triming.go:35-67 | when the fixed part fits there is no hard cap, and the result is empty or starts and ends alphanumerically |
| `Naming.TruncateCaps` | pkg/naming/triming.go:61-64 | when the fixed part does not fit, all strings are given up and the front of the rest is kept |
| `Naming.TruncateIsIdentity` | pkg/naming/triming.go:35-67 | nothing changes iff the text fits and is framed by alphanumerics |
| `Naming.DNSName` | pkg/naming/dns.go:33-49 | rune by rune: a lower-cased letter or digit is kept, any other becomes an a at byte offset 0 or count less one and a dash elsewhere |
| `Naming.DNSNameIsIdentity` | pkg/naming/dns.go:33-49 | an ASCII name is unchanged iff it has safe characters only and no dash at either end |
| `Naming.DNSNameIsSafe` | pkg/naming/dns.go:33-49 | one safe character per rune, and a first one that is alphanumeric |
| `Naming.DNSNameEnd` | pkg/naming/dns.go:33-49 | the last character is alphanumeric iff it was, or every rune before it takes one byte |
| `Naming.SuffixedNameIsLabel` | pkg/naming/main.go:53-55 | for every ASCII name, the truncated and sanitised name is a nonempty label of at most 63 octets (section 2.3.4 of RFC 1035, section 2.1 of RFC 1123) |
| `Naming.InstanceLabelIsPlain` | pkg/collector/labels.go:68-75 | the instance label is the plain namespace, dot, name iff that fits and is framed |

## Left out

- Metrics, logging, locks and timers of the allocators: each locked call is one step.
- The target filter: targets arrive filtered. The web server that serves the allocation.
- The hash ring: a function from member set and hash to a member, with no history of its own; the ring's members are updated after the loops over collectors, not inside them.
- Sharing of collector records: a collector is a value in a map that is replaced, so a caller that keeps a pointer to one and watches its counter is not modelled.
- The order in which Go yields map entries: loops take the entries in any order.
- `CollectorWatch`: a session whose signals simply end is read as one whose channel closed.
- `OpampAgent`: instance identity, own metrics and status reports; what the cluster does with a request is any outcome within its contract.
- Volumes, mounts, init containers and the Apache configuration file that the injectors add; of the Go agent only its environment.
- Owner references: the labels they give are an input of an injection.
- YAML text, and the removal of the text ` null` from it: the rename works on the tree. Keys that are no text make the code panic and are not modelled; finding `metrics` and `receivers` in a loop over a map is a lookup.
- RenameReceivers.Upgrade0_39_0: requires the metrics pipeline's references to be texts when there is an `httpd` receiver, because the code panics on others.
- Text of versions: a version is parsed or malformed. The list of instances and the loop over it, and the other version steps, which are parameters.
- `Reconcile`: a daemon set is the case without volume claims. Of server defaults only the volume mode is modelled. Deployments, config maps, services and the rest of the objects only repeat the pattern.
- Case mapping of runes in DNS names: a parameter. `Naming.Truncate` works on bytes, `Naming.DNSName` on runes; they are joined for ASCII names only.
- The webhook, the command lines and the configuration loaders.
