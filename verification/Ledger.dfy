/** The mutable state the two allocators share: targets, collectors and the three structures over them. */
module Ledgers {
  import opened Placements
  import Leveling
  import Diff

  class Item {
    const hash: string
    const jobName: string
    var collectorName: string

    constructor (hash: string, jobName: string, collectorName: string)
      ensures this.hash == hash && this.jobName == jobName && this.collectorName == collectorName
    {
      this.hash, this.jobName, this.collectorName := hash, jobName, collectorName;
    }
  }

  function ItemHash(i: Item): string {
    i.hash
  }

  function CollectorHash(c: Collector): string {
    c.name
  }

  datatype Collector = Collector(name: string, numTargets: int)

  function NewCollector(name: string): Collector {
    Collector(name, 0)
  }

  ghost function ItemJobs(items: map<string, Item>): map<string, string> {
    map h | h in items :: items[h].jobName
  }

  /** The collectors that items name. */
  ghost function ItemNames(items: map<string, Item>): map<string, string>
    reads items.Values`collectorName
  {
    map h | h in items :: items[h].collectorName
  }

  ghost predicate ItemKeyed(m: map<string, Item>, h: string) {
    h in m ==> m[h].hash == h
  }

  ghost predicate ItemsKeyed(m: map<string, Item>) {
    forall h :: ItemKeyed(m, h)
  }

  ghost predicate CollectorKeyed(m: map<string, Collector>, c: string) {
    c in m ==> m[c].name == c
  }

  ghost predicate CollectorsKeyed(m: map<string, Collector>) {
    forall c :: CollectorKeyed(m, c)
  }

  lemma ItemsKeyedAfter(m: map<string, Item>, tg: Item)
    requires ItemsKeyed(m)
    ensures ItemsKeyed(m[tg.hash := tg])
  {
    var m' := m[tg.hash := tg];
    forall h ensures ItemKeyed(m', h) { assert ItemKeyed(m, h); }
  }

  lemma ItemsKeyedWithout(m: map<string, Item>, gone: set<string>)
    requires ItemsKeyed(m)
    ensures ItemsKeyed(m - gone)
  {
    var m' := m - gone;
    forall h ensures ItemKeyed(m', h) { assert ItemKeyed(m, h); }
  }

  lemma CollectorsKeyedAfter(m: map<string, Collector>, col: Collector)
    requires CollectorsKeyed(m)
    ensures CollectorsKeyed(m[col.name := col])
  {
    var m' := m[col.name := col];
    forall c ensures CollectorKeyed(m', c) { assert CollectorKeyed(m, c); }
  }

  lemma CollectorsKeyedWithout(m: map<string, Collector>, gone: set<string>)
    requires CollectorsKeyed(m)
    ensures CollectorsKeyed(m - gone)
  {
    var m' := m - gone;
    forall c ensures CollectorKeyed(m', c) { assert CollectorKeyed(m, c); }
  }

  /** The items held after a target update: an item already held is not replaced by the incoming one. */
  ghost function Merged(items: map<string, Item>, targets: map<string, Item>): map<string, Item> {
    map h | h in targets :: if h in items then items[h] else targets[h]
  }

  lemma KeyedDiff(items: map<string, Item>, targets: map<string, Item>)
    requires ItemsKeyed(items) && ItemsKeyed(targets)
    ensures var d := Diff.Delta(items, targets, ItemHash);
            && d.additions.Keys == targets.Keys - items.Keys
            && d.removals.Keys == items.Keys - targets.Keys
            && ItemsKeyed(d.additions)
            && (forall h :: h in d.additions ==> d.additions[h] == targets[h])
            && items - d.removals.Keys + d.additions == Merged(items, targets)
  {
    forall h | h in items ensures ItemHash(items[h]) == h { assert ItemKeyed(items, h); }
    forall h | h in targets ensures ItemHash(targets[h]) == h { assert ItemKeyed(targets, h); }
    Diff.KeyedByHash(items, targets, ItemHash);
    var additions := Diff.Delta(items, targets, ItemHash).additions;
    forall h ensures ItemKeyed(additions, h) {}
  }

  lemma MinusNothing(m: map<string, Item>)
    ensures m - {} == m
  {
  }

  lemma KeyedCollectorDiff(current: map<string, Collector>, collectors: map<string, Collector>)
    requires CollectorsKeyed(current) && CollectorsKeyed(collectors)
    ensures var d := Diff.Delta(current, collectors, CollectorHash);
            && d.additions.Keys == collectors.Keys - current.Keys
            && d.removals.Keys == current.Keys - collectors.Keys
            && CollectorsKeyed(d.additions) && CollectorsKeyed(d.removals)
  {
    forall c | c in current ensures CollectorHash(current[c]) == c { assert CollectorKeyed(current, c); }
    forall c | c in collectors ensures CollectorHash(collectors[c]) == c { assert CollectorKeyed(collectors, c); }
    Diff.KeyedByHash(current, collectors, CollectorHash);
    var d := Diff.Delta(current, collectors, CollectorHash);
    forall c ensures CollectorKeyed(d.additions, c) {}
    forall c ensures CollectorKeyed(d.removals, c) {}
  }

  lemma OneMore(items: map<string, Item>, additions: map<string, Item>, todo: set<string>, k: string)
    requires k in additions && k in todo
    ensures items + (additions - (todo - {k})) == (items + (additions - todo))[k := additions[k]]
  {
  }

  lemma SameEntry(m: map<string, Item>, k: string)
    requires k in m
    ensures m[k := m[k]] == m
  {
  }

  ghost predicate Unclaimed(a: Assignment, names: set<string>) {
    forall h :: h in a ==> a[h].collector !in names
  }

  lemma NobodyHeld(a: Assignment, names: set<string>, c: string)
    requires Unclaimed(a, names) && c in names
    ensures Held(a, c) == {}
  {
  }

  lemma MinusOne<T>(m: map<string, T>, gone: set<string>, k: string)
    ensures m - gone - {k} == m - (gone + {k})
  {
  }

  // ------------------------------------------------------------------ counters that run behind

  /** The counters, with what each of them falls short by added. */
  ghost function Repaid(collectors: map<string, Collector>, debts: Debts): Leveling.Loads {
    map c | c in collectors :: collectors[c].numTargets + if c in debts then debts[c] else 0
  }

  lemma RepaidUpdates(collectors: map<string, Collector>, debts: Debts, c: string, delta: int)
    requires c in collectors && c in debts
    ensures var col := collectors[c];
            var more := Repaid(collectors, debts)[c];
            && Repaid(collectors[c := col.(numTargets := col.numTargets + delta)], debts)
               == Repaid(collectors, debts)[c := more + delta]
            && Repaid(collectors, debts[c := debts[c] + 1]) == Repaid(collectors, debts)[c := more + 1]
  {
  }

  lemma RepaidChanges(collectors: map<string, Collector>, debts: Debts, c: string)
    ensures Repaid(collectors - {c}, debts - {c}) == Repaid(collectors, debts) - {c}
    ensures Repaid(collectors[c := NewCollector(c)], debts[c := 0]) == Repaid(collectors, debts)[c := 0]
  {
  }

  /**
   Neither allocator builds an item of its own: the books share the caller's. A collector's counter is meant to be the
   number of targets that name it; `debts` says by how much it falls short.
   */
  class Ledger {
    var collectors: map<string, Collector>
    var targetItems: map<string, Item>
    var index: Index
    ghost var debts: Debts

    ghost predicate Keyed()
      reads this
    {
      ItemsKeyed(targetItems) && CollectorsKeyed(collectors) && debts.Keys == collectors.Keys
    }

    ghost function Debt(c: string): nat
      reads this`debts
    {
      if c in debts then debts[c] else 0
    }

    ghost function Loads(): Leveling.Loads
      reads this`collectors, this`debts
    {
      Repaid(collectors, debts)
    }

    ghost function Placed(): Assignment
      reads this`targetItems, targetItems.Values`collectorName
    {
      map h | h in targetItems :: Placements.Placed(targetItems[h].jobName, targetItems[h].collectorName)
    }

    ghost function State(): Books
      reads this, targetItems.Values`collectorName
    {
      Books(Loads(), Placed(), index)
    }

    /** Holds between calls. */
    ghost predicate Valid()
      reads this, targetItems.Values`collectorName
    {
      Keyed() && Settled(State())
    }

    constructor ()
      ensures Keyed() && collectors == map[] && targetItems == map[] && index == map[] && debts == map[]
      ensures Valid()
    {
      collectors, targetItems, index, debts := map[], map[], map[], map[];
      new;
      assert forall h :: ItemKeyed(targetItems, h);
      assert forall c :: CollectorKeyed(collectors, c);
      forall c ensures Counted(Loads(), Placed(), c) {}
      forall h ensures Homed(State(), h) {}
      forall c, j, h ensures Filing(State(), c, j, h) {}
    }

    /** Each counter is the number of targets that name the collector, less the debt. */
    lemma CountersFallShortByDebt(c: string)
      requires Valid() && c in collectors
      ensures collectors[c].numTargets == |Held(Placed(), c)| - Debt(c)
    {
      assert Counted(Loads(), Placed(), c);
    }

    /** All counters are right exactly when there is no debt. */
    lemma CountersAreExactIff()
      requires Valid()
      ensures (forall c :: c in collectors ==> collectors[c].numTargets == |Held(Placed(), c)|) <==> NoDebts(debts)
    {
      forall c | c in collectors ensures collectors[c].numTargets == |Held(Placed(), c)| - Debt(c) {
        CountersFallShortByDebt(c);
      }
    }

    /** Files the target under the collector and job it names. */
    method AddCollectorTargetItemMapping(tg: Item)
      modifies this`index
      ensures index == Filed(old(index), tg.collectorName, tg.jobName, tg.hash)
    {
      var c, j := tg.collectorName, tg.jobName;
      if c !in index {
        index := index[c := map[]];
      }
      if j !in index[c] {
        index := index[c := index[c][j := {}]];
      }
      index := index[c := index[c][j := index[c][j] + {tg.hash}]];
      assert index[c] == Filed(old(index), c, j, tg.hash)[c];
    }

    method RemoveCollectorTargetItemMapping(collector: string, job: string, hash: string)
      modifies this`index
      ensures index == Unfiled(old(index), collector, job, hash)
    {
      if collector in index && job in index[collector] {
        index := index[collector := index[collector][job := index[collector][job] - {hash}]];
      }
    }

    method Count(name: string, delta: int)
      requires Keyed() && name in collectors
      modifies this`collectors
      ensures Keyed() && collectors.Keys == old(collectors.Keys)
      ensures Loads() == old(Loads())[name := old(Loads()[name]) + delta]
    {
      var col := collectors[name];
      assert CollectorKeyed(collectors, name);
      RepaidUpdates(collectors, debts, name, delta);
      CollectorsKeyedAfter(collectors, col.(numTargets := col.numTargets + delta));
      collectors := collectors[name := col.(numTargets := col.numTargets + delta)];
    }

    method Store(tg: Item, collector: string)
      requires Keyed()
      requires tg.hash in targetItems ==> targetItems[tg.hash] == tg
      modifies this`targetItems, tg`collectorName
      ensures Keyed() && targetItems == old(targetItems)[tg.hash := tg] && tg.collectorName == collector
      ensures Placed() == old(Placed())[tg.hash := Placements.Placed(tg.jobName, collector)]
    {
      ghost var placed := Placed();
      ItemsKeyedAfter(targetItems, tg);
      assert forall h :: ItemKeyed(targetItems, h);
      tg.collectorName := collector;
      targetItems := targetItems[tg.hash := tg];
      forall h | h in targetItems && h != tg.hash ensures targetItems[h] != tg && Placed()[h] == placed[h] {
        assert ItemKeyed(old(targetItems), h);
      }
    }

    /** Names the collector in the target, keeps the target, files it and counts it. */
    method Assign(tg: Item, name: string)
      requires Keyed() && name in collectors
      requires tg.hash in targetItems ==> targetItems[tg.hash] == tg
      modifies this`collectors, this`targetItems, this`index, tg`collectorName
      ensures Keyed() && targetItems == old(targetItems)[tg.hash := tg] && collectors.Keys == old(collectors.Keys)
      ensures State() == Attach(old(State()), tg.hash, tg.jobName, name)
    {
      Store(tg, name);
      ghost var placed := Placed();
      AddCollectorTargetItemMapping(tg);
      assert Placed() == placed;
      Count(name, 1);
      assert Placed() == placed;
    }

    /** Takes a target off the collector its item names. */
    method Unassign(tg: Item)
      requires Keyed() && tg.collectorName in collectors
      modifies this`collectors, this`index
      ensures Keyed() && collectors.Keys == old(collectors.Keys)
      ensures State() == Detach(old(State()), tg.hash, tg.jobName, tg.collectorName)
    {
      Count(tg.collectorName, -1);
      RemoveCollectorTargetItemMapping(tg.collectorName, tg.jobName, tg.hash);
    }

    /** Notes that a counter was lowered for a target it had never counted. */
    ghost method Owe(name: string)
      requires Keyed() && name in collectors
      modifies this`debts
      ensures Keyed() && debts == old(debts)[name := old(debts[name]) + 1]
      ensures Loads() == old(Loads())[name := old(Loads()[name]) + 1]
    {
      RepaidUpdates(collectors, debts, name, 0);
      debts := debts[name := debts[name] + 1];
    }

    method Drop(h: string)
      requires Keyed()
      modifies this`targetItems
      ensures Keyed() && targetItems == old(targetItems) - {h} && Placed() == old(Placed()) - {h}
    {
      ItemsKeyedWithout(targetItems, {h});
      targetItems := targetItems - {h};
    }

    /** Drops a target: its collector's count, the target and its index entry. */
    method Discard(h: string)
      requires Keyed() && h in targetItems && targetItems[h].collectorName in collectors
      modifies this`collectors, this`targetItems, this`index
      ensures Keyed() && targetItems == old(targetItems) - {h} && collectors.Keys == old(collectors.Keys)
      ensures State() == Forget(old(State()), h)
    {
      var item := targetItems[h];
      assert ItemKeyed(targetItems, h);
      Count(item.collectorName, -1);
      Drop(h);
      RemoveCollectorTargetItemMapping(item.collectorName, item.jobName, item.hash);
    }

    /** First loop of a target update: every held target that the change set removes is dropped. */
    method RemoveTargets(removals: map<string, Item>) returns (ghost gone: set<string>)
      requires Valid()
      modifies this`collectors, this`targetItems, this`index
      ensures Valid() && collectors.Keys == old(collectors.Keys)
      ensures gone == old(targetItems.Keys) * removals.Keys
      ensures targetItems == old(targetItems) - gone
      ensures Placed() == old(Placed()) - gone
    {
      var todo := targetItems.Keys;
      ghost var items, placed := targetItems, Placed();
      gone := {};
      while todo != {}
        invariant Valid() && collectors.Keys == old(collectors.Keys)
        invariant targetItems == items - gone && Placed() == placed - gone
        invariant gone == (items.Keys - todo) * removals.Keys && todo <= items.Keys
        decreases todo
      {
        var k :| k in todo;
        todo := todo - {k};
        if k in removals {
          gone := RemoveTarget(k, items, placed, gone);
        }
      }
    }

    method RemoveTarget(k: string, ghost items: map<string, Item>, ghost placed: Assignment, ghost gone: set<string>)
      returns (ghost gone': set<string>)
      requires Valid() && k in targetItems
      requires targetItems == items - gone && Placed() == placed - gone
      modifies this`collectors, this`targetItems, this`index
      ensures Valid() && collectors.Keys == old(collectors.Keys) && gone' == gone + {k}
      ensures targetItems == items - gone' && Placed() == placed - gone'
    {
      ghost var b := State();
      assert Homed(b, k);
      ForgetKeeps(b, k);
      Discard(k);
      gone' := gone + {k};
      MinusOne(items, gone, k);
      MinusOne(placed, gone, k);
    }

    method RetireCollector(name: string)
      requires Keyed()
      modifies this`collectors, this`index, this`debts
      ensures Keyed() && collectors == old(collectors) - {name} && debts == old(debts) - {name}
      ensures State() == Retire(old(State()), name)
    {
      RepaidChanges(collectors, debts, name);
      CollectorsKeyedWithout(collectors, {name});
      collectors := collectors - {name};
      index := index - {name};
      debts := debts - {name};
    }

    method EnlistCollector(name: string)
      requires Keyed()
      modifies this`collectors, this`debts
      ensures Keyed() && collectors.Keys == old(collectors.Keys) + {name} && debts == old(debts)[name := 0]
      ensures State() == Enlist(old(State()), name)
    {
      RepaidChanges(collectors, debts, name);
      CollectorsKeyedAfter(collectors, NewCollector(name));
      collectors := collectors[name := NewCollector(name)];
      debts := debts[name := 0];
    }

    method EnlistUnclaimed(name: string)
      requires Keyed() && Afloat(State()) && name !in collectors && Held(Placed(), name) == {}
      modifies this`collectors, this`debts
      ensures Keyed() && Afloat(State()) && Placed() == old(Placed())
      ensures collectors.Keys == old(collectors.Keys) + {name} && debts == old(debts)[name := 0]
    {
      EnlistKeeps(State(), name);
      EnlistCollector(name);
    }

    /** First loop of a collector update. The targets of a retired collector keep naming it for now. */
    method RetireCollectors(removals: map<string, Collector>)
      requires Keyed() && Afloat(State()) && CollectorsKeyed(removals)
      modifies this`collectors, this`index, this`debts
      ensures Keyed() && Afloat(State())
      ensures collectors == old(collectors) - removals.Keys && debts == old(debts) - removals.Keys
    {
      var todo := removals.Keys;
      ghost var cols, owed, gone := collectors, debts, {};
      while todo != {}
        invariant Keyed() && Afloat(State())
        invariant collectors == cols - gone && debts == owed - gone
        invariant gone + todo == removals.Keys
        decreases todo
      {
        var k :| k in todo;
        todo := todo - {k};
        assert CollectorKeyed(removals, k);
        RetireKeeps(State(), k);
        RetireCollector(removals[k].name);
        MinusOne(cols, gone, k);
        MinusOne(owed, gone, k);
        gone := gone + {k};
      }
    }

    /** Second loop of a collector update. */
    method EnlistCollectors(additions: map<string, Collector>)
      requires Keyed() && Afloat(State()) && CollectorsKeyed(additions)
      requires additions.Keys !! collectors.Keys && Unclaimed(Placed(), additions.Keys)
      modifies this`collectors, this`debts
      ensures Keyed() && Afloat(State())
      ensures collectors.Keys == old(collectors.Keys) + additions.Keys
      ensures debts == old(debts) + Fresh(additions.Keys)
    {
      var todo := additions.Keys;
      ghost var cols, owed, placed := collectors, debts, Placed();
      assert owed + Fresh(additions.Keys - todo) == owed;
      while todo != {}
        invariant Keyed() && Afloat(State()) && Placed() == placed
        invariant debts == owed + Fresh(additions.Keys - todo)
        invariant todo <= additions.Keys && collectors.Keys == cols.Keys + (additions.Keys - todo)
        decreases todo
      {
        var k :| k in todo;
        assert CollectorKeyed(additions, k);
        FreshOneMore(owed, additions.Keys, todo, k);
        todo := todo - {k};
        NobodyHeld(placed, additions.Keys, k);
        EnlistUnclaimed(additions[k].name);
      }
    }

    /** Both loops together: the collectors change, no target moves yet, and the targets of retired ones dangle. */
    method ReplaceCollectors(diff: Diff.Changes<Collector>, ghost names: set<string>)
      requires Valid() && CollectorsKeyed(diff.additions) && CollectorsKeyed(diff.removals)
      requires diff.additions.Keys == names - collectors.Keys
      requires diff.removals.Keys == collectors.Keys - names
      modifies this`collectors, this`index, this`debts
      ensures Keyed() && Afloat(State()) && collectors.Keys == names && Placed() == old(Placed())
      ensures debts == Carried(old(debts), names)
    {
      CarriedInTwoSteps(debts, diff.removals.Keys, diff.additions.Keys, names);
      forall h | h in Placed() ensures Placed()[h].collector !in diff.additions.Keys { assert Homed(State(), h); }
      RetireCollectors(diff.removals);
      EnlistCollectors(diff.additions);
    }

    lemma AnswerIsScan(c: string, j: string)
      requires Valid()
      ensures forall h :: h in Answer(index, c, j) <==>
                          h in targetItems && targetItems[h].collectorName == c && targetItems[h].jobName == j
    {
      forall h ensures h in Answer(index, c, j) <==>
                       h in targetItems && targetItems[h].collectorName == c && targetItems[h].jobName == j
      {
        assert Filing(State(), c, j, h) && Homed(State(), h);
      }
    }

    /** The fast query: reads one index entry instead of scanning the targets. */
    method GetTargetsForCollectorAndJob(collector: string, job: string) returns (found: seq<Item>)
      requires Valid()
      ensures forall i, j :: 0 <= i < j < |found| ==> found[i] != found[j]
      ensures forall t :: t in found <==>
                          t in targetItems.Values && t.collectorName == collector && t.jobName == job
    {
      AnswerIsScan(collector, job);
      assert forall h :: ItemKeyed(targetItems, h);
      if collector !in index { return []; }
      if job !in index[collector] { return []; }
      found := [];
      var todo := index[collector][job];
      while todo != {}
        invariant todo <= index[collector][job]
        invariant forall i :: 0 <= i < |found| ==> found[i].hash !in todo
        invariant forall t :: t in found ==> t.hash in index[collector][job] && targetItems[t.hash] == t
        invariant forall h :: h in index[collector][job] && h !in todo ==> targetItems[h] in found
        invariant forall i, j :: 0 <= i < j < |found| ==> found[i] != found[j]
        decreases todo
      {
        var h :| h in todo;
        todo := todo - {h};
        assert ItemKeyed(targetItems, h);
        found := found + [targetItems[h]];
      }
    }
  }
}
