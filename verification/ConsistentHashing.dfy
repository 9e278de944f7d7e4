/** The consistent-hashing allocator: a target goes to the collector that owns its hash. */
module ConsistentHashing {
  import opened Placements
  import opened AllocatorCalls
  import opened Ledgers
  import opened ConsistentHashingSpec
  import Diff

  ghost predicate Untouched(additions: map<string, Item>, arrived: map<string, string>, todo: set<string>)
    reads additions.Values`collectorName
  {
    forall h :: h in additions && h in todo ==> h in arrived && additions[h].collectorName == arrived[h]
  }

  lemma AdditionsArrive(items: map<string, Item>, targets: map<string, Item>, additions: map<string, Item>)
    requires additions.Keys == targets.Keys - items.Keys && forall h :: h in additions ==> additions[h] == targets[h]
    ensures ItemNames(additions) == ItemNames(targets) - items.Keys
  {
  }

  lemma MergeItems(items: map<string, Item>, targets: map<string, Item>)
    ensures ItemJobs(Merged(items, targets)) == Merge(ItemJobs(items), ItemJobs(targets))
  {
  }

  lemma ArrivedOneMore(arrived: map<string, string>, todo: set<string>, k: string)
    requires k in arrived && k in todo
    ensures arrived - (todo - {k}) == (arrived - todo)[k := arrived[k]]
  {
  }

  /** Taking a target off a collector that never counted or filed it, and owing that collector the count. */
  lemma DetachedNewcomer(b: Books, h: string, job: string, prev: string, loads: map<string, int>)
    requires Indexed(b) && h !in b.placed && prev in b.loads
    requires loads == Detach(b, h, job, prev).loads[prev := Detach(b, h, job, prev).loads[prev] + 1]
    ensures Detach(b, h, job, prev).(loads := loads) == b
  {
    assert Filing(b, prev, job, h);
    assert loads == b.loads;
    if prev in b.index && job in b.index[prev] {
      assert b.index[prev][job] - {h} == b.index[prev][job];
      assert b.index[prev][job := b.index[prev][job]] == b.index[prev];
      assert b.index[prev := b.index[prev]] == b.index;
    }
  }

  lemma CarriedByAll(debts: Debts)
    ensures Carried(debts, debts.Keys) == debts
  {
  }

  class ConsistentHashingAllocator {
    const ledger: Ledger
    const locate: Ring
    var members: set<string>

    /** The ring knows exactly the collectors of the ledger. */
    ghost predicate Ready()
      reads this, ledger
    {
      ledger.Keyed() && members == ledger.collectors.Keys && Locates(locate)
    }

    /** Holds between calls: the books are settled, up to what each counter is behind, and follow the ring. */
    ghost predicate Valid()
      reads this, ledger, ledger.targetItems.Values`collectorName
    {
      Ready() && OnRing(locate, members, ledger.State())
    }

    ghost function Memory(): Memory
      reads this, ledger
    {
      ConsistentHashingSpec.Memory(members, ItemJobs(ledger.targetItems))
    }

    constructor (locate: Ring)
      requires Locates(locate)
      ensures Valid() && fresh(ledger) && this.locate == locate
      ensures Memory() == ConsistentHashingSpec.Memory({}, map[]) && ledger.debts == map[]
    {
      this.locate := locate;
      ledger := new Ledger();
      members := {};
      new;
      forall h ensures OwnedBy(locate, members, ledger.Placed(), h) {}
    }

    /**
     Un-counts the target where its item says it was, asks the ring for its owner, and places it there. For a target
     that is new, the collector that is named loses a count it never had.
     */
    method AddTargetToTargetItems(tg: Item)
      requires Ready() && Indexed(ledger.State()) && members != {}
      requires tg.hash in ledger.targetItems ==> ledger.targetItems[tg.hash] == tg
      modifies ledger, tg`collectorName
      ensures Ready() && ledger.targetItems == old(ledger.targetItems)[tg.hash := tg]
      ensures var prev, owner := old(tg.collectorName), locate(members, tg.hash);
              if old(tg.hash in ledger.targetItems)
              then && ledger.State() == Reassign(old(ledger.State()), tg.hash, tg.jobName, prev, owner)
                   && ledger.debts == old(ledger.debts)
              else && ledger.State() == Attach(old(ledger.State()), tg.hash, tg.jobName, owner)
                   && ledger.debts == ChargedOnce(old(ledger.debts), prev)
    {
      if tg.collectorName in ledger.collectors {
        UnassignPrevious(tg);
      }
      var owner := locate(members, tg.hash);
      ledger.Assign(tg, owner);
    }

    method UnassignPrevious(tg: Item)
      requires Ready() && Indexed(ledger.State()) && tg.collectorName in ledger.collectors
      modifies ledger`collectors, ledger`index, ledger`debts
      ensures Ready()
      ensures if tg.hash in ledger.targetItems
              then && ledger.State() == Detach(old(ledger.State()), tg.hash, tg.jobName, tg.collectorName)
                   && ledger.debts == old(ledger.debts)
              else && ledger.State() == old(ledger.State())
                   && ledger.debts == ChargedOnce(old(ledger.debts), tg.collectorName)
    {
      ghost var b := ledger.State();
      ledger.Unassign(tg);
      if tg.hash !in ledger.targetItems {
        ledger.Owe(tg.collectorName);
        DetachedNewcomer(b, tg.hash, tg.jobName, tg.collectorName, ledger.Loads());
      }
    }

    // ---------------------------------------------------------------- target updates

    /** Where the additions loop stands while `todo` are still to be placed; `arrived` is what the items named. */
    ghost predicate Adding(items: map<string, Item>, debts: Debts, additions: map<string, Item>,
                           arrived: map<string, string>, todo: set<string>)
      reads this, ledger, ledger.targetItems.Values`collectorName, additions.Values`collectorName
    {
      && Valid()
      && ledger.targetItems == items + (additions - todo)
      && ledger.debts == Charged(debts, arrived - todo) && debts.Keys == members
      && Untouched(additions, arrived, todo)
    }

    method PlaceNewcomer(tg: Item)
      requires Valid() && members != {} && tg.hash !in ledger.targetItems
      modifies ledger, tg`collectorName
      ensures Valid() && ledger.targetItems == old(ledger.targetItems)[tg.hash := tg]
      ensures ledger.debts == ChargedOnce(old(ledger.debts), old(tg.collectorName))
    {
      ghost var b := ledger.State();
      AttachKeeps(b, tg.hash, tg.jobName, locate(members, tg.hash));
      LocatedAfter(locate, members, b.placed, tg.hash, tg.jobName);
      AddTargetToTargetItems(tg);
    }

    method PlaceNew(k: string, additions: map<string, Item>, ghost items: map<string, Item>, ghost debts: Debts,
                    ghost arrived: map<string, string>, ghost todo: set<string>)
      requires Adding(items, debts, additions, arrived, todo) && ItemsKeyed(additions) && members != {}
      requires k in additions && k in arrived && k in todo && k !in ledger.targetItems
      modifies ledger, additions.Values`collectorName
      ensures Adding(items, debts, additions, arrived, todo - {k})
    {
      assert ItemKeyed(additions, k);
      ChargedOneMore(debts, arrived - todo, k, arrived[k]);
      ArrivedOneMore(arrived, todo, k);
      OneMore(items, additions, todo, k);
      PlaceNewcomer(additions[k]);
      forall h | h in additions && h in todo - {k} ensures h in arrived && additions[h].collectorName == arrived[h] {
        assert ItemKeyed(additions, h);
      }
    }

    /** Second loop of a target update. */
    method AddTargets(additions: map<string, Item>)
      requires Valid() && members != {} && ItemsKeyed(additions)
      requires additions.Keys !! ledger.targetItems.Keys
      modifies ledger, additions.Values`collectorName
      ensures Adding(old(ledger.targetItems), old(ledger.debts), additions, old(ItemNames(additions)), {})
    {
      var todo := additions.Keys;
      ghost var items, debts, arrived := ledger.targetItems, ledger.debts, ItemNames(additions);
      StartAdding(additions);
      while todo != {}
        invariant Adding(items, debts, additions, arrived, todo)
        invariant todo <= additions.Keys
        decreases todo
      {
        var k :| k in todo;
        if k !in ledger.targetItems {
          PlaceNew(k, additions, items, debts, arrived, todo);
        }
        todo := todo - {k};
      }
    }

    lemma StartAdding(additions: map<string, Item>)
      requires Valid()
      ensures Adding(ledger.targetItems, ledger.debts, additions, ItemNames(additions), additions.Keys)
    {
      assert additions - additions.Keys == map[];
      assert ItemNames(additions) - additions.Keys == map[];
      ChargedNothing(ledger.debts);
    }

    /** What a target update with at least one collector leaves behind, given the names the items arrived with. */
    ghost predicate Updated(items: map<string, Item>, debts: Debts, targets: map<string, Item>,
                            arrived: map<string, string>)
      reads this, ledger, ledger.targetItems.Values`collectorName
    {
      && Valid()
      && ledger.targetItems == Merged(items, targets)
      && ledger.debts == Charged(debts, arrived - items.Keys)
    }

    method HandleTargets(diff: Diff.Changes<Item>, ghost targets: map<string, Item>)
      requires Valid() && members != {} && ItemsKeyed(targets)
      requires diff == Diff.Delta(ledger.targetItems, targets, ItemHash)
      modifies ledger, targets.Values`collectorName
      ensures Updated(old(ledger.targetItems), old(ledger.debts), targets, old(ItemNames(targets)))
    {
      KeyedDiff(ledger.targetItems, targets);
      MinusNothing(diff.additions);
      ghost var items, arrived := ledger.targetItems, ItemNames(targets);
      AdditionsArrive(items, targets, diff.additions);
      ghost var arrivedNew := ItemNames(diff.additions);
      RemoveStale(diff.removals);
      assert ItemNames(diff.additions) == arrivedNew;
      AddTargets(diff.additions);
      DoneAdding(items, old(ledger.debts), targets, arrived, items - diff.removals.Keys, diff.additions);
    }

    lemma DoneAdding(items: map<string, Item>, debts: Debts, targets: map<string, Item>, arrived: map<string, string>,
                     kept: map<string, Item>, additions: map<string, Item>)
      requires Adding(kept, debts, additions, arrived - items.Keys, {})
      requires ledger.targetItems == Merged(items, targets)
      ensures Updated(items, debts, targets, arrived)
    {
      var new' := arrived - items.Keys;
      assert new' - {} == new';
    }

    method RemoveStale(removals: map<string, Item>)
      requires Valid() && removals.Keys <= ledger.targetItems.Keys
      modifies ledger`collectors, ledger`targetItems, ledger`index
      ensures Valid()
      ensures ledger.targetItems == old(ledger.targetItems) - removals.Keys
    {
      ghost var placed := ledger.Placed();
      ghost var gone := ledger.RemoveTargets(removals);
      forall h ensures OwnedBy(locate, members, ledger.Placed(), h) { assert OwnedBy(locate, members, placed, h); }
    }

    lemma NothingToDo(targets: map<string, Item>)
      requires Valid() && ItemsKeyed(targets)
      requires Diff.Delta(ledger.targetItems, targets, ItemHash) == Diff.Changes(map[], map[])
      ensures Updated(ledger.targetItems, ledger.debts, targets, ItemNames(targets))
    {
      KeyedDiff(ledger.targetItems, targets);
      assert ledger.targetItems.Keys == targets.Keys;
      assert ItemNames(targets) - ledger.targetItems.Keys == map[];
      ChargedNothing(ledger.debts);
    }

    /**
     Receives every target, keyed by hash and already filtered. Without a collector nothing happens. Otherwise exactly
     these targets are held afterwards, each named after its owner and filed under it; and every counter falls further
     behind by the number of new items that arrived naming its collector.
     */
    method SetTargets(targets: map<string, Item>)
      requires Valid() && ItemsKeyed(targets)
      modifies ledger, targets.Values`collectorName
      ensures Valid()
      ensures if members == {}
              then unchanged(ledger) && unchanged(targets.Values)
              else Updated(old(ledger.targetItems), old(ledger.debts), targets, old(ItemNames(targets)))
      ensures var call := Call.SetTargets(ItemJobs(targets), old(ItemNames(targets)));
              && Memory() == Step(old(Memory()), call)
              && ledger.debts == DebtStep(old(ledger.debts), old(Memory()), call)
    {
      if |ledger.collectors| == 0 {
        return;
      }
      MergeItems(ledger.targetItems, targets);
      assert ItemJobs(ledger.targetItems).Keys == ledger.targetItems.Keys;
      var diff := Diff.Maps(ledger.targetItems, targets, ItemHash);
      assert ItemNames(targets) == old(ItemNames(targets));
      if |diff.additions| != 0 || |diff.removals| != 0 {
        HandleTargets(diff, targets);
      } else {
        NothingToDo(targets);
      }
    }

    // ---------------------------------------------------------------- collector updates

    /** Where the re-allocation loop stands: the targets in `todo` may name any collector, live or removed. */
    ghost predicate Moving(items: map<string, Item>, todo: set<string>)
      reads this, ledger, ledger.targetItems.Values`collectorName
    {
      && Ready() && Afloat(ledger.State())
      && ledger.targetItems == items
      && LocatedBut(locate, members, ledger.Placed(), todo)
    }

    method MoveTarget(h: string, ghost items: map<string, Item>, ghost todo: set<string>)
      requires Moving(items, todo) && h in ledger.targetItems && members != {}
      modifies ledger, ledger.targetItems.Values`collectorName
      ensures Moving(items, todo - {h}) && ledger.debts == old(ledger.debts)
    {
      assert ItemKeyed(ledger.targetItems, h);
      SameEntry(ledger.targetItems, h);
      ghost var b := ledger.State();
      ReassignKeeps(b, h, locate(members, h));
      LocatedButAfter(locate, members, b.placed, todo, h, b.placed[h].job);
      AddTargetToTargetItems(ledger.targetItems[h]);
    }

    /** Third loop of a collector update: every target is un-counted, located again and counted. */
    method ReallocateTargets()
      requires Moving(ledger.targetItems, ledger.targetItems.Keys) && members != {}
      modifies ledger, ledger.targetItems.Values`collectorName
      ensures Moving(old(ledger.targetItems), {}) && ledger.debts == old(ledger.debts)
    {
      ghost var items := ledger.targetItems;
      var todo := ledger.targetItems.Keys;
      while todo != {}
        invariant Moving(items, todo) && todo <= items.Keys && ledger.debts == old(ledger.debts)
        decreases todo
      {
        var h :| h in todo;
        MoveTarget(h, items, todo);
        todo := todo - {h};
      }
    }

    lemma DoneMoving(items: map<string, Item>)
      requires Moving(items, {}) && members != {}
      ensures Valid()
    {
      forall h ensures OwnedBy(locate, members, ledger.Placed(), h) && Homed(ledger.State(), h) {
        assert OwnedBut(locate, members, ledger.Placed(), {}, h);
      }
    }

    method HandleCollectors(diff: Diff.Changes<Collector>, ghost names: set<string>)
      requires Valid() && CollectorsKeyed(diff.additions) && CollectorsKeyed(diff.removals) && names != {}
      requires diff.additions.Keys == names - ledger.collectors.Keys
      requires diff.removals.Keys == ledger.collectors.Keys - names
      modifies this`members, ledger, ledger.targetItems.Values`collectorName
      ensures Valid() && members == names && ledger.targetItems == old(ledger.targetItems)
      ensures ledger.debts == Carried(old(ledger.debts), names)
    {
      ReplaceCollectors(diff, names);
      ReallocateTargets();
      DoneMoving(old(ledger.targetItems));
    }

    /** The first two loops: collectors and ring change together, and the targets' names may dangle. */
    method ReplaceCollectors(diff: Diff.Changes<Collector>, ghost names: set<string>)
      requires Valid() && CollectorsKeyed(diff.additions) && CollectorsKeyed(diff.removals)
      requires diff.additions.Keys == names - ledger.collectors.Keys
      requires diff.removals.Keys == ledger.collectors.Keys - names
      modifies this`members, ledger`collectors, ledger`index, ledger`debts
      ensures Moving(ledger.targetItems, ledger.targetItems.Keys) && members == names
      ensures ledger.debts == Carried(old(ledger.debts), names)
    {
      ledger.ReplaceCollectors(diff, names);
      members := members - diff.removals.Keys + diff.additions.Keys;
      forall h ensures OwnedBut(locate, members, ledger.Placed(), ledger.targetItems.Keys, h) {}
    }

    /**
     Receives every collector, keyed by name. An empty map changes nothing. Otherwise exactly these collectors are
     known afterwards, no target is added or dropped, and every target is on the owner the new ring gives it. Who stays
     keeps what its counter is behind by, who joins starts exact.
     */
    method SetCollectors(collectors: map<string, Collector>)
      requires Valid() && CollectorsKeyed(collectors)
      modifies this`members, ledger, ledger.targetItems.Values`collectorName
      ensures Valid() && ledger.targetItems == old(ledger.targetItems)
      ensures Memory() == Step(old(Memory()), Call.SetCollectors(collectors.Keys))
      ensures ledger.debts == DebtStep(old(ledger.debts), old(Memory()), Call.SetCollectors(collectors.Keys))
    {
      if |collectors| == 0 {
        return;
      }
      var diff := Diff.Maps(ledger.collectors, collectors, CollectorHash);
      assert Valid() && Memory() == old(Memory());
      KeyedCollectorDiff(ledger.collectors, collectors);
      if |diff.additions| != 0 || |diff.removals| != 0 {
        HandleCollectors(diff, collectors.Keys);
        return;
      }
      CarriedByAll(ledger.debts);
    }
  }

  // ------------------------------------------------------------------ two allocators

  /** Allocators that know the same collectors and hashes put every target on the same collector. */
  lemma SameHashesSameAllocation(a: ConsistentHashingAllocator, b: ConsistentHashingAllocator)
    requires a.Valid() && b.Valid() && a.locate == b.locate
    requires a.members == b.members && a.ledger.targetItems.Keys == b.ledger.targetItems.Keys
    ensures forall h :: h in a.ledger.targetItems ==>
                          a.ledger.targetItems[h].collectorName == b.ledger.targetItems[h].collectorName
    ensures forall c :: c in a.members ==>
                          (a.ledger.collectors[c].numTargets == b.ledger.collectors[c].numTargets <==>
                           a.ledger.Debt(c) == b.ledger.Debt(c))
  {
    HashesDetermineCounts(a.locate, a.members, a.ledger.State(), b.ledger.State());
    forall h | h in a.ledger.targetItems
      ensures a.ledger.targetItems[h].collectorName == b.ledger.targetItems[h].collectorName
    {
      assert OwnedBy(a.locate, a.members, a.ledger.Placed(), h) && OwnedBy(b.locate, b.members, b.ledger.Placed(), h);
    }
    forall c | c in a.members
      ensures a.ledger.collectors[c].numTargets == b.ledger.collectors[c].numTargets <==>
              a.ledger.Debt(c) == b.ledger.Debt(c)
    {
      a.ledger.CountersFallShortByDebt(c);
      b.ledger.CountersFallShortByDebt(c);
    }
  }

  /** With the same memory, they also answer every query alike. */
  lemma SameMemorySameAnswers(a: ConsistentHashingAllocator, b: ConsistentHashingAllocator)
    requires a.Valid() && b.Valid() && a.locate == b.locate && a.Memory() == b.Memory()
    ensures a.ledger.Placed() == b.ledger.Placed()
    ensures forall c, j :: Answer(a.ledger.index, c, j) == Answer(b.ledger.index, c, j)
  {
    MemoryDeterminesBooks(a.locate, a.Memory(), a.ledger.State(), b.ledger.State());
  }
}
