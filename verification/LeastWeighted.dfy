/** The least-weighted allocator: a target goes to a collector that holds the fewest targets. */
module LeastWeighted {
  import opened Options
  import opened Leveling
  import opened Placements
  import opened Ledgers
  import opened LeastWeightedSpec
  import opened AllocatorCalls
  import Diff

  lemma KeepIsMinus(items: map<string, Item>, placed: Assignment, targets: map<string, Item>, removals: set<string>)
    requires placed.Keys == items.Keys && removals == items.Keys - targets.Keys
    ensures placed - items.Keys * removals == Keep(placed, targets.Keys)
    ensures items - items.Keys * removals == items - removals
  {
  }

  lemma NoDelta(items: map<string, Item>, placed: Assignment, targets: map<string, Item>)
    requires ItemsKeyed(items) && ItemsKeyed(targets) && placed.Keys == items.Keys
    requires Diff.Delta(items, targets, ItemHash) == Diff.Changes(map[], map[])
    ensures items == Merged(items, targets) && Keep(placed, targets.Keys) == placed
  {
    KeyedDiff(items, targets);
    assert items.Keys == targets.Keys;
  }

  /** A target's job is read off its item. */
  ghost predicate JobsOf(items: map<string, Item>, a: Assignment) {
    a.Keys == items.Keys && forall h :: h in a ==> a[h].job == items[h].jobName
  }

  lemma MergedJobsAgree(items: map<string, Item>, a: Assignment, targets: map<string, Item>, a': Assignment)
    requires JobsOf(items, a) && JobsOf(Merged(items, targets), a')
    ensures JobsMerged(a, ItemJobs(targets), a')
  {
  }

  lemma AllNamed(ledger: Ledger)
    requires Live(ledger.State())
    ensures forall h :: h in ledger.Placed() ==> ledger.Placed()[h].collector in ledger.collectors
  {
    forall h | h in ledger.Placed() ensures ledger.Placed()[h].collector in ledger.collectors {
      assert Homed(ledger.State(), h);
    }
  }

  ghost predicate Pending(names: set<string>, was: Assignment, placed: Assignment, todo: set<string>) {
    && placed.Keys == was.Keys
    && (forall h :: h in placed && h in todo ==> placed[h] == was[h])
    && (forall h :: h in placed && h !in todo ==> placed[h].collector in names)
  }

  lemma PendingStep(names: set<string>, was: Assignment, placed: Assignment, todo: set<string>, h: string, p: Placed)
    requires Pending(names, was, placed, todo) && h in placed && placed[h].collector !in names && p.collector in names
    ensures Pending(names, was, placed[h := p], todo - {h})
    ensures h !in OnNamed(placed, names)
    ensures OnNamed(placed[h := p], names) == OnNamed(placed, names)[h := p]
  {
  }

  lemma PendingSkip(names: set<string>, was: Assignment, placed: Assignment, todo: set<string>, h: string)
    requires Pending(names, was, placed, todo) && h in placed && placed[h].collector in names
    ensures Pending(names, was, placed, todo - {h})
  {
  }

  /** Before re-allocation, a target names a removed collector exactly when it names no live one. */
  ghost predicate Dropped(names: set<string>, was: Assignment, removals: set<string>) {
    forall h :: h in was ==> (was[h].collector in removals <==> was[h].collector !in names)
  }

  lemma DroppedIsUnnamed(names: set<string>, was: Assignment, placed: Assignment, todo: set<string>,
                         removals: set<string>, h: string)
    requires Pending(names, was, placed, todo) && Dropped(names, was, removals) && h in placed && h in todo
    ensures placed[h].collector in removals <==> placed[h].collector !in names
  {
  }

  /** Re-allocation towards `names`: what is settled so far, and what `todo` still has to be looked at. */
  ghost predicate Reallocating(names: set<string>, was: Assignment, placed: Assignment, todo: set<string>,
                               picks: seq<string>) {
    && Pending(names, was, placed, todo)
    && Levelled(names, OnNamed(was, names), picks, OnNamed(placed, names))
  }

  lemma ReallocatingStep(names: set<string>, was: Assignment, placed: Assignment, todo: set<string>, picks: seq<string>,
                         h: string, p: Placed)
    requires Reallocating(names, was, placed, todo, picks)
    requires h in placed && placed[h].collector !in names && Least(LoadsOf(names, placed), p.collector)
    ensures Reallocating(names, was, placed[h := p], todo - {h}, picks + [p.collector])
  {
    LoadsOnNamed(placed, names);
    PendingStep(names, was, placed, todo, h, p);
    LevelledStep(names, OnNamed(was, names), picks, OnNamed(placed, names), h, p);
  }

  class LeastWeightedAllocator {
    const ledger: Ledger

    ghost predicate Valid()
      reads ledger, ledger.targetItems.Values`collectorName
    {
      ledger.Valid() && NoDebts(ledger.debts)
    }

    lemma CountersAreExact(c: string)
      requires Valid() && c in ledger.collectors
      ensures ledger.collectors[c].numTargets == |Held(ledger.Placed(), c)|
    {
      ledger.CountersFallShortByDebt(c);
    }

    ghost function View(): View
      reads ledger, ledger.targetItems.Values`collectorName
    {
      LeastWeightedSpec.View(ledger.collectors.Keys, ledger.Placed())
    }

    constructor ()
      ensures Valid() && fresh(ledger)
      ensures View() == LeastWeightedSpec.View({}, map[])
    {
      ledger := new Ledger();
    }

    /** Scans the collectors in any order and keeps the first one with the smallest count. */
    method FindNextCollector() returns (col: Collector)
      requires ledger.Keyed() && NoDebts(ledger.debts) && ledger.collectors != map[]
      ensures Least(ledger.Loads(), col.name)
    {
      var best: Option<Collector> := None;
      var todo := ledger.collectors.Keys;
      while todo != {}
        invariant todo <= ledger.collectors.Keys
        invariant best.None? ==> todo == ledger.collectors.Keys
        invariant best.Some? ==>
            && best.value.name in ledger.collectors && ledger.collectors[best.value.name] == best.value
            && forall c :: c in ledger.collectors && c !in todo ==>
                  best.value.numTargets <= ledger.collectors[c].numTargets
        decreases todo
      {
        var c :| c in todo;
        todo := todo - {c};
        var v := ledger.collectors[c];
        assert CollectorKeyed(ledger.collectors, c);
        if best.None? {
          best := Some(v);
        } else if v.numTargets < best.value.numTargets {
          best := Some(v);
        }
      }
      assert best.Some? by { var c :| c in ledger.collectors; }
      col := best.value;
    }

    /** Places a target that is new, or that names a collector which is gone, on a least loaded collector. */
    method AddTargetToTargetItems(tg: Item) returns (ghost pick: string)
      requires ledger.Keyed() && Afloat(ledger.State()) && NoDebts(ledger.debts) && ledger.collectors != map[]
      requires tg.hash in ledger.targetItems ==>
                 ledger.targetItems[tg.hash] == tg && tg.collectorName !in ledger.collectors
      modifies ledger`collectors, ledger`targetItems, ledger`index, tg`collectorName
      ensures ledger.Keyed() && Afloat(ledger.State()) && ledger.collectors.Keys == old(ledger.collectors.Keys)
      ensures old(Live(ledger.State())) ==> Live(ledger.State())
      ensures ledger.targetItems == old(ledger.targetItems)[tg.hash := tg]
      ensures ledger.Placed() == old(ledger.Placed())[tg.hash := Placed(tg.jobName, pick)]
      ensures Least(old(LoadsOf(ledger.collectors.Keys, ledger.Placed())), pick)
    {
      var chosen := FindNextCollector();
      pick := chosen.name;
      AttachKeeps(ledger.State(), tg.hash, tg.jobName, pick);
      ExactLoads(ledger.Loads(), ledger.Placed());
      ledger.Assign(tg, chosen.name);
    }

    // ---------------------------------------------------------------- target updates

    /** Where the additions loop stands while `todo` are still to be placed. */
    ghost predicate Adding(names: set<string>, items: map<string, Item>, kept: Assignment, additions: map<string, Item>,
                           todo: set<string>, picks: seq<string>)
      reads ledger, ledger.targetItems.Values`collectorName
    {
      && Valid() && ledger.collectors.Keys == names
      && ledger.targetItems == items + (additions - todo)
      && Levelled(names, kept, picks, ledger.Placed())
    }

    lemma StartAdding(additions: map<string, Item>)
      requires Valid()
      ensures Adding(ledger.collectors.Keys, ledger.targetItems, ledger.Placed(), additions, additions.Keys, [])
    {
      AllNamed(ledger);
      LevelledStart(ledger.collectors.Keys, ledger.Placed(), ledger.Placed());
      assert additions - additions.Keys == map[];
    }

    method PlaceNew(k: string, additions: map<string, Item>, ghost names: set<string>, ghost items: map<string, Item>,
                    ghost kept: Assignment, ghost todo: set<string>, ghost picks: seq<string>)
      returns (ghost picks': seq<string>)
      requires Adding(names, items, kept, additions, todo, picks) && ItemsKeyed(additions) && names != {}
      requires k in additions && k in todo && k !in ledger.targetItems
      modifies ledger`collectors, ledger`targetItems, ledger`index, additions.Values`collectorName
      ensures Adding(names, items, kept, additions, todo - {k}, picks')
    {
      assert ItemKeyed(additions, k);
      ghost var placed := ledger.Placed();
      ghost var pick := AddTargetToTargetItems(additions[k]);
      picks' := picks + [pick];
      LevelledStep(names, kept, picks, placed, k, Placed(additions[k].jobName, pick));
      OneMore(items, additions, todo, k);
    }

    /** Second loop of a target update: every added target goes to a least loaded collector. */
    method AddTargets(additions: map<string, Item>) returns (ghost picks: seq<string>)
      requires Valid() && ledger.collectors != map[] && ItemsKeyed(additions)
      requires additions.Keys !! ledger.targetItems.Keys
      modifies ledger`collectors, ledger`targetItems, ledger`index, additions.Values`collectorName
      ensures Adding(old(ledger.collectors.Keys), old(ledger.targetItems), old(ledger.Placed()), additions, {}, picks)
    {
      var todo := additions.Keys;
      ghost var names, items, kept := ledger.collectors.Keys, ledger.targetItems, ledger.Placed();
      picks := [];
      StartAdding(additions);
      while todo != {}
        invariant Adding(names, items, kept, additions, todo, picks)
        invariant todo <= additions.Keys
        decreases todo
      {
        var k :| k in todo;
        if k !in ledger.targetItems {
          picks := PlaceNew(k, additions, names, items, kept, todo, picks);
        }
        todo := todo - {k};
      }
    }

    /** What a target update with at least one collector leaves behind. */
    ghost predicate Updated(items: map<string, Item>, v: View, targets: map<string, Item>, picks: seq<string>)
      reads ledger, ledger.targetItems.Values`collectorName
    {
      && Valid()
      && ledger.targetItems == Merged(items, targets)
      && TargetsSet(v, ItemJobs(targets), picks, View())
    }

    lemma LevelledMeansUpdated(items: map<string, Item>, v: View, targets: map<string, Item>, picks: seq<string>)
      requires Valid() && ledger.targetItems == Merged(items, targets)
      requires v.names == ledger.collectors.Keys && JobsOf(items, v.placed)
      requires Levelled(ledger.collectors.Keys, Keep(v.placed, targets.Keys), picks, ledger.Placed())
      ensures Updated(items, v, targets, picks)
    {
      MergedJobsAgree(items, v.placed, targets, ledger.Placed());
      assert ItemJobs(targets).Keys == targets.Keys;
    }

    method HandleTargets(diff: Diff.Changes<Item>, ghost targets: map<string, Item>) returns (ghost picks: seq<string>)
      requires Valid() && ledger.collectors != map[] && ItemsKeyed(targets)
      requires diff == Diff.Delta(ledger.targetItems, targets, ItemHash)
      modifies ledger`collectors, ledger`targetItems, ledger`index, targets.Values`collectorName
      ensures Updated(old(ledger.targetItems), old(View()), targets, picks)
    {
      KeyedDiff(ledger.targetItems, targets);
      ghost var items, v := ledger.targetItems, View();
      assert JobsOf(items, v.placed);
      MinusNothing(diff.additions);
      RemoveStale(diff.removals, targets);
      picks := AddTargets(diff.additions);
      LevelledMeansUpdated(items, v, targets, picks);
    }

    method RemoveStale(removals: map<string, Item>, ghost targets: map<string, Item>)
      requires Valid() && removals.Keys == ledger.targetItems.Keys - targets.Keys
      modifies ledger`collectors, ledger`targetItems, ledger`index
      ensures Valid() && ledger.collectors.Keys == old(ledger.collectors.Keys)
      ensures ledger.targetItems == old(ledger.targetItems) - removals.Keys
      ensures ledger.Placed() == Keep(old(ledger.Placed()), targets.Keys)
    {
      KeepIsMinus(ledger.targetItems, ledger.Placed(), targets, removals.Keys);
      ghost var gone := ledger.RemoveTargets(removals);
    }

    lemma NothingToDo(targets: map<string, Item>)
      requires Valid() && ItemsKeyed(targets) && ledger.collectors != map[]
      requires Diff.Delta(ledger.targetItems, targets, ItemHash) == Diff.Changes(map[], map[])
      ensures Updated(ledger.targetItems, View(), targets, [])
    {
      NoDelta(ledger.targetItems, ledger.Placed(), targets);
      AllNamed(ledger);
      LevelledStart(ledger.collectors.Keys, Keep(ledger.Placed(), targets.Keys), ledger.Placed());
      LevelledMeansUpdated(ledger.targetItems, View(), targets, []);
    }

    /**
     Receives every target, keyed by hash and already filtered. Without a collector nothing happens. Otherwise
     exactly these targets are held afterwards, the ones held before by their own item and on their own collector.
     */
    method SetTargets(targets: map<string, Item>) returns (ghost picks: seq<string>)
      requires Valid() && ItemsKeyed(targets)
      modifies ledger`collectors, ledger`targetItems, ledger`index, targets.Values`collectorName
      ensures if old(ledger.collectors) == map[]
              then picks == [] && unchanged(ledger) && unchanged(targets.Values)
              else Updated(old(ledger.targetItems), old(View()), targets, picks)
      ensures Valid() && Step(old(View()), Call.SetTargets(ItemJobs(targets), old(ItemNames(targets))), picks, View())
    {
      if |ledger.collectors| == 0 {
        return [];
      }
      var diff := Diff.Maps(ledger.targetItems, targets, ItemHash);
      assert View() == old(View());
      if |diff.additions| != 0 || |diff.removals| != 0 {
        picks := HandleTargets(diff, targets);
        return;
      }
      NothingToDo(targets);
      return [];
    }

    // ---------------------------------------------------------------- collector updates

    /** Where the re-allocation loop stands: the targets in `todo` may still name a removed collector. */
    ghost predicate Moving(names: set<string>, items: map<string, Item>, was: Assignment, todo: set<string>,
                           picks: seq<string>)
      reads ledger, ledger.targetItems.Values`collectorName
    {
      && ledger.Keyed() && Afloat(ledger.State()) && NoDebts(ledger.debts) && ledger.collectors.Keys == names
      && ledger.targetItems == items
      && Reallocating(names, was, ledger.Placed(), todo, picks)
    }

    method MoveTarget(h: string, ghost names: set<string>, ghost items: map<string, Item>, ghost was: Assignment,
                      ghost todo: set<string>, ghost picks: seq<string>)
      returns (ghost picks': seq<string>)
      requires Moving(names, items, was, todo, picks) && names != {}
      requires h in ledger.targetItems && ledger.targetItems[h].collectorName !in ledger.collectors
      modifies ledger`collectors, ledger`targetItems, ledger`index, ledger.targetItems.Values`collectorName
      ensures Moving(names, items, was, todo - {h}, picks')
    {
      assert ItemKeyed(ledger.targetItems, h);
      SameEntry(ledger.targetItems, h);
      ghost var placed := ledger.Placed();
      var tg := ledger.targetItems[h];
      ghost var pick := AddTargetToTargetItems(tg);
      picks' := picks + [pick];
      ReallocatingStep(names, was, placed, todo, picks, h, Placed(tg.jobName, pick));
    }

    /** Third loop of a collector update: only targets whose collector was removed are placed again. */
    method ReallocateTargets(removals: map<string, Collector>, ghost names: set<string>, ghost was: Assignment)
      returns (ghost picks: seq<string>)
      requires Moving(names, ledger.targetItems, was, ledger.targetItems.Keys, []) && names != {}
      requires Dropped(names, was, removals.Keys)
      modifies ledger`collectors, ledger`targetItems, ledger`index, ledger.targetItems.Values`collectorName
      ensures Moving(names, old(ledger.targetItems), was, {}, picks)
    {
      picks := [];
      ghost var items := ledger.targetItems;
      var todo := ledger.targetItems.Keys;
      while todo != {}
        invariant Moving(names, items, was, todo, picks)
        invariant todo <= items.Keys
        decreases todo
      {
        var h :| h in todo;
        DroppedIsUnnamed(names, was, ledger.Placed(), todo, removals.Keys, h);
        if ledger.targetItems[h].collectorName in removals {
          picks := MoveTarget(h, names, items, was, todo, picks);
        } else {
          PendingSkip(names, was, ledger.Placed(), todo, h);
        }
        todo := todo - {h};
      }
    }

    lemma StartMoving(was: Assignment)
      requires ledger.Keyed() && Afloat(ledger.State()) && NoDebts(ledger.debts) && was == ledger.Placed()
      ensures Moving(ledger.collectors.Keys, ledger.targetItems, was, ledger.targetItems.Keys, [])
    {
      var names := ledger.collectors.Keys;
      LevelledStart(names, OnNamed(was, names), OnNamed(was, names));
    }

    /** What a collector update with at least one collector leaves behind. */
    ghost predicate Reset(items: map<string, Item>, v: View, names: set<string>, picks: seq<string>)
      reads ledger, ledger.targetItems.Values`collectorName
    {
      && Valid()
      && ledger.targetItems == items
      && CollectorsSet(v, names, picks, View())
    }

    lemma DoneMoving(items: map<string, Item>, v: View, names: set<string>, picks: seq<string>)
      requires Moving(names, items, v.placed, {}, picks) && JobsOf(items, v.placed)
      ensures Reset(items, v, names, picks)
    {
      forall h ensures Homed(ledger.State(), h) {}
      assert OnNamed(ledger.Placed(), names) == ledger.Placed();
      assert JobsOf(items, ledger.Placed());
    }

    /** The first two loops: the collectors change, and no target moves yet. */
    method ReplaceCollectors(diff: Diff.Changes<Collector>, ghost names: set<string>)
      requires Valid() && CollectorsKeyed(diff.additions) && CollectorsKeyed(diff.removals)
      requires diff.additions.Keys == names - ledger.collectors.Keys
      requires diff.removals.Keys == ledger.collectors.Keys - names
      modifies ledger`collectors, ledger`index, ledger`debts
      ensures Moving(names, ledger.targetItems, ledger.Placed(), ledger.targetItems.Keys, [])
      ensures Dropped(names, ledger.Placed(), diff.removals.Keys) && ledger.Placed() == old(ledger.Placed())
    {
      AllNamed(ledger);
      ledger.ReplaceCollectors(diff, names);
      StartMoving(ledger.Placed());
    }

    method HandleCollectors(diff: Diff.Changes<Collector>, ghost names: set<string>) returns (ghost picks: seq<string>)
      requires Valid() && CollectorsKeyed(diff.additions) && CollectorsKeyed(diff.removals) && names != {}
      requires diff.additions.Keys == names - ledger.collectors.Keys
      requires diff.removals.Keys == ledger.collectors.Keys - names
      modifies ledger, ledger.targetItems.Values`collectorName
      ensures Reset(old(ledger.targetItems), old(View()), names, picks)
    {
      ghost var items, v := ledger.targetItems, View();
      assert JobsOf(items, v.placed);
      ReplaceCollectors(diff, names);
      picks := ReallocateTargets(diff.removals, names, v.placed);
      DoneMoving(items, v, names, picks);
    }

    /**
     Receives every collector, keyed by name. An empty map changes nothing. Otherwise exactly these collectors are
     known afterwards, and only the targets of dropped collectors are placed again.
     */
    method SetCollectors(collectors: map<string, Collector>) returns (ghost picks: seq<string>)
      requires Valid() && CollectorsKeyed(collectors)
      modifies ledger, ledger.targetItems.Values`collectorName
      ensures if collectors == map[]
              then picks == [] && unchanged(ledger) && unchanged(ledger.targetItems.Values)
              else Reset(old(ledger.targetItems), old(View()), collectors.Keys, picks)
      ensures Valid() && Step(old(View()), Call.SetCollectors(collectors.Keys), picks, View())
    {
      if |collectors| == 0 {
        return [];
      }
      var diff := Diff.Maps(ledger.collectors, collectors, CollectorHash);
      assert View() == old(View());
      KeyedCollectorDiff(ledger.collectors, collectors);
      if |diff.additions| != 0 || |diff.removals| != 0 {
        picks := HandleCollectors(diff, collectors.Keys);
        return;
      }
      NothingToMove(collectors.Keys);
      return [];
    }

    lemma NothingToMove(names: set<string>)
      requires Valid() && names == ledger.collectors.Keys
      ensures Reset(ledger.targetItems, View(), names, [])
    {
      AllNamed(ledger);
      assert OnNamed(ledger.Placed(), names) == ledger.Placed();
      LevelledStart(names, OnNamed(ledger.Placed(), names), ledger.Placed());
    }
  }
}
