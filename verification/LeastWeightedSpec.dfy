/** The least-weighted strategy as a relation between what is placed before and after a call. */
module LeastWeightedSpec {
  import opened Leveling
  import opened Placements
  import opened AllocatorCalls

  /** A settled allocator up to what its collector names and placements determine. */
  datatype View = View(names: set<string>, placed: Assignment)

  ghost predicate LiveView(v: View) {
    forall h :: h in v.placed ==> v.placed[h].collector in v.names
  }

  ghost function Load(v: View, c: string): int {
    |Held(v.placed, c)|
  }

  ghost function Keep(a: Assignment, hashes: set<string>): Assignment {
    map h | h in a && h in hashes :: a[h]
  }

  ghost function OnNamed(a: Assignment, names: set<string>): Assignment {
    map h | h in a && a[h].collector in names :: a[h]
  }

  ghost predicate Grown(names: set<string>, kept: Assignment, placed: Assignment) {
    && kept.Keys <= placed.Keys
    && (forall h :: h in kept ==> placed[h] == kept[h])
    && (forall h :: h in placed ==> placed[h].collector in names)
  }

  ghost predicate Filled(names: set<string>, kept: Assignment, picks: seq<string>, placed: Assignment) {
    && Greedy(LoadsOf(names, kept), picks)
    && LoadsOf(names, placed) == Fill(LoadsOf(names, kept), picks)
  }

  /** The kept targets stay put; the others go, one after the other, to a collector with the fewest targets. */
  ghost predicate Levelled(names: set<string>, kept: Assignment, picks: seq<string>, placed: Assignment) {
    && Grown(names, kept, placed)
    && Filled(names, kept, picks, placed)
    && |picks| == |placed| - |kept|
  }

  /** A target already held keeps its own job name: the incoming item of the same hash is not used. */
  ghost predicate JobsMerged(a: Assignment, targets: map<string, string>, a': Assignment) {
    a'.Keys == targets.Keys && forall h :: h in a' ==> a'[h].job == if h in a then a[h].job else targets[h]
  }

  ghost predicate SameJobs(a: Assignment, a': Assignment) {
    a'.Keys == a.Keys && forall h :: h in a' ==> a'[h].job == a[h].job
  }

  /** A target update with at least one collector. */
  ghost predicate TargetsSet(v: View, targets: map<string, string>, picks: seq<string>, v': View) {
    && v'.names == v.names
    && JobsMerged(v.placed, targets, v'.placed)
    && Levelled(v.names, Keep(v.placed, targets.Keys), picks, v'.placed)
  }

  ghost predicate TargetsStep(v: View, targets: map<string, string>, picks: seq<string>, v': View) {
    if v.names == {} then v' == v && picks == [] else TargetsSet(v, targets, picks, v')
  }

  /** A collector update with at least one collector. */
  ghost predicate CollectorsSet(v: View, names: set<string>, picks: seq<string>, v': View) {
    && v'.names == names
    && SameJobs(v.placed, v'.placed)
    && Levelled(names, OnNamed(v.placed, names), picks, v'.placed)
  }

  ghost predicate CollectorsStep(v: View, names: set<string>, picks: seq<string>, v': View) {
    if names == {} then v' == v && picks == [] else CollectorsSet(v, names, picks, v')
  }

  lemma LevelledStart(names: set<string>, kept: Assignment, placed: Assignment)
    requires kept == placed && forall h :: h in kept ==> kept[h].collector in names
    ensures Levelled(names, kept, [], placed)
  {
  }

  lemma LevelledStep(names: set<string>, kept: Assignment, picks: seq<string>, placed: Assignment, h: string, p: Placed)
    requires Levelled(names, kept, picks, placed)
    requires h !in placed && Least(LoadsOf(names, placed), p.collector)
    ensures Levelled(names, kept, picks + [p.collector], placed[h := p])
  {
    FilledStep(names, kept, picks, placed, h, p);
    SizeAfterAdding(placed, h, p);
  }

  lemma SizeAfterAdding(m: Assignment, k: string, v: Placed)
    requires k !in m
    ensures |m[k := v]| == |m| + 1
  {
    assert m[k := v].Keys == m.Keys + {k};
  }

  lemma FilledStep(names: set<string>, kept: Assignment, picks: seq<string>, placed: Assignment, h: string, p: Placed)
    requires Filled(names, kept, picks, placed)
    requires h !in placed && Least(LoadsOf(names, placed), p.collector)
    ensures Filled(names, kept, picks + [p.collector], placed[h := p])
  {
    GreedyStep(LoadsOf(names, kept), picks, p.collector);
    LoadsAfterPlacing(names, placed, h, p);
  }

  // ------------------------------------------------------------------ fairness of one call

  lemma NewcomerWasPicked(names: set<string>, kept: Assignment, picks: seq<string>, placed: Assignment, h: string)
    requires Levelled(names, kept, picks, placed) && h in placed && h !in kept
    ensures placed[h].collector in picks
  {
    var c := placed[h].collector;
    assert Held(kept, c) <= Held(placed, c) - {h};
    SubsetSize(Held(kept, c), Held(placed, c) - {h});
    FillCounts(LoadsOf(names, kept), picks, c);
    assert LoadsOf(names, placed)[c] > LoadsOf(names, kept)[c];
  }

  lemma {:induction false} SubsetSize(a: set<string>, b: set<string>)
    requires a <= b
    ensures |a| <= |b|
    decreases |a|
  {
    if a == {} {
    } else {
      var x :| x in a;
      SubsetSize(a - {x}, b - {x});
    }
  }

  lemma NewcomerIsLevel(names: set<string>, kept: Assignment, picks: seq<string>, placed: Assignment,
                        h: string, d: string)
    requires Levelled(names, kept, picks, placed)
    requires h in placed && h !in kept && d in names
    ensures |Held(placed, placed[h].collector)| <= |Held(placed, d)| + 1
  {
    NewcomerWasPicked(names, kept, picks, placed, h);
    var c := placed[h].collector;
    ReceiversAreLevel(LoadsOf(names, kept), picks, c, d);
    assert LoadsOf(names, placed)[c] == |Held(placed, c)| && LoadsOf(names, placed)[d] == |Held(placed, d)|;
  }

  /** Within one call, a collector that received a target ends at most one above every other collector. */
  lemma ReceiversEndLevel(v: View, call: Call, picks: seq<string>, v': View, h: string, d: string)
    requires Step(v, call, picks, v') && d in v'.names
    requires h in v'.placed && (h in v.placed ==> v'.placed[h] != v.placed[h])
    ensures Load(v', v'.placed[h].collector) <= Load(v', d) + 1
  {
    match call
    case SetTargets(targets, _) =>
      NewcomerIsLevel(v.names, Keep(v.placed, targets.Keys), picks, v'.placed, h, d);
    case SetCollectors(names) =>
      NewcomerIsLevel(names, OnNamed(v.placed, names), picks, v'.placed, h, d);
  }

  ghost predicate Spread(v: View, bound: int) {
    SpreadAtMost(LoadsOf(v.names, v.placed), bound)
  }

  /** A target update that removes nothing leaves the spread within one or what it was. */
  lemma AddingTargetsKeepsSpread(v: View, targets: map<string, string>, picks: seq<string>, v': View, bound: int)
    requires TargetsStep(v, targets, picks, v') && v.placed.Keys <= targets.Keys
    requires 1 <= bound && Spread(v, bound)
    ensures Spread(v', bound)
  {
    if v.names != {} {
      assert Keep(v.placed, targets.Keys) == v.placed;
      FillKeepsSpread(LoadsOf(v.names, v.placed), picks, bound);
    }
  }

  /**
   The spread ends within a bound exactly when `n` targets are enough to lift every collector to what the fullest one
   holds of `kept`, less that bound.
   */
  ghost predicate SpreadIffLifted(kept: Assignment, n: int, v': View, top: string, bound: int)
    requires top in v'.names
  {
    var base := LoadsOf(v'.names, kept);
    Spread(v', bound) <==> Deficit(base, base[top] - bound) <= n
  }

  /** In general, removals included, it is the number of new targets that decides what spread an update ends with. */
  lemma TargetsSpread(v: View, targets: map<string, string>, picks: seq<string>, v': View, top: string, bound: int)
    requires v.names != {} && TargetsStep(v, targets, picks, v') && 1 <= bound
    requires Fullest(LoadsOf(v.names, Keep(v.placed, targets.Keys)), top)
    ensures top in v'.names
    ensures SpreadIffLifted(Keep(v.placed, targets.Keys), |targets| - |Keep(v.placed, targets.Keys)|, v', top, bound)
  {
    PicksAreTheNew(v, targets, picks, v');
    FilledSpread(Keep(v.placed, targets.Keys), picks, v', top, bound);
  }

  lemma PicksAreTheNew(v: View, targets: map<string, string>, picks: seq<string>, v': View)
    requires v.names != {} && TargetsStep(v, targets, picks, v')
    ensures |picks| == |targets| - |Keep(v.placed, targets.Keys)|
    ensures v'.names == v.names && Filled(v'.names, Keep(v.placed, targets.Keys), picks, v'.placed)
  {
    SameKeysSameSize(v'.placed, targets);
  }

  lemma FilledSpread(kept: Assignment, picks: seq<string>, v': View, top: string, bound: int)
    requires Filled(v'.names, kept, picks, v'.placed) && 1 <= bound && Fullest(LoadsOf(v'.names, kept), top)
    ensures top in v'.names && SpreadIffLifted(kept, |picks|, v', top, bound)
  {
    SpreadAfterFill(LoadsOf(v'.names, kept), picks, top, bound);
  }

  /** So does a collector update that adds no collector. */
  lemma DroppingCollectorsKeepsSpread(v: View, names: set<string>, picks: seq<string>, v': View, bound: int)
    requires CollectorsStep(v, names, picks, v') && names <= v.names
    requires 1 <= bound && Spread(v, bound)
    ensures Spread(v', bound)
  {
    if names != {} {
      LoadsOnNamed(v.placed, names);
      var l, base := LoadsOf(v.names, v.placed), LoadsOf(names, OnNamed(v.placed, names));
      forall c, d | c in base && d in base ensures base[c] <= base[d] + bound {
        assert l[c] <= l[d] + bound;
      }
      FillKeepsSpread(base, picks, bound);
    }
  }

  lemma LoadsOnNamed(a: Assignment, names: set<string>)
    ensures LoadsOf(names, OnNamed(a, names)) == LoadsOf(names, a)
  {
    forall c | c in names ensures Held(OnNamed(a, names), c) == Held(a, c) {}
  }

  /**
   For a collector update it is the number of targets it has to move that decides, and the collectors to lift include
   the new empty ones.
   */
  lemma CollectorsSpread(v: View, names: set<string>, picks: seq<string>, v': View, top: string, bound: int)
    requires names != {} && CollectorsStep(v, names, picks, v') && 1 <= bound
    requires Fullest(LoadsOf(names, OnNamed(v.placed, names)), top)
    ensures top in v'.names
    ensures SpreadIffLifted(OnNamed(v.placed, names), |v.placed| - |OnNamed(v.placed, names)|, v', top, bound)
  {
    PicksAreTheMoved(v, names, picks, v');
    FilledSpread(OnNamed(v.placed, names), picks, v', top, bound);
  }

  lemma PicksAreTheMoved(v: View, names: set<string>, picks: seq<string>, v': View)
    requires names != {} && CollectorsStep(v, names, picks, v')
    ensures |picks| == |v.placed| - |OnNamed(v.placed, names)|
    ensures v'.names == names && Filled(names, OnNamed(v.placed, names), picks, v'.placed)
  {
    SameKeysSameSize(v.placed, v'.placed);
  }

  lemma SameKeysSameSize<T, U>(a: map<string, T>, b: map<string, U>)
    requires a.Keys == b.Keys
    ensures |a| == |b|
  {
    assert |a.Keys| == |b.Keys|;
  }

  /** So the update can widen the spread: nothing moves when a second collector joins one that holds everything. */
  lemma JoiningCollectorWidensSpread(v: View, c: string, d: string)
    requires v.names == {c} && d != c && LiveView(v) && |v.placed| >= 2
    ensures var v' := View({c, d}, v.placed);
            CollectorsStep(v, {c, d}, [], v') && Spread(v, 1) && !Spread(v', 1)
  {
    assert OnNamed(v.placed, {c, d}) == v.placed;
    assert Held(v.placed, c) == v.placed.Keys;
    assert Held(v.placed, d) == {};
    var l := LoadsOf({c, d}, v.placed);
    assert l[c] == |v.placed.Keys| && l[d] == 0;
  }

  /** From nothing, collectors and then targets: every collector gets the floor or the ceiling of the average. */
  lemma FreshAllocationIsBalanced(names: set<string>, targets: map<string, string>,
                                  p1: seq<string>, v1: View, p2: seq<string>, v2: View, c: string)
    requires CollectorsStep(View({}, map[]), names, p1, v1) && TargetsStep(v1, targets, p2, v2)
    requires c in names
    ensures var q, r := |targets| / |names|, |targets| % |names|;
            Load(v2, c) == q || (r != 0 && Load(v2, c) == q + 1)
  {
    assert v1.placed == map[];
    assert Keep(v1.placed, targets.Keys) == map[];
    assert Spread(v2, 1) by { SpreadFromNothing(names, p2); }
    SameKeysSameSize(v2.placed, targets);
    LevelLoadsAreBalanced(v2, c);
  }

  lemma LevelLoadsAreBalanced(v: View, c: string)
    requires LiveView(v) && Spread(v, 1) && c in v.names
    ensures var q, r := |v.placed| / |v.names|, |v.placed| % |v.names|;
            Load(v, c) == q || (r != 0 && Load(v, c) == q + 1)
  {
    var l := LoadsOf(v.names, v.placed);
    LoadsSumToTargets(v.names, v.placed);
    assert |l.Keys| == |v.names| by { assert l.Keys == v.names; }
    LevelIsFloorOrCeiling(l, c);
  }

  lemma SpreadFromNothing(names: set<string>, picks: seq<string>)
    requires Greedy(LoadsOf(names, map[]), picks)
    ensures SpreadAtMost(Fill(LoadsOf(names, map[]), picks), 1)
  {
    forall d | d in names ensures |Held(map[], d)| == 0 { assert Held(map[], d) == {}; }
    FillKeepsSpread(LoadsOf(names, map[]), picks, 1);
  }

  // ------------------------------------------------------------------ whole runs

  ghost predicate Step(v: View, call: Call, picks: seq<string>, v': View) {
    match call
    case SetTargets(targets, _) => TargetsStep(v, targets, picks, v')
    case SetCollectors(names) => CollectorsStep(v, names, picks, v')
  }

  /** A run lists its calls, the collectors each call picked in order, and the views before and after them. */
  ghost predicate Run(calls: seq<Call>, picks: seq<seq<string>>, views: seq<View>) {
    && |views| == |calls| + 1 && |picks| == |calls|
    && views[0] == View({}, map[])
    && forall i :: 0 <= i < |calls| ==> Step(views[i], calls[i], picks[i], views[i + 1])
  }

  /**
   After every run: the collectors are those of the last nonempty collector update, so they are never lost; the
   targets are those of the last target update made once a collector was known; every target names a collector; and
   the loads add up to the number of targets.
   */
  lemma {:induction false} EveryRun(calls: seq<Call>, picks: seq<seq<string>>, views: seq<View>)
    requires Run(calls, picks, views)
    ensures var v := views[|calls|];
            && v.names == LatestNames(calls)
            && v.placed.Keys == LatestTargets(calls)
            && LiveView(v)
            && Sum(LoadsOf(v.names, v.placed)) == |v.placed|
    decreases |calls|
  {
    var n := |calls| - 1;
    if n >= 0 {
      assert Step(views[n], calls[n], picks[n], views[n + 1]);
      assert LatestNames(calls[..n]) == views[n].names
             && LatestTargets(calls[..n]) == views[n].placed.Keys && LiveView(views[n]) by {
        EveryRun(calls[..n], picks[..n], views[..n + 1]);
      }
      StepEffect(views[n], calls[n], picks[n], views[n + 1]);
    }
    LoadsSumToTargets(views[|calls|].names, views[|calls|].placed);
  }

  lemma StepEffect(v: View, call: Call, picks: seq<string>, v': View)
    requires Step(v, call, picks, v') && LiveView(v)
    ensures LiveView(v')
    ensures v'.names == if call.SetCollectors? && call.names != {} then call.names else v.names
    ensures v'.placed.Keys == if call.SetTargets? && v.names != {} then call.targets.Keys else v.placed.Keys
  {
  }

  /** A target held before and after keeps its collector, unless that collector was dropped. */
  lemma TargetsStayPut(v: View, call: Call, picks: seq<string>, v': View, h: string)
    requires Step(v, call, picks, v') && h in v.placed && h in v'.placed && v.placed[h].collector in v'.names
    ensures v'.placed[h] == v.placed[h]
  {
    match call
    case SetTargets(targets, _) =>
      if v.names != {} {
        assert h in Keep(v.placed, targets.Keys);
      }
    case SetCollectors(names) =>
      if names != {} { assert h in OnNamed(v.placed, names); }
  }
}
