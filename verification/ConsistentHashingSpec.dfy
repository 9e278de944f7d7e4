/** What a consistent-hashing allocator must hold, as a function of what it was last told. */
module ConsistentHashingSpec {
  import opened Placements
  import opened AllocatorCalls

  /** The ring: which of the member collectors owns a key. It depends on the members, not on how they were added. */
  type Ring = (set<string>, string) -> string

  ghost predicate Locates(locate: Ring) {
    forall members, key :: members != {} ==> locate(members, key) in members
  }

  ghost predicate OwnedBy(locate: Ring, names: set<string>, a: Assignment, h: string) {
    h in a ==> a[h].collector == locate(names, h)
  }

  ghost predicate Located(locate: Ring, names: set<string>, a: Assignment) {
    forall h :: OwnedBy(locate, names, a, h)
  }

  ghost predicate OwnedBut(locate: Ring, names: set<string>, a: Assignment, todo: set<string>, h: string) {
    h in a && h !in todo ==> a[h].collector == locate(names, h)
  }

  /** Every target outside `todo` is on its owner. */
  ghost predicate LocatedBut(locate: Ring, names: set<string>, a: Assignment, todo: set<string>) {
    forall h :: OwnedBut(locate, names, a, todo, h)
  }

  lemma LocatedButAfter(locate: Ring, names: set<string>, a: Assignment, todo: set<string>, h: string, job: string)
    requires LocatedBut(locate, names, a, todo)
    ensures LocatedBut(locate, names, a[h := Placed(job, locate(names, h))], todo - {h})
  {
    var a', todo' := a[h := Placed(job, locate(names, h))], todo - {h};
    forall h' ensures OwnedBut(locate, names, a', todo', h') { assert OwnedBut(locate, names, a, todo, h'); }
  }

  lemma LocatedAfter(locate: Ring, names: set<string>, a: Assignment, h: string, job: string)
    requires Located(locate, names, a)
    ensures Located(locate, names, a[h := Placed(job, locate(names, h))])
  {
    var a' := a[h := Placed(job, locate(names, h))];
    forall h' ensures OwnedBy(locate, names, a', h') { assert OwnedBy(locate, names, a, h'); }
  }

  /** What the allocator remembers besides its counters: collector names and the job of each target. */
  datatype Memory = Memory(names: set<string>, jobs: map<string, string>)

  ghost function Allocation(locate: Ring, m: Memory): Assignment {
    map h | h in m.jobs :: Placed(m.jobs[h], locate(m.names, h))
  }

  function Merge(jobs: map<string, string>, targets: map<string, string>): map<string, string> {
    map h | h in targets :: if h in jobs then jobs[h] else targets[h]
  }

  function Step(m: Memory, call: Call): Memory {
    match call
    case SetTargets(targets, _) => if m.names == {} then m else m.(jobs := Merge(m.jobs, targets))
    case SetCollectors(names) => if names == {} then m else m.(names := names)
  }

  ghost function Run(calls: seq<Call>): Memory {
    if calls == [] then Memory({}, map[]) else Step(Run(calls[..|calls| - 1]), calls[|calls| - 1])
  }

  lemma {:induction false} NoCollectorNoTarget(calls: seq<Call>)
    ensures Run(calls).names == {} ==> Run(calls).jobs == map[]
    decreases |calls|
  {
    if calls == [] {
    } else {
      NoCollectorNoTarget(calls[..|calls| - 1]);
    }
  }

  lemma RunTwice(calls: seq<Call>, first: Call, second: Call)
    ensures Run(calls + [first, second]) == Step(Step(Run(calls), first), second)
  {
    var both := calls + [first, second];
    assert both[..|both| - 1] == calls + [first];
    assert (calls + [first])[..|calls|] == calls;
  }

  /** After any run, the collectors and the targets are those of the last calls that took effect. */
  lemma {:induction false} EveryRun(calls: seq<Call>)
    ensures Run(calls).names == LatestNames(calls)
    ensures Run(calls).jobs.Keys == LatestTargets(calls)
    decreases |calls|
  {
    if calls == [] {
    } else {
      EveryRun(calls[..|calls| - 1]);
    }
  }

  /** Whatever the histories, the same last collectors and the same last targets put every target on the same one. */
  lemma HistoryDoesNotMatter(locate: Ring, calls: seq<Call>, calls': seq<Call>, h: string)
    requires LatestNames(calls) == LatestNames(calls') && LatestTargets(calls) == LatestTargets(calls')
    ensures var a, b := Allocation(locate, Run(calls)), Allocation(locate, Run(calls'));
            a.Keys == b.Keys && (h in a ==> a[h].collector == b[h].collector)
  {
    EveryRun(calls);
    EveryRun(calls');
  }

  // ------------------------------------------------------------------ which call gave a hash its job

  ghost predicate HeldAfter(calls: seq<Call>, j: nat, h: string)
    requires j <= |calls|
  {
    h in LatestTargets(calls[..j])
  }

  /** Call `i` brought the target, which was not held before and is held ever since. */
  ghost predicate ArrivedAt(calls: seq<Call>, i: nat, h: string) {
    && i < |calls| && calls[i].SetTargets? && h in calls[i].targets && LatestNames(calls[..i]) != {}
    && !HeldAfter(calls, i, h)
    && (forall j :: i < j <= |calls| ==> HeldAfter(calls, j, h))
  }

  lemma ArrivedOnce(calls: seq<Call>, i: nat, i': nat, h: string)
    requires ArrivedAt(calls, i, h) && ArrivedAt(calls, i', h)
    ensures i == i'
  {
  }

  lemma HeldInLonger(calls: seq<Call>, n: nat, j: nat, h: string)
    requires j <= n <= |calls|
    ensures HeldAfter(calls, j, h) == HeldAfter(calls[..n], j, h) && calls[..n][..j] == calls[..j]
  {
    assert calls[..n][..j] == calls[..j];
  }

  lemma StillArrived(calls: seq<Call>, i: nat, h: string)
    requires calls != [] && ArrivedAt(calls[..|calls| - 1], i, h) && HeldAfter(calls, |calls|, h)
    ensures ArrivedAt(calls, i, h)
  {
    var n := |calls| - 1;
    HeldInLonger(calls, n, i, h);
    forall j | i < j <= n ensures HeldAfter(calls, j, h) { HeldInLonger(calls, n, j, h); }
  }

  lemma JustArrived(calls: seq<Call>, h: string)
    requires calls != [] && h in LatestTargets(calls) && h !in LatestTargets(calls[..|calls| - 1])
    ensures ArrivedAt(calls, |calls| - 1, h)
  {
    assert calls[..|calls|] == calls;
  }

  /** A held target has the job that came with it when it last arrived; what came later is ignored. */
  lemma {:induction false} JobOfArrival(calls: seq<Call>, h: string) returns (i: nat)
    requires h in LatestTargets(calls)
    ensures ArrivedAt(calls, i, h) && h in Run(calls).jobs && Run(calls).jobs[h] == calls[i].targets[h]
    decreases |calls|
  {
    var n := |calls| - 1;
    EveryRun(calls);
    EveryRun(calls[..n]);
    assert calls[..|calls|] == calls;
    if h in LatestTargets(calls[..n]) {
      i := JobOfArrival(calls[..n], h);
      StillArrived(calls, i, h);
    } else {
      JustArrived(calls, h);
      i := n;
    }
  }

  ghost predicate SameJobAt(calls: seq<Call>, i: nat, calls': seq<Call>, i': nat, h: string) {
    ArrivedAt(calls, i, h) && ArrivedAt(calls', i', h) ==> calls[i].targets[h] == calls'[i'].targets[h]
  }

  /** Every hash last arrived with the same job in both histories. */
  ghost predicate ArrivedAlike(calls: seq<Call>, calls': seq<Call>) {
    forall i, i', h :: SameJobAt(calls, i, calls', i', h)
  }

  /** Two histories with the same last collectors and targets leave the same memory iff every hash arrived alike. */
  lemma SameMemoryIffArrivedAlike(calls: seq<Call>, calls': seq<Call>)
    requires LatestNames(calls) == LatestNames(calls') && LatestTargets(calls) == LatestTargets(calls')
    ensures Run(calls) == Run(calls') <==> ArrivedAlike(calls, calls')
  {
    EveryRun(calls);
    EveryRun(calls');
    var a, b := Run(calls).jobs, Run(calls').jobs;
    forall h | h in a ensures a[h] == b[h] <==> forall i, i' :: SameJobAt(calls, i, calls', i', h) {
      JobsAgreeIff(calls, calls', h);
    }
    forall h, i, i' | h !in a ensures SameJobAt(calls, i, calls', i', h) {
      if ArrivedAt(calls, i, h) { HeldAtEnd(calls, i, h); }
    }
    if Run(calls) == Run(calls') {
      forall i, i', h ensures SameJobAt(calls, i, calls', i', h) {
        assert h in a ==> a[h] == b[h];
      }
    } else {
      var h :| h in a && a[h] != b[h];
      assert !(forall i, i' :: SameJobAt(calls, i, calls', i', h));
    }
  }

  lemma HeldAtEnd(calls: seq<Call>, i: nat, h: string)
    requires ArrivedAt(calls, i, h)
    ensures h in LatestTargets(calls)
  {
    assert HeldAfter(calls, |calls|, h) && calls[..|calls|] == calls;
  }

  lemma JobsAgreeIff(calls: seq<Call>, calls': seq<Call>, h: string)
    requires h in LatestTargets(calls) && h in LatestTargets(calls')
    ensures h in Run(calls).jobs && h in Run(calls').jobs
    ensures Run(calls).jobs[h] == Run(calls').jobs[h] <==> forall i, i' :: SameJobAt(calls, i, calls', i', h)
  {
    var k := JobOfArrival(calls, h);
    var k' := JobOfArrival(calls', h);
    forall i, i' ensures SameJobAt(calls, i, calls', i', h) <==>
                         (ArrivedAt(calls, i, h) && ArrivedAt(calls', i', h) ==>
                          Run(calls).jobs[h] == Run(calls').jobs[h])
    {
      if ArrivedAt(calls, i, h) && ArrivedAt(calls', i', h) {
        ArrivedOnce(calls, i, k, h);
        ArrivedOnce(calls', i', k', h);
      }
    }
    assert SameJobAt(calls, k, calls', k', h) <==> Run(calls).jobs[h] == Run(calls').jobs[h];
  }

  /** No call gives a hash another job than `jobOf` does. */
  ghost predicate HashGivesJob(calls: seq<Call>, jobOf: string -> string) {
    forall i :: 0 <= i < |calls| && calls[i].SetTargets? ==> AllJobs(calls[i].targets, jobOf)
  }

  ghost predicate AllJobs(jobs: map<string, string>, jobOf: string -> string) {
    forall h :: h in jobs ==> jobs[h] == jobOf(h)
  }

  /** In particular, if a hash never stands for two jobs, the two histories leave the very same memory. */
  lemma JobsDoNotDependOnHistory(calls: seq<Call>, calls': seq<Call>, jobOf: string -> string)
    requires HashGivesJob(calls, jobOf) && HashGivesJob(calls', jobOf)
    requires LatestNames(calls) == LatestNames(calls') && LatestTargets(calls) == LatestTargets(calls')
    ensures Run(calls) == Run(calls')
  {
    forall i: nat, i': nat, h: string ensures SameJobAt(calls, i, calls', i', h) {
      if ArrivedAt(calls, i, h) && ArrivedAt(calls', i', h) {
        ArrivedWithItsJob(calls, i, h, jobOf);
        ArrivedWithItsJob(calls', i', h, jobOf);
      }
    }
    SameMemoryIffArrivedAlike(calls, calls');
  }

  lemma ArrivedWithItsJob(calls: seq<Call>, i: nat, h: string, jobOf: string -> string)
    requires HashGivesJob(calls, jobOf) && ArrivedAt(calls, i, h)
    ensures calls[i].targets[h] == jobOf(h)
  {
    assert AllJobs(calls[i].targets, jobOf);
  }

  // ------------------------------------------------------------------ what names and hashes determine

  /** Settled books that follow the ring of `names`. */
  ghost predicate OnRing(locate: Ring, names: set<string>, b: Books) {
    Settled(b) && Located(locate, names, b.placed) && b.loads.Keys == names
  }

  /** Names and hashes alone determine who holds what, and every count. */
  lemma HashesDetermineCounts(locate: Ring, names: set<string>, a: Books, b: Books)
    requires OnRing(locate, names, a) && OnRing(locate, names, b) && a.placed.Keys == b.placed.Keys
    ensures forall c :: Held(a.placed, c) == Held(b.placed, c)
    ensures a.loads == b.loads
  {
    forall c ensures Held(a.placed, c) == Held(b.placed, c) {
      forall h ensures h in Held(a.placed, c) <==> h in Held(b.placed, c) {
        assert OwnedBy(locate, names, a.placed, h) && OwnedBy(locate, names, b.placed, h);
      }
    }
    forall c | c in names ensures a.loads[c] == b.loads[c] {
      assert Counted(a.loads, a.placed, c) && Counted(b.loads, b.placed, c);
    }
  }

  /** The answers of the index agree as well, exactly when the jobs do. */
  lemma AnswersAgreeIffJobsDo(locate: Ring, names: set<string>, a: Books, b: Books)
    requires OnRing(locate, names, a) && OnRing(locate, names, b) && a.placed.Keys == b.placed.Keys
    ensures (forall c, j :: Answer(a.index, c, j) == Answer(b.index, c, j)) <==> a.placed == b.placed
  {
    if a.placed == b.placed {
      SettledIsDetermined(a, b);
    } else {
      var h :| h in a.placed && a.placed[h] != b.placed[h];
      var p := a.placed[h];
      assert OwnedBy(locate, names, a.placed, h) && OwnedBy(locate, names, b.placed, h);
      assert Homed(a, h) && Filing(a, p.collector, p.job, h) && Filing(b, p.collector, p.job, h);
      assert Answer(a.index, p.collector, p.job) != Answer(b.index, p.collector, p.job);
    }
  }

  ghost predicate JobsAre(a: Assignment, jobs: map<string, string>) {
    a.Keys == jobs.Keys && forall h :: h in a ==> a[h].job == jobs[h]
  }

  /** The memory determines the books: the allocation, its counts and its answers. */
  lemma MemoryDeterminesBooks(locate: Ring, m: Memory, a: Books, b: Books)
    requires OnRing(locate, m.names, a) && JobsAre(a.placed, m.jobs)
    requires OnRing(locate, m.names, b) && JobsAre(b.placed, m.jobs)
    ensures a.placed == b.placed == Allocation(locate, m)
    ensures a.loads == b.loads
    ensures forall c, j :: Answer(a.index, c, j) == Answer(b.index, c, j)
  {
    BooksFollowMemory(locate, m, a);
    BooksFollowMemory(locate, m, b);
    SettledIsDetermined(a, b);
  }

  lemma BooksFollowMemory(locate: Ring, m: Memory, b: Books)
    requires Located(locate, m.names, b.placed) && JobsAre(b.placed, m.jobs)
    ensures b.placed == Allocation(locate, m)
  {
    forall h | h in b.placed ensures b.placed[h] == Allocation(locate, m)[h] {
      assert OwnedBy(locate, m.names, b.placed, h);
    }
  }

  /**
   After two runs with the same last collectors and targets, every query is answered alike iff every hash last arrived
   with the same job in both.
   */
  lemma AnswersAgreeIffArrivedAlike(locate: Ring, calls: seq<Call>, calls': seq<Call>, a: Books, b: Books)
    requires LatestNames(calls) == LatestNames(calls') && LatestTargets(calls) == LatestTargets(calls')
    requires OnRing(locate, Run(calls).names, a) && JobsAre(a.placed, Run(calls).jobs)
    requires OnRing(locate, Run(calls').names, b) && JobsAre(b.placed, Run(calls').jobs)
    ensures (forall c, j :: Answer(a.index, c, j) == Answer(b.index, c, j)) <==> ArrivedAlike(calls, calls')
  {
    EveryRun(calls);
    EveryRun(calls');
    SameMemoryIffArrivedAlike(calls, calls');
    AnswersAgreeIffJobsDo(locate, Run(calls).names, a, b);
    BooksFollowMemory(locate, Run(calls), a);
    BooksFollowMemory(locate, Run(calls'), b);
    if a.placed == b.placed {
      SameJobs(a.placed, Run(calls).jobs, Run(calls').jobs);
    }
  }

  lemma SameJobs(a: Assignment, jobs: map<string, string>, jobs': map<string, string>)
    requires JobsAre(a, jobs) && JobsAre(a, jobs')
    ensures jobs == jobs'
  {
    forall h | h in jobs ensures jobs[h] == jobs'[h] { assert h in a; }
  }

  // ------------------------------------------------------------------ one re-assignment

  /** Takes the target off the collector its item named, if that one is live, and places it on its owner. */
  function Reassign(b: Books, h: string, job: string, prev: string, c: string): Books
    requires c in b.loads
  {
    Attach(if prev in b.loads then Detach(b, h, job, prev) else b, h, job, c)
  }

  /** For a target already held, the books stay afloat whether or not its collector is still live. */
  lemma ReassignKeeps(b: Books, h: string, c: string)
    requires Afloat(b) && h in b.placed && c in b.loads
    ensures Afloat(Reassign(b, h, b.placed[h].job, b.placed[h].collector, c))
  {
    if b.placed[h].collector in b.loads {
      MoveKeeps(b, h, c);
    } else {
      AttachKeeps(b, h, b.placed[h].job, c);
    }
  }

  // ------------------------------------------------------------------ new targets that already name a collector

  /** The new targets whose item named the collector `c` on arrival. */
  ghost function Owed(new': map<string, string>, c: string): set<string> {
    set h | h in new' && new'[h] == c
  }

  /** A counter is lowered for every new target that arrives naming its collector, which never counted that target. */
  ghost function Charged(debts: Debts, new': map<string, string>): Debts {
    map c | c in debts :: debts[c] + |Owed(new', c)|
  }

  lemma ChargedNothing(debts: Debts)
    ensures Charged(debts, map[]) == debts
  {
    forall c ensures Owed(map[], c) == {} {}
  }

  lemma OwedOneMore(new': map<string, string>, h: string, prev: string, c: string)
    requires h !in new'
    ensures |Owed(new'[h := prev], c)| == |Owed(new', c)| + if prev == c then 1 else 0
  {
    assert Owed(new'[h := prev], c) == if prev == c then Owed(new', c) + {h} else Owed(new', c);
  }

  ghost function ChargedOnce(debts: Debts, c: string): Debts {
    if c in debts then debts[c := debts[c] + 1] else debts
  }

  lemma ChargedOneMore(debts: Debts, new': map<string, string>, h: string, prev: string)
    requires h !in new'
    ensures Charged(debts, new'[h := prev]) == ChargedOnce(Charged(debts, new'), prev)
  {
    forall c | c in debts ensures |Owed(new'[h := prev], c)| == |Owed(new', c)| + if prev == c then 1 else 0 {
      OwedOneMore(new', h, prev, c);
    }
  }

  /** Counters are exact after an update iff they were before and no new target names a live collector. */
  lemma NoDebtsIffUnclaimed(debts: Debts, new': map<string, string>)
    ensures NoDebts(Charged(debts, new')) <==> NoDebts(debts) && forall h :: h in new' ==> new'[h] !in debts
  {
    var d := Charged(debts, new');
    forall h | h in new' && new'[h] in debts ensures d[new'[h]] > 0 {
      assert h in Owed(new', new'[h]);
    }
    forall c | c in debts && d[c] > 0 && debts[c] == 0 ensures exists h :: h in new' && new'[h] == c {
      var h :| h in Owed(new', c);
    }
    assert forall c :: c in debts ==> d[c] >= debts[c];
  }

  // ------------------------------------------------------------------ debts over a run

  ghost function DebtStep(debts: Debts, m: Memory, call: Call): Debts {
    match call
    case SetTargets(_, named) => if m.names == {} then debts else Charged(debts, named - m.jobs.Keys)
    case SetCollectors(names) => if names == {} then debts else Carried(debts, names)
  }

  ghost function DebtRun(calls: seq<Call>): Debts {
    if calls == [] then map[]
    else
      var before := calls[..|calls| - 1];
      DebtStep(DebtRun(before), Run(before), calls[|calls| - 1])
  }

  lemma {:induction false} DebtorsAreCollectors(calls: seq<Call>)
    ensures DebtRun(calls).Keys == Run(calls).names
    decreases |calls|
  {
    if calls == [] {
    } else {
      DebtorsAreCollectors(calls[..|calls| - 1]);
    }
  }

  /** In call `i` a target that was not held arrived naming the collector, which was known. */
  ghost predicate ClaimedAt(calls: seq<Call>, i: nat, c: string)
    requires i < |calls|
  {
    var m := Run(calls[..i]);
    calls[i].SetTargets? && c in m.names && Owed(calls[i].named - m.jobs.Keys, c) != {}
  }

  ghost predicate KnownAt(calls: seq<Call>, j: nat, c: string)
    requires j <= |calls|
  {
    c in Run(calls[..j]).names
  }

  ghost predicate KnownSince(calls: seq<Call>, i: nat, c: string) {
    forall j :: i < j <= |calls| ==> KnownAt(calls, j, c)
  }

  ghost predicate EverClaimed(calls: seq<Call>, c: string) {
    exists i :: 0 <= i < |calls| && ClaimedAt(calls, i, c) && KnownSince(calls, i, c)
  }

  lemma InLonger(calls: seq<Call>, n: nat, j: nat, c: string)
    requires j <= n <= |calls|
    ensures KnownAt(calls, j, c) == KnownAt(calls[..n], j, c)
    ensures j < n ==> ClaimedAt(calls, j, c) == ClaimedAt(calls[..n], j, c)
  {
    assert calls[..n][..j] == calls[..j];
  }

  lemma KnownSinceOneMore(calls: seq<Call>, i: nat, c: string)
    requires calls != [] && i < |calls| - 1 && KnownAt(calls, |calls|, c)
    ensures KnownSince(calls, i, c) <==> KnownSince(calls[..|calls| - 1], i, c)
  {
    var n := |calls| - 1;
    forall j | i < j <= n ensures KnownAt(calls, j, c) == KnownAt(calls[..n], j, c) { InLonger(calls, n, j, c); }
  }

  lemma ClaimSurvives(calls: seq<Call>, i: nat, c: string)
    requires calls != [] && i < |calls| - 1 && KnownAt(calls, |calls|, c)
    ensures ClaimedAt(calls, i, c) && KnownSince(calls, i, c) <==>
            ClaimedAt(calls[..|calls| - 1], i, c) && KnownSince(calls[..|calls| - 1], i, c)
  {
    InLonger(calls, |calls| - 1, i, c);
    KnownSinceOneMore(calls, i, c);
  }

  lemma EverClaimedOneMore(calls: seq<Call>, c: string)
    requires calls != [] && KnownAt(calls, |calls|, c)
    ensures EverClaimed(calls, c) <==> ClaimedAt(calls, |calls| - 1, c) || EverClaimed(calls[..|calls| - 1], c)
    ensures EverClaimed(calls[..|calls| - 1], c) ==> KnownAt(calls, |calls| - 1, c)
  {
    var n := |calls| - 1;
    var before := calls[..n];
    forall i | 0 <= i < n
      ensures ClaimedAt(calls, i, c) && KnownSince(calls, i, c) <==> ClaimedAt(before, i, c) && KnownSince(before, i, c)
    {
      ClaimSurvives(calls, i, c);
    }
    assert KnownSince(calls, n, c);
    if EverClaimed(before, c) {
      var i :| 0 <= i < |before| && ClaimedAt(before, i, c) && KnownSince(before, i, c);
      assert KnownAt(before, n, c);
      InLonger(calls, n, n, c);
    }
  }

  /**
   After any run the counter of a collector is behind exactly if, since the collector last joined, some target arrived
   naming it that was not held at the time. Nothing but leaving ever mends it.
   */
  lemma {:induction false} BehindIffClaimed(calls: seq<Call>, c: string)
    requires c in Run(calls).names
    ensures c in DebtRun(calls) && (DebtRun(calls)[c] > 0 <==> EverClaimed(calls, c))
    decreases |calls|
  {
    DebtorsAreCollectors(calls);
    assert calls[..|calls|] == calls;
    if calls == [] {
    } else {
      var n := |calls| - 1;
      DebtorsAreCollectors(calls[..n]);
      assert KnownAt(calls, |calls|, c);
      EverClaimedOneMore(calls, c);
      if c in Run(calls[..n]).names { BehindIffClaimed(calls[..n], c); }
    }
  }

  // ------------------------------------------------------------------ two calls in either order

  lemma DebtTwice(calls: seq<Call>, first: Call, second: Call)
    ensures DebtRun(calls + [first, second]) ==
            DebtStep(DebtStep(DebtRun(calls), Run(calls), first), Step(Run(calls), first), second)
  {
    var once, both := calls + [first], calls + [first, second];
    assert both[..|both| - 1] == once && once[..|calls|] == calls;
    assert DebtRun(once) == DebtStep(DebtRun(calls), Run(calls), first);
    assert Run(once) == Step(Run(calls), first);
  }

  /** A new target names a collector that is about to join. */
  ghost predicate ClaimsJoiner(m: Memory, named: map<string, string>, names: set<string>) {
    exists h :: h in named && h !in m.jobs && named[h] in names - m.names
  }

  lemma ChargedCarried(debts: Debts, new': map<string, string>, names: set<string>)
    ensures Carried(Charged(debts, new'), names) == Charged(Carried(debts, names), new') <==>
            forall c :: c in names && c !in debts ==> Owed(new', c) == {}
  {
    var a, b := Carried(Charged(debts, new'), names), Charged(Carried(debts, names), new');
    forall c | c in names ensures a[c] == b[c] <==> c in debts || Owed(new', c) == {} {}
    assert a.Keys == b.Keys == names;
    if !(forall c :: c in names && c !in debts ==> Owed(new', c) == {}) {
      var c :| c in names && c !in debts && Owed(new', c) != {};
      assert a[c] != b[c];
    }
  }

  lemma OwedIffClaimed(m: Memory, named: map<string, string>, names: set<string>)
    ensures ClaimsJoiner(m, named, names) <==>
            exists c :: c in names && c !in m.names && Owed(named - m.jobs.Keys, c) != {}
  {
    var new' := named - m.jobs.Keys;
    if ClaimsJoiner(m, named, names) {
      var h :| h in named && h !in m.jobs && named[h] in names - m.names;
      assert h in Owed(new', named[h]);
    }
    if c :| c in names && c !in m.names && Owed(new', c) != {} {
      var h :| h in Owed(new', c);
      assert h in named && named[h] in names - m.names;
    }
  }

  lemma DebtsCommute(calls: seq<Call>, targets: map<string, string>, named: map<string, string>, names: set<string>)
    requires names != {}
    ensures DebtRun(calls + [SetTargets(targets, named), SetCollectors(names)])
            == DebtRun(calls + [SetCollectors(names), SetTargets(targets, named)])
            <==> !ClaimsJoiner(Run(calls), named, names)
  {
    var m, debts := Run(calls), DebtRun(calls);
    var new' := named - m.jobs.Keys;
    DebtTwice(calls, SetTargets(targets, named), SetCollectors(names));
    DebtTwice(calls, SetCollectors(names), SetTargets(targets, named));
    DebtorsAreCollectors(calls);
    ChargedCarried(debts, new', names);
    OwedIffClaimed(m, named, names);
    if m.names == {} { assert Charged(debts, new') == debts; }
  }

  lemma MemoryCommutes(calls: seq<Call>, targets: map<string, string>, named: map<string, string>, names: set<string>)
    requires names != {}
    ensures Run(calls + [SetTargets(targets, named), SetCollectors(names)])
            == Run(calls + [SetCollectors(names), SetTargets(targets, named)])
            <==> Run(calls).names != {} || targets == map[]
  {
    RunTwice(calls, SetTargets(targets, named), SetCollectors(names));
    RunTwice(calls, SetCollectors(names), SetTargets(targets, named));
    NoCollectorNoTarget(calls);
    assert Merge(map[], targets).Keys == targets.Keys;
  }

  /**
   A target update and a nonempty collector update commute, counters included, exactly when a collector is already
   known or there are no targets to lose, and no new target names a collector that joins: before the first collector a
   target update is dropped, and a collector that has joined is charged for a target that names it.
   */
  lemma UpdatesCommute(calls: seq<Call>, targets: map<string, string>, named: map<string, string>, names: set<string>)
    requires names != {}
    ensures var a := calls + [SetTargets(targets, named), SetCollectors(names)];
            var b := calls + [SetCollectors(names), SetTargets(targets, named)];
            && (Run(a) == Run(b) <==> Run(calls).names != {} || targets == map[])
            && (DebtRun(a) == DebtRun(b) <==> !ClaimsJoiner(Run(calls), named, names))
  {
    MemoryCommutes(calls, targets, named, names);
    DebtsCommute(calls, targets, named, names);
  }

  /** For example: `d` ends exact if it joins after the target that names it, and one behind if it joins before. */
  lemma JoinerIsCharged()
    ensures var calls, update := [SetCollectors({"c"})], SetTargets(map["h" := "j"], map["h" := "d"]);
            var join := SetCollectors({"c", "d"});
            && Run(calls + [update, join]) == Run(calls + [join, update])
            && DebtRun(calls + [update, join]) != DebtRun(calls + [join, update])
  {
    var calls := [SetCollectors({"c"})];
    assert calls[..0] == [];
    assert Run(calls) == Step(Run([]), calls[0]);
    assert Run(calls) == Memory({"c"}, map[]);
    assert "c" in Run(calls).names;
    var named := map["h" := "d"];
    assert "h" in named && "h" !in Run(calls).jobs && named["h"] in {"c", "d"} - Run(calls).names;
    UpdatesCommute(calls, map["h" := "j"], named, {"c", "d"});
  }
}
