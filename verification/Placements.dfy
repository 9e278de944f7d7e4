/**
 The value both target allocators keep in three overlapping structures: a running count per collector, the
 targets with the collector each one names, and a nested index collector -> job -> target hashes.
 */
module Placements {
  import opened Leveling

  datatype Placed = Placed(job: string, collector: string)

  type Assignment = map<string, Placed>              // target hash -> placement
  type Index = map<string, map<string, set<string>>> // collector -> job -> hashes

  datatype Books = Books(loads: Loads, placed: Assignment, index: Index)

  /** The targets that name a collector, found by scanning every target. */
  ghost function Held(a: Assignment, c: string): set<string> {
    set h | h in a && a[h].collector == c
  }

  /** What the index answers for a collector and a job; a missing entry answers the empty set. */
  function Answer(idx: Index, c: string, j: string): set<string> {
    if c in idx && j in idx[c] then idx[c][j] else {}
  }

  function Filed(idx: Index, c: string, j: string, h: string): Index {
    var jobs := if c in idx then idx[c] else map[];
    var hashes := if j in jobs then jobs[j] else {};
    idx[c := jobs[j := hashes + {h}]]
  }

  function Unfiled(idx: Index, c: string, j: string, h: string): Index {
    if c in idx && j in idx[c] then idx[c := idx[c][j := idx[c][j] - {h}]] else idx
  }

  // Each invariant quantifies over a predicate of its own, so that it is used only where a proof names that predicate.

  ghost predicate Homed(b: Books, h: string) {
    h in b.placed ==> b.placed[h].collector in b.loads
  }

  ghost predicate Live(b: Books) {
    forall h :: Homed(b, h)
  }

  ghost predicate Counted(loads: Loads, a: Assignment, c: string) {
    c in loads ==> loads[c] == |Held(a, c)|
  }

  ghost predicate Exact(loads: Loads, a: Assignment) {
    forall c :: Counted(loads, a, c)
  }

  ghost predicate Tallied(b: Books) {
    Exact(b.loads, b.placed)
  }

  ghost predicate Belongs(b: Books, c: string, j: string, h: string) {
    c in b.loads && h in b.placed && b.placed[h] == Placed(j, c)
  }

  ghost predicate Filing(b: Books, c: string, j: string, h: string) {
    h in Answer(b.index, c, j) <==> Belongs(b, c, j, h)
  }

  /** The index answers exactly the targets of live collectors. Targets naming a removed collector are in no answer. */
  ghost predicate Indexed(b: Books) {
    forall c, j, h :: Filing(b, c, j, h)
  }

  /** Holds between the steps of a collector change, while some targets still name a removed collector. */
  ghost predicate Afloat(b: Books) {
    Tallied(b) && Indexed(b)
  }

  /** Holds whenever no call is running. */
  ghost predicate Settled(b: Books) {
    Live(b) && Tallied(b) && Indexed(b)
  }

  // ------------------------------------------------------------------ the allocators' elementary updates

  /** Takes a target off the collector it names, leaving the target itself in place. */
  function Detach(b: Books, h: string, job: string, c: string): Books
    requires c in b.loads
  {
    b.(loads := b.loads[c := b.loads[c] - 1], index := Unfiled(b.index, c, job, h))
  }

  /** Records a target under a collector. */
  function Attach(b: Books, h: string, job: string, c: string): Books
    requires c in b.loads
  {
    Books(b.loads[c := b.loads[c] + 1], b.placed[h := Placed(job, c)], Filed(b.index, c, job, h))
  }

  function Forget(b: Books, h: string): Books
    requires h in b.placed && b.placed[h].collector in b.loads
  {
    Detach(b, h, b.placed[h].job, b.placed[h].collector).(placed := b.placed - {h})
  }

  function Retire(b: Books, c: string): Books {
    b.(loads := b.loads - {c}, index := b.index - {c})
  }

  function Enlist(b: Books, c: string): Books {
    b.(loads := b.loads[c := 0])
  }

  // ------------------------------------------------------------------ what each update keeps

  lemma FiledAnswers(idx: Index, c: string, j: string, h: string, c': string, j': string)
    ensures Answer(Filed(idx, c, j, h), c', j') == Answer(idx, c', j') + (if c' == c && j' == j then {h} else {})
  {
  }

  lemma UnfiledAnswers(idx: Index, c: string, j: string, h: string, c': string, j': string)
    ensures Answer(Unfiled(idx, c, j, h), c', j') == Answer(idx, c', j') - (if c' == c && j' == j then {h} else {})
  {
  }

  lemma ForgetKeeps(b: Books, h: string)
    requires Afloat(b) && h in b.placed && b.placed[h].collector in b.loads
    ensures Afloat(Forget(b, h))
    ensures Live(b) ==> Live(Forget(b, h))
  {
    var b' := Forget(b, h);
    var p := b.placed[h];
    forall c ensures Counted(b'.loads, b'.placed, c) {
      assert Counted(b.loads, b.placed, c);
      assert Held(b'.placed, c) == Held(b.placed, c) - {h};
    }
    forall c, j, h' ensures Filing(b', c, j, h') {
      UnfiledAnswers(b.index, p.collector, p.job, h, c, j);
      assert Filing(b, c, j, h');
    }
    if Live(b) {
      forall h' ensures Homed(b', h') { assert Homed(b, h'); }
    }
  }

  lemma HeldAfterPlacing(a: Assignment, h: string, p: Placed, c: string)
    ensures Held(a[h := p], c) == if p.collector == c then Held(a, c) + {h} else Held(a, c) - {h}
  {
  }

  lemma CountAfterPlacing(a: Assignment, h: string, p: Placed, c: string)
    requires h in a ==> a[h].collector != c
    ensures |Held(a[h := p], c)| == |Held(a, c)| + if p.collector == c then 1 else 0
  {
    HeldAfterPlacing(a, h, p, c);
    assert h !in Held(a, c);
  }

  lemma ExactAfterPlacing(loads: Loads, a: Assignment, h: string, p: Placed)
    requires Exact(loads, a) && p.collector in loads
    requires h in a ==> a[h].collector !in loads
    ensures Exact(loads[p.collector := loads[p.collector] + 1], a[h := p])
  {
    var loads', a' := loads[p.collector := loads[p.collector] + 1], a[h := p];
    forall c ensures Counted(loads', a', c) {
      assert Counted(loads, a, c);
      if c in loads { CountAfterPlacing(a, h, p, c); }
    }
  }

  /** A target that is new, or that still names a removed collector, is placed on a live one. */
  lemma AttachKeeps(b: Books, h: string, job: string, c: string)
    requires Afloat(b) && c in b.loads
    requires h in b.placed ==> b.placed[h].collector !in b.loads
    ensures Afloat(Attach(b, h, job, c))
    ensures Live(b) ==> Live(Attach(b, h, job, c))
  {
    ExactAfterPlacing(b.loads, b.placed, h, Placed(job, c));
    var b' := Attach(b, h, job, c);
    forall c', j, h' ensures Filing(b', c', j, h') {
      FiledAnswers(b.index, c, job, h, c', j);
      assert Filing(b, c', j, h');
    }
    if Live(b) {
      forall h' ensures Homed(b', h') { assert Homed(b, h'); }
    }
  }

  /** A target on a live collector moves to another live collector: the count leaves one and reaches the other. */
  lemma MoveKeeps(b: Books, h: string, c: string)
    requires Afloat(b) && c in b.loads
    requires h in b.placed && b.placed[h].collector in b.loads
    ensures var p := b.placed[h];
            Afloat(Attach(Detach(b, h, p.job, p.collector), h, p.job, c))
  {
    var p := b.placed[h];
    ForgetKeeps(b, h);
    AttachKeeps(Forget(b, h), h, p.job, c);
    assert (b.placed - {h})[h := Placed(p.job, c)] == b.placed[h := Placed(p.job, c)];
  }

  lemma RetireKeeps(b: Books, c: string)
    requires Afloat(b)
    ensures Afloat(Retire(b, c))
  {
    var b' := Retire(b, c);
    forall c' ensures Counted(b'.loads, b'.placed, c') { assert Counted(b.loads, b.placed, c'); }
    forall c', j, h ensures Filing(b', c', j, h) { assert Filing(b, c', j, h); }
  }

  /** A collector joins with no targets, so none may name it yet. */
  lemma EnlistKeeps(b: Books, c: string)
    requires Afloat(b) && c !in b.loads && Held(b.placed, c) == {}
    ensures Afloat(Enlist(b, c))
  {
    var b' := Enlist(b, c);
    forall c' ensures Counted(b'.loads, b'.placed, c') { assert Counted(b.loads, b.placed, c'); }
    forall c', j, h ensures Filing(b', c', j, h) {
      assert Filing(b, c', j, h);
      assert h !in Held(b.placed, c);
    }
  }

  // ------------------------------------------------------------------ consequences of Settled

  /** The exact load of every named collector. */
  ghost function LoadsOf(names: set<string>, a: Assignment): Loads {
    map c | c in names :: |Held(a, c)|
  }

  lemma ExactLoads(loads: Loads, a: Assignment)
    requires Exact(loads, a)
    ensures loads == LoadsOf(loads.Keys, a)
  {
    forall c | c in loads ensures loads[c] == |Held(a, c)| { assert Counted(loads, a, c); }
  }

  /** The counts and the answers are a function of the collector names and the placements alone. */
  lemma SettledIsDetermined(a: Books, b: Books)
    requires Settled(a) && Settled(b)
    requires a.loads.Keys == b.loads.Keys && a.placed == b.placed
    ensures a.loads == b.loads
    ensures forall c, j :: Answer(a.index, c, j) == Answer(b.index, c, j)
  {
    ExactLoads(a.loads, a.placed);
    ExactLoads(b.loads, b.placed);
    forall c, j ensures Answer(a.index, c, j) == Answer(b.index, c, j) {
      forall h ensures h in Answer(a.index, c, j) <==> h in Answer(b.index, c, j) {
        assert Filing(a, c, j, h) && Filing(b, c, j, h);
      }
    }
  }

  lemma LoadsAfterPlacing(names: set<string>, a: Assignment, h: string, p: Placed)
    requires p.collector in names
    requires h in a ==> a[h].collector !in names
    ensures LoadsOf(names, a[h := p]) == Raise(LoadsOf(names, a), p.collector)
  {
    forall c | c in names
      ensures |Held(a[h := p], c)| == |Held(a, c)| + if p.collector == c then 1 else 0
    {
      CountAfterPlacing(a, h, p, c);
    }
  }

  lemma NoTargetsNoLoad(names: set<string>)
    ensures Sum(LoadsOf(names, map[])) == 0
  {
    forall c | c in names ensures |Held(map[], c)| == 0 { assert Held(map[], c) == {}; }
    var l := LoadsOf(names, map[]);
    SumAtMost(l, 0);
    SumAtLeast(l, 0);
  }

  /** When every target names one of the collectors, the loads add up to the number of targets. */
  lemma {:induction false} LoadsSumToTargets(names: set<string>, a: Assignment)
    requires forall h :: h in a ==> a[h].collector in names
    ensures Sum(LoadsOf(names, a)) == |a|
    decreases |a|
  {
    if a == map[] {
      NoTargetsNoLoad(names);
    } else {
      var h :| h in a;
      var rest := a - {h};
      assert rest.Keys == a.Keys - {h};
      assert a == rest[h := a[h]];
      LoadsSumToTargets(names, rest);
      LoadsAfterPlacing(names, rest, h, a[h]);
      var l := LoadsOf(names, rest);
      SumAfterUpdate(l, a[h].collector, l[a[h].collector] + 1);
    }
  }

  lemma SettledTotal(b: Books)
    requires Settled(b)
    ensures Sum(b.loads) == |b.placed|
  {
    ExactLoads(b.loads, b.placed);
    forall h | h in b.placed ensures b.placed[h].collector in b.loads { assert Homed(b, h); }
    LoadsSumToTargets(b.loads.Keys, b.placed);
  }

  ghost function TargetsOfJob(a: Assignment, j: string): set<string> {
    set h | h in a && a[h].job == j
  }

  /** Over the live collectors, the answers for a job are pairwise disjoint and together give the job's targets. */
  lemma AnswersPartitionJob(b: Books, j: string)
    requires Settled(b)
    ensures forall c, d :: c != d ==> Answer(b.index, c, j) !! Answer(b.index, d, j)
    ensures (set c, h | c in b.loads && h in Answer(b.index, c, j) :: h) == TargetsOfJob(b.placed, j)
    ensures forall c :: c !in b.loads ==> Answer(b.index, c, j) == {}
  {
    forall c, h ensures h in Answer(b.index, c, j) <==> Belongs(b, c, j, h) { assert Filing(b, c, j, h); }
    forall h | h in TargetsOfJob(b.placed, j)
      ensures h in (set c, h | c in b.loads && h in Answer(b.index, c, j) :: h)
    {
      assert Homed(b, h);
      assert Belongs(b, b.placed[h].collector, j, h);
    }
    forall c, d | c != d ensures Answer(b.index, c, j) !! Answer(b.index, d, j) {
      forall h ensures h !in Answer(b.index, c, j) || h !in Answer(b.index, d, j) {
        assert !Belongs(b, c, j, h) || !Belongs(b, d, j, h);
      }
    }
    forall c | c !in b.loads ensures Answer(b.index, c, j) == {} {
      forall h ensures h !in Answer(b.index, c, j) { assert !Belongs(b, c, j, h); }
    }
  }

  // ------------------------------------------------------------------ counters that run behind

  /** How far the counter of each collector runs behind. */
  type Debts = map<string, nat>

  ghost predicate NoDebts(debts: Debts) {
    forall c :: c in debts ==> debts[c] == 0
  }

  /** After a change of collectors: who stays keeps the debt, who joins has none. */
  ghost function Carried(debts: Debts, names: set<string>): Debts {
    map c | c in names :: if c in debts then debts[c] else 0
  }

  ghost function Fresh(names: set<string>): Debts {
    map c | c in names :: 0
  }

  lemma CarriedInTwoSteps(debts: Debts, gone: set<string>, come: set<string>, names: set<string>)
    requires gone == debts.Keys - names && come == names - debts.Keys
    ensures (debts - gone) + Fresh(come) == Carried(debts, names)
  {
  }

  lemma FreshOneMore(debts: Debts, come: set<string>, todo: set<string>, k: string)
    requires k in come && k in todo
    ensures (debts + Fresh(come - todo))[k := 0] == debts + Fresh(come - (todo - {k}))
  {
  }
}
