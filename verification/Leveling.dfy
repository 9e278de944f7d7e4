/** Greedy filling: every item goes to some collector that holds the fewest items at that moment. */
module Leveling {

  type Loads = map<string, int>

  // ------------------------------------------------------------------ sums over a map

  ghost function Sum(m: Loads): int {
    if m == map[] then 0 else var k :| k in m; m[k] + Sum(m - {k})
  }

  /** The sum does not depend on which key is taken off first. */
  lemma {:induction false} SumTakesAny(m: Loads, k: string)
    requires k in m
    ensures Sum(m) == m[k] + Sum(m - {k})
    decreases |m|
  {
    var k' :| k' in m && Sum(m) == m[k'] + Sum(m - {k'});
    if k' == k {
    } else {
      SumTakesAny(m - {k'}, k);
      SumTakesAny(m - {k}, k');
      assert m - {k'} - {k} == m - {k} - {k'};
    }
  }

  lemma SumAfterUpdate(m: Loads, k: string, v: int)
    requires k in m
    ensures Sum(m[k := v]) == Sum(m) - m[k] + v
  {
    SumTakesAny(m, k);
    SumTakesAny(m[k := v], k);
    assert m[k := v] - {k} == m - {k};
  }

  lemma SizeWithout(m: Loads, k: string)
    requires k in m
    ensures |m - {k}| == |m| - 1
  {
    assert (m - {k}).Keys == m.Keys - {k};
  }

  lemma TimesOneMore(a: int, n: int)
    ensures a * (n + 1) == a * n + a
    ensures (n + 1) * a == n * a + a
  {
  }

  lemma {:induction false} SumAtMost(m: Loads, hi: int)
    requires forall k :: k in m ==> m[k] <= hi
    ensures Sum(m) <= |m| * hi
    ensures (exists k :: k in m && m[k] < hi) ==> Sum(m) < |m| * hi
    decreases |m|
  {
    if m == map[] {
    } else {
      var k :| k in m && ((exists k' :: k' in m && m[k'] < hi) ==> m[k] < hi);
      SumTakesAny(m, k);
      SumAtMost(m - {k}, hi);
      SizeWithout(m, k);
      TimesOneMore(hi, |m| - 1);
    }
  }

  lemma {:induction false} SumAtLeast(m: Loads, lo: int)
    requires forall k :: k in m ==> m[k] >= lo
    ensures Sum(m) >= |m| * lo
    ensures (exists k :: k in m && m[k] > lo) ==> Sum(m) > |m| * lo
    decreases |m|
  {
    if m == map[] {
    } else {
      var k :| k in m && ((exists k' :: k' in m && m[k'] > lo) ==> m[k] > lo);
      SumTakesAny(m, k);
      SumAtLeast(m - {k}, lo);
      SizeWithout(m, k);
      TimesOneMore(lo, |m| - 1);
    }
  }

  // ------------------------------------------------------------------ greedy runs

  ghost predicate Least(l: Loads, c: string) {
    c in l && forall d :: d in l ==> l[c] <= l[d]
  }

  ghost predicate Fullest(l: Loads, c: string) {
    c in l && forall d :: d in l ==> l[d] <= l[c]
  }

  /** The loads after one more item went to `c`. */
  ghost function Raise(l: Loads, c: string): Loads {
    if c in l then l[c := l[c] + 1] else l
  }

  /** The loads after the items went to `picks`, in that order. */
  ghost function Fill(l: Loads, picks: seq<string>): Loads {
    if picks == [] then l else Raise(Fill(l, picks[..|picks| - 1]), picks[|picks| - 1])
  }

  ghost predicate Greedy(l: Loads, picks: seq<string>) {
    picks == [] || (Greedy(l, picks[..|picks| - 1]) && Least(Fill(l, picks[..|picks| - 1]), picks[|picks| - 1]))
  }

  lemma {:induction false} FillKeepsNames(l: Loads, picks: seq<string>)
    ensures Fill(l, picks).Keys == l.Keys
  {
    if picks == [] {
    } else {
      FillKeepsNames(l, picks[..|picks| - 1]);
    }
  }

  lemma GreedyStep(l: Loads, picks: seq<string>, c: string)
    requires Greedy(l, picks) && Least(Fill(l, picks), c)
    ensures Greedy(l, picks + [c])
    ensures Fill(l, picks + [c]) == Raise(Fill(l, picks), c)
  {
    assert (picks + [c])[..|picks|] == picks;
  }

  /** A collector gains exactly the number of times it was picked. */
  lemma {:induction false} FillCounts(l: Loads, picks: seq<string>, c: string)
    requires c in l
    ensures c in Fill(l, picks) && Fill(l, picks)[c] == l[c] + multiset(picks)[c]
    decreases |picks|
  {
    if picks == [] {
    } else {
      var most := picks[..|picks| - 1];
      FillCounts(l, most, c);
      assert picks == most + [picks[|picks| - 1]];
    }
  }

  lemma {:induction false} FillTotal(l: Loads, picks: seq<string>)
    requires Greedy(l, picks)
    ensures Sum(Fill(l, picks)) == Sum(l) + |picks|
    decreases |picks|
  {
    if picks == [] {
    } else {
      var most, c := picks[..|picks| - 1], picks[|picks| - 1];
      FillTotal(l, most);
      var m := Fill(l, most);
      SumAfterUpdate(m, c, m[c] + 1);
    }
  }

  // ------------------------------------------------------------------ fairness

  /** Any collector that received an item ends with at most one more than every other collector. */
  lemma {:induction false} ReceiversAreLevel(l: Loads, picks: seq<string>, c: string, d: string)
    requires Greedy(l, picks) && c in picks && d in l
    ensures c in l && c in Fill(l, picks) && d in Fill(l, picks)
    ensures Fill(l, picks)[c] <= Fill(l, picks)[d] + 1
    decreases |picks|
  {
    var most, last := picks[..|picks| - 1], picks[|picks| - 1];
    FillKeepsNames(l, most);
    if c != last {
      assert picks == most + [last];
      ReceiversAreLevel(l, most, c, d);
    }
  }

  ghost predicate SpreadAtMost(l: Loads, bound: int) {
    forall c, d :: c in l && d in l ==> l[c] <= l[d] + bound
  }

  /** Filling never widens the spread beyond one or what it was. */
  lemma FillKeepsSpread(l: Loads, picks: seq<string>, bound: int)
    requires Greedy(l, picks) && 1 <= bound && SpreadAtMost(l, bound)
    ensures SpreadAtMost(Fill(l, picks), bound)
  {
    var l' := Fill(l, picks);
    FillKeepsNames(l, picks);
    forall c, d | c in l' && d in l' ensures l'[c] <= l'[d] + bound {
      FillCounts(l, picks, c);
      FillCounts(l, picks, d);
      if c in picks { ReceiversAreLevel(l, picks, c, d); }
    }
  }

  /** Loads that differ by at most one are all the floor or the ceiling of the average. */
  lemma LevelIsFloorOrCeiling(l: Loads, c: string)
    requires SpreadAtMost(l, 1) && c in l
    ensures var q := Sum(l) / |l|;
            l[c] == q || (Sum(l) % |l| != 0 && l[c] == q + 1)
  {
    var v := l[c];
    var low := if exists d :: d in l && l[d] < v then v - 1 else v;
    forall k | k in l ensures low <= l[k] <= low + 1 {
      if low < v {
        var d :| d in l && l[d] < v;
        assert l[k] <= l[d] + 1;
      }
    }
    SumAtLeast(l, low);
    SumAtMost(l, low + 1);
    TimesOneMore(|l|, low);
    DivisionBetween(Sum(l), |l|, low);
  }

  lemma DivisionBetween(s: int, n: int, q: int)
    requires n > 0 && n * q <= s < n * q + n
    ensures s / n == q && s % n == s - n * q
  {
    var q', r' := s / n, s % n;
    assert s == n * q' + r' && 0 <= r' < n;
    if q' < q { TimesGap(n, q', q); } else if q < q' { TimesGap(n, q, q'); }
  }

  lemma {:induction false} TimesGap(n: int, a: int, b: int)
    requires n > 0 && a < b
    ensures n * a + n <= n * b
    decreases b - a
  {
    TimesOneMore(n, a);
    if a + 1 < b { TimesGap(n, a + 1, b); }
  }

  // ------------------------------------------------------------------ how far a fill levels

  ghost function Shortfalls(l: Loads, level: int): Loads {
    map c | c in l :: if l[c] < level then level - l[c] else 0
  }

  /** How many items are missing before every collector holds `level`. */
  ghost function Deficit(l: Loads, level: int): int {
    Sum(Shortfalls(l, level))
  }

  lemma DeficitSign(l: Loads, level: int)
    ensures Deficit(l, level) >= 0
    ensures Deficit(l, level) == 0 <==> forall c :: c in l ==> l[c] >= level
  {
    var s := Shortfalls(l, level);
    SumAtLeast(s, 0);
    if forall c :: c in l ==> l[c] >= level {
      SumAtMost(s, 0);
    } else {
      var c :| c in l && l[c] < level;
      assert s[c] > 0;
    }
  }

  lemma DeficitAfterPlacing(l: Loads, c: string, level: int)
    requires Least(l, c)
    ensures Deficit(Raise(l, c), level) == if Deficit(l, level) > 0 then Deficit(l, level) - 1 else 0
  {
    DeficitSign(l, level);
    var s := Shortfalls(l, level);
    var short := if l[c] + 1 < level then level - l[c] - 1 else 0;
    assert Shortfalls(Raise(l, c), level) == s[c := short];
    SumAfterUpdate(s, c, short);
  }

  /** Every placement below the level closes the deficit by one, and none is wasted before it is closed. */
  lemma {:induction false} FillClosesDeficit(l: Loads, picks: seq<string>, level: int)
    requires Greedy(l, picks)
    ensures Deficit(Fill(l, picks), level) == if |picks| <= Deficit(l, level) then Deficit(l, level) - |picks| else 0
    decreases |picks|
  {
    DeficitSign(l, level);
    if picks != [] {
      var most := picks[..|picks| - 1];
      FillClosesDeficit(l, most, level);
      DeficitAfterPlacing(Fill(l, most), picks[|picks| - 1], level);
    }
  }

  /**
   Exactly when a fill ends within a spread: its items must be enough to lift every collector to the old
   maximum less the spread.
   */
  lemma SpreadAfterFill(l: Loads, picks: seq<string>, top: string, bound: int)
    requires Greedy(l, picks) && 1 <= bound && Fullest(l, top)
    ensures SpreadAtMost(Fill(l, picks), bound) <==> Deficit(l, l[top] - bound) <= |picks|
  {
    var l' := Fill(l, picks);
    var level := l[top] - bound;
    FillKeepsNames(l, picks);
    FillClosesDeficit(l, picks, level);
    DeficitSign(l', level);
    FillCounts(l, picks, top);
    if Deficit(l, level) <= |picks| {
      assert forall c :: c in l' ==> l'[c] >= level;
      forall c, d | c in l' && d in l' ensures l'[c] <= l'[d] + bound {
        FillCounts(l, picks, c);
        if c in picks { ReceiversAreLevel(l, picks, c, d); }
      }
    } else {
      var c :| c in l' && l'[c] < level;
      assert l'[top] > l'[c] + bound;
    }
  }
}
