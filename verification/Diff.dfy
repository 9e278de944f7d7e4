/** The change set between two keyed maps that drives both target allocators. */
module Diff {

  datatype Changes<T> = Changes(additions: map<string, T>, removals: map<string, T>)

  /** Both maps hold an item of the same hash under the key. */
  ghost predicate Agrees<T>(current: map<string, T>, new': map<string, T>, hash: T -> string, k: string) {
    k in current && k in new' && hash(current[k]) == hash(new'[k])
  }

  /** Reference definition of the change set, free of any iteration order. */
  ghost function Delta<T>(current: map<string, T>, new': map<string, T>, hash: T -> string): Changes<T> {
    Changes(map k | k in new' && !Agrees(current, new', hash, k) :: new'[k],
            map k | k in current && !Agrees(current, new', hash, k) :: current[k])
  }

  /** Two passes in any key order: over the new map, then over the current one. */
  method Maps<T>(current: map<string, T>, new': map<string, T>, hash: T -> string) returns (c: Changes<T>)
    ensures c == Delta(current, new', hash)
  {
    var additions: map<string, T> := map[];
    var removals: map<string, T> := map[];
    var todo := new'.Keys;
    while todo != {}
      invariant todo <= new'.Keys
      invariant forall k :: k in additions <==> k in new' && k !in todo && !Agrees(current, new', hash, k)
      invariant forall k :: k in removals <==>
          k in current && k in new' && k !in todo && !Agrees(current, new', hash, k)
      invariant forall k :: k in additions ==> additions[k] == new'[k]
      invariant forall k :: k in removals ==> removals[k] == current[k]
      decreases todo
    {
      var key :| key in todo;
      todo := todo - {key};
      if key !in current {
        additions := additions[key := new'[key]];
      } else if hash(current[key]) != hash(new'[key]) {
        additions := additions[key := new'[key]];
        removals := removals[key := current[key]];
      }
    }
    todo := current.Keys;
    while todo != {}
      invariant todo <= current.Keys
      invariant forall k :: k in removals <==>
          k in current && (k in new' || k !in todo) && !Agrees(current, new', hash, k)
      invariant forall k :: k in removals ==> removals[k] == current[k]
      decreases todo
    {
      var key :| key in todo;
      todo := todo - {key};
      if key !in new' {
        removals := removals[key := current[key]];
      }
    }
    c := Changes(additions, removals);
  }

  ghost function Patch<T>(current: map<string, T>, c: Changes<T>): map<string, T> {
    (current - c.removals.Keys) + c.additions
  }

  ghost predicate SameContents<T>(a: map<string, T>, b: map<string, T>, hash: T -> string) {
    a.Keys == b.Keys && forall k :: k in a ==> hash(a[k]) == hash(b[k])
  }

  /**
   Removing the removals and then adding the additions reaches the new map, keeps every entry that already
   agreed, and leaves nothing further to do; the change set is empty exactly when the maps already agree.
   */
  lemma PatchReachesNew<T>(current: map<string, T>, new': map<string, T>, hash: T -> string)
    ensures var c := Delta(current, new', hash);
            var p := Patch(current, c);
            && SameContents(p, new', hash)
            && (forall k :: Agrees(current, new', hash, k) ==> p[k] == current[k])
            && c.additions.Keys * current.Keys <= c.removals.Keys
            && Delta(p, new', hash) == Changes(map[], map[])
            && (c == Changes(map[], map[]) <==> SameContents(current, new', hash))
  {
    var c := Delta(current, new', hash);
    var p := Patch(current, c);
    forall k
      ensures k in p <==> k in new'
      ensures k in p ==> hash(p[k]) == hash(new'[k])
    {
      if k in new' && !Agrees(current, new', hash, k) { assert k in c.additions; }
      if k in current && !Agrees(current, new', hash, k) { assert k in c.removals; }
    }
    var d := Delta(p, new', hash);
    assert d.additions == map[] by {
      forall k | k in d.additions ensures false { assert Agrees(p, new', hash, k); }
    }
    assert d.removals == map[] by {
      forall k | k in d.removals ensures false { assert Agrees(p, new', hash, k); }
    }
    if c == Changes(map[], map[]) {
      forall k | k in new' || k in current ensures Agrees(current, new', hash, k) {
        assert k !in c.additions && k !in c.removals;
      }
    }
    if SameContents(current, new', hash) {
      assert c.additions == map[];
      assert c.removals == map[];
    }
  }

  /** When keys are the hashes themselves, only key membership decides what is added and what is removed. */
  lemma KeyedByHash<T>(current: map<string, T>, new': map<string, T>, hash: T -> string)
    requires forall k :: k in current ==> hash(current[k]) == k
    requires forall k :: k in new' ==> hash(new'[k]) == k
    ensures Delta(current, new', hash).additions.Keys == new'.Keys - current.Keys
    ensures Delta(current, new', hash).removals.Keys == current.Keys - new'.Keys
    ensures forall k :: k in new' && k !in current ==> Delta(current, new', hash).additions[k] == new'[k]
  {
  }
}
