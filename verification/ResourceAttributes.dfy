/** The text form of resource attributes: how it is printed, and how its keys are read back. */
module ResourceAttributes {
  import opened Options
  import opened Text

  type Attributes = map<string, string>

  // ------------------------------------------------------------------ reading keys

  /** White space in the sense of Unicode. */
  predicate IsSpace(c: char) {
    var n := c as int;
    || 0x09 <= n <= 0x0D || n == 0x20 || n == 0x85 || n == 0xA0 || n == 0x1680 || 0x2000 <= n <= 0x200A
    || n == 0x2028 || n == 0x2029 || n == 0x202F || n == 0x205F || n == 0x3000
  }

  function TrimLeft(s: string): string {
    if s != "" && IsSpace(s[0]) then TrimLeft(s[1..]) else s
  }

  function TrimRight(s: string): string {
    if s != "" && IsSpace(s[|s| - 1]) then TrimRight(s[..|s| - 1]) else s
  }

  function TrimSpace(s: string): string {
    TrimRight(TrimLeft(s))
  }

  /** The key of one `key=value` piece; a piece with another number of equals signs has none. */
  function KeyOf(piece: string): Option<string> {
    var kv := Split(TrimSpace(piece), '=');
    if |kv| != 2 then None else Some(kv[0])
  }

  /** Blanks, tabs and line ends before a piece do not matter. */
  lemma IndentIsIgnored(c: char, piece: string)
    requires c in {' ', '\t', '\n', '\r'}
    ensures KeyOf([c] + piece) == KeyOf(piece)
  {
    assert ([c] + piece)[1..] == piece;
  }

  ghost function KeysOf(pieces: seq<string>): set<string> {
    set i | 0 <= i < |pieces| && KeyOf(pieces[i]).Some? :: KeyOf(pieces[i]).value
  }

  /** The keys a text defines. */
  ghost function Keys(text: string): set<string> {
    KeysOf(Split(text, ','))
  }

  method ExistingKeys(text: string) returns (keys: set<string>)
    ensures keys == Keys(text)
  {
    var pieces := Split(text, ',');
    keys := {};
    for i := 0 to |pieces|
      invariant keys == KeysOf(pieces[..i])
    {
      var kv := Split(TrimSpace(pieces[i]), '=');
      if |kv| == 2 {
        keys := keys + {kv[0]};
      }
      assert pieces[..i + 1] == pieces[..i] + [pieces[i]];
      KeysOfConcat(pieces[..i], [pieces[i]]);
    }
    assert pieces[..|pieces|] == pieces;
  }

  lemma KeysOfConcat(a: seq<string>, b: seq<string>)
    ensures KeysOf(a + b) == KeysOf(a) + KeysOf(b)
  {
    var c := a + b;
    forall k | k in KeysOf(a) ensures k in KeysOf(c) {
      var i :| 0 <= i < |a| && KeyOf(a[i]).Some? && KeyOf(a[i]).value == k;
      assert c[i] == a[i];
    }
    forall k | k in KeysOf(b) ensures k in KeysOf(c) {
      var i :| 0 <= i < |b| && KeyOf(b[i]).Some? && KeyOf(b[i]).value == k;
      assert c[|a| + i] == b[i];
    }
  }

  // ------------------------------------------------------------------ joining texts

  predicate EndsWithComma(s: string) {
    s != "" && s[|s| - 1] == ','
  }

  /** New attributes are appended to an existing text with exactly one comma in between. */
  function Joined(old': string, new': string): string {
    if EndsWithComma(old') then old' + new' else old' + ("," + new')
  }

  lemma EmptyPieceHasNoKey()
    ensures KeysOf([""]) == {}
  {
    assert TrimSpace("") == "";
    assert KeyOf("").None?;
  }

  /** The pieces of the old text come first and in order, without the empty one after a trailing comma. */
  lemma JoinedPieces(old': string, new': string)
    ensures old' <= Joined(old', new')
    ensures var pieces := Split(old', ',');
            Split(Joined(old', new'), ',') ==
            (if old' != "" && old'[|old'| - 1] == ',' then pieces[..|pieces| - 1] else pieces) + Split(new', ',')
  {
    if EndsWithComma(old') {
      var body := old'[..|old'| - 1];
      assert old' == body + [','] + "" && Joined(old', new') == body + [','] + new';
      SplitConcat(body, "", ',');
      SplitConcat(body, new', ',');
    } else {
      assert Joined(old', new') == old' + [','] + new';
      SplitConcat(old', new', ',');
    }
  }

  /** Whatever the two texts are, the joined text defines the keys of both and no other. */
  lemma JoinedKeys(old': string, new': string)
    ensures Keys(Joined(old', new')) == Keys(old') + Keys(new')
  {
    if EndsWithComma(old') {
      var body := old'[..|old'| - 1];
      assert old' == body + [','] + "";
      assert Joined(old', new') == body + [','] + new';
      SplitConcat(body, "", ',');
      SplitConcat(body, new', ',');
      KeysOfConcat(Split(body, ','), Split("", ','));
      KeysOfConcat(Split(body, ','), Split(new', ','));
      EmptyPieceHasNoKey();
    } else {
      assert Joined(old', new') == old' + [','] + new';
      SplitConcat(old', new', ',');
      KeysOfConcat(Split(old', ','), Split(new', ','));
    }
  }

  // ------------------------------------------------------------------ printing

  function Entry(k: string, v: string): string {
    k + "=" + v
  }

  ghost predicate IsLeast(keys: set<string>, k: string) {
    k in keys && forall k' :: k' in keys && k' != k ==> Before(k, k')
  }

  lemma {:induction false} LeastExists(keys: set<string>) returns (k: string)
    requires keys != {}
    ensures IsLeast(keys, k)
    decreases keys
  {
    k :| k in keys;
    var rest := keys - {k};
    assert forall k' :: k' in keys && k' != k ==> k' in rest;
    if rest != {} {
      var m := LeastExists(rest);
      BeforeTotal(k, m);
      if Before(k, m) {
        forall k' | k' in keys && k' != k ensures Before(k, k') {
          if k' != m { BeforeTransitive(k, m, k'); }
        }
      } else {
        forall k' | k' in keys && k' != m ensures Before(m, k') { assert k' in rest || k' == k; }
        k := m;
      }
    }
  }

  /** The keys in ascending order. */
  ghost function Sorted(keys: set<string>): seq<string>
    decreases keys
  {
    if keys == {} then []
    else
      assert exists k :: IsLeast(keys, k) by { var k := LeastExists(keys); }
      var k :| IsLeast(keys, k);
      [k] + Sorted(keys - {k})
  }

  function Print(keys: seq<string>, res: Attributes): string
    requires forall i :: 0 <= i < |keys| ==> keys[i] in res
  {
    if keys == [] then ""
    else
      var k := keys[|keys| - 1];
      if |keys| == 1 then Entry(k, res[k]) else Print(keys[..|keys| - 1], res) + "," + Entry(k, res[k])
  }

  lemma {:induction false} SortedMembers(keys: set<string>)
    ensures forall k :: k in Sorted(keys) <==> k in keys
    decreases keys
  {
    if keys == {} {
    } else {
      var k := Sorted(keys)[0];
      assert Sorted(keys) == [k] + Sorted(keys - {k});
      SortedMembers(keys - {k});
    }
  }

  ghost function Printed(res: Attributes): string {
    SortedMembers(res.Keys);
    Print(Sorted(res.Keys), res)
  }

  /** Takes the least key that is left, by a scan in any order. */
  method LeastOf(keys: set<string>) returns (k: string)
    requires keys != {}
    ensures IsLeast(keys, k)
  {
    k :| k in keys;
    var todo := keys - {k};
    while todo != {}
      invariant k in keys && k !in todo && todo <= keys
      invariant forall k' :: k' in keys && k' !in todo && k' != k ==> Before(k, k')
      decreases todo
    {
      var c :| c in todo;
      todo := todo - {c};
      BeforeTotal(c, k);
      if Before(c, k) {
        forall k' | k' in keys && k' !in todo && k' != c ensures Before(c, k') {
          if k' != k { BeforeTransitive(c, k, k'); }
        }
        k := c;
      }
    }
  }

  lemma LeastIsUnique(keys: set<string>, a: string, b: string)
    requires IsLeast(keys, a) && IsLeast(keys, b)
    ensures a == b
  {
    BeforeTotal(a, b);
  }

  /** Sorts keys that come in any order. */
  method SortKeys(all: set<string>) returns (keys: seq<string>)
    ensures keys == Sorted(all)
  {
    var todo := all;
    keys := [];
    while todo != {}
      invariant keys + Sorted(todo) == Sorted(all)
      decreases todo
    {
      var k := LeastOf(todo);
      SortedStep(todo, k);
      keys := keys + [k];
      todo := todo - {k};
    }
  }

  lemma SortedStep(keys: set<string>, k: string)
    requires IsLeast(keys, k)
    ensures Sorted(keys) == [k] + Sorted(keys - {k})
  {
    LeastIsUnique(keys, k, Sorted(keys)[0]);
  }

  lemma PrintOneMore(keys: seq<string>, res: Attributes, i: nat)
    requires i < |keys| && forall j :: 0 <= j < |keys| ==> keys[j] in res
    ensures Print(keys[..i + 1], res) ==
            if i == 0 then Entry(keys[i], res[keys[i]]) else Print(keys[..i], res) + "," + Entry(keys[i], res[keys[i]])
  {
    assert keys[..i + 1][..i] == keys[..i];
  }

  /** Prints the attributes in key order, whatever order the map yields them in. */
  method ResourceMapToStr(res: Attributes) returns (str: string)
    ensures str == Printed(res)
  {
    var keys := SortKeys(res.Keys);
    SortedMembers(res.Keys);
    str := "";
    for i := 0 to |keys|
      invariant str == Print(keys[..i], res)
      invariant str == "" <==> i == 0
    {
      PrintOneMore(keys, res, i);
      if str != "" {
        str := str + ",";
      }
      str := str + Entry(keys[i], res[keys[i]]);
    }
    assert keys[..|keys|] == keys;
  }

  // ------------------------------------------------------------------ reading back what was printed

  lemma {:induction false} TrimRightEffect(s: string)
    ensures TrimRight(s) <= s && forall i :: |TrimRight(s)| <= i < |s| ==> IsSpace(s[i])
    decreases |s|
  {
    if s != "" && IsSpace(s[|s| - 1]) {
      TrimRightEffect(s[..|s| - 1]);
    }
  }

  lemma {:induction false} TrimLeftEffect(s: string)
    ensures exists n :: 0 <= n <= |s| && TrimLeft(s) == s[n..] && forall i :: 0 <= i < n ==> IsSpace(s[i])
    ensures TrimLeft(s) != "" ==> !IsSpace(TrimLeft(s)[0])
    decreases |s|
  {
    if s != "" && IsSpace(s[0]) {
      var t := s[1..];
      TrimLeftEffect(t);
      var n :| 0 <= n <= |t| && TrimLeft(t) == t[n..] && forall i :: 0 <= i < n ==> IsSpace(t[i]);
      assert t[n..] == s[n + 1..];
      assert forall i :: 0 <= i < n + 1 ==> IsSpace(s[i]);
    } else {
      assert s[0..] == s;
    }
  }

  lemma {:induction false} TrimLeftEntry(k: string, v: string)
    ensures TrimLeft(Entry(k, v)) == Entry(TrimLeft(k), v)
    decreases |k|
  {
    var e := Entry(k, v);
    if k == "" {
      assert e[0] == '=';
    } else {
      assert e[1..] == Entry(k[1..], v);
      if IsSpace(k[0]) { TrimLeftEntry(k[1..], v); }
    }
  }

  lemma TrimRightEntry(k: string, v: string)
    ensures TrimRight(Entry(k, v)) == Entry(k, TrimRight(v))
    decreases |v|
  {
    var e := Entry(k, v);
    if v == "" {
      assert e[|e| - 1] == '=';
    } else {
      assert e[..|e| - 1] == Entry(k, v[..|v| - 1]);
      if IsSpace(v[|v| - 1]) { TrimRightEntry(k, v[..|v| - 1]); }
    }
  }

  lemma {:induction false} TrimLeftIsIdentity(k: string)
    ensures TrimLeft(k) == k <==> k == "" || !IsSpace(k[0])
  {
    TrimLeftEffect(k);
  }

  lemma {:induction false} PiecesCountSeparators(s: string, sep: char)
    ensures |Split(s, sep)| == 1 <==> sep !in s
  {
    if sep !in s {
      SplitWhole(s, sep);
    } else {
      JoinSplit(s, sep);
    }
  }

  /** One printed entry gives its key back exactly when neither part has an equals sign and the key is not indented. */
  lemma KeyOfEntry(k: string, v: string)
    ensures KeyOf(Entry(k, v)) == Some(k) <==> '=' !in k && '=' !in v && (k == "" || !IsSpace(k[0]))
  {
    TrimLeftEntry(k, v);
    TrimRightEntry(TrimLeft(k), v);
    var k', v' := TrimLeft(k), TrimRight(v);
    assert Entry(k', v') == k' + ['='] + v';
    SplitConcat(k', v', '=');
    PiecesCountSeparators(k', '=');
    PiecesCountSeparators(v', '=');
    TrimLeftIsIdentity(k);
    TrimRightEffect(v);
    assert '=' in v <==> '=' in v' by { assert v' <= v; }
    TrimLeftEffect(k);
    if '=' !in k' { SplitWhole(k', '='); }
  }

  /** Attributes that survive printing: no separators, and no key that starts with white space. */
  ghost predicate Printable(res: Attributes) {
    forall k :: k in res ==> PrintableEntry(k, res[k])
  }

  ghost predicate PrintableEntry(k: string, v: string) {
    && ',' !in k && ',' !in v && '=' !in k && '=' !in v
    && (k == "" || !IsSpace(k[0]))
  }

  lemma EntryKeys(k: string, v: string)
    requires PrintableEntry(k, v)
    ensures Split(Entry(k, v), ',') == [Entry(k, v)] && Keys(Entry(k, v)) == {k}
  {
    KeyOfEntry(k, v);
    SplitWhole(Entry(k, v), ',');
    var pieces := [Entry(k, v)];
    assert KeyOf(pieces[0]) == Some(k);
  }

  lemma {:induction false} PrintKeys(keys: seq<string>, res: Attributes)
    requires Printable(res) && forall i :: 0 <= i < |keys| ==> keys[i] in res
    ensures Keys(Print(keys, res)) == set k | k in keys
    decreases |keys|
  {
    if keys == [] {
      EmptyPieceHasNoKey();
    } else {
      var k, most := keys[|keys| - 1], keys[..|keys| - 1];
      EntryKeys(k, res[k]);
      assert keys == most + [k];
      if |keys| > 1 {
        PrintKeys(most, res);
        var text := Print(most, res);
        assert Print(keys, res) == text + [','] + Entry(k, res[k]);
        SplitConcat(text, Entry(k, res[k]), ',');
        KeysOfConcat(Split(text, ','), [Entry(k, res[k])]);
      }
    }
  }

  /** Reading the keys of a printed map gives exactly its keys. */
  lemma PrintedKeys(res: Attributes)
    requires Printable(res)
    ensures Keys(Printed(res)) == res.Keys
  {
    SortedMembers(res.Keys);
    PrintKeys(Sorted(res.Keys), res);
  }

  lemma {:induction false} SortedIsAscending(keys: set<string>)
    ensures forall i, j :: 0 <= i < j < |Sorted(keys)| ==> Before(Sorted(keys)[i], Sorted(keys)[j])
    decreases keys
  {
    if keys == {} {
    } else {
      var k := Sorted(keys)[0];
      var rest := Sorted(keys - {k});
      assert Sorted(keys) == [k] + rest && IsLeast(keys, k);
      SortedIsAscending(keys - {k});
      SortedMembers(keys - {k});
      forall j | 0 <= j < |rest| ensures Before(k, rest[j]) { assert rest[j] in keys - {k}; }
    }
  }

  lemma {:induction false} PrintPieces(keys: seq<string>, res: Attributes)
    requires Printable(res) && keys != [] && forall i :: 0 <= i < |keys| ==> keys[i] in res
    ensures |Split(Print(keys, res), ',')| == |keys|
    ensures forall i :: 0 <= i < |keys| ==> Split(Print(keys, res), ',')[i] == keys[i] + "=" + res[keys[i]]
    decreases |keys|
  {
    var k, most := keys[|keys| - 1], keys[..|keys| - 1];
    assert PrintableEntry(k, res[k]);
    EntryKeys(k, res[k]);
    if |keys| == 1 {
    } else {
      PrintPieces(most, res);
      var text := Print(most, res);
      assert Print(keys, res) == text + [','] + Entry(k, res[k]);
      SplitConcat(text, Entry(k, res[k]), ',');
    }
  }

  /** The printed text has one piece per attribute, its key and value around an equals sign, in key order. */
  lemma PrintedPieces(res: Attributes) returns (keys: seq<string>)
    requires Printable(res) && res != map[]
    ensures (forall k :: k in keys <==> k in res)
    ensures forall i, j :: 0 <= i < j < |keys| ==> Before(keys[i], keys[j])
    ensures |Split(Printed(res), ',')| == |keys|
    ensures forall i :: 0 <= i < |keys| ==> Split(Printed(res), ',')[i] == keys[i] + "=" + res[keys[i]]
  {
    keys := Sorted(res.Keys);
    SortedMembers(res.Keys);
    SortedIsAscending(res.Keys);
    assert keys != [] by { var k :| k in res; assert k in keys; }
    PrintPieces(keys, res);
  }

  // ------------------------------------------------------------------ the attributes an injection adds

  const POD_NAME := "k8s.pod.name"
  const POD_UID := "k8s.pod.uid"
  const NODE_NAME := "k8s.node.name"

  /** What is known about the pod; names that are not known yet are empty. `owners` holds the owner labels. */
  datatype PodInfo = PodInfo(
    namespace: string, container: string, pod: string, uid: string, node: string, owners: Attributes)

  function K8sResources(p: PodInfo): Attributes {
    map["k8s.namespace.name" := p.namespace, "k8s.container.name" := p.container, POD_NAME := p.pod, POD_UID := p.uid,
        NODE_NAME := p.node] + p.owners
  }

  /** The entries of `from` that an injection takes over. */
  ghost function Chosen(from: Attributes, existing: set<string>, emptyToo: bool): Attributes {
    map k | k in from && k !in existing && (emptyToo || from[k] != "") :: from[k]
  }

  ghost function Created(existing: set<string>, attributes: Attributes, k8s: Attributes): Attributes {
    Chosen(attributes, existing, true) + Chosen(k8s, existing, false)
  }

  method TakeOver(base: Attributes, from: Attributes, existing: set<string>, emptyToo: bool) returns (res: Attributes)
    ensures res == base + Chosen(from, existing, emptyToo)
  {
    res := base;
    var todo := from.Keys;
    ghost var chosen := Chosen(from, existing, emptyToo);
    assert chosen - todo == map[];
    while todo != {}
      invariant todo <= from.Keys && res == base + (chosen - todo)
      decreases todo
    {
      var k :| k in todo;
      if k !in existing && (emptyToo || from[k] != "") {
        ChosenOneMore(base, chosen, todo, k);
        res := res[k := from[k]];
      } else {
        assert chosen - (todo - {k}) == chosen - todo;
      }
      todo := todo - {k};
    }
    assert chosen - {} == chosen;
  }

  lemma ChosenOneMore(base: Attributes, chosen: Attributes, todo: set<string>, k: string)
    requires k in chosen && k in todo
    ensures base + (chosen - (todo - {k})) == (base + (chosen - todo))[k := chosen[k]]
  {
  }

  /** Configured attributes first, then what the cluster knows; keys the container already defines are left out. */
  method CreateResourceMap(text: Option<string>, attributes: Attributes, k8s: Attributes) returns (res: Attributes)
    ensures res == Created(if text.Some? then Keys(text.value) else {}, attributes, k8s)
    ensures text.Some? ==> res.Keys !! Keys(text.value)
  {
    var existing: set<string> := {};
    if text.Some? {
      existing := ExistingKeys(text.value);
    }
    var base := TakeOver(map[], attributes, existing, true);
    res := TakeOver(base, k8s, existing, false);
  }

  // ------------------------------------------------------------------ which value wins

  /**
   What becomes of an attribute: one the container defines is left out, one the cluster knows has that value, and any
   other has the configured one, if there is one.
   */
  ghost predicate Carries(res: Attributes, existing: set<string>, attributes: Attributes, k: string, known: string) {
    if k in existing then k !in res
    else if known != "" then k in res && res[k] == known
    else if k in attributes then k in res && res[k] == attributes[k]
    else k !in res
  }

  function OwnerOr(p: PodInfo, k: string, field: string): string {
    if k in p.owners then p.owners[k] else field
  }

  /** Every attribute of the map, by the field of the pod it is taken from. */
  lemma AttributeValues(existing: set<string>, attributes: Attributes, p: PodInfo)
    ensures var res := Created(existing, attributes, K8sResources(p));
            && Carries(res, existing, attributes, "k8s.namespace.name", OwnerOr(p, "k8s.namespace.name", p.namespace))
            && Carries(res, existing, attributes, "k8s.container.name", OwnerOr(p, "k8s.container.name", p.container))
            && Carries(res, existing, attributes, "k8s.pod.name", OwnerOr(p, "k8s.pod.name", p.pod))
            && Carries(res, existing, attributes, "k8s.pod.uid", OwnerOr(p, "k8s.pod.uid", p.uid))
            && Carries(res, existing, attributes, "k8s.node.name", OwnerOr(p, "k8s.node.name", p.node))
  {
    var k8s := K8sResources(p);
    PodValues(p);
    CreatedCarries(existing, attributes, k8s, "k8s.namespace.name");
    CreatedCarries(existing, attributes, k8s, "k8s.container.name");
    CreatedCarries(existing, attributes, k8s, "k8s.pod.name");
    CreatedCarries(existing, attributes, k8s, "k8s.pod.uid");
    CreatedCarries(existing, attributes, k8s, "k8s.node.name");
  }

  /** Any other attribute comes from an owner or from the configuration. */
  lemma OtherAttributeValues(existing: set<string>, attributes: Attributes, p: PodInfo, k: string)
    requires k !in {"k8s.namespace.name", "k8s.container.name", "k8s.pod.name", "k8s.pod.uid", "k8s.node.name"}
    ensures Carries(Created(existing, attributes, K8sResources(p)), existing, attributes, k, OwnerOr(p, k, ""))
  {
    CreatedCarries(existing, attributes, K8sResources(p), k);
  }

  lemma PodValues(p: PodInfo)
    ensures var k8s := K8sResources(p);
            && {"k8s.namespace.name", "k8s.container.name", "k8s.pod.name", "k8s.pod.uid", "k8s.node.name"} <= k8s.Keys
            && k8s["k8s.namespace.name"] == OwnerOr(p, "k8s.namespace.name", p.namespace)
            && k8s["k8s.container.name"] == OwnerOr(p, "k8s.container.name", p.container)
            && k8s["k8s.pod.name"] == OwnerOr(p, "k8s.pod.name", p.pod)
            && k8s["k8s.pod.uid"] == OwnerOr(p, "k8s.pod.uid", p.uid)
            && k8s["k8s.node.name"] == OwnerOr(p, "k8s.node.name", p.node)
  {
    assert "k8s.namespace.name"[4] == 'n' && "k8s.container.name"[4] == 'c';
    assert |POD_NAME| == 12 && |POD_UID| == 11 && |NODE_NAME| == 13;
  }

  lemma CreatedCarries(existing: set<string>, attributes: Attributes, k8s: Attributes, k: string)
    ensures Carries(Created(existing, attributes, k8s), existing, attributes, k, if k in k8s then k8s[k] else "")
  {
  }
}
