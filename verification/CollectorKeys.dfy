/** Keys of the remote configuration: a collector's name and namespace joined by a slash. */
module CollectorKeys {
  import opened Options
  import opened Text

  datatype CollectorKey = CollectorKey(name: string, namespace: string) {
    function String(): string {
      name + "/" + namespace
    }
  }

  function FromKey(key: string): Option<CollectorKey> {
    var s := Split(key, '/');
    if |s| != 2 then None else Some(CollectorKey(s[0], s[1]))
  }

  ghost predicate SlashFree(k: CollectorKey) {
    '/' !in k.name && '/' !in k.namespace
  }

  /** A key that parses is printed back unchanged. */
  lemma ParseThenPrint(key: string)
    ensures FromKey(key).Some? ==> FromKey(key).value.String() == key && SlashFree(FromKey(key).value)
  {
    JoinSplit(key, '/');
    var s := Split(key, '/');
    if |s| == 2 {
      assert Join(s, '/') == s[0] + ['/'] + Join(s[1..], '/');
      assert s[1..] == [s[1]];
    }
  }

  /** A printed key parses back exactly when neither part holds a slash. */
  lemma PrintThenParse(k: CollectorKey)
    ensures FromKey(k.String()) == Some(k) <==> SlashFree(k)
  {
    SplitConcat(k.name, k.namespace, '/');
    assert k.String() == k.name + ['/'] + k.namespace;
    if SlashFree(k) {
      SplitWhole(k.name, '/');
      SplitWhole(k.namespace, '/');
    }
    ParseThenPrint(k.String());
  }

  /** The name comes before the slash and the namespace after it. */
  lemma KeyParts(name: string, namespace: string)
    requires '/' !in name && '/' !in namespace
    ensures FromKey(name + "/" + namespace).Some?
    ensures FromKey(name + "/" + namespace).value.name == name
    ensures FromKey(name + "/" + namespace).value.namespace == namespace
  {
    assert name + "/" + namespace == name + ['/'] + namespace;
    SplitConcat(name, namespace, '/');
    SplitWhole(name, '/');
    SplitWhole(namespace, '/');
  }
}
