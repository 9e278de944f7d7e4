/** Version precedence, as section 11 of Semantic Versioning 2.0.0 defines it. */
module Semver {
  import opened Text

  datatype Identifier = Number(value: nat) | Word(text: string)

  datatype Version = Version(major: nat, minor: nat, patch: nat, pre: seq<Identifier>)

  predicate IdentifierLess(a: Identifier, b: Identifier) {
    match (a, b)
    case (Number(m), Number(n)) => m < n
    case (Number(_), Word(_)) => true
    case (Word(_), Number(_)) => false
    case (Word(s), Word(t)) => Before(s, t)
  }

  /** Identifier by identifier; a longer list wins when everything before is equal. */
  predicate PreLess(a: seq<Identifier>, b: seq<Identifier>) {
    b != [] && (a == [] || IdentifierLess(a[0], b[0]) || (a[0] == b[0] && PreLess(a[1..], b[1..])))
  }

  /** A version without a pre-release ranks above its pre-releases. */
  predicate Less(a: Version, b: Version) {
    if a.major != b.major then a.major < b.major
    else if a.minor != b.minor then a.minor < b.minor
    else if a.patch != b.patch then a.patch < b.patch
    else if a.pre == [] then false
    else if b.pre == [] then true
    else PreLess(a.pre, b.pre)
  }

  lemma IdentifierOrder(a: Identifier, b: Identifier, c: Identifier)
    ensures IdentifierLess(a, b) && IdentifierLess(b, c) ==> IdentifierLess(a, c)
    ensures IdentifierLess(a, b) || a == b || IdentifierLess(b, a)
    ensures !(IdentifierLess(a, b) && IdentifierLess(b, a)) && !IdentifierLess(a, a)
  {
    if a.Word? && b.Word? {
      BeforeTotal(a.text, b.text);
      if c.Word? && IdentifierLess(a, b) && IdentifierLess(b, c) { BeforeTransitive(a.text, b.text, c.text); }
    }
    if a.Word? { BeforeTotal(a.text, a.text); }
  }

  lemma {:induction false} PreTransitive(a: seq<Identifier>, b: seq<Identifier>, c: seq<Identifier>)
    requires PreLess(a, b) && PreLess(b, c)
    ensures PreLess(a, c)
    decreases |a|
  {
    if a == [] {
    } else {
      IdentifierOrder(a[0], b[0], c[0]);
      if a[0] == b[0] == c[0] { PreTransitive(a[1..], b[1..], c[1..]); }
    }
  }

  lemma {:induction false} PreTotal(a: seq<Identifier>, b: seq<Identifier>)
    ensures PreLess(a, b) || a == b || PreLess(b, a)
    ensures !(PreLess(a, b) && PreLess(b, a)) && (a == b ==> !PreLess(a, b))
    decreases |a|
  {
    if a != [] && b != [] {
      IdentifierOrder(a[0], b[0], a[0]);
      PreTotal(a[1..], b[1..]);
      if a[0] == b[0] { assert a == [a[0]] + a[1..] && b == [b[0]] + b[1..]; }
    }
  }

  lemma LessTransitive(a: Version, b: Version, c: Version)
    requires Less(a, b) && Less(b, c)
    ensures Less(a, c)
  {
    if a.pre != [] && b.pre != [] && c.pre != [] && PreLess(a.pre, b.pre) && PreLess(b.pre, c.pre) {
      PreTransitive(a.pre, b.pre, c.pre);
    }
  }

  /** Exactly one of less, equal and greater holds. */
  lemma LessTotal(a: Version, b: Version)
    ensures Less(a, b) || a == b || Less(b, a)
    ensures !(Less(a, b) && Less(b, a)) && (a == b ==> !Less(a, b))
  {
    PreTotal(a.pre, b.pre);
  }

  /** The order is cut in two at any point. */
  lemma NotLessTransitive(a: Version, b: Version, c: Version)
    requires !Less(b, a) && Less(b, c)
    ensures Less(a, c)
  {
    LessTotal(a, b);
    if a != b { LessTransitive(a, b, c); }
  }

  /** The first identifier that differs decides; if none does, more identifiers rank higher. */
  lemma {:induction false} PreIsDecided(a: seq<Identifier>, b: seq<Identifier>, k: nat)
    requires k <= |a| && k <= |b| && a[..k] == b[..k]
    ensures k < |a| && k < |b| && a[k] != b[k] ==> (PreLess(a, b) <==> IdentifierLess(a[k], b[k]))
    ensures k == |a| < |b| ==> PreLess(a, b)
    decreases k
  {
    if k == 0 {
      if a != [] && b != [] { IdentifierOrder(a[0], b[0], a[0]); }
    } else {
      assert a[0] == a[..k][0] == b[0];
      assert a[1..][..k - 1] == a[..k][1..] && b[1..][..k - 1] == b[..k][1..];
      IdentifierOrder(a[0], b[0], a[0]);
      PreIsDecided(a[1..], b[1..], k - 1);
    }
  }

  /** The chain of examples in section 11: alpha, alpha.1, alpha.beta, beta, beta.2, beta.11, rc.1, release. */
  lemma StandardExamples()
    ensures var v := (pre: seq<Identifier>) => Version(1, 0, 0, pre);
            && Less(v([Word("alpha")]), v([Word("alpha"), Number(1)]))
            && Less(v([Word("alpha"), Number(1)]), v([Word("alpha"), Word("beta")]))
            && Less(v([Word("alpha"), Word("beta")]), v([Word("beta")]))
            && Less(v([Word("beta")]), v([Word("beta"), Number(2)]))
            && Less(v([Word("beta"), Number(2)]), v([Word("beta"), Number(11)]))
            && Less(v([Word("beta"), Number(11)]), v([Word("rc"), Number(1)]))
            && Less(v([Word("rc"), Number(1)]), v([]))
    ensures Less(Version(1, 0, 0, []), Version(2, 0, 0, [])) && Less(Version(2, 0, 0, []), Version(2, 1, 0, []))
    ensures Less(Version(2, 1, 0, []), Version(2, 1, 1, []))
  {
    PreIsDecided([Word("alpha")], [Word("alpha"), Number(1)], 1);
    PreIsDecided([Word("alpha"), Number(1)], [Word("alpha"), Word("beta")], 1);
    BeforeIsDecided("alpha", "beta", 0);
    PreIsDecided([Word("beta")], [Word("beta"), Number(2)], 1);
    PreIsDecided([Word("beta"), Number(2)], [Word("beta"), Number(11)], 1);
    BeforeIsDecided("beta", "rc", 0);
  }
}
