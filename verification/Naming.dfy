/** Object names and label values that fit Kubernetes: truncation, trimming and DNS labels. */
module Naming {

  // ------------------------------------------------------------------ formatting

  /** A format is literal text and places for values. In `Truncate` a character stands for one byte. */
  datatype Piece = Lit(text: string) | Arg

  /** A value is a string, which may be shortened, or something else that renders as `text`. */
  datatype Value = Str(text: string) | Other(text: string)

  function Args(format: seq<Piece>): nat {
    if format == [] then 0 else (if format[0].Arg? then 1 else 0) + Args(format[1..])
  }

  function Sprintf(format: seq<Piece>, values: seq<Value>): string
    requires Args(format) == |values|
  {
    if format == [] then ""
    else match format[0]
      case Lit(text) => text + Sprintf(format[1..], values)
      case Arg => values[0].text + Sprintf(format[1..], values[1..])
  }

  /** The bytes that truncation can give up: those of string values. */
  function Flexible(values: seq<Value>): nat {
    if values == [] then 0 else (if values[0].Str? then |values[0].text| else 0) + Flexible(values[1..])
  }

  /** The bytes of the literal text and of the other values. */
  function Fixed(format: seq<Piece>, values: seq<Value>): nat
    requires Args(format) == |values|
  {
    if format == [] then 0
    else match format[0]
      case Lit(text) => |text| + Fixed(format[1..], values)
      case Arg => (if values[0].Other? then |values[0].text| else 0) + Fixed(format[1..], values[1..])
  }

  lemma {:induction false} SprintfLength(format: seq<Piece>, values: seq<Value>)
    requires Args(format) == |values|
    ensures |Sprintf(format, values)| == Fixed(format, values) + Flexible(values)
    decreases |format|
  {
    if format == [] {
    } else {
      SprintfLength(format[1..], if format[0].Arg? then values[1..] else values);
    }
  }

  // ------------------------------------------------------------------ truncation

  /** Takes `excess` bytes off the strings, the earliest first: a string that is not long enough becomes empty. */
  function Shrink(values: seq<Value>, excess: nat): seq<Value> {
    if values == [] then []
    else match values[0]
      case Other(_) => [values[0]] + Shrink(values[1..], excess)
      case Str(s) =>
        if |s| >= excess then [Str(s[..|s| - excess])] + Shrink(values[1..], 0)
        else [Str("")] + Shrink(values[1..], excess - |s|)
  }

  lemma {:induction false} ShrinkLengths(format: seq<Piece>, values: seq<Value>, excess: nat)
    requires Args(format) == |values|
    ensures |Shrink(values, excess)| == |values|
    ensures Fixed(format, Shrink(values, excess)) == Fixed(format, values)
    decreases |format|
  {
    ShrinkSize(values, excess);
    if format != [] {
      match format[0]
      case Lit(_) =>
        ShrinkLengths(format[1..], values, excess);
      case Arg =>
        var excess' := if values[0].Other? then excess
                        else if |values[0].text| >= excess then 0 else excess - |values[0].text|;
        ShrinkLengths(format[1..], values[1..], excess');
        assert Shrink(values, excess)[1..] == Shrink(values[1..], excess');
    }
  }

  lemma {:induction false} ShrinkSize(values: seq<Value>, excess: nat)
    ensures |Shrink(values, excess)| == |values|
    ensures Flexible(Shrink(values, excess)) == if excess <= Flexible(values) then Flexible(values) - excess else 0
    ensures excess == 0 ==> Shrink(values, excess) == values
    decreases |values|
  {
    if values == [] {
    } else {
      var excess' := if values[0].Other? then excess
                        else if |values[0].text| >= excess then 0 else excess - |values[0].text|;
      ShrinkSize(values[1..], excess');
      var shrunk := Shrink(values, excess);
      assert shrunk[1..] == Shrink(values[1..], excess');
      if excess == 0 {
        assert values[0].Str? ==> values[0] == Str(values[0].text[..|values[0].text|]);
        assert values == [values[0]] + values[1..];
      }
    }
  }

  /** Shortening the strings brings the text to the bound exactly, when the fixed part leaves room. */
  lemma ShrinkReachesBound(format: seq<Piece>, values: seq<Value>, max: nat)
    requires Args(format) == |values| && |Sprintf(format, values)| > max
    ensures var shrunk := Shrink(values, |Sprintf(format, values)| - max);
            && |shrunk| == |values|
            && |Sprintf(format, shrunk)| == if Fixed(format, values) <= max then max else Fixed(format, values)
  {
    var excess := |Sprintf(format, values)| - max;
    SprintfLength(format, values);
    ShrinkSize(values, excess);
    ShrinkLengths(format, values, excess);
    SprintfLength(format, Shrink(values, excess));
  }

  /** What a value is cut to, and what is then left of the excess. */
  function Cut(value: Value, excess: nat): Value {
    if value.Str? then Str(if |value.text| > excess then value.text[..|value.text| - excess] else "") else value
  }

  function Left(value: Value, excess: nat): nat {
    if value.Str? then if |value.text| > excess then 0 else excess - |value.text| else excess
  }

  lemma CutNothing(value: Value)
    ensures Cut(value, 0) == value && Left(value, 0) == 0
  {
    if value.Str? && |value.text| > 0 { assert value.text[..|value.text|] == value.text; }
  }

  lemma ShrinkFirst(values: seq<Value>, excess: nat)
    requires values != []
    ensures Shrink(values, excess) == [Cut(values[0], excess)] + Shrink(values[1..], Left(values[0], excess))
  {
    if values[0].Str? && |values[0].text| == excess { assert values[0].text[..0] == ""; }
  }

  /** A value after shortening: another value is kept, and a string keeps its front. */
  ghost predicate KeepsFront(value: Value, shrunk: Value) {
    if value.Other? then shrunk == value else shrunk.Str? && shrunk.text <= value.text
  }

  /** Strings lose their ends only, and one is cut only once all strings before it are empty. */
  lemma {:induction false} ShrinkKeepsFronts(values: seq<Value>, excess: nat)
    ensures |Shrink(values, excess)| == |values|
    ensures forall j :: 0 <= j < |values| ==> KeepsFront(values[j], Shrink(values, excess)[j])
    ensures forall i, j :: 0 <= i < j < |values| && values[i].Str? && Shrink(values, excess)[j] != values[j] ==>
                             Shrink(values, excess)[i] == Str("")
    decreases |values|
  {
    if values == [] {
    } else {
      var left := Left(values[0], excess);
      var shrunk, rest := Shrink(values, excess), Shrink(values[1..], left);
      ShrinkFirst(values, excess);
      ShrinkKeepsFronts(values[1..], left);
      ShrinkSize(values[1..], left);
      forall j | 0 < j < |values| ensures values[j] == values[1..][j - 1] && shrunk[j] == rest[j - 1] {}
      assert values[0].Str? && left > 0 ==> shrunk[0] == Str("");
      forall i, j | 0 <= i < j < |values| && values[i].Str? && shrunk[j] != values[j] ensures shrunk[i] == Str("") {
        assert rest[j - 1] != values[1..][j - 1];
        if i == 0 {
          assert left > 0;
        } else {
          assert rest[i - 1] == Str("");
        }
      }
    }
  }

  // ------------------------------------------------------------------ trimming

  predicate AlphaNumeric(c: char) {
    'A' <= c <= 'Z' || 'a' <= c <= 'z' || '0' <= c <= '9'
  }

  function TrimEnd(s: string): string {
    if s != "" && !AlphaNumeric(s[|s| - 1]) then TrimEnd(s[..|s| - 1]) else s
  }

  function TrimBegin(s: string): string {
    if s != "" && !AlphaNumeric(s[0]) then TrimBegin(s[1..]) else s
  }

  function TrimNonAlphaNumeric(s: string): string {
    TrimBegin(TrimEnd(s))
  }

  ghost predicate Framed(s: string) {
    s != "" ==> AlphaNumeric(s[0]) && AlphaNumeric(s[|s| - 1])
  }

  ghost predicate NoneAlphaNumeric(s: string) {
    forall c :: c in s ==> !AlphaNumeric(c)
  }

  lemma NoneAlphaNumericConcat(a: string, b: string)
    requires NoneAlphaNumeric(a) && NoneAlphaNumeric(b)
    ensures NoneAlphaNumeric(a + b)
  {
  }

  lemma {:induction false} TrimEndEffect(s: string) returns (b: string)
    ensures s == TrimEnd(s) + b && NoneAlphaNumeric(b)
    ensures TrimEnd(s) != "" ==> AlphaNumeric(TrimEnd(s)[|TrimEnd(s)| - 1])
    decreases |s|
  {
    if s == "" || AlphaNumeric(s[|s| - 1]) {
      b := "";
    } else {
      var most, last := s[..|s| - 1], [s[|s| - 1]];
      assert s == most + last && TrimEnd(s) == TrimEnd(most);
      var b' := TrimEndEffect(most);
      NoneAlphaNumericConcat(b', last);
      b := b' + last;
      assert s == TrimEnd(s) + b' + last;
    }
  }

  lemma {:induction false} TrimBeginEffect(s: string) returns (a: string)
    ensures s == a + TrimBegin(s) && NoneAlphaNumeric(a)
    ensures TrimBegin(s) != "" ==> AlphaNumeric(TrimBegin(s)[0])
    decreases |s|
  {
    if s == "" || AlphaNumeric(s[0]) {
      a := "";
    } else {
      var first, rest := [s[0]], s[1..];
      assert s == first + rest && TrimBegin(s) == TrimBegin(rest);
      var a' := TrimBeginEffect(rest);
      NoneAlphaNumericConcat(first, a');
      a := first + a';
      assert s == first + (a' + TrimBegin(s));
    }
  }

  /** Trimming only drops non-alphanumeric bytes at the two ends, and leaves none there. */
  lemma TrimEffect(s: string) returns (a: string, b: string)
    ensures s == a + TrimNonAlphaNumeric(s) + b && NoneAlphaNumeric(a) && NoneAlphaNumeric(b)
    ensures Framed(TrimNonAlphaNumeric(s))
  {
    var t := TrimEnd(s);
    b := TrimEndEffect(s);
    a := TrimBeginEffect(t);
    var r := TrimBegin(t);
    assert r != "" ==> r[|r| - 1] == t[|t| - 1];
  }

  lemma TrimIsIdentity(s: string)
    ensures TrimNonAlphaNumeric(s) == s <==> Framed(s)
  {
    var a, b := TrimEffect(s);
    if Framed(s) { assert TrimEnd(s) == s; }
  }

  // ------------------------------------------------------------------ Truncate

  ghost function Shortened(format: seq<Piece>, max: nat, values: seq<Value>): string
    requires Args(format) == |values|
  {
    var whole := Sprintf(format, values);
    if |whole| <= max then whole
    else
      ShrinkReachesBound(format, values, max);
      Sprintf(format, Shrink(values, |whole| - max))
  }

  ghost function Truncated(format: seq<Piece>, max: nat, values: seq<Value>): string
    requires Args(format) == |values|
  {
    var s := Shortened(format, max, values);
    if |s| > max then s[..max] else TrimNonAlphaNumeric(s)
  }

  lemma ShrinkOneMore(done: seq<Value>, values: seq<Value>, i: nat, excess: nat, all: seq<Value>)
    requires i < |values| && done + Shrink(values[i..], excess) == all
    ensures done + [Cut(values[i], excess)] + Shrink(values[i + 1..], Left(values[i], excess)) == all
  {
    assert values[i..][1..] == values[i + 1..];
    ShrinkFirst(values[i..], excess);
  }

  /** The loop over the values: what is left of the excess is taken off each string in turn. */
  method ShortenValues(values: seq<Value>, excess0: nat) returns (truncated: seq<Value>)
    ensures truncated == Shrink(values, excess0)
  {
    var excess := excess0;
    truncated := [];
    var i := 0;
    assert values[0..] == values;
    while i < |values|
      invariant 0 <= i <= |values| && excess >= 0
      invariant truncated + Shrink(values[i..], excess) == Shrink(values, excess0)
    {
      ShrinkOneMore(truncated, values, i, excess, Shrink(values, excess0));
      var value, left := ShortenValue(values[i], excess);
      truncated := truncated + [value];
      excess := left;
      i := i + 1;
    }
  }

  method ShortenValue(value0: Value, excess0: nat) returns (value: Value, excess: nat)
    ensures value == Cut(value0, excess0) && excess == Left(value0, excess0)
  {
    value, excess := value0, excess0;
    if excess == 0 {
      CutNothing(value);
      return;
    }
    if value.Str? {
      var s := value.text;
      if |s| > excess {
        value := Str(s[..|s| - excess]);
        excess := 0;
      } else {
        value := Str("");
        excess := excess - |s|;
      }
    }
  }

  method Truncate(format: seq<Piece>, max: nat, values: seq<Value>) returns (result: string)
    requires Args(format) == |values|
    ensures result == Truncated(format, max, values)
  {
    result := Sprintf(format, values);
    if |result| > max {
      ShrinkReachesBound(format, values, max);
      var truncated := ShortenValues(values, |result| - max);
      result := Sprintf(format, truncated);
    }
    if |result| > max {
      return result[..max];
    }
    result := TrimNonAlphaNumeric(result);
  }

  /** The result never exceeds the bound. */
  lemma TruncateBound(format: seq<Piece>, max: nat, values: seq<Value>)
    requires Args(format) == |values|
    ensures |Truncated(format, max, values)| <= max
  {
    var a, b := TrimEffect(Shortened(format, max, values));
  }

  /** When the fixed part leaves room there is no hard cap, so the result is empty or framed by alphanumerics. */
  lemma TruncateFrames(format: seq<Piece>, max: nat, values: seq<Value>)
    requires Args(format) == |values| && Fixed(format, values) <= max
    ensures |Shortened(format, max, values)| <= max
    ensures Truncated(format, max, values) == TrimNonAlphaNumeric(Shortened(format, max, values))
    ensures Framed(Truncated(format, max, values))
  {
    if |Sprintf(format, values)| > max { ShrinkReachesBound(format, values, max); }
    var a, b := TrimEffect(Shortened(format, max, values));
  }

  function Emptied(values: seq<Value>): seq<Value> {
    seq(|values|, j requires 0 <= j < |values| => if values[j].Str? then Str("") else values[j])
  }

  lemma {:induction false} ShrinkAll(values: seq<Value>, excess: nat)
    requires excess >= Flexible(values)
    ensures Shrink(values, excess) == Emptied(values)
    decreases |values|
  {
    if values == [] {
    } else {
      ShrinkFirst(values, excess);
      ShrinkAll(values[1..], Left(values[0], excess));
      assert Emptied(values) == [Cut(values[0], excess)] + Emptied(values[1..]);
    }
  }

  /** When the fixed part alone does not fit, all strings are given up and the front of what is left is kept. */
  lemma TruncateCaps(format: seq<Piece>, max: nat, values: seq<Value>)
    requires Args(format) == |values| && Fixed(format, values) > max
    ensures |Truncated(format, max, values)| == max
    ensures Truncated(format, max, values) <= Sprintf(format, Emptied(values))
  {
    SprintfLength(format, values);
    ShrinkReachesBound(format, values, max);
    ShrinkAll(values, |Sprintf(format, values)| - max);
  }

  /** Truncation is the identity exactly on texts that fit and are framed. */
  lemma TruncateIsIdentity(format: seq<Piece>, max: nat, values: seq<Value>)
    requires Args(format) == |values|
    ensures Truncated(format, max, values) == Sprintf(format, values) <==>
            |Sprintf(format, values)| <= max && Framed(Sprintf(format, values))
  {
    TruncateBound(format, max, values);
    TrimIsIdentity(Sprintf(format, values));
  }

  // ------------------------------------------------------------------ DNS names

  /** A rune that needs no replacement. */
  predicate LowerAlphaNumeric(c: char) {
    'a' <= c <= 'z' || '0' <= c <= '9'
  }

  /** The number of bytes a rune takes in UTF-8. */
  function Width(c: char): nat {
    var n := c as int;
    if n < 0x80 then 1 else if n < 0x800 then 2 else if n < 0x1_0000 then 3 else 4
  }

  function Bytes(s: string): nat {
    if s == "" then 0 else Bytes(s[..|s| - 1]) + Width(s[|s| - 1])
  }

  ghost predicate Safe(c: char) {
    LowerAlphaNumeric(c) || c == '-'
  }

  /** The lower-cased runes of a name; `lower` is the case mapping of single runes. */
  function Lowered(name: string, lower: char -> char): string {
    seq(|name|, i requires 0 <= i < |name| => lower(name[i]))
  }

  /** The replacement of rune `i`, whose offset in bytes is `offset`, in a name of `count` runes. */
  function Replacement(c: char, offset: nat, count: nat): char {
    if LowerAlphaNumeric(c) then c else if offset == 0 || offset == count - 1 then 'a' else '-'
  }

  ghost function DNSNameOf(name: string, lower: char -> char): string {
    var low := Lowered(name, lower);
    seq(|name|, i requires 0 <= i < |name| => Replacement(low[i], Bytes(low[..i]), |name|))
  }

  /** A rune that is a lower-case letter or digit stays; another one is `a` at either end, as the code sees it. */
  ghost predicate ReplacedAt(name: string, lower: char -> char, i: nat, d: char)
    requires i < |name|
  {
    var c, offset := lower(name[i]), Bytes(Lowered(name[..i], lower));
    if ('a' <= c && c <= 'z') || ('0' <= c && c <= '9') then d == c
    else if offset == 0 || offset == |name| - 1 then d == 'a'
    else d == '-'
  }

  lemma DNSNameAt(name: string, lower: char -> char, i: nat)
    requires i < |name|
    ensures ReplacedAt(name, lower, i, DNSNameOf(name, lower)[i])
  {
    assert Lowered(name, lower)[..i] == Lowered(name[..i], lower);
  }

  /** One pass over the lower-cased name. The position it compares is an offset in bytes, the length a rune count. */
  method DNSName(name: string, lower: char -> char) returns (d: string)
    ensures d == DNSNameOf(name, lower)
    ensures |d| == |name| && forall i :: 0 <= i < |name| ==> ReplacedAt(name, lower, i, d[i])
  {
    var low := Lowered(name, lower);
    var offset := 0;
    d := "";
    for i := 0 to |low|
      invariant offset == Bytes(low[..i]) && |d| == i
      invariant forall j :: 0 <= j < i ==> d[j] == Replacement(low[j], Bytes(low[..j]), |name|)
    {
      d := d + [Replacement(low[i], offset, |name|)];
      assert low[..i + 1][..i] == low[..i];
      offset := offset + Width(low[i]);
    }
    forall i | 0 <= i < |name| ensures ReplacedAt(name, lower, i, d[i]) { DNSNameAt(name, lower, i); }
  }

  ghost predicate SingleBytes(s: string) {
    forall i :: 0 <= i < |s| ==> Width(s[i]) == 1
  }

  lemma {:induction false} BytesOfRunes(s: string)
    ensures Bytes(s) >= |s|
    ensures Bytes(s) == |s| <==> SingleBytes(s)
    decreases |s|
  {
    if s == "" {
    } else {
      var t := s[..|s| - 1];
      BytesOfRunes(t);
      assert s == t + [s[|s| - 1]];
    }
  }

  /** Every character of the result is safe, its length in octets is the number of runes, and it starts well. */
  lemma DNSNameIsSafe(name: string, lower: char -> char)
    ensures |DNSNameOf(name, lower)| == |name|
    ensures forall i :: 0 <= i < |name| ==> Safe(DNSNameOf(name, lower)[i])
    ensures name != "" ==> LowerAlphaNumeric(DNSNameOf(name, lower)[0])
  {
  }

  /** It ends well exactly when its last rune needs no replacement, or no rune before it takes several bytes. */
  lemma DNSNameEnd(name: string, lower: char -> char)
    requires name != ""
    ensures var low := Lowered(name, lower);
            LowerAlphaNumeric(DNSNameOf(name, lower)[|name| - 1]) <==>
            LowerAlphaNumeric(low[|name| - 1]) || SingleBytes(low[..|name| - 1])
  {
    var low := Lowered(name, lower);
    BytesOfRunes(low[..|name| - 1]);
  }

  /** A label in the sense of section 2.3.4 of RFC 1035 and section 2.1 of RFC 1123, in lower case. */
  ghost predicate Label(s: string) {
    && 0 < |s| <= 63
    && (forall i :: 0 <= i < |s| ==> Safe(s[i]))
    && LowerAlphaNumeric(s[0]) && LowerAlphaNumeric(s[|s| - 1])
  }

  ghost predicate Ascii(s: string) {
    forall i :: 0 <= i < |s| ==> s[i] as int < 0x80
  }

  ghost predicate LowersAscii(lower: char -> char) {
    forall c: char :: c as int < 0x80 ==> lower(c) == if 'A' <= c <= 'Z' then (c as int + 32) as char else c
  }

  /** Any nonempty ASCII text of at most 63 characters becomes a label. */
  lemma DNSNameOfAscii(name: string, lower: char -> char)
    requires 0 < |name| <= 63 && Ascii(name) && LowersAscii(lower)
    ensures Label(DNSNameOf(name, lower))
  {
    DNSNameIsSafe(name, lower);
    DNSNameEnd(name, lower);
  }

  /** The format `%s` followed by literal text. */
  function Suffixed(suffix: string): (format: seq<Piece>)
    ensures Args(format) == 1
  {
    assert [Arg, Lit(suffix)][1..] == [Lit(suffix)];
    assert Args([Lit(suffix)]) == 0;
    [Arg, Lit(suffix)]
  }

  lemma SuffixedText(suffix: string, text: string)
    ensures Sprintf(Suffixed(suffix), [Str(text)]) == text + suffix
    ensures Fixed(Suffixed(suffix), [Str(text)]) == |suffix|
  {
    assert Suffixed(suffix)[1..] == [Lit(suffix)] && [Lit(suffix)][1..] == [];
    assert [Str(text)][1..] == [];
    assert Sprintf([Lit(suffix)], []) == suffix + "" == suffix;
    assert Fixed([Lit(suffix)], []) == |suffix|;
  }

  /**
   Names such as `%s-collector`, bounded by 63: for every ASCII instance name the object gets a valid label, whenever
   the suffix fits and ends in an alphanumeric character.
   */
  lemma SuffixedNameIsLabel(suffix: string, name: string, lower: char -> char)
    requires 0 < |suffix| <= 63 && AlphaNumeric(suffix[|suffix| - 1])
    requires Ascii(suffix) && Ascii(name) && LowersAscii(lower)
    ensures Label(DNSNameOf(Truncated(Suffixed(suffix), 63, [Str(name)]), lower))
  {
    var format, values := Suffixed(suffix), [Str(name)];
    SuffixedText(suffix, name);
    TruncateFrames(format, 63, values);
    TruncateBound(format, 63, values);
    var s := Shortened(format, 63, values);
    SuffixSurvives(suffix, name);
    var a, b := TrimEffect(s);
    LastSurvives(s, a, TrimNonAlphaNumeric(s), b);
    DNSNameOfAscii(Truncated(format, 63, values), lower);
  }

  lemma LastSurvives(s: string, a: string, t: string, b: string)
    requires s == a + t + b && NoneAlphaNumeric(a) && NoneAlphaNumeric(b)
             && s != "" && AlphaNumeric(s[|s| - 1]) && Ascii(s)
    ensures t != "" && Ascii(t)
  {
    assert b == "" && t != "";
    assert forall i :: 0 <= i < |t| ==> t[i] == s[|a| + i];
  }

  lemma SuffixSurvives(suffix: string, name: string)
    requires 0 < |suffix| <= 63 && Ascii(suffix) && Ascii(name)
    ensures var s := Shortened(Suffixed(suffix), 63, [Str(name)]);
            |s| > 0 && s[|s| - 1] == suffix[|suffix| - 1] && Ascii(s)
  {
    SuffixedText(suffix, name);
    var excess := |name + suffix| - 63;
    if excess > 0 {
      var kept := name[..|name| - excess];
      assert [Str(name)][1..] == [];
      assert Shrink([Str(name)], excess) == [Str(kept)];
      SuffixedText(suffix, kept);
    }
  }

  /** An ASCII name is left as it is exactly when it has no unsafe character and does not start or end with a dash. */
  lemma DNSNameIsIdentity(name: string, lower: char -> char)
    requires name != "" && Ascii(name) && LowersAscii(lower)
    ensures DNSNameOf(name, lower) == name <==>
            && (forall i :: 0 <= i < |name| ==> Safe(name[i]))
            && name[0] != '-' && name[|name| - 1] != '-'
  {
    var d := DNSNameOf(name, lower);
    forall i | 0 <= i < |name| ensures d[i] == name[i] <==> KeptAt(name, i) { AsciiAt(name, lower, i); }
    assert d == name <==> forall i :: 0 <= i < |name| ==> d[i] == name[i];
    if forall i :: 0 <= i < |name| ==> KeptAt(name, i) {
      assert KeptAt(name, 0) && KeptAt(name, |name| - 1);
    }
  }

  ghost predicate KeptAt(name: string, i: nat)
    requires i < |name|
  {
    LowerAlphaNumeric(name[i]) || (name[i] == '-' && 0 < i < |name| - 1)
  }

  lemma AsciiAt(name: string, lower: char -> char, i: nat)
    requires i < |name| && Ascii(name) && LowersAscii(lower)
    ensures DNSNameOf(name, lower)[i] == name[i] <==> KeptAt(name, i)
  {
    var front := Lowered(name[..i], lower);
    DNSNameAt(name, lower, i);
    assert SingleBytes(front);
    BytesOfRunes(front);
  }

  // ------------------------------------------------------------------ the instance label

  /** The format `%s.%s`. */
  function Dotted(): (format: seq<Piece>)
    ensures Args(format) == 2
  {
    var format := [Arg, Lit("."), Arg];
    assert format[1..] == [Lit("."), Arg] && format[1..][1..] == [Arg];
    assert Args([Arg]) == 1;
    assert Args([Lit("."), Arg]) == 1;
    format
  }

  lemma DottedText(a: string, b: string)
    ensures Sprintf(Dotted(), [Str(a), Str(b)]) == a + "." + b
  {
    assert Dotted()[1..] == [Lit("."), Arg] && [Lit("."), Arg][1..] == [Arg];
    assert [Str(a), Str(b)][1..] == [Str(b)];
    assert Sprintf([Arg], [Str(b)]) == b + "" == b;
    assert Sprintf([Lit("."), Arg], [Str(b)]) == "." + b;
  }

  /** The label value that objects get is the plain `namespace.name` exactly when that fits and is framed. */
  lemma InstanceLabelIsPlain(namespace: string, name: string)
    ensures Truncated(Dotted(), 63, [Str(namespace), Str(name)]) == namespace + "." + name <==>
            |namespace| + 1 + |name| <= 63 && namespace != "" && name != "" &&
            AlphaNumeric(namespace[0]) && AlphaNumeric(name[|name| - 1])
  {
    DottedText(namespace, name);
    TruncateIsIdentity(Dotted(), 63, [Str(namespace), Str(name)]);
    var s := namespace + "." + name;
    assert s[0] == if namespace == "" then '.' else namespace[0];
    assert s[|s| - 1] == if name == "" then '.' else name[|name| - 1];
  }
}
