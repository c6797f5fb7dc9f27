/**
 * The requirement entries of a bundle manifest: "name;bundle-version=[1.0.0,2.0.0), name".
 * The parser moves a cursor over the text; what it reads is defined on the text ahead of it.
 */
module Manifests {
  import opened Options
  import opened Versions
  import opened Decimals
  import opened Resolution

  // ---- Versions ----

  /** A number and what follows it. */
  function Digits(s: string): nat {
    Read(s[..DigitCount(s)])
  }

  function AfterDigits(s: string): (r: string)
    ensures r == [] || !IsDigit(r[0])
  {
    s[DigitCount(s)..]
  }

  /** What a version string stands for: one to three numbers, and a designation only after the third. */
  function VersionOf(s: string): Option<Version> {
    if s == [] then Some(ZERO_VERSION)
    else if !IsDigit(s[0]) then None
    else
      var major, afterMajor := Digits(s), AfterDigits(s);
      if afterMajor == [] then Some(Version(major, 0, 0, ""))
      else if afterMajor[0] != '.' then None
      else
        var minor, afterMinor := Digits(afterMajor[1..]), AfterDigits(afterMajor[1..]);
        if afterMinor == [] then Some(Version(major, minor, 0, ""))
        else if afterMinor[0] != '.' then None
        else
          var revision, rest := Digits(afterMinor[1..]), AfterDigits(afterMinor[1..]);
          if rest == [] then Some(Version(major, minor, revision, ""))
          else if rest[0] != '-' then None
          else Some(Version(major, minor, revision, rest[1..]))
  }

  predicate Natural(v: Version) {
    v.major >= 0 && v.minor >= 0 && v.revision >= 0
  }

  function VersionString(v: Version): string
    requires Natural(v)
  {
    Print(v.major) + "." + Print(v.minor) + "." + Print(v.revision) + if v.designation == [] then "" else "-" + v.designation
  }

  lemma NumberThen(n: nat, rest: string)
    requires rest == [] || !IsDigit(rest[0])
    ensures Digits(Print(n) + rest) == n && AfterDigits(Print(n) + rest) == rest
  {
    DigitsThen(Print(n), rest);
    ReadsPrinted(n);
  }

  /** Parsing a printed version gives back the version, designation included. */
  lemma VersionIsReadBack(v: Version)
    requires Natural(v)
    ensures VersionOf(VersionString(v)) == Some(v)
  {
    var tail := if v.designation == [] then "" else "-" + v.designation;
    var three := Print(v.revision) + tail;
    var two := Print(v.minor) + ("." + three);
    var s := VersionString(v);
    assert s == Print(v.major) + ("." + two);
    NumberThen(v.major, "." + two);
    assert ("." + two)[1..] == two;
    NumberThen(v.minor, "." + three);
    assert ("." + three)[1..] == three;
    NumberThen(v.revision, tail);
    assert s[0] == Print(v.major)[0];
    if v.designation != [] {
      assert tail[1..] == v.designation;
    }
  }

  /** Adds up decimal digits from a position on. */
  method ParseNumber(str: string, start: nat) returns (value: nat, it: nat)
    requires start <= |str|
    ensures start <= it <= |str|
    ensures value == Digits(str[start..]) && str[it..] == AfterDigits(str[start..])
  {
    value, it := 0, start;
    while it < |str| && IsDigit(str[it])
      invariant start <= it <= |str|
      invariant AllDigits(str[start..it]) && value == Read(str[start..it])
    {
      assert str[start..it + 1][..it - start] == str[start..it];
      value := 10 * value + DigitValue(str[it]);
      it := it + 1;
    }
    DigitsThen(str[start..it], str[it..]);
    assert str[start..] == str[start..it] + str[it..];
  }

  method ParseVersion(str: string) returns (version: Option<Version>)
    ensures version == VersionOf(str)
  {
    hide Digits, AfterDigits;
    var maj, min, rev, designation := 0, 0, 0, "";
    var it := 0;
    assert str[0..] == str;
    if str != [] && IsDigit(str[0]) {
      maj, it := ParseNumber(str, 0);
      if it < |str| && str[it] == '.' {
        assert str[it..][1..] == str[it + 1..];
        min, it := ParseNumber(str, it + 1);
        if it < |str| && str[it] == '.' {
          assert str[it..][1..] == str[it + 1..];
          rev, it := ParseNumber(str, it + 1);
          if it < |str| && str[it] == '-' {
            assert str[it..][1..] == str[it + 1..];
            designation := str[it + 1..];
            it := |str|;
          }
        }
      }
    }
    if it == |str| {
      return Some(Version(maj, min, rev, designation));
    }
    return None;
  }

  // ---- Items ----

  datatype Failure = ManifestError | VersionError | RangeAssertion

  /** NeverEnds stands for the endless loop of a ';' where a name should be. */
  datatype Outcome = Parsed(dependencies: seq<Dependency>) | Failed(failure: Failure) | NeverEnds

  datatype Reading = Wrong(failure: Failure) | Done(versions: VersionRange, rest: string)

  function DropSpaces(s: string): (r: string)
    ensures |r| <= |s| && (r == [] || !IsSpace(r[0]))
  {
    if s != [] && IsSpace(s[0]) then DropSpaces(s[1..]) else s
  }

  /** The length of the word at the start of a text; a word ends at white space or at one of the stops. */
  function WordLength(s: string, stops: set<char>): (n: nat)
    ensures n <= |s| && (n < |s| ==> IsSpace(s[n]) || s[n] in stops)
  {
    if s == [] || IsSpace(s[0]) || s[0] in stops then 0 else 1 + WordLength(s[1..], stops)
  }

  function RangeAt(s: string): (r: Reading)
    requires s != []
    ensures r.Done? ==> |r.rest| < |s|
  {
    var lowerText := DropSpaces(s[1..]);
    var n := WordLength(lowerText, {','});
    var comma := DropSpaces(lowerText[n..]);
    if comma == [] || comma[0] != ',' then Done(NO_RANGE, comma)
    else
      UpperAt(DropSpaces(comma[1..]), lowerText[..n], s[0] == '[')
  }

  /** The upper end of a range and its closing bracket. */
  function UpperAt(s: string, lowerText: string, includeLower: bool): (r: Reading)
    ensures r.Done? ==> |r.rest| <= |s|
  {
    var m := WordLength(s, {')', ']'});
    var close := DropSpaces(s[m..]);
    if close == [] || (close[0] != ')' && close[0] != ']') then Wrong(ManifestError)
    else match (VersionOf(lowerText), VersionOf(s[..m]))
      case (Some(lower), Some(upper)) =>
        if lower.Le(upper) then Done(VersionRange(lower, includeLower, upper, close[0] == ']'), close[1..])
        else Wrong(RangeAssertion)
      case _ => Wrong(VersionError)
  }

  /** A version, or a range. */
  function ValueAt(s: string): (r: Reading)
    ensures r.Done? ==> |r.rest| <= |s|
  {
    if s == [] then Wrong(ManifestError)
    else if s[0] == '(' || s[0] == '[' then RangeAt(s)
    else
      var n := WordLength(s, {','});
      match VersionOf(s[..n])
      case None => Wrong(VersionError)
      case Some(version) => Done(Exactly(version), s[n..])
  }

  /** What follows a name: nothing, or ';', the keyword, '=' and a version or a range. */
  function VersionsAt(s: string, keyword: string): (r: Reading)
    ensures r.Done? ==> |r.rest| <= |s|
  {
    if s == [] || s[0] != ';' then Done(NO_RANGE, s)
    else
      var word := DropSpaces(s[1..]);
      var k := WordLength(word, {'='});
      var equals := DropSpaces(word[k..]);
      if word[..k] != keyword || equals == [] || equals[0] != '=' then Wrong(ManifestError)
      else ValueAt(DropSpaces(equals[1..]))
  }

  function Prepend(d: Dependency, outcome: Outcome): Outcome {
    match outcome
    case Parsed(ds) => Parsed([d] + ds)
    case _ => outcome
  }

  function DropComma(s: string): string {
    if s != [] && s[0] == ',' then s[1..] else s
  }

  /** What a requirement entry stands for. */
  function ItemsOf(s: string, keyword: string): Outcome
    decreases |s|
  {
    var t := DropSpaces(s);
    var n := WordLength(t, {',', ';'});
    if t == [] then Parsed([])
    else if n == 0 then if t[0] == ',' then ItemsOf(t[1..], keyword) else NeverEnds
    else match VersionsAt(DropSpaces(t[n..]), keyword)
      case Wrong(failure) => Failed(failure)
      case Done(versions, rest) => Prepend(Dependency(t[..n], versions), ItemsOf(DropComma(rest), keyword))
  }

  // ---- The parser ----

  method SkipSpaces(s: string, start: nat) returns (it: nat)
    requires start <= |s|
    ensures start <= it <= |s| && s[it..] == DropSpaces(s[start..])
  {
    it := start;
    while it < |s| && IsSpace(s[it])
      invariant start <= it <= |s| && DropSpaces(s[it..]) == DropSpaces(s[start..])
    {
      assert s[it..][1..] == s[it + 1..];
      it := it + 1;
    }
  }

  method TakeWord(s: string, start: nat, stops: set<char>) returns (word: string, it: nat)
    requires start <= |s|
    ensures start <= it <= |s|
    ensures var n := WordLength(s[start..], stops); word == s[start..][..n] && s[it..] == s[start..][n..] && it == start + n
  {
    word, it := [], start;
    while it < |s| && !IsSpace(s[it]) && s[it] !in stops
      invariant start <= it <= |s| && word == s[start..it]
      invariant WordLength(s[start..], stops) == it - start + WordLength(s[it..], stops)
    {
      assert s[it..][1..] == s[it + 1..];
      word := word + [s[it]];
      it := it + 1;
    }
  }

  /** The cursor stands behind a name and the white space after it. */
  method ParseVersions(s: string, start: nat, keyword: string) returns (r: Reading, it: nat)
    requires start <= |s|
    ensures r.Done? ==> start <= it <= |s| && s[it..] == r.rest
    ensures r == VersionsAt(s[start..], keyword)
  {
    hide DropSpaces, WordLength, ValueAt;
    it := start;
    if it == |s| || s[it] != ';' {
      return Done(NO_RANGE, s[it..]), it;
    }
    assert s[it..][1..] == s[it + 1..];
    it := SkipSpaces(s, it + 1);
    var word;
    word, it := TakeWord(s, it, {'='});
    if word != keyword {
      return Wrong(ManifestError), it;
    }
    it := SkipSpaces(s, it);
    if it == |s| || s[it] != '=' {
      return Wrong(ManifestError), it;
    }
    assert s[it..][1..] == s[it + 1..];
    it := SkipSpaces(s, it + 1);
    r, it := ParseValue(s, it);
  }

  method ParseValue(s: string, start: nat) returns (r: Reading, it: nat)
    requires start <= |s|
    ensures r.Done? ==> start <= it <= |s| && s[it..] == r.rest
    ensures r == ValueAt(s[start..])
  {
    hide WordLength, VersionOf, RangeAt;
    it := start;
    if it == |s| {
      return Wrong(ManifestError), it;
    }
    if s[it] == '(' || s[it] == '[' {
      r, it := ParseRange(s, it);
    } else {
      var versionStr;
      versionStr, it := TakeWord(s, it, {','});
      var version := ParseVersion(versionStr);
      r := if version.None? then Wrong(VersionError) else Done(Exactly(version.value), s[it..]);
    }
  }

  /** The cursor stands at the opening bracket. A range without a comma is dropped silently. */
  method ParseRange(s: string, start: nat) returns (r: Reading, it: nat)
    requires start < |s|
    ensures r.Done? ==> start <= it <= |s| && s[it..] == r.rest
    ensures r == RangeAt(s[start..])
  {
    hide DropSpaces, WordLength, VersionOf;
    var includeLower := s[start] == '[';
    assert s[start..][1..] == s[start + 1..];
    it := SkipSpaces(s, start + 1);
    var lowerStr, upperStr;
    lowerStr, it := TakeWord(s, it, {','});
    it := SkipSpaces(s, it);
    if it == |s| || s[it] != ',' {
      return Done(NO_RANGE, s[it..]), it;
    }
    assert s[it..][1..] == s[it + 1..];
    it := SkipSpaces(s, it + 1);
    upperStr, it := TakeWord(s, it, {')', ']'});
    it := SkipSpaces(s, it);
    if it == |s| || (s[it] != ')' && s[it] != ']') {
      return Wrong(ManifestError), it;
    }
    var includeUpper := s[it] == ']';
    assert s[it..][1..] == s[it + 1..];
    it := it + 1;
    var lower := ParseVersion(lowerStr);
    var upper := ParseVersion(upperStr);
    if lower.None? || upper.None? {
      return Wrong(VersionError), it;
    }
    if !lower.value.Le(upper.value) {
      return Wrong(RangeAssertion), it;
    }
    return Done(VersionRange(lower.value, includeLower, upper.value, includeUpper), s[it..]), it;
  }

  function Ahead(dependencies: seq<Dependency>, outcome: Outcome): Outcome {
    match outcome
    case Parsed(ds) => Parsed(dependencies + ds)
    case _ => outcome
  }

  lemma AheadStep(dependencies: seq<Dependency>, d: Dependency, outcome: Outcome)
    ensures Ahead([], outcome) == outcome
    ensures Ahead(dependencies, Prepend(d, outcome)) == Ahead(dependencies + [d], outcome)
    ensures !outcome.Parsed? ==> Ahead(dependencies, outcome) == outcome
    ensures Ahead(dependencies, Parsed([])) == Parsed(dependencies)
  {
    if outcome.Parsed? {
      assert dependencies + ([d] + outcome.dependencies) == dependencies + [d] + outcome.dependencies;
    }
  }

  /** One turn of the loop: white space, a name, what follows it, a comma. */
  lemma OneTurn(s: string, keyword: string)
    ensures var t := DropSpaces(s);
      var n := WordLength(t, {',', ';'});
      ItemsOf(s, keyword) ==
        if t == [] then Parsed([])
        else if n == 0 then if t[0] == ',' then ItemsOf(t[1..], keyword) else NeverEnds
        else
          var r := VersionsAt(DropSpaces(t[n..]), keyword);
          if r.Wrong? then Failed(r.failure)
          else Prepend(Dependency(t[..n], r.versions), ItemsOf(DropComma(r.rest), keyword))
  {
  }

  method ParseRequiredItems(requiredItems: string, keyword: string) returns (outcome: Outcome)
    ensures outcome == ItemsOf(requiredItems, keyword)
  {
    hide DropSpaces, WordLength, VersionsAt, ItemsOf, Ahead, Prepend;
    var dependencies: seq<Dependency> := [];
    var it := 0;
    assert requiredItems[0..] == requiredItems;
    AheadStep([], Dependency("", NO_RANGE), ItemsOf(requiredItems, keyword));
    OneTurn("", keyword);
    NothingToDrop("");
    while it < |requiredItems|
      invariant 0 <= it <= |requiredItems|
      invariant ItemsOf(requiredItems, keyword) == Ahead(dependencies, ItemsOf(requiredItems[it..], keyword))
      decreases |requiredItems| - it
    {
      OneTurn(requiredItems[it..], keyword);
      it := SkipSpaces(requiredItems, it);
      var name;
      name, it := TakeWord(requiredItems, it, {',', ';'});
      if name != [] {
        it := SkipSpaces(requiredItems, it);
        var r;
        r, it := ParseVersions(requiredItems, it, keyword);
        if r.Wrong? {
          AheadStep(dependencies, Dependency(name, NO_RANGE), Failed(r.failure));
          return Failed(r.failure);
        }
        AheadStep(dependencies, Dependency(name, r.versions), ItemsOf(DropComma(r.rest), keyword));
        dependencies := dependencies + [Dependency(name, r.versions)];
      }
      if it < |requiredItems| && requiredItems[it] == ',' {
        assert requiredItems[it..][1..] == requiredItems[it + 1..];
        it := it + 1;
      } else if name == [] && it < |requiredItems| {
        AheadStep(dependencies, Dependency(name, NO_RANGE), NeverEnds);
        return NeverEnds; // the cursor stands at a ';' and does not move any more
      }
      assert it == |requiredItems| ==> requiredItems[it..] == "";
    }
    assert requiredItems[it..] == "";
    AheadStep(dependencies, Dependency("", NO_RANGE), Parsed([]));
    return Parsed(dependencies);
  }

  lemma NothingToDrop(s: string)
    requires s == [] || !IsSpace(s[0])
    ensures DropSpaces(s) == s
  {
  }

  // ---- Words ----

  predicate IsWord(s: string, stops: set<char>) {
    forall i :: 0 <= i < |s| ==> !IsSpace(s[i]) && s[i] !in stops
  }

  predicate IsKeyword(keyword: string) {
    keyword != [] && IsWord(keyword, {'='})
  }

  lemma {:induction false} WordThen(word: string, rest: string, stops: set<char>)
    requires IsWord(word, stops) && (rest == [] || IsSpace(rest[0]) || rest[0] in stops)
    ensures WordLength(word + rest, stops) == |word|
    ensures (word + rest)[..|word|] == word && (word + rest)[|word|..] == rest
  {
    if word != [] {
      assert (word + rest)[1..] == word[1..] + rest && word[0] == (word + rest)[0];
      WordThen(word[1..], rest, stops);
    }
  }

  lemma VersionIsWord(v: Version, stops: set<char>)
    requires Natural(v) && IsWord(v.designation, stops)
    requires '.' !in stops && '-' !in stops && forall c :: IsDigit(c) ==> c !in stops
    ensures IsWord(VersionString(v), stops)
    ensures VersionString(v) != [] && IsDigit(VersionString(v)[0])
  {
    var a, b, c := Print(v.major), Print(v.minor), Print(v.revision);
    assert IsWord(a, stops) && IsWord(b, stops) && IsWord(c, stops);
    assert IsWord(a + "." + b + "." + c, stops);
  }
}
