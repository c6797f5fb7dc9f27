/**
 * The texts the parser of requirement entries reads, written down without the parser:
 * which texts are complete entries, and where a text stops being one.
 */
module ManifestEntries {
  import opened Options
  import opened Versions
  import opened Decimals
  import opened Resolution
  import opened Manifests

  // ---- Words between white space ----

  predicate AllSpaces(s: string) {
    forall i :: 0 <= i < |s| ==> IsSpace(s[i])
  }

  predicate NoSpaceAhead(s: string) {
    s == [] || !IsSpace(s[0])
  }

  datatype Padded = Padded(before: string, word: string, after: string) {
    function Text(): string {
      before + word + after
    }

    /** The white space around an empty word counts as standing before it. */
    predicate Proper(stops: set<char>) {
      AllSpaces(before) && AllSpaces(after) && IsWord(word, stops) && (word == [] ==> after == [])
    }

    /** The word and the white space behind it do not go on in rest. */
    predicate EndsBefore(rest: string, stops: set<char>) {
      NoSpaceAhead(rest) && (rest == [] || after != [] || rest[0] in stops)
    }
  }

  // ---- Values, attributes and entries ----

  function Opening(square: bool): string {
    if square then "[" else "("
  }

  function Closing(square: bool): string {
    if square then "]" else ")"
  }

  datatype Value =
    | Plain(text: string)
    | Closed(square: bool, lower: Padded, upper: Padded, squareEnd: bool)
    | CommaMissing(square: bool, lower: Padded)
  {
    function Text(): string {
      match this
      case Plain(text) => text
      case Closed(square, lower, upper, squareEnd) =>
        Opening(square) + lower.Text() + "," + upper.Text() + Closing(squareEnd)
      case CommaMissing(square, lower) => Opening(square) + lower.Text()
    }

    predicate Proper() {
      match this
      case Plain(text) => IsWord(text, {','}) && VersionOf(text).Some?
      case Closed(_, lower, upper, _) =>
        && lower.Proper({','}) && upper.Proper({')', ']'})
        && VersionOf(lower.word).Some? && VersionOf(upper.word).Some?
        && VersionOf(lower.word).value.Le(VersionOf(upper.word).value)
      case CommaMissing(_, lower) => lower.Proper({','})
    }

    /** Nothing of rest would be read as part of the value. */
    predicate EndsBefore(rest: string) {
      match this
      case Plain(text) => (rest == [] || IsSpace(rest[0]) || rest[0] == ',') && (text == [] ==> rest != [] && rest[0] == ',')
      case Closed(_, _, _, _) => true
      case CommaMissing(_, lower) => lower.EndsBefore(rest, {}) && (rest == [] || rest[0] != ',')
    }

    function Meaning(): VersionRange
      requires Proper()
    {
      match this
      case Plain(text) => Exactly(VersionOf(text).value)
      case Closed(square, lower, upper, squareEnd) =>
        VersionRange(VersionOf(lower.word).value, square, VersionOf(upper.word).value, squareEnd)
      case CommaMissing(_, _) => NO_RANGE
    }
  }

  /** What stands behind a name: nothing, or ';', the keyword with what surrounds it, '=' and a value. */
  datatype Attribute = NoAttribute | Attribute(before: string, after: string, gap: string, value: Value) {
    function Text(keyword: string): string {
      match this
      case NoAttribute => ""
      case Attribute(before, after, gap, value) => ";" + Padded(before, keyword, after).Text() + "=" + (gap + value.Text())
    }

    predicate Proper() {
      Attribute? ==> AllSpaces(before) && AllSpaces(after) && AllSpaces(gap) && value.Proper()
    }

    predicate EndsBefore(name: Padded, rest: string) {
      match this
      case NoAttribute => name.EndsBefore(rest, {',', ';'}) && (rest == [] || rest[0] != ';')
      case Attribute(_, _, _, value) => value.EndsBefore(rest)
    }

    function Meaning(): VersionRange
      requires Proper()
    {
      if NoAttribute? then NO_RANGE else value.Meaning()
    }
  }

  datatype Entry = Blank(gap: string) | Named(name: Padded, attribute: Attribute, comma: bool) {
    function Text(keyword: string): string {
      match this
      case Blank(gap) => gap + ","
      case Named(name, attribute, comma) => name.Text() + attribute.Text(keyword) + (if comma then "," else "")
    }

    predicate Proper() {
      match this
      case Blank(gap) => AllSpaces(gap)
      case Named(name, attribute, _) => name.word != [] && name.Proper({',', ';'}) && attribute.Proper()
    }

    predicate EndsBefore(rest: string) {
      Named? ==>
        && attribute.EndsBefore(name, (if comma then "," else "") + rest)
        && (comma || rest == [] || rest[0] != ',')
    }

    function Meaning(): seq<Dependency>
      requires Proper()
    {
      if Blank? then [] else [Dependency(name.word, attribute.Meaning())]
    }
  }

  function TextOf(entries: seq<Entry>, keyword: string): string {
    if entries == [] then "" else entries[0].Text(keyword) + TextOf(entries[1..], keyword)
  }

  /** Complete entries, one after the other, none of which runs on into the next or into tail. */
  predicate Complete(entries: seq<Entry>, keyword: string, tail: string) {
    entries != [] ==>
      && entries[0].Proper() && entries[0].EndsBefore(TextOf(entries[1..], keyword) + tail)
      && Complete(entries[1..], keyword, tail)
  }

  function MeaningOf(entries: seq<Entry>, keyword: string, tail: string): seq<Dependency>
    requires Complete(entries, keyword, tail)
  {
    if entries == [] then [] else entries[0].Meaning() + MeaningOf(entries[1..], keyword, tail)
  }

  // ---- White space and words are read as written ----

  lemma {:induction false} GapThen(gap: string, rest: string)
    requires AllSpaces(gap) && NoSpaceAhead(rest)
    ensures DropSpaces(gap + rest) == rest
  {
    if gap == [] {
      assert gap + rest == rest;
    } else {
      assert (gap + rest)[1..] == gap[1..] + rest;
      GapThen(gap[1..], rest);
    }
  }

  /** The white space DropSpaces drops. */
  lemma {:induction false} GapOf(s: string) returns (gap: string)
    ensures AllSpaces(gap) && s == gap + DropSpaces(s)
  {
    if s != [] && IsSpace(s[0]) {
      var more := GapOf(s[1..]);
      gap := [s[0]] + more;
      assert s == [s[0]] + s[1..];
    } else {
      gap := "";
    }
  }

  lemma {:induction false} WordOf(s: string, stops: set<char>)
    ensures IsWord(s[..WordLength(s, stops)], stops)
  {
    if s != [] && !IsSpace(s[0]) && s[0] !in stops {
      WordOf(s[1..], stops);
      assert s[..WordLength(s, stops)] == [s[0]] + s[1..][..WordLength(s[1..], stops)];
    }
  }

  /** White space, a word, white space: what is left of a text. */
  function AfterPadded(s: string, stops: set<char>): string {
    var t := DropSpaces(s);
    DropSpaces(t[WordLength(t, stops)..])
  }

  function PaddedWord(s: string, stops: set<char>): string {
    var t := DropSpaces(s);
    t[..WordLength(t, stops)]
  }

  lemma PaddedThen(p: Padded, stops: set<char>, rest: string)
    requires p.Proper(stops) && p.EndsBefore(rest, stops)
    ensures PaddedWord(p.Text() + rest, stops) == p.word && AfterPadded(p.Text() + rest, stops) == rest
  {
    hide DropSpaces, WordLength;
    var tail := p.after + rest;
    assert p.Text() + rest == p.before + (p.word + tail);
    GapThen(p.before, p.word + tail);
    WordThen(p.word, tail, stops);
    GapThen(p.after, rest);
  }

  lemma PaddedOf(s: string, stops: set<char>) returns (p: Padded)
    ensures p.Proper(stops) && p.EndsBefore(AfterPadded(s, stops), stops)
    ensures p.word == PaddedWord(s, stops) && s == p.Text() + AfterPadded(s, stops)
  {
    hide DropSpaces, WordLength;
    var t := DropSpaces(s);
    var n := WordLength(t, stops);
    var rest := t[n..];
    var before := GapOf(s);
    var after := GapOf(rest);
    WordOf(t, stops);
    p := Padded(before, t[..n], after);
    if n == 0 {
      assert rest == t;
      NothingToDrop(t);
      assert |after| + |t| == |t|;
    }
    Joined(s, before, t, n, after, DropSpaces(rest));
  }

  lemma Joined(s: string, before: string, t: string, n: nat, after: string, rest: string)
    requires n <= |t| && s == before + t && t[n..] == after + rest
    ensures s == before + t[..n] + after + rest
    ensures n < |t| && after == [] ==> rest != [] && rest[0] == t[n]
  {
    assert t == t[..n] + t[n..];
  }

  // ---- Values are read as written, and only written values are read ----

  predicate Bracket(s: string) {
    s != [] && (s[0] == '(' || s[0] == '[')
  }

  /** A range in terms of its padded words. */
  lemma RangeParts(s: string)
    requires s != []
    ensures var comma := AfterPadded(s[1..], {','});
      var lower := VersionOf(PaddedWord(s[1..], {','}));
      if comma == [] || comma[0] != ',' then RangeAt(s) == Done(NO_RANGE, comma)
      else
        var upper := VersionOf(PaddedWord(comma[1..], {')', ']'}));
        var close := AfterPadded(comma[1..], {')', ']'});
        if close == [] || (close[0] != ')' && close[0] != ']') then RangeAt(s) == Wrong(ManifestError)
        else if lower.None? || upper.None? then RangeAt(s) == Wrong(VersionError)
        else if !lower.value.Le(upper.value) then RangeAt(s) == Wrong(RangeAssertion)
        else RangeAt(s) == Done(VersionRange(lower.value, s[0] == '[', upper.value, close[0] == ']'), close[1..])
  {
    hide DropSpaces, WordLength, VersionOf;
  }

  lemma ClosedParts(open: string, lower: string, upper: string, close: string, rest: string)
    requires |open| == |close| == 1
    ensures var end := close + rest;
      var comma := "," + (upper + end);
      var s := open + lower + "," + upper + close + rest;
      && s == open + (lower + comma) && s[0] == open[0] && s[1..] == lower + comma
      && comma[0] == ',' && comma[1..] == upper + end
      && end[0] == close[0] && end[1..] == rest
  {
    var end := close + rest;
    var comma := "," + (upper + end);
    assert comma[1..] == upper + end;
    assert end[1..] == rest;
    assert open + lower + "," + upper + close + rest == open + (lower + comma);
  }

  lemma ClosedThen(v: Value, rest: string)
    requires v.Closed? && v.Proper()
    ensures var s := v.Text() + rest; Bracket(s) && RangeAt(s) == Done(v.Meaning(), rest)
  {
    hide PaddedWord, AfterPadded, VersionOf, RangeAt, IsWord, AllSpaces, Padded.Text;
    var s := v.Text() + rest;
    var end := Closing(v.squareEnd) + rest;
    var comma := "," + (v.upper.Text() + end);
    ClosedParts(Opening(v.square), v.lower.Text(), v.upper.Text(), Closing(v.squareEnd), rest);
    PaddedThen(v.lower, {','}, comma);
    PaddedThen(v.upper, {')', ']'}, end);
    RangeParts(s);
  }

  lemma CommaMissingThen(v: Value, rest: string)
    requires v.CommaMissing? && v.Proper() && v.EndsBefore(rest)
    ensures var s := v.Text() + rest; Bracket(s) && RangeAt(s) == Done(NO_RANGE, rest)
  {
    hide PaddedWord, AfterPadded, VersionOf, RangeAt, IsWord, AllSpaces, Padded.Text;
    var s := v.Text() + rest;
    assert s[1..] == v.lower.Text() + rest;
    PaddedThen(v.lower, {','}, rest);
    RangeParts(s);
  }

  lemma StartsWithDigit(text: string)
    requires VersionOf(text).Some?
    ensures text == [] || IsDigit(text[0])
  {
  }

  lemma ValueThen(v: Value, rest: string)
    requires v.Proper() && v.EndsBefore(rest)
    ensures var s := v.Text() + rest; NoSpaceAhead(s) && ValueAt(s) == Done(v.Meaning(), rest)
  {
    hide RangeAt, VersionOf, WordLength;
    match v
    case Plain(text) =>
      StartsWithDigit(text);
      WordThen(text, rest, {','});
    case Closed(_, _, _, _) => ClosedThen(v, rest);
    case CommaMissing(_, _) => CommaMissingThen(v, rest);
  }

  predicate Spells(s: string, v: Value, rest: string) {
    v.Proper() && v.EndsBefore(rest) && s == v.Text() + rest
  }

  /** A text in parts: its bracket, what is in front of the comma, in front of the end, and the rest. */
  lemma PartsOf(s: string, lower: string, comma: string, upper: string, close: string)
    requires s != [] && s[1..] == lower + comma
    ensures s == [s[0]] + lower + comma
    ensures comma != [] && close != [] && comma[1..] == upper + close
      ==> s == [s[0]] + lower + [comma[0]] + upper + [close[0]] + close[1..]
  {
    assert s == [s[0]] + s[1..];
    if comma != [] && close != [] && comma[1..] == upper + close {
      assert comma == [comma[0]] + comma[1..];
      assert close == [close[0]] + close[1..];
    }
  }

  lemma RangeIsSpelled(s: string) returns (v: Value)
    requires Bracket(s) && RangeAt(s).Done?
    ensures Spells(s, v, RangeAt(s).rest) && v.Meaning() == RangeAt(s).versions && !v.Plain?
  {
    hide PaddedWord, AfterPadded, VersionOf, RangeAt, IsWord, AllSpaces, Padded.Text;
    RangeParts(s);
    var lower := PaddedOf(s[1..], {','});
    var comma := AfterPadded(s[1..], {','});
    if comma == [] || comma[0] != ',' {
      v := CommaMissing(s[0] == '[', lower);
      PartsOf(s, lower.Text(), comma, "", "");
    } else {
      var upper := PaddedOf(comma[1..], {')', ']'});
      var close := AfterPadded(comma[1..], {')', ']'});
      v := Closed(s[0] == '[', lower, upper, close[0] == ']');
      PartsOf(s, lower.Text(), comma, upper.Text(), close);
    }
  }

  lemma ValueIsSpelled(s: string) returns (v: Value)
    requires NoSpaceAhead(s) && ValueAt(s).Done?
    ensures Spells(s, v, ValueAt(s).rest) && v.Meaning() == ValueAt(s).versions
  {
    hide VersionOf, RangeAt, WordLength;
    if Bracket(s) {
      v := RangeIsSpelled(s);
    } else {
      var n := WordLength(s, {','});
      v := Plain(s[..n]);
      WordOf(s, {','});
      assert s == s[..n] + s[n..];
      if n == 0 {
        assert s[n..] == s;
      }
    }
  }

  // ---- Attributes ----

  /** What follows a name, in terms of padded words. */
  lemma VersionsParts(s: string, keyword: string)
    ensures
      if s == [] || s[0] != ';' then VersionsAt(s, keyword) == Done(NO_RANGE, s)
      else
        var equals := AfterPadded(s[1..], {'='});
        if PaddedWord(s[1..], {'='}) != keyword || equals == [] || equals[0] != '=' then VersionsAt(s, keyword) == Wrong(ManifestError)
        else VersionsAt(s, keyword) == ValueAt(DropSpaces(equals[1..]))
  {
    hide DropSpaces, WordLength, ValueAt;
  }

  lemma AttributeParts(keyword: string, value: string, tail: string)
    ensures var equals := "=" + (value + tail);
      var s := ";" + keyword + "=" + value + tail;
      && s[0] == ';' && s[1..] == keyword + equals
      && equals[0] == '=' && equals[1..] == value + tail
  {
    assert ";" + keyword + "=" + value + tail == ";" + (keyword + ("=" + (value + tail)));
  }

  lemma AttributeThen(a: Attribute, name: Padded, keyword: string, tail: string)
    requires a.Proper() && a.EndsBefore(name, tail) && IsKeyword(keyword)
    ensures VersionsAt(a.Text(keyword) + tail, keyword) == Done(a.Meaning(), tail)
    ensures name.EndsBefore(a.Text(keyword) + tail, {',', ';'})
  {
    hide PaddedWord, AfterPadded, ValueAt, DropSpaces, VersionsAt, Value.Text, Value.Proper, Value.EndsBefore, Padded.Text, AllSpaces, IsWord;
    var s := a.Text(keyword) + tail;
    VersionsParts(s, keyword);
    if a.NoAttribute? {
      assert s == tail;
    } else {
      var word := Padded(a.before, keyword, a.after);
      var value := a.value.Text() + tail;
      AttributeParts(word.Text(), a.gap + a.value.Text(), tail);
      PaddedThen(word, {'='}, "=" + (a.gap + a.value.Text() + tail));
      ValueThen(a.value, tail);
      GapThen(a.gap, value);
      assert a.gap + a.value.Text() + tail == a.gap + value;
    }
  }

  /** What VersionsAt takes, when it takes something, is an attribute. */
  lemma AttributeIsSpelled(s: string, name: Padded, keyword: string) returns (a: Attribute)
    requires VersionsAt(s, keyword).Done? && name.EndsBefore(s, {',', ';'})
    ensures var r := VersionsAt(s, keyword);
      a.Proper() && a.EndsBefore(name, r.rest) && s == a.Text(keyword) + r.rest && a.Meaning() == r.versions
  {
    hide PaddedWord, AfterPadded, ValueAt, DropSpaces, VersionsAt, Value.Text, Value.Proper, Value.EndsBefore, Value.Meaning, Padded.Text, AllSpaces, IsWord;
    VersionsParts(s, keyword);
    if s == [] || s[0] != ';' {
      a := NoAttribute;
      assert s == "" + s;
    } else {
      var equals := AfterPadded(s[1..], {'='});
      var word := PaddedOf(s[1..], {'='});
      var gap := GapOf(equals[1..]);
      var value := ValueIsSpelled(DropSpaces(equals[1..]));
      a := Attribute(word.before, word.after, gap, value);
      AttributeJoined(s, word.Text(), equals, gap, value.Text(), VersionsAt(s, keyword).rest);
    }
  }

  lemma AttributeJoined(s: string, word: string, equals: string, gap: string, value: string, rest: string)
    requires s != [] && s[0] == ';' && s[1..] == word + equals
    requires equals != [] && equals[0] == '=' && equals[1..] == gap + (value + rest)
    ensures s == ";" + word + "=" + (gap + value) + rest
  {
    assert s == [s[0]] + s[1..];
    assert equals == [equals[0]] + equals[1..];
  }

  // ---- Entries ----

  /** One turn of the parser's loop, in terms of padded words. */
  lemma EntryParts(s: string, keyword: string)
    ensures var t := DropSpaces(s);
      var name := PaddedWord(s, {',', ';'});
      if t == [] then ItemsOf(s, keyword) == Parsed([])
      else if name == [] then
        (t[0] == ',' || t[0] == ';') && ItemsOf(s, keyword) == if t[0] == ',' then ItemsOf(t[1..], keyword) else NeverEnds
      else
        var r := VersionsAt(AfterPadded(s, {',', ';'}), keyword);
        if r.Wrong? then ItemsOf(s, keyword) == Failed(r.failure)
        else ItemsOf(s, keyword) == Prepend(Dependency(name, r.versions), ItemsOf(DropComma(r.rest), keyword))
  {
    hide DropSpaces, WordLength, VersionsAt, ItemsOf, Prepend;
    OneTurn(s, keyword);
  }

  lemma NameFirst(p: Padded, stops: set<char>, rest: string)
    requires p.Proper(stops) && p.word != []
    ensures DropSpaces(p.Text() + rest) != []
  {
    hide DropSpaces;
    assert p.Text() + rest == p.before + (p.word + (p.after + rest));
    GapThen(p.before, p.word + (p.after + rest));
  }

  /** A complete entry at the start of a text is what the parser reads first. */
  lemma EntryThen(e: Entry, keyword: string, rest: string)
    requires e.Proper() && e.EndsBefore(rest) && IsKeyword(keyword)
    ensures ItemsOf(e.Text(keyword) + rest, keyword) == Ahead(e.Meaning(), ItemsOf(rest, keyword))
  {
    hide PaddedWord, AfterPadded, DropSpaces, VersionsAt, ItemsOf, Padded.Text, Padded.EndsBefore, Padded.Proper, AllSpaces, IsWord,
      Attribute.Text, Attribute.Proper, Attribute.EndsBefore, Attribute.Meaning;
    var s := e.Text(keyword) + rest;
    EntryParts(s, keyword);
    match e
    case Blank(gap) =>
      assert s == gap + ("," + rest);
      GapThen(gap, "," + rest);
      BlankWord(s);
      assert ("," + rest)[1..] == rest;
    case Named(name, attribute, comma) =>
      var tail := (if comma then "," else "") + rest;
      assert s == name.Text() + (attribute.Text(keyword) + tail);
      AttributeThen(attribute, name, keyword, tail);
      PaddedThen(name, {',', ';'}, attribute.Text(keyword) + tail);
      NameFirst(name, {',', ';'}, attribute.Text(keyword) + tail);
      assert DropComma(tail) == rest;
  }

  lemma BlankWord(s: string)
    requires DropSpaces(s) != [] && DropSpaces(s)[0] in {',', ';'}
    ensures PaddedWord(s, {',', ';'}) == []
  {
  }

  /** The parser goes on from s: its turn is neither the last nor a failure nor without an end. */
  predicate GoesOn(s: string, keyword: string) {
    var t := DropSpaces(s);
    t != [] && if PaddedWord(s, {',', ';'}) == [] then t[0] == ',' else VersionsAt(AfterPadded(s, {',', ';'}), keyword).Done?
  }

  lemma EntryIsSpelled(s: string, keyword: string) returns (e: Entry, rest: string)
    requires GoesOn(s, keyword)
    ensures e.Proper() && e.EndsBefore(rest) && s == e.Text(keyword) + rest && |rest| < |s|
  {
    hide PaddedWord, AfterPadded, DropSpaces, VersionsAt, ItemsOf, Padded.Text, Padded.EndsBefore, AllSpaces, IsWord,
      Attribute.Text, Attribute.Proper, Attribute.EndsBefore;
    var t := DropSpaces(s);
    if PaddedWord(s, {',', ';'}) == [] {
      var gap := GapOf(s);
      e, rest := Blank(gap), t[1..];
      assert t == [t[0]] + t[1..];
      assert s == gap + "," + rest;
    } else {
      var name := PaddedOf(s, {',', ';'});
      var after := AfterPadded(s, {',', ';'});
      var attribute := AttributeIsSpelled(after, name, keyword);
      var r := VersionsAt(after, keyword);
      rest := DropComma(r.rest);
      e := Named(name, attribute, rest != r.rest);
      CommaJoined(s, name.Text(), attribute.Text(keyword), r.rest);
      TextIsLonger(name);
    }
  }

  lemma TextIsLonger(p: Padded)
    ensures |p.Text()| >= |p.word|
  {
  }

  lemma CommaJoined(s: string, name: string, attribute: string, tail: string)
    requires s == name + (attribute + tail)
    ensures var rest := DropComma(tail);
      var comma := if rest != tail then "," else "";
      tail == comma + rest && s == name + attribute + comma + rest && (rest == tail && rest != [] ==> rest[0] != ',')
  {
    if tail != [] && tail[0] == ',' {
      assert |tail[1..]| < |tail|;
      assert tail == "," + tail[1..];
    } else {
      assert tail == "" + tail;
    }
  }

  // ---- Whole texts ----

  lemma {:induction false} EntriesThen(entries: seq<Entry>, keyword: string, tail: string)
    requires Complete(entries, keyword, tail) && IsKeyword(keyword)
    ensures ItemsOf(TextOf(entries, keyword) + tail, keyword) == Ahead(MeaningOf(entries, keyword, tail), ItemsOf(tail, keyword))
    decreases |entries|
  {
    hide ItemsOf, Entry.Text, Entry.Proper, Entry.EndsBefore, Entry.Meaning, IsKeyword;
    if entries == [] {
      assert TextOf(entries, keyword) + tail == tail;
      AheadNothing(ItemsOf(tail, keyword));
    } else {
      var more := TextOf(entries[1..], keyword) + tail;
      assert TextOf(entries, keyword) + tail == entries[0].Text(keyword) + more;
      EntryThen(entries[0], keyword, more);
      EntriesThen(entries[1..], keyword, tail);
      AheadTwice(entries[0].Meaning(), MeaningOf(entries[1..], keyword, tail), ItemsOf(tail, keyword));
    }
  }

  lemma AheadNothing(outcome: Outcome)
    ensures Ahead([], outcome) == outcome
  {
  }

  lemma AheadTwice(first: seq<Dependency>, second: seq<Dependency>, outcome: Outcome)
    ensures Ahead(first, Ahead(second, outcome)) == Ahead(first + second, outcome)
  {
    if outcome.Parsed? {
      assert first + (second + outcome.dependencies) == first + second + outcome.dependencies;
    }
  }

  /** Every text is complete entries up to where the parser stops going on. */
  lemma {:induction false} EntriesOf(s: string, keyword: string) returns (entries: seq<Entry>, tail: string)
    ensures Complete(entries, keyword, tail) && s == TextOf(entries, keyword) + tail && !GoesOn(tail, keyword)
    decreases |s|
  {
    hide Entry.Text, Entry.Proper, Entry.EndsBefore, GoesOn;
    if GoesOn(s, keyword) {
      var e, rest := EntryIsSpelled(s, keyword);
      var more;
      more, tail := EntriesOf(rest, keyword);
      entries := [e] + more;
      assert entries[1..] == more;
      assert e.Text(keyword) + (TextOf(more, keyword) + tail) == TextOf(entries, keyword) + tail;
    } else {
      entries, tail := [], s;
      assert TextOf(entries, keyword) + tail == tail;
    }
  }

  /** What the parser makes of a text from which it does not go on. */
  lemma WhereItStops(tail: string, keyword: string) returns (gap: string)
    requires !GoesOn(tail, keyword)
    ensures AllSpaces(gap)
    ensures ItemsOf(tail, keyword).Parsed? ==> tail == gap && ItemsOf(tail, keyword) == Parsed([])
    ensures ItemsOf(tail, keyword) == NeverEnds ==> exists rest :: tail == gap + (";" + rest)
  {
    hide DropSpaces, VersionsAt, PaddedWord, AfterPadded, AllSpaces, ItemsOf;
    EntryParts(tail, keyword);
    gap := GapOf(tail);
    var t := DropSpaces(tail);
    if ItemsOf(tail, keyword) == NeverEnds {
      assert t == ";" + t[1..];
    }
  }

  lemma AtASemicolon(gap: string, rest: string, keyword: string)
    requires AllSpaces(gap)
    ensures ItemsOf(gap + (";" + rest), keyword) == NeverEnds
  {
    hide ItemsOf, PaddedWord, VersionsAt, AfterPadded, DropSpaces;
    GapThen(gap, ";" + rest);
    BlankWord(gap + (";" + rest));
    EntryParts(gap + (";" + rest), keyword);
  }

  lemma AtTheEnd(gap: string, keyword: string)
    requires AllSpaces(gap)
    ensures ItemsOf(gap, keyword) == Parsed([])
  {
    hide ItemsOf, PaddedWord, VersionsAt, AfterPadded, DropSpaces;
    GapThen(gap, "");
    assert gap + "" == gap;
    EntryParts(gap, keyword);
  }

  /** Complete entries, white space, and a ';' where a name should be. */
  predicate ReachesSemicolon(s: string, keyword: string, entries: seq<Entry>, gap: string, rest: string) {
    AllSpaces(gap) && Complete(entries, keyword, gap + (";" + rest)) && s == TextOf(entries, keyword) + (gap + (";" + rest))
  }

  /** The parser loops for ever exactly on complete entries followed by a ';'. */
  lemma NeverEndsExactly(s: string, keyword: string)
    requires IsKeyword(keyword)
    ensures ItemsOf(s, keyword) == NeverEnds <==> exists entries, gap, rest :: ReachesSemicolon(s, keyword, entries, gap, rest)
  {
    hide ItemsOf, Complete, TextOf, AllSpaces, GoesOn, IsKeyword, Ahead, MeaningOf;
    if entries, gap, rest :| ReachesSemicolon(s, keyword, entries, gap, rest) {
      EntriesThen(entries, keyword, gap + (";" + rest));
      AtASemicolon(gap, rest, keyword);
      AheadKeeps(MeaningOf(entries, keyword, gap + (";" + rest)), NeverEnds);
    }
    if ItemsOf(s, keyword) == NeverEnds {
      var entries, tail := EntriesOf(s, keyword);
      EntriesThen(entries, keyword, tail);
      AheadKeeps(MeaningOf(entries, keyword, tail), ItemsOf(tail, keyword));
      var gap := WhereItStops(tail, keyword);
      var rest :| tail == gap + (";" + rest);
      assert ReachesSemicolon(s, keyword, entries, gap, rest);
    }
  }

  lemma AheadKeeps(dependencies: seq<Dependency>, outcome: Outcome)
    ensures (Ahead(dependencies, outcome) == NeverEnds) == (outcome == NeverEnds)
    ensures Ahead(dependencies, outcome).Parsed? == outcome.Parsed?
    ensures Ahead(dependencies, Parsed([])) == Parsed(dependencies)
  {
  }

  /** Complete entries and white space behind the last, standing for the dependencies. */
  predicate Lists(s: string, keyword: string, entries: seq<Entry>, gap: string, dependencies: seq<Dependency>) {
    && AllSpaces(gap) && Complete(entries, keyword, gap) && s == TextOf(entries, keyword) + gap
    && dependencies == MeaningOf(entries, keyword, gap)
  }

  /** The parser returns a list exactly for complete entries, and it is the list they stand for. */
  lemma ParsedExactly(s: string, keyword: string, dependencies: seq<Dependency>)
    requires IsKeyword(keyword)
    ensures ItemsOf(s, keyword) == Parsed(dependencies) <==> exists entries, gap :: Lists(s, keyword, entries, gap, dependencies)
  {
    hide ItemsOf, Complete, TextOf, AllSpaces, GoesOn, IsKeyword, Ahead, MeaningOf;
    if entries, gap :| Lists(s, keyword, entries, gap, dependencies) {
      EntriesThen(entries, keyword, gap);
      AtTheEnd(gap, keyword);
      AheadKeeps(dependencies, Parsed([]));
    }
    if ItemsOf(s, keyword) == Parsed(dependencies) {
      var entries, tail := EntriesOf(s, keyword);
      EntriesThen(entries, keyword, tail);
      AheadKeeps(MeaningOf(entries, keyword, tail), ItemsOf(tail, keyword));
      var gap := WhereItStops(tail, keyword);
      assert Lists(s, keyword, entries, gap, dependencies);
    }
  }

  // ---- What is printed is what is parsed ----

  datatype Requirement =
    | AnyVersion
    | Only(version: Version)
    | Between(lower: Version, includeLower: bool, upper: Version, includeUpper: bool)

  datatype Item = Item(name: string, requirement: Requirement)

  function RangeOf(r: Requirement): VersionRange {
    match r
    case AnyVersion => NO_RANGE
    case Only(version) => Exactly(version)
    case Between(lower, includeLower, upper, includeUpper) => VersionRange(lower, includeLower, upper, includeUpper)
  }

  predicate Printable(item: Item) {
    && item.name != [] && IsWord(item.name, {',', ';'})
    && match item.requirement
       case AnyVersion => true
       case Only(v) => Natural(v) && IsWord(v.designation, {','})
       case Between(lower, _, upper, _) =>
         && Natural(lower) && IsWord(lower.designation, {','})
         && Natural(upper) && IsWord(upper.designation, {')', ']'})
         && lower.Le(upper)
  }

  predicate AllPrintable(items: seq<Item>) {
    forall i :: 0 <= i < |items| ==> Printable(items[i])
  }

  function Bare(word: string): Padded {
    Padded("", word, "")
  }

  /** How an item is printed: without white space, and with a comma behind it if others follow. */
  function Printed(item: Item, comma: bool): Entry
    requires Printable(item)
  {
    var attribute := match item.requirement
      case AnyVersion => NoAttribute
      case Only(version) => Attribute("", "", "", Plain(VersionString(version)))
      case Between(lower, includeLower, upper, includeUpper) =>
        Attribute("", "", "", Closed(includeLower, Bare(VersionString(lower)), Bare(VersionString(upper)), includeUpper));
    Named(Bare(item.name), attribute, comma)
  }

  function PrintedItems(items: seq<Item>): seq<Entry>
    requires AllPrintable(items)
  {
    if items == [] then [] else [Printed(items[0], |items| > 1)] + PrintedItems(items[1..])
  }

  function DependenciesOf(items: seq<Item>): seq<Dependency> {
    if items == [] then []
    else [Dependency(items[0].name, RangeOf(items[0].requirement))] + DependenciesOf(items[1..])
  }

  /** A printed item is a complete entry and stands for the item. */
  lemma PrintedIsProper(item: Item, comma: bool, rest: string)
    requires Printable(item) && (!comma ==> rest == [])
    ensures var e := Printed(item, comma);
      e.Proper() && e.EndsBefore(rest) && e.Meaning() == [Dependency(item.name, RangeOf(item.requirement))]
  {
    hide VersionOf, VersionString;
    match item.requirement
    case AnyVersion =>
    case Only(v) =>
      VersionIsReadBack(v);
      VersionIsWord(v, {','});
    case Between(lower, _, upper, _) =>
      VersionIsReadBack(lower);
      VersionIsWord(lower, {','});
      VersionIsReadBack(upper);
      VersionIsWord(upper, {')', ']'});
  }

  lemma {:induction false} PrintedIsComplete(items: seq<Item>, keyword: string)
    requires AllPrintable(items)
    ensures Complete(PrintedItems(items), keyword, "")
    ensures MeaningOf(PrintedItems(items), keyword, "") == DependenciesOf(items)
  {
    hide Printed, Printable, RangeOf, Entry.Proper, Entry.EndsBefore, Entry.Meaning, Entry.Text;
    if items != [] {
      var rest := TextOf(PrintedItems(items[1..]), keyword) + "";
      assert PrintedItems(items)[1..] == PrintedItems(items[1..]);
      PrintedIsProper(items[0], |items| > 1, rest);
      PrintedIsComplete(items[1..], keyword);
    }
  }

  /** Parsing the printed entry of any list of items ends, and gives back the names and version ranges. */
  lemma ItemsAreReadBack(items: seq<Item>, keyword: string)
    requires AllPrintable(items) && IsKeyword(keyword)
    ensures ItemsOf(TextOf(PrintedItems(items), keyword), keyword) == Parsed(DependenciesOf(items))
  {
    hide ItemsOf, TextOf, Complete, MeaningOf, PrintedItems, DependenciesOf, Printable;
    PrintedIsComplete(items, keyword);
    assert TextOf(PrintedItems(items), keyword) + "" == TextOf(PrintedItems(items), keyword);
    assert Lists(TextOf(PrintedItems(items), keyword), keyword, PrintedItems(items), "", DependenciesOf(items));
    ParsedExactly(TextOf(PrintedItems(items), keyword), keyword, DependenciesOf(items));
  }

  // ---- Requirements that restrict nothing ----

  /** A bracket, a word, and no comma behind it; or the range from 0.0.0 to 0.0.0 with both ends open. */
  predicate RestrictsNothing(v: Value) {
    v.Proper() && match v
      case Plain(_) => false
      case Closed(square, lower, upper, squareEnd) =>
        !square && !squareEnd && VersionOf(lower.word) == VersionOf(upper.word) == Some(ZERO_VERSION)
      case CommaMissing(_, _) => true
  }

  /** When a bracketed requirement ends up as no requirement at all, and where reading goes on. */
  lemma NoRangeExactly(s: string, rest: string)
    requires Bracket(s)
    ensures RangeAt(s) == Done(NO_RANGE, rest) <==> exists v :: Spells(s, v, rest) && RestrictsNothing(v)
  {
    hide VersionOf, RangeAt, IsWord, AllSpaces, Padded.Text;
    if v :| Spells(s, v, rest) && RestrictsNothing(v) {
      if v.Closed? { ClosedThen(v, rest); } else { CommaMissingThen(v, rest); }
    }
    if RangeAt(s) == Done(NO_RANGE, rest) {
      var v := RangeIsSpelled(s);
      assert Spells(s, v, rest) && RestrictsNothing(v);
    }
  }

  /** A bracket with no comma anywhere behind it is no error and no restriction; reading goes on behind the first word. */
  lemma NoCommaIsIgnored(s: string)
    requires Bracket(s) && ',' !in s
    ensures RangeAt(s) == Done(NO_RANGE, AfterPadded(s[1..], {','}))
  {
    hide DropSpaces, PaddedWord, AfterPadded, RangeAt;
    NoCommaAhead(s);
    RangeParts(s);
  }

  lemma NoCommaAhead(s: string)
    requires s != [] && ',' !in s
    ensures ',' !in AfterPadded(s[1..], {','})
  {
    hide AfterPadded;
    var p := PaddedOf(s[1..], {','});
    forall c | c in AfterPadded(s[1..], {','})
      ensures c in s
    {
      assert c in p.Text() + AfterPadded(s[1..], {','});
    }
  }

  /** The requirement "name;keyword=[1.0.0]" is read as "name". */
  lemma BracketedVersionIsIgnored(name: Padded, keyword: string)
    requires name.Proper({',', ';'}) && name.word != [] && IsKeyword(keyword)
    ensures ItemsOf(name.Text() + ";" + keyword + "=[1.0.0]", keyword) == Parsed([Dependency(name.word, NO_RANGE)])
  {
    hide ItemsOf, Padded.Proper, IsWord, AllSpaces, VersionOf, Ahead;
    var value := CommaMissing(true, Bare("1.0.0]"));
    InBrackets();
    var e := Named(name, Attribute("", "", "", value), false);
    AsOneEntry(name, keyword);
    EntryThen(e, keyword, "");
    AtTheEnd("", keyword);
    AheadKeeps([Dependency(name.word, NO_RANGE)], Parsed([]));
  }

  lemma AsOneEntry(name: Padded, keyword: string)
    ensures Named(name, Attribute("", "", "", CommaMissing(true, Bare("1.0.0]"))), false).Text(keyword) + ""
      == name.Text() + ";" + keyword + "=[1.0.0]"
  {
    assert CommaMissing(true, Bare("1.0.0]")).Text() == "[1.0.0]";
  }

  lemma InBrackets()
    ensures Bare("1.0.0]").Proper({','}) && AllSpaces("")
  {
  }
}
