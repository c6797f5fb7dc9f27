/**
 * Glob patterns of the query language. The matcher below walks over pattern and text
 * with two cursors; the language it decides is defined independently of it.
 */
module Globs {
  import opened Options


  /** Characters by their numeric value, in the order in which the platform compares them. */
  type Char = int

  const QUESTION: Char := '?' as int
  const STAR: Char := '*' as int
  const OPEN: Char := '[' as int
  const CLOSE: Char := ']' as int
  const BANG: Char := '!' as int
  const DASH: Char := '-' as int
  const BACKSLASH: Char := '\\' as int

  datatype Outcome = Answer(matched: bool) | SyntaxError

  /** A set is given by ranges; a single character is the range from itself to itself. */
  datatype Range = Range(first: Char, last: Char)

  datatype Item = Any | Many | Literal(c: Char) | OneOf(invert: bool, ranges: seq<Range>)

  predicate InRanges(c: Char, ranges: seq<Range>) {
    exists k :: 0 <= k < |ranges| && ranges[k].first <= c <= ranges[k].last
  }

  predicate Accepts(item: Item, c: Char)
    requires !item.Many?
  {
    match item
    case Any => true
    case Literal(l) => c == l
    case OneOf(invert, ranges) => invert != InRanges(c, ranges)
  }

  /** The language of a list of items. */
  ghost predicate Matches(items: seq<Item>, s: seq<Char>)
    decreases |items|
  {
    if items == [] then s == []
    else if items[0].Many? then exists k :: 0 <= k <= |s| && Matches(items[1..], s[k..])
    else s != [] && Accepts(items[0], s[0]) && Matches(items[1..], s[1..])
  }

  datatype RangeResult = NoRange | ARange(range: Range, rest: seq<Char>)

  datatype SetResult = NoSet | ASet(ranges: seq<Range>, rest: seq<Char>)

  /**
   * One character or range of a set. A backslash quotes the character after it; the
   * upper end of a range is neither ']' nor a backslash.
   */
  function ParseRange(p: seq<Char>): (r: RangeResult)
    requires p != []
    ensures r.ARange? ==> |r.rest| < |p|
  {
    var q := if p[0] == BACKSLASH then p[1..] else p;
    if q == [] then NoRange
    else if |q| > 1 && q[1] == DASH then
      if |q| == 2 || q[2] == CLOSE || q[2] == BACKSLASH then NoRange
      else ARange(Range(q[0], q[2]), q[3..])
    else ARange(Range(q[0], q[0]), q[1..])
  }

  /** The inside of a set, up to and including its closing bracket. */
  function ParseSet(p: seq<Char>): (r: SetResult)
    ensures r.ASet? ==> |r.rest| < |p|
    decreases |p|
  {
    if p == [] then NoSet
    else if p[0] == CLOSE then ASet([], p[1..])
    else match ParseRange(p)
      case NoRange => NoSet
      case ARange(range, tail) =>
        match ParseSet(tail)
        case NoSet => NoSet
        case ASet(ranges, rest) => ASet([range] + ranges, rest)
  }

  /** What a pattern means; None for a malformed one. */
  function Parse(p: seq<Char>): Option<seq<Item>>
    decreases |p|
  {
    if p == [] then Some([])
    else if p[0] == QUESTION then Prepend(Any, Parse(p[1..]))
    else if p[0] == STAR then Prepend(Many, Parse(p[1..]))
    else if p[0] == OPEN then
      var invert := |p| > 1 && p[1] == BANG;
      match ParseSet(if invert then p[2..] else p[1..])
      case NoSet => None
      case ASet(ranges, rest) => Prepend(OneOf(invert, ranges), Parse(rest))
    else if p[0] == BACKSLASH then
      if |p| == 1 then None else Prepend(Literal(p[1]), Parse(p[2..]))
    else Prepend(Literal(p[0]), Parse(p[1..]))
  }

  function Prepend(item: Item, items: Option<seq<Item>>): Option<seq<Item>> {
    match items
    case None => None
    case Some(rest) => Some([item] + rest)
  }

  ghost predicate OnlyMany(items: seq<Item>) {
    forall i :: 0 <= i < |items| ==> items[i].Many?
  }

  lemma {:induction false} OnlyManyMatchesAll(items: seq<Item>, s: seq<Char>)
    requires OnlyMany(items) && items != []
    ensures Matches(items, s)
    decreases |items|
  {
    if |items| == 1 {
      assert Matches(items[1..], s[|s|..]);
    } else {
      OnlyManyMatchesAll(items[1..], s);
      assert s[0..] == s;
    }
  }

  /** The empty text is matched by nothing but stars. */
  lemma {:induction false} MatchesEmpty(items: seq<Item>)
    ensures Matches(items, []) <==> OnlyMany(items)
    decreases |items|
  {
    if items != [] && items[0].Many? {
      var e: seq<Char> := [];
      assert e[0..] == e;
      MatchesEmpty(items[1..]);
      assert Matches(items, []) <==> Matches(items[1..], []);
      assert items == [items[0]] + items[1..];
    }
  }

  predicate AllStars(p: seq<Char>) {
    forall i :: 0 <= i < |p| ==> p[i] == STAR
  }

  lemma OneMoreStar(rest: seq<Item>, p: seq<Char>)
    requires p != [] && p[0] == STAR
    ensures OnlyMany([Many] + rest) <==> OnlyMany(rest)
    ensures AllStars(p) <==> AllStars(p[1..])
  {
    assert forall i :: 0 <= i < |rest| ==> rest[i] == ([Many] + rest)[i + 1];
    assert forall i :: 0 <= i < |p[1..]| ==> p[1..][i] == p[i + 1];
    assert forall i :: 1 <= i < |p| ==> p[i] == p[1..][i - 1];
  }

  /** Stars in the parsed pattern are stars in its text. */
  lemma {:induction false} StarsAreStars(p: seq<Char>)
    requires Parse(p).Some?
    ensures OnlyMany(Parse(p).value) <==> AllStars(p)
    decreases |p|
  {
    if p != [] {
      var items := Parse(p).value;
      if p[0] == STAR {
        StarsAreStars(p[1..]);
        OneMoreStar(Parse(p[1..]).value, p);
      } else {
        assert !items[0].Many?;
      }
    }
  }

  /**
   * Behind a star with more pattern to come, the empty rest of a non-empty text need
   * not be tried.
   */
  lemma StarNeedsNoEmptyRest(items: seq<Item>, s: seq<Char>)
    requires items != [] && s != []
    ensures (exists k :: 0 <= k <= |s| && Matches(items, s[k..])) <==> (exists k :: 0 <= k < |s| && Matches(items, s[k..]))
  {
    if Matches(items, s[|s|..]) {
      MatchesEmpty(items);
      assert s[|s|..] == [];
      OnlyManyMatchesAll(items, s[0..]);
    }
  }

  /** From q on, skipping quoted pairs and other characters leads to the bracket in front of "rest". */
  ghost predicate Skippable(q: seq<Char>, rest: seq<Char>)
    decreases |q|
  {
    q != []
    && (if q[0] == CLOSE then rest == q[1..]
        else if q[0] == BACKSLASH then |q| > 1 && Skippable(q[2..], rest)
        else Skippable(q[1..], rest))
  }

  /** Skipping does not care where ranges begin and end: it stops at the bracket the parser stops at. */
  lemma {:induction false} SetIsSkippable(p: seq<Char>)
    requires ParseSet(p).ASet?
    ensures Skippable(p, ParseSet(p).rest)
    decreases |p|
  {
    if p[0] != CLOSE {
      var tail := ParseRange(p).rest;
      SetIsSkippable(tail);
      var q := if p[0] == BACKSLASH then p[1..] else p;
      assert Skippable(q[1..], ParseSet(p).rest) by {
        if |q| > 1 && q[1] == DASH {
          assert q[1..][1..] == q[2..] && q[2..][1..] == q[3..];
        }
      }
      if p[0] == BACKSLASH {
        assert q[1..] == p[2..];
      }
    }
  }

  /** Moves behind the closing bracket of a set one of whose items has matched already. */
  method SkipSet(p: seq<Char>, start: nat, ghost rest: seq<Char>) returns (found: bool, itp: nat)
    requires start <= |p|
    ensures start <= itp <= |p|
    ensures Skippable(p[start..], rest) ==> found && p[itp..] == rest
  {
    itp := start;
    while itp < |p|
      invariant start <= itp <= |p|
      invariant Skippable(p[start..], rest) ==> Skippable(p[itp..], rest)
      decreases |p| - itp
    {
      ghost var q := p[itp..];
      assert q[1..] == p[itp + 1..];
      if p[itp] == CLOSE {
        return true, itp + 1;
      } else if p[itp] == BACKSLASH {
        assert |q| > 1 ==> q[2..] == p[itp + 2..];
        itp := itp + 1;
        if itp < |p| {
          itp := itp + 1;
        }
      } else {
        itp := itp + 1;
      }
    }
    found := false;
  }

  /** Reads the character or range at the cursor. */
  method ReadRange(p: seq<Char>, start: nat) returns (ok: bool, first: Char, last: Char, itp: nat)
    requires start < |p|
    ensures start < itp <= |p|
    ensures ParseRange(p[start..]).ARange? ==> ok && ParseRange(p[start..]) == ARange(Range(first, last), p[itp..])
  {
    itp := start;
    ghost var q := p[start..];
    if p[itp] == BACKSLASH {
      itp := itp + 1;
      if itp == |p| {
        return false, 0, 0, itp;
      }
      assert q[1..] == p[itp..];
    }
    q := p[itp..];
    first := p[itp];
    last := first;
    itp := itp + 1;
    assert q[1..] == p[itp..];
    if itp < |p| && p[itp] == DASH {
      itp := itp + 1;
      if itp == |p| {
        return false, 0, 0, itp;
      }
      last := p[itp];
      itp := itp + 1;
      assert q[3..] == p[itp..];
    }
    ok := true;
  }

  /** How far into a set the search has come without a match. */
  ghost predicate SetSearch(whole: SetResult, here: SetResult, c: Char) {
    whole.ASet? ==>
      && here.ASet? && here.rest == whole.rest
      && (InRanges(c, whole.ranges) <==> InRanges(c, here.ranges))
  }

  lemma SetSearchNext(whole: SetResult, p: seq<Char>, c: Char)
    requires p != [] && p[0] != CLOSE && SetSearch(whole, ParseSet(p), c)
    ensures whole.ASet? ==> ParseRange(p).ARange? && ParseSet(ParseRange(p).rest).ASet?
    ensures whole.ASet? ==> ParseSet(ParseRange(p).rest).rest == whole.rest
    ensures whole.ASet? && ParseRange(p).range.first <= c <= ParseRange(p).range.last ==> InRanges(c, whole.ranges)
    ensures whole.ASet? && !(ParseRange(p).range.first <= c <= ParseRange(p).range.last) ==>
              SetSearch(whole, ParseSet(ParseRange(p).rest), c)
  {
    if whole.ASet? {
      var range, tail := ParseRange(p).range, ParseSet(ParseRange(p).rest).ranges;
      var ranges := ParseSet(p).ranges;
      assert ranges == [range] + tail;
      assert ranges[0] == range;
      assert forall k :: 0 < k < |ranges| ==> ranges[k] == tail[k - 1];
      assert forall k :: 0 <= k < |tail| ==> tail[k] == ranges[k + 1];
    }
  }

  /**
   * Whether c is in the set that starts at "start". For a well-formed set the cursor
   * ends up behind its closing bracket, whether c matched early, late or not at all.
   */
  method MatchSet(p: seq<Char>, start: nat, c: Char) returns (r: Outcome, itp: nat)
    requires start <= |p|
    ensures start <= itp <= |p|
    ensures start < |p| ==> start < itp
    ensures ParseSet(p[start..]).ASet? ==>
              r == Answer(InRanges(c, ParseSet(p[start..]).ranges)) && p[itp..] == ParseSet(p[start..]).rest
  {
    hide SetSearch, ParseRange, Skippable;
    itp := start;
    ghost var whole := ParseSet(p[start..]);
    SetSearchStarts(whole, c);
    while itp < |p|
      invariant start <= itp <= |p|
      invariant SetSearch(whole, ParseSet(p[itp..]), c)
      decreases |p| - itp
    {
      ghost var q := p[itp..];
      assert q[1..] == p[itp + 1..];
      if p[itp] == CLOSE {
        SetSearchEnds(whole, ParseSet(q), c);
        return Answer(false), itp + 1;
      }
      SetSearchNext(whole, q, c);
      var ok, first, last;
      ok, first, last, itp := ReadRange(p, itp);
      if !ok {
        return SyntaxError, itp;
      }
      if first <= c <= last {
        if whole.ASet? {
          SetIsSkippable(p[itp..]);
        }
        var found;
        found, itp := SkipSet(p, itp, if whole.ASet? then whole.rest else []);
        return if found then Answer(true) else SyntaxError, itp;
      }
      if !whole.ASet? {
        SetSearchLost(whole, ParseSet(p[itp..]), c);
      }
    }
    if whole.ASet? {
      SetSearchEnds(whole, ParseSet(p[itp..]), c);
    }
    r := Answer(false);
  }

  lemma SetSearchStarts(whole: SetResult, c: Char)
    ensures SetSearch(whole, whole, c)
  {
  }

  lemma SetSearchLost(whole: SetResult, here: SetResult, c: Char)
    requires !whole.ASet?
    ensures SetSearch(whole, here, c)
  {
  }

  lemma SetSearchEnds(whole: SetResult, here: SetResult, c: Char)
    requires SetSearch(whole, here, c)
    ensures whole.ASet? ==> here.ASet? && here.rest == whole.rest
    ensures whole.ASet? && here.ranges == [] ==> !InRanges(c, whole.ranges)
  {
  }

  /** The well-formed pattern q matches t. */
  ghost predicate Means(q: seq<Char>, t: seq<Char>) {
    Parse(q).Some? && Matches(Parse(q).value, t)
  }

  /** Matching q against t comes down to matching q' against t'. */
  ghost predicate ReducesTo(q: seq<Char>, t: seq<Char>, q': seq<Char>, t': seq<Char>) {
    Parse(q).Some? ==> Parse(q').Some? && (Means(q, t) <==> Means(q', t'))
  }

  lemma ReducesRefl(q: seq<Char>, t: seq<Char>)
    ensures ReducesTo(q, t, q, t)
  {
  }

  lemma ReducesTransitive(q: seq<Char>, t: seq<Char>, q1: seq<Char>, t1: seq<Char>, q2: seq<Char>, t2: seq<Char>)
    requires ReducesTo(q, t, q1, t1) && ReducesTo(q1, t1, q2, t2)
    ensures ReducesTo(q, t, q2, t2)
  {
  }

  /** A '?' or a literal consumes one character if it accepts it. */
  lemma OneCharacter(q: seq<Char>, t: seq<Char>, n: nat, item: Item)
    requires n <= |q| && q != [] && t != [] && !item.Many?
    requires Parse(q) == Prepend(item, Parse(q[n..]))
    ensures Accepts(item, t[0]) ==> ReducesTo(q, t, q[n..], t[1..])
    ensures !Accepts(item, t[0]) ==> !Means(q, t)
  {
    if Parse(q).Some? {
      var items := Parse(q).value;
      assert items[0] == item && items[1..] == Parse(q[n..]).value;
    }
  }

  lemma SetItem(q: seq<Char>, t: seq<Char>, invert: bool, rest: seq<Char>)
    requires |q| > 1 && q[0] == OPEN && t != [] && invert == (q[1] == BANG)
    requires var set' := ParseSet(if invert then q[2..] else q[1..]); set'.ASet? ==> set'.rest == rest
    ensures var set' := ParseSet(if invert then q[2..] else q[1..]);
            if set'.ASet? then
              && (invert != InRanges(t[0], set'.ranges) ==> ReducesTo(q, t, rest, t[1..]))
              && (invert == InRanges(t[0], set'.ranges) ==> !Means(q, t))
            else Parse(q).None?
  {
    if Parse(q).Some? {
      var items := Parse(q).value;
      assert items[1..] == Parse(rest).value;
    }
  }

  lemma AtEndOfText(q: seq<Char>)
    requires Parse(q).Some?
    ensures Means(q, []) <==> forall i :: 0 <= i < |q| ==> q[i] == STAR
  {
    StarsAreStars(q);
    MatchesEmpty(Parse(q).value);
  }

  lemma FinalStar(q: seq<Char>, t: seq<Char>)
    requires q == [STAR]
    ensures Means(q, t)
  {
    assert Parse(q) == Prepend(Many, Parse([]));
    assert Parse(q).value == [Many];
    OnlyManyMatchesAll([Many], t);
  }

  lemma InnerStar(q: seq<Char>, t: seq<Char>)
    requires |q| > 1 && q[0] == STAR && t != [] && Parse(q).Some?
    ensures Parse(q[1..]).Some?
    ensures Means(q, t) <==> exists k :: 0 <= k < |t| && Means(q[1..], t[k..])
  {
    var items, rest := Parse(q).value, Parse(q[1..]).value;
    assert items[0] == Many && items[1..] == rest;
    assert rest != [];
    StarNeedsNoEmptyRest(rest, t);
  }

  lemma ParseQuestion(q: seq<Char>)
    requires q != [] && q[0] == QUESTION
    ensures Parse(q) == Prepend(Any, Parse(q[1..]))
  {
  }

  lemma ParseLiteral(q: seq<Char>)
    requires q != [] && q[0] != QUESTION && q[0] != STAR && q[0] != OPEN
    ensures q[0] != BACKSLASH ==> Parse(q) == Prepend(Literal(q[0]), Parse(q[1..]))
    ensures q[0] == BACKSLASH && |q| > 1 ==> Parse(q) == Prepend(Literal(q[1]), Parse(q[2..]))
  {
  }

  /** A trailing '[', "[!" or backslash is no pattern. */
  lemma NotAPattern(p0: seq<Char>, s0: seq<Char>, q: seq<Char>, t: seq<Char>)
    requires ReducesTo(p0, s0, q, t)
    requires q == [OPEN] || q == [OPEN, BANG] || q == [BACKSLASH]
    ensures Parse(p0).None?
  {
    assert Parse(q).None?;
  }

  lemma Positive(p0: seq<Char>, s0: seq<Char>, q: seq<Char>, t: seq<Char>)
    requires ReducesTo(p0, s0, q, t) && Means(q, t)
    ensures Parse(p0).Some? ==> Means(p0, s0)
  {
  }

  lemma Negative(p0: seq<Char>, s0: seq<Char>, q: seq<Char>, t: seq<Char>)
    requires ReducesTo(p0, s0, q, t) && !Means(q, t)
    ensures Parse(p0).Some? ==> !Means(p0, s0)
  {
  }

  lemma EndOfText(p0: seq<Char>, s0: seq<Char>, q: seq<Char>, onlyStars: bool)
    requires ReducesTo(p0, s0, q, [])
    requires onlyStars <==> forall i :: 0 <= i < |q| ==> q[i] == STAR
    ensures Parse(p0).Some? ==> (Means(p0, s0) <==> onlyStars)
  {
    if Parse(p0).Some? {
      AtEndOfText(q);
    }
  }

  lemma EndOfPattern(p0: seq<Char>, s0: seq<Char>, t: seq<Char>)
    requires ReducesTo(p0, s0, [], t)
    ensures Parse(p0).Some? ==> (Means(p0, s0) <==> t == [])
  {
  }

  lemma StarAnswer(p0: seq<Char>, s0: seq<Char>, q: seq<Char>, t: seq<Char>, r: Outcome)
    requires ReducesTo(p0, s0, q, t)
    requires Parse(q).Some? ==> r == Answer(Means(q, t))
    ensures Parse(p0).Some? ==> r == Answer(Means(p0, s0))
  {
  }

  lemma SetAnswer(p0: seq<Char>, s0: seq<Char>, q: seq<Char>, t: seq<Char>, rest: seq<Char>, invert: bool, mtch: Outcome)
    requires ReducesTo(p0, s0, q, t) && |q| > 1 && q[0] == OPEN && t != []
    requires var set' := ParseSet(if invert then q[2..] else q[1..]);
             if set'.ASet? then
               && mtch == Answer(InRanges(t[0], set'.ranges))
               && (invert != InRanges(t[0], set'.ranges) ==> ReducesTo(q, t, rest, t[1..]))
               && (invert == InRanges(t[0], set'.ranges) ==> !Means(q, t))
             else Parse(q).None?
    ensures mtch.Answer? && invert != mtch.matched ==> ReducesTo(p0, s0, rest, t[1..])
    ensures mtch.Answer? && invert == mtch.matched ==> (Parse(p0).Some? ==> !Means(p0, s0))
    ensures mtch.SyntaxError? ==> Parse(p0).None?
  {
  }

  /**
   * Decides whether the text from its0 on is in the language of the pattern from itp0
   * on, and terminates on malformed patterns as well.
   */
  method Match(p: seq<Char>, itp0: nat, s: seq<Char>, its0: nat) returns (r: Outcome)
    requires itp0 <= |p| && its0 <= |s|
    ensures Parse(p[itp0..]).Some? ==> r == Answer(Means(p[itp0..], s[its0..]))
    decreases |p| - itp0, 0
  {
    hide Parse, ReducesTo, Means, ParseSet, InRanges;
    var itp, its := itp0, its0;
    ghost var p0, s0 := p[itp0..], s[its0..];
    ReducesRefl(p0, s0);
    while itp < |p|
      invariant itp0 <= itp <= |p| && its0 <= its <= |s|
      invariant ReducesTo(p0, s0, p[itp..], s[its..])
      decreases |p| - itp
    {
      ghost var q, t := p[itp..], s[its..];
      if its == |s| {
        var end := SkipStars(p, itp);
        EndOfText(p0, s0, q, end == |p|);
        return Answer(end == |p|);
      }
      assert t[1..] == s[its + 1..] && q[1..] == p[itp + 1..];
      if p[itp] == QUESTION {
        ParseQuestion(q);
        OneCharacter(q, t, 1, Any);
        ReducesTransitive(p0, s0, q, t, q[1..], t[1..]);
        itp, its := itp + 1, its + 1;
      } else if p[itp] == STAR {
        itp := itp + 1;
        if itp == |p| {
          FinalStar(q, t);
          Positive(p0, s0, q, t);
          return Answer(true);
        }
        r := MatchAfterStar(p, itp, s, its);
        StarAnswer(p0, s0, q, t, r);
        return;
      } else if p[itp] == OPEN {
        itp := itp + 1;
        if itp == |p| {
          NotAPattern(p0, s0, q, t);
          return SyntaxError;
        }
        var invert := p[itp] == BANG;
        if invert {
          assert q[2..] == p[itp + 1..];
          itp := itp + 1;
        }
        if itp == |p| {
          NotAPattern(p0, s0, q, t);
          return SyntaxError;
        }
        var mtch;
        mtch, itp := MatchSet(p, itp, s[its]);
        SetItem(q, t, invert, p[itp..]);
        SetAnswer(p0, s0, q, t, p[itp..], invert, mtch);
        if mtch.SyntaxError? || invert == mtch.matched {
          return if mtch.SyntaxError? then mtch else Answer(false);
        }
        its := its + 1;
      } else {
        var quoted := p[itp] == BACKSLASH;
        if quoted {
          itp := itp + 1;
          if itp == |p| {
            NotAPattern(p0, s0, q, t);
            return SyntaxError;
          }
          assert q[2..] == p[itp + 1..];
        }
        ParseLiteral(q);
        OneCharacter(q, t, if quoted then 2 else 1, Literal(p[itp]));
        if p[itp] != s[its] {
          Negative(p0, s0, q, t);
          return Answer(false);
        }
        ReducesTransitive(p0, s0, q, t, p[itp + 1..], t[1..]);
        itp, its := itp + 1, its + 1;
      }
    }
    assert p[itp..] == [];
    EndOfPattern(p0, s0, s[its..]);
    r := Answer(its == |s|);
  }

  /** Past all stars at the cursor. */
  method SkipStars(p: seq<Char>, start: nat) returns (itp: nat)
    requires start <= |p|
    ensures start <= itp <= |p|
    ensures itp == |p| <==> forall i :: 0 <= i < |p[start..]| ==> p[start..][i] == STAR
  {
    itp := start;
    while itp < |p| && p[itp] == STAR
      invariant start <= itp <= |p|
      invariant forall i :: start <= i < itp ==> p[i] == STAR
    {
      itp := itp + 1;
    }
    if itp < |p| {
      assert p[start..][itp - start] != STAR;
    }
  }

  /** Behind a star: tries the rest of the pattern at one position after the other. */
  method MatchAfterStar(p: seq<Char>, itp: nat, s: seq<Char>, its0: nat) returns (r: Outcome)
    requires 0 < itp < |p| && its0 < |s| && p[itp - 1] == STAR
    ensures Parse(p[itp - 1..]).Some? ==> r == Answer(Means(p[itp - 1..], s[its0..]))
    decreases |p| - itp, 1
  {
    hide Parse, Means;
    var its := its0;
    ghost var q, t := p[itp - 1..], s[its0..];
    assert q[1..] == p[itp..];
    if Parse(q).Some? {
      InnerStar(q, t);
    }
    while its < |s|
      invariant its0 <= its <= |s|
      invariant Parse(q).Some? ==> forall k :: 0 <= k < its - its0 ==> !Means(p[itp..], t[k..])
    {
      assert t[its - its0..] == s[its..];
      r := Match(p, itp, s, its);
      if r.SyntaxError? || r.matched {
        return;
      }
      its := its + 1;
    }
    r := Answer(false);
  }

  /** A set can be written down if no proper range ends in ']' or a backslash. */
  predicate Writable(item: Item) {
    item.OneOf? ==> forall k :: 0 <= k < |item.ranges| ==>
      item.ranges[k].first == item.ranges[k].last || (item.ranges[k].last != CLOSE && item.ranges[k].last != BACKSLASH)
  }

  function WriteRanges(ranges: seq<Range>): seq<Char> {
    if ranges == [] then [CLOSE]
    else
      [BACKSLASH, ranges[0].first]
      + (if ranges[0].first == ranges[0].last then [] else [DASH, ranges[0].last])
      + WriteRanges(ranges[1..])
  }

  function WriteItem(item: Item): seq<Char> {
    match item
    case Any => [QUESTION]
    case Many => [STAR]
    case Literal(c) => [BACKSLASH, c]
    case OneOf(invert, ranges) => (if invert then [OPEN, BANG] else [OPEN]) + WriteRanges(ranges)
  }

  function Write(items: seq<Item>): seq<Char> {
    if items == [] then [] else WriteItem(items[0]) + Write(items[1..])
  }

  lemma ParseOneRange(p: seq<Char>, range: Range, tail: seq<Char>, ranges: seq<Range>, rest: seq<Char>)
    requires p != [] && p[0] != CLOSE && ParseRange(p) == ARange(range, tail) && ParseSet(tail) == ASet(ranges, rest)
    ensures ParseSet(p) == ASet([range] + ranges, rest)
  {
  }

  lemma ParseWrittenRange(r: Range, tail: seq<Char>)
    requires r.first == r.last || (r.last != CLOSE && r.last != BACKSLASH)
    requires tail != [] && tail[0] != DASH
    ensures ParseRange([BACKSLASH, r.first] + (if r.first == r.last then [] else [DASH, r.last]) + tail) == ARange(r, tail)
  {
    var p := [BACKSLASH, r.first] + (if r.first == r.last then [] else [DASH, r.last]) + tail;
    var q := p[1..];
    if r.first == r.last {
      assert q == [r.first] + tail && q[1..] == tail;
    } else {
      assert q == [r.first, DASH, r.last] + tail && q[3..] == tail;
    }
  }

  lemma {:induction false} ParseWrittenRanges(ranges: seq<Range>, rest: seq<Char>)
    requires Writable(OneOf(false, ranges))
    ensures ParseSet(WriteRanges(ranges) + rest) == ASet(ranges, rest)
    decreases |ranges|
  {
    hide ParseSet, ParseRange;
    if ranges == [] {
      ParseClose(rest);
      assert WriteRanges(ranges) + rest == [CLOSE] + rest;
    } else {
      var r, tail := ranges[0], WriteRanges(ranges[1..]) + rest;
      ParseWrittenRanges(ranges[1..], rest);
      ParseWrittenRange(r, tail);
      var p := [BACKSLASH, r.first] + (if r.first == r.last then [] else [DASH, r.last]) + tail;
      assert p == WriteRanges(ranges) + rest;
      ParseOneRange(p, r, tail, ranges[1..], rest);
      assert [r] + ranges[1..] == ranges;
    }
  }

  lemma ParseClose(rest: seq<Char>)
    ensures ParseSet([CLOSE] + rest) == ASet([], rest)
  {
    assert ([CLOSE] + rest)[1..] == rest;
  }

  lemma ParseSetText(invert: bool, inside: seq<Char>)
    requires inside != [] && inside[0] != BANG
    ensures Parse((if invert then [OPEN, BANG] else [OPEN]) + inside)
         == match ParseSet(inside)
            case NoSet => None
            case ASet(ranges, rest) => Prepend(OneOf(invert, ranges), Parse(rest))
  {
    var p := (if invert then [OPEN, BANG] else [OPEN]) + inside;
    assert (if invert then p[2..] else p[1..]) == inside;
    assert !invert ==> p[1] != BANG;
  }

  lemma ParseItemText(item: Item, rest: seq<Char>)
    requires Writable(item)
    ensures Parse(WriteItem(item) + rest) == Prepend(item, Parse(rest))
  {
    hide Parse, ParseSet, Writable;
    if item.OneOf? {
      SetIsWritable(item);
      ParseSetItem(item.invert, item.ranges, rest);
    } else {
      ParsePlainItem(item, rest);
    }
  }

  lemma ParsePlainItem(item: Item, rest: seq<Char>)
    requires !item.OneOf?
    ensures Parse(WriteItem(item) + rest) == Prepend(item, Parse(rest))
  {
    hide ParseSet;
    var p := WriteItem(item) + rest;
    match item {
      case Any => assert p[1..] == rest;
      case Many => assert p[1..] == rest;
      case Literal(c) => assert p[2..] == rest;
    }
  }

  lemma ParseSetItem(invert: bool, ranges: seq<Range>, rest: seq<Char>)
    requires Writable(OneOf(false, ranges))
    ensures Parse(WriteItem(OneOf(invert, ranges)) + rest) == Prepend(OneOf(invert, ranges), Parse(rest))
  {
    hide Parse, ParseSet, Writable;
    var inside := WriteRanges(ranges) + rest;
    ParseWrittenRanges(ranges, rest);
    ParseSetText(invert, inside);
    assert WriteItem(OneOf(invert, ranges)) + rest == (if invert then [OPEN, BANG] else [OPEN]) + inside;
  }

  lemma SetIsWritable(item: Item)
    requires Writable(item) && item.OneOf?
    ensures Writable(OneOf(false, item.ranges))
  {
  }

  /** Every list of writable items is the meaning of the pattern written for it. */
  lemma {:induction false} ParseWritten(items: seq<Item>)
    requires forall i :: 0 <= i < |items| ==> Writable(items[i])
    ensures Parse(Write(items)) == Some(items)
    decreases |items|
  {
    hide Writable, WriteItem;
    if items == [] {
      ParseNothing();
    } else {
      hide Parse;
      ParseWritten(items[1..]);
      ParseItemText(items[0], Write(items[1..]));
      assert [items[0]] + items[1..] == items;
    }
  }

  lemma ParseNothing()
    ensures Parse([]) == Some([])
  {
  }
}
