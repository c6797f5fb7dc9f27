/**
 * Operators and string literals as the query language's tokens read them from a
 * character stream. The first character has already been taken when a token is finished.
 */
module QueryTokens {
  import opened Options
  import opened QueryParsing

  /** A stream of characters that can be looked ahead by one. */
  class Stream {
    const text: string
    var position: nat

    constructor (text: string)
      ensures this.text == text && position == 0
    {
      this.text := text;
      position := 0;
    }

    ghost predicate Valid()
      reads this`position
    {
      position <= |text|
    }

    ghost function Rest(): string
      requires Valid()
      reads this`position
    {
      text[position..]
    }

    function AtEnd(): bool
      requires Valid()
      reads this`position
    {
      position == |text|
    }

    function Peek(): char
      requires Valid() && !AtEnd()
      reads this`position
    {
      text[position]
    }

    method Get() returns (c: char)
      requires Valid() && !AtEnd()
      modifies this`position
      ensures Valid() && c == old(Rest())[0] && Rest() == old(Rest())[1..]
    {
      c := text[position];
      position := position + 1;
    }
  }

  datatype Finished = Taken(value: string) | Malformed

  // ---- String literals ----

  const QUOTE := '"'
  const BACKSLASH := '\\'

  predicate EndsLine(c: char) {
    c == '\n' || c == '\r'
  }

  /** One character of a literal: quoted by a backslash, or standing for itself. */
  datatype Piece = Piece(quoted: bool, c: char)

  predicate WellFormed(piece: Piece) {
    piece.quoted || (piece.c != QUOTE && piece.c != BACKSLASH && !EndsLine(piece.c))
  }

  predicate AllWellFormed(pieces: seq<Piece>) {
    forall i :: 0 <= i < |pieces| ==> WellFormed(pieces[i])
  }

  function Written(pieces: seq<Piece>): string {
    if pieces == [] then ""
    else (if pieces[0].quoted then [BACKSLASH] else []) + [pieces[0].c] + Written(pieces[1..])
  }

  function Content(pieces: seq<Piece>): string {
    seq(|pieces|, i requires 0 <= i < |pieces| => pieces[i].c)
  }

  datatype Scan = Unterminated | Closed(value: string, rest: string)

  /** What is taken from the stream up to the closing quote. */
  function ScanLiteral(s: string): Scan
    decreases |s|
  {
    if s == [] || EndsLine(s[0]) then Unterminated
    else if s[0] == QUOTE then Closed(s[..1], s[1..])
    else
      var n := if s[0] == BACKSLASH then 2 else 1;
      if |s| < n then Unterminated
      else After(s[..n], ScanLiteral(s[n..]))
  }

  function After(taken: string, scan: Scan): Scan {
    match scan
    case Unterminated => Unterminated
    case Closed(value, rest) => Closed(taken + value, rest)
  }

  /** The characters a literal stands for, from behind its opening quote. */
  function Unquoted(s: string): string
    decreases |s|
  {
    if s == [] || s[0] == QUOTE then []
    else if s[0] != BACKSLASH then [s[0]] + Unquoted(s[1..])
    else if |s| == 1 then []
    else [s[1]] + Unquoted(s[2..])
  }

  /** The value of a token, with or without its opening quote. */
  function Literal(value: string): string {
    if value != [] && value[0] == QUOTE then Unquoted(value[1..]) else Unquoted(value)
  }

  class StringLiteralToken {
    var value: string

    constructor ()
      ensures value == ""
    {
      value := "";
    }

    method Start(c: char) returns (starts: bool)
      modifies this
      ensures starts <==> c == QUOTE
      ensures value == [c]
    {
      value := [c];
      starts := c == QUOTE;
    }

    /** Takes the rest of the literal; an unterminated literal is a syntax error. */
    method Finish(stream: Stream) returns (finished: Finished)
      requires stream.Valid()
      modifies this, stream`position
      ensures stream.Valid()
      ensures match ScanLiteral(old(stream.Rest()))
              case Unterminated => finished == Malformed
              case Closed(taken, rest) =>
                finished == Taken(value) && value == old(value) + taken && stream.Rest() == rest
    {
      hide ScanLiteral;
      ghost var start := stream.Rest();
      ghost var taken := "";
      while !stream.AtEnd() && stream.Peek() != QUOTE && !EndsLine(stream.Peek())
        invariant stream.Valid() && value == old(value) + taken
        invariant ScanLiteral(start) == After(taken, ScanLiteral(stream.Rest()))
        decreases |stream.text| - stream.position
      {
        ghost var s := stream.Rest();
        Further(taken, s);
        var c := stream.Get();
        if c == BACKSLASH {
          value := value + [c];
          if stream.AtEnd() {
            return Malformed; // what is read past the end of the input is not part of a literal
          }
          c := stream.Get();
        }
        value := value + [c];
        ghost var n := if s[0] == BACKSLASH then 2 else 1;
        taken := taken + s[..n];
        assert stream.Rest() == s[n..];
      }
      ScanEnds(stream.Rest());
      if !stream.AtEnd() && stream.Peek() == QUOTE {
        var c := stream.Get();
        value := value + [c];
        finished := Taken(value);
      } else {
        finished := Malformed;
      }
    }

    /** The characters of the literal. */
    method AsString() returns (result: string)
      ensures result == Literal(value)
    {
      hide Unquoted;
      result := "";
      UnquotedEnds("");
      var it, end := 0, |value|;
      if it != end {
        if value[it] == QUOTE {
          it := it + 1;
        }
        ghost var begin := it;
        assert result + Unquoted(value[it..]) == Unquoted(value[begin..]);
        while it != end && value[it] != QUOTE
          invariant begin <= it <= end
          invariant result + Unquoted(value[it..]) == Unquoted(value[begin..])
          decreases end - it
        {
          UnquotedStep(result, value, it);
          if value[it] == BACKSLASH {
            it := it + 1;
          }
          if it != end {
            result := result + [value[it]];
            it := it + 1;
          }
        }
        UnquotedEnds(value[it..]);
        assert result + "" == result;
        assert value[0..] == value;
      }
    }
  }

  lemma UnquotedEnds(s: string)
    ensures s == [] || s[0] == QUOTE ==> Unquoted(s) == ""
  {
  }

  lemma UnquotedStep(taken: string, value: string, it: nat)
    requires it < |value| && value[it] != QUOTE
    ensures taken + Unquoted(value[it..]) ==
      if value[it] != BACKSLASH then (taken + [value[it]]) + Unquoted(value[it + 1..])
      else if it + 1 == |value| then taken + Unquoted(value[it + 1..])
      else (taken + [value[it + 1]]) + Unquoted(value[it + 2..])
  {
    var s := value[it..];
    if value[it] != BACKSLASH {
      assert s[1..] == value[it + 1..];
    } else if |s| > 1 {
      assert s[2..] == value[it + 2..];
    }
  }

  lemma ScanEnds(s: string)
    ensures s == [] || EndsLine(s[0]) ==> ScanLiteral(s) == Unterminated
    ensures s != [] && s[0] == QUOTE ==> ScanLiteral(s) == Closed([QUOTE], s[1..])
  {
  }

  lemma Further(taken: string, s: string)
    requires s != [] && s[0] != QUOTE && !EndsLine(s[0])
    ensures var n := if s[0] == BACKSLASH then 2 else 1;
      After(taken, ScanLiteral(s)) == if |s| < n then Unterminated else After(taken + s[..n], ScanLiteral(s[n..]))
  {
    var n := if s[0] == BACKSLASH then 2 else 1;
    if |s| >= n && ScanLiteral(s[n..]).Closed? {
      var value := ScanLiteral(s[n..]).value;
      assert taken + s[..n] + value == taken + (s[..n] + value);
    }
  }

  /** A literal made of well-formed pieces is taken up to its closing quote. */
  lemma {:induction false} WellFormedIsTaken(pieces: seq<Piece>, rest: string)
    requires AllWellFormed(pieces)
    ensures ScanLiteral(Written(pieces) + [QUOTE] + rest) == Closed(Written(pieces) + [QUOTE], rest)
    decreases |pieces|
  {
    hide ScanLiteral;
    var s := Written(pieces) + [QUOTE] + rest;
    if pieces == [] {
      ScanEnds(s);
      assert s[1..] == rest;
    } else {
      WellFormedIsTaken(pieces[1..], rest);
      assert WellFormed(pieces[0]);
      var more := Written(pieces[1..]);
      var n := if pieces[0].quoted then 2 else 1;
      var head := (if pieces[0].quoted then [BACKSLASH] else []) + [pieces[0].c];
      assert s == head + (more + [QUOTE] + rest);
      assert s[..n] == head && s[n..] == more + [QUOTE] + rest;
      Further([], s);
      assert [] + s[..n] == head && head + (more + [QUOTE]) == Written(pieces) + [QUOTE];
    }
  }

  /** It stands for the characters of its pieces. */
  lemma {:induction false} WellFormedIsUnquoted(pieces: seq<Piece>)
    requires AllWellFormed(pieces)
    ensures Unquoted(Written(pieces) + [QUOTE]) == Content(pieces)
    decreases |pieces|
  {
    if pieces != [] {
      WellFormedIsUnquoted(pieces[1..]);
      assert WellFormed(pieces[0]);
      var s := Written(pieces) + [QUOTE];
      var n := if pieces[0].quoted then 2 else 1;
      assert s[n..] == Written(pieces[1..]) + [QUOTE];
      assert Content(pieces) == [pieces[0].c] + Content(pieces[1..]);
    }
  }

  /** Whatever is taken was made of well-formed pieces. */
  lemma {:induction false} TakenIsWellFormed(s: string) returns (pieces: seq<Piece>)
    requires ScanLiteral(s).Closed?
    ensures AllWellFormed(pieces) && s == Written(pieces) + [QUOTE] + ScanLiteral(s).rest
    decreases |s|
  {
    if s[0] == QUOTE {
      pieces := [];
    } else {
      var n := if s[0] == BACKSLASH then 2 else 1;
      var more := TakenIsWellFormed(s[n..]);
      pieces := [Piece(s[0] == BACKSLASH, s[n - 1])] + more;
      assert pieces[1..] == more;
    }
  }

  /**
   * A literal is taken from the stream exactly when well-formed pieces and a closing quote
   * are there; it then reads as the characters of the pieces.
   */
  lemma LiteralIsItsPieces(s: string, rest: string, content: string)
    ensures (exists pieces :: AllWellFormed(pieces) && s == Written(pieces) + [QUOTE] + rest && content == Content(pieces))
      <==> (ScanLiteral(s).Closed? && ScanLiteral(s).rest == rest && content == Literal([QUOTE] + ScanLiteral(s).value))
  {
    if pieces :| AllWellFormed(pieces) && s == Written(pieces) + [QUOTE] + rest && content == Content(pieces) {
      WellFormedIsTaken(pieces, rest);
      WellFormedIsUnquoted(pieces);
      assert ([QUOTE] + ScanLiteral(s).value)[1..] == ScanLiteral(s).value;
    }
    if ScanLiteral(s).Closed? && ScanLiteral(s).rest == rest && content == Literal([QUOTE] + ScanLiteral(s).value) {
      var pieces := TakenIsWellFormed(s);
      WellFormedIsTaken(pieces, rest);
      WellFormedIsUnquoted(pieces);
      assert ([QUOTE] + ScanLiteral(s).value)[1..] == ScanLiteral(s).value;
    }
  }

  /** Quoting exactly what cannot stand for itself. */
  function Escaped(s: string): seq<Piece> {
    seq(|s|, i requires 0 <= i < |s| => Piece(s[i] == QUOTE || s[i] == BACKSLASH || EndsLine(s[i]), s[i]))
  }

  /** Every string survives being escaped, read as a literal and turned back into a string. */
  lemma EscapedIsReadBack(s: string, rest: string)
    ensures var written := Written(Escaped(s)) + [QUOTE];
      && ScanLiteral(written + rest) == Closed(written, rest)
      && Literal([QUOTE] + written) == s
  {
    var written := Written(Escaped(s)) + [QUOTE];
    WellFormedIsTaken(Escaped(s), rest);
    WellFormedIsUnquoted(Escaped(s));
    assert ([QUOTE] + written)[1..] == written;
    assert Content(Escaped(s)) == s;
  }

  // ---- Operators ----

  /** The operator table: spellings and the numbers of the enumeration. */
  const OPERATORS: map<string, Operator> := map[
    "(" := Open, ")" := Close, "<" := Lt, "<=" := Le, ">" := Gt, ">=" := Ge,
    "==" := Eq, "=~" := Match, "!" := Not, "!=" := Ne, "&&" := And, "||" := Or
  ]

  predicate StartsOperator(c: char) {
    c in {'(', ')', '<', '>', '=', '!', '&', '|'}
  }

  lemma TwoCharacterOperators(a: char, b: char)
    ensures [a, b] in OPERATORS <==>
      || (a in {'<', '>', '=', '!'} && b == '=')
      || (a == '=' && b == '~')
      || (a in {'&', '|'} && b == a)
  {
    var s := [a, b];
    assert s[0] == a && s[1] == b;
    if (a in {'<', '>', '=', '!'} && b == '=') || (a == '=' && b == '~') || (a in {'&', '|'} && b == a) {
      assert s == "<=" || s == ">=" || s == "==" || s == "!=" || s == "=~" || s == "&&" || s == "||";
    }
  }

  /** Takes the second character of an operator, if there is one. */
  method FinishOperator(first: char, stream: Stream) returns (finished: Finished)
    requires stream.Valid() && StartsOperator(first)
    modifies stream`position
    ensures stream.Valid()
    ensures finished == OperatorAt([first] + old(stream.Rest()))
    ensures finished.Taken? ==> finished.value + stream.Rest() == [first] + old(stream.Rest())
  {
    var value := [first];
    ghost var s := [first] + stream.Rest();
    if |s| > 1 {
      assert s[..2] == [first, s[1]];
      TwoCharacterOperators(first, s[1]);
    }
    var second := if stream.AtEnd() then None else Some(stream.Peek());
    match first {
      case '(' => {}
      case ')' => {}
      case '<' => value := TakeIf(second == Some('='), value, stream);
      case '>' => value := TakeIf(second == Some('='), value, stream);
      case '&' =>
        if second != Some('&') {
          return Malformed;
        }
        value := TakeIf(true, value, stream);
      case '|' =>
        if second != Some('|') {
          return Malformed;
        }
        value := TakeIf(true, value, stream);
      case '=' => value := TakeIf(second == Some('~') || second == Some('='), value, stream);
      case '!' => value := TakeIf(second == Some('='), value, stream);
    }
    return Taken(value);
  }

  method TakeIf(take: bool, value: string, stream: Stream) returns (longer: string)
    requires stream.Valid() && (take ==> !stream.AtEnd())
    modifies stream`position
    ensures stream.Valid() && longer + stream.Rest() == value + old(stream.Rest())
    ensures |longer| == |value| + if take then 1 else 0
  {
    longer := value;
    if take {
      var c := stream.Get();
      longer := longer + [c];
    }
  }

  predicate IsOperator(spelling: string) {
    spelling in OPERATORS
  }

  /** The longest operator at the start of a text; '=' may also stand alone, '&' and '|' may not. */
  function OperatorAt(s: string): Finished
    requires s != [] && StartsOperator(s[0])
  {
    if |s| > 1 && IsOperator(s[..2]) then Taken(s[..2])
    else if s[0] == '&' || s[0] == '|' then Malformed
    else Taken(s[..1])
  }

  /** What the table makes of a spelling: a lone '=' is none of its operators. */
  function AsOperator(value: string): Operator {
    if value in OPERATORS then OPERATORS[value] else Unlisted
  }

  function OperatorSpelling(op: Operator): string
    requires op != Unlisted
  {
    match op
    case Open => "("
    case Close => ")"
    case Lt => "<"
    case Le => "<="
    case Gt => ">"
    case Ge => ">="
    case Eq => "=="
    case Match => "=~"
    case Not => "!"
    case Ne => "!="
    case And => "&&"
    case Or => "||"
  }

  /** Each operator is read back from its spelling exactly when the text after it does not make a longer one. */
  lemma OperatorIsReadBack(op: Operator, rest: string)
    requires op != Unlisted
    ensures var s := OperatorSpelling(op);
      && StartsOperator(s[0])
      && AsOperator(s) == op
      && (OperatorAt(s + rest) == Taken(s) <==> !(|s| == 1 && rest != [] && IsOperator(s + rest[..1])))
  {
    var s := OperatorSpelling(op);
    if |s| == 2 {
      assert (s + rest)[..2] == s;
    } else {
      assert (s + rest)[..1] == s;
      if rest != [] {
        assert (s + rest)[..2] == s + rest[..1];
      }
    }
  }
}
