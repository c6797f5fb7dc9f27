/**
 * The precedence parser of the query language, on lists of tokens. The grammar is given
 * by syntax trees that keep every parenthesis; `Spelling` is the token list of a tree and
 * `Meaning` the expression it stands for. The parser accepts exactly the spellings.
 */
module QueryParsing {

  datatype Operator =
    | Open | Close | Lt | Le | Gt | Ge | Eq | Match | Not | Ne | And | Or
    | Unlisted // an operator spelling that is not in the operator table, such as a lone '='

  datatype Token =
    | Op(op: Operator)
    | Identifier(name: string)
    | StringLiteral(text: string)
    | IntegerLiteral(number: int)
    | FloatLiteral(quantity: real)
    | RegExp(pattern: string)
    | Invalid(c: char)
    | EndOfInput

  datatype Relation = IsEq | IsNe | IsLt | IsLe | IsGt | IsGe

  datatype Value = Text(text: string) | Integer(number: int) | Float(quantity: real) | Boolean(truth: bool)

  /** Missing is the null expression that is left where an operand was expected and none was found. */
  datatype Expr =
    | Missing
    | OrExpr(left: Expr, right: Expr)
    | AndExpr(left: Expr, right: Expr)
    | NotExpr(operand: Expr)
    | Atom(atom: Atomic)

  datatype Atomic =
    | Exists(prop: string)
    | Compare(prop: string, relation: Relation, value: Value)
    | MatchGlob(prop: string, glob: string)
    | MatchRegExp(prop: string, pattern: string)

  datatype Outcome = Parsed(tree: Expr) | SyntaxError

  // ---- The grammar ----

  datatype Disjunction = OneConjunction(only: Conjunction) | OrOf(init: Disjunction, last: Conjunction)

  datatype Conjunction = OneFactor(only: Factor) | AndOf(init: Conjunction, last: Factor)

  datatype Factor = Factor(negated: bool, primary: Primary)

  datatype Primary = Nothing | Parenthesized(inner: Disjunction) | Plain(atom: Atomic)

  function RelationOperator(relation: Relation): Operator {
    match relation
    case IsEq => Eq
    case IsNe => Ne
    case IsLt => Lt
    case IsLe => Le
    case IsGt => Gt
    case IsGe => Ge
  }

  function ValueToken(value: Value): Token {
    match value
    case Text(text) => StringLiteral(text)
    case Integer(number) => IntegerLiteral(number)
    case Float(quantity) => FloatLiteral(quantity)
    case Boolean(truth) => Identifier(if truth then "true" else "false")
  }

  function AtomSpelling(atom: Atomic): seq<Token> {
    match atom
    case Exists(prop) => [Identifier(prop)]
    case Compare(prop, relation, value) => [Identifier(prop), Op(RelationOperator(relation)), ValueToken(value)]
    case MatchGlob(prop, glob) => [Identifier(prop), Op(Match), StringLiteral(glob)]
    case MatchRegExp(prop, pattern) => [Identifier(prop), Op(Match), RegExp(pattern)]
  }

  function Spelling(t: Disjunction): seq<Token> {
    match t
    case OneConjunction(only) => AndSpelling(only)
    case OrOf(init, last) => Spelling(init) + ([Op(Or)] + AndSpelling(last))
  }

  function AndSpelling(t: Conjunction): seq<Token> {
    match t
    case OneFactor(only) => FactorSpelling(only)
    case AndOf(init, last) => AndSpelling(init) + ([Op(And)] + FactorSpelling(last))
  }

  function FactorSpelling(t: Factor): seq<Token> {
    (if t.negated then [Op(Not)] else []) + PrimarySpelling(t.primary)
  }

  function PrimarySpelling(t: Primary): seq<Token> {
    match t
    case Nothing => []
    case Parenthesized(inner) => [Op(Open)] + (Spelling(inner) + [Op(Close)])
    case Plain(atom) => AtomSpelling(atom)
  }

  function Meaning(t: Disjunction): Expr {
    match t
    case OneConjunction(only) => AndMeaning(only)
    case OrOf(init, last) => OrExpr(Meaning(init), AndMeaning(last))
  }

  function AndMeaning(t: Conjunction): Expr {
    match t
    case OneFactor(only) => FactorMeaning(only)
    case AndOf(init, last) => AndExpr(AndMeaning(init), FactorMeaning(last))
  }

  function FactorMeaning(t: Factor): Expr {
    if t.negated then NotExpr(PrimaryMeaning(t.primary)) else PrimaryMeaning(t.primary)
  }

  function PrimaryMeaning(t: Primary): Expr {
    match t
    case Nothing => Missing
    case Parenthesized(inner) => Meaning(inner)
    case Plain(atom) => Atom(atom)
  }

  // ---- Reading a tree off a token list ----

  datatype Reading<T> = Failed | Done(tree: T, rest: seq<Token>)

  predicate StartsWith(ts: seq<Token>, op: Operator) {
    ts != [] && ts[0] == Op(op)
  }

  predicate IsRelation(token: Token) {
    token.Op? && token.op in {Eq, Ne, Lt, Le, Gt, Ge, Match}
  }

  function RelationOf(op: Operator): Relation
    requires op in {Eq, Ne, Lt, Le, Gt, Ge}
  {
    match op
    case Eq => IsEq
    case Ne => IsNe
    case Lt => IsLt
    case Le => IsLe
    case Gt => IsGt
    case Ge => IsGe
  }

  datatype Conversion = Converted(value: Value) | Misplaced

  /** The value a token stands for on the right of a comparison. */
  function ValueOf(token: Token): (r: Conversion)
    ensures r.Converted? ==> ValueToken(r.value) == token
    ensures r.Misplaced? ==> forall value :: ValueToken(value) != token
  {
    match token
    case StringLiteral(text) => Converted(Text(text))
    case IntegerLiteral(number) => Converted(Integer(number))
    case FloatLiteral(quantity) => Converted(Float(quantity))
    case Identifier(name) =>
      if name == "true" then Converted(Boolean(true))
      else if name == "false" then Converted(Boolean(false))
      else Misplaced
    case _ => Misplaced
  }

  /** A property name, and what is asked of it. */
  function ReadAtom(ts: seq<Token>): (r: Reading<Atomic>)
    requires ts != [] && ts[0].Identifier?
    ensures r.Done? ==> AtomSpelling(r.tree) + r.rest == ts
  {
    var prop := ts[0].name;
    if |ts| == 1 || !IsRelation(ts[1]) then Done(Exists(prop), ts[1..])
    else if |ts| == 2 then Failed
    else if ts[1].op == Match then
      if ts[2].StringLiteral? then Done(MatchGlob(prop, ts[2].text), ts[3..])
      else if ts[2].RegExp? then Done(MatchRegExp(prop, ts[2].pattern), ts[3..])
      else Failed
    else match ValueOf(ts[2])
      case Misplaced => Failed
      case Converted(value) => Done(Compare(prop, RelationOf(ts[1].op), value), ts[3..])
  }

  function Read(ts: seq<Token>): (r: Reading<Disjunction>)
    ensures r.Done? ==> |r.rest| <= |ts|
    decreases |ts|, 5
  {
    match ReadAnd(ts)
    case Failed => Failed
    case Done(tree, rest) => ReadMoreOr(OneConjunction(tree), rest)
  }

  function ReadMoreOr(left: Disjunction, ts: seq<Token>): (r: Reading<Disjunction>)
    ensures r.Done? ==> |r.rest| <= |ts|
    decreases |ts|, 4
  {
    if !StartsWith(ts, Or) then Done(left, ts)
    else match ReadAnd(ts[1..])
      case Failed => Failed
      case Done(tree, rest) => ReadMoreOr(OrOf(left, tree), rest)
  }

  function ReadAnd(ts: seq<Token>): (r: Reading<Conjunction>)
    ensures r.Done? ==> |r.rest| <= |ts|
    decreases |ts|, 3
  {
    match ReadFactor(ts)
    case Failed => Failed
    case Done(tree, rest) => ReadMoreAnd(OneFactor(tree), rest)
  }

  function ReadMoreAnd(left: Conjunction, ts: seq<Token>): (r: Reading<Conjunction>)
    ensures r.Done? ==> |r.rest| <= |ts|
    decreases |ts|, 2
  {
    if !StartsWith(ts, And) then Done(left, ts)
    else match ReadFactor(ts[1..])
      case Failed => Failed
      case Done(tree, rest) => ReadMoreAnd(AndOf(left, tree), rest)
  }

  function ReadFactor(ts: seq<Token>): (r: Reading<Factor>)
    ensures r.Done? ==> |r.rest| <= |ts|
    decreases |ts|, 1
  {
    var negated := StartsWith(ts, Not);
    match ReadPrimary(if negated then ts[1..] else ts)
    case Failed => Failed
    case Done(tree, rest) => Done(Factor(negated, tree), rest)
  }

  function ReadPrimary(ts: seq<Token>): (r: Reading<Primary>)
    ensures r.Done? ==> |r.rest| <= |ts|
    decreases |ts|, 0
  {
    if StartsWith(ts, Open) then
      match Read(ts[1..])
      case Failed => Failed
      case Done(tree, rest) => if StartsWith(rest, Close) then Done(Parenthesized(tree), rest[1..]) else Failed
    else if ts != [] && ts[0].Identifier? then
      match ReadAtom(ts)
      case Failed => Failed
      case Done(atom, rest) => Done(Plain(atom), rest)
    else Done(Nothing, ts)
  }

  // ---- What is read is what was there ----

  lemma Regroup(a: seq<Token>, t: Token, b: seq<Token>, c: seq<Token>)
    ensures (a + ([t] + b)) + c == a + ([t] + (b + c))
    ensures ([t] + (b + c))[1..] == b + c
  {
  }

  lemma {:induction false} ReadIsSpelled(ts: seq<Token>)
    ensures var r := Read(ts); r.Done? ==> Spelling(r.tree) + r.rest == ts
    decreases |ts|, 5
  {
    var r := ReadAnd(ts);
    ReadAndIsSpelled(ts);
    if r.Done? {
      ReadMoreOrIsSpelled(OneConjunction(r.tree), r.rest);
    }
  }

  lemma {:induction false} ReadMoreOrIsSpelled(left: Disjunction, ts: seq<Token>)
    ensures var r := ReadMoreOr(left, ts); r.Done? ==> Spelling(r.tree) + r.rest == Spelling(left) + ts
    decreases |ts|, 4
  {
    if StartsWith(ts, Or) {
      var r := ReadAnd(ts[1..]);
      ReadAndIsSpelled(ts[1..]);
      if r.Done? {
        ReadMoreOrIsSpelled(OrOf(left, r.tree), r.rest);
        Regroup(Spelling(left), ts[0], AndSpelling(r.tree), r.rest);
      }
    }
  }

  lemma {:induction false} ReadAndIsSpelled(ts: seq<Token>)
    ensures var r := ReadAnd(ts); r.Done? ==> AndSpelling(r.tree) + r.rest == ts
    decreases |ts|, 3
  {
    var r := ReadFactor(ts);
    ReadFactorIsSpelled(ts);
    if r.Done? {
      ReadMoreAndIsSpelled(OneFactor(r.tree), r.rest);
    }
  }

  lemma {:induction false} ReadMoreAndIsSpelled(left: Conjunction, ts: seq<Token>)
    ensures var r := ReadMoreAnd(left, ts); r.Done? ==> AndSpelling(r.tree) + r.rest == AndSpelling(left) + ts
    decreases |ts|, 2
  {
    if StartsWith(ts, And) {
      var r := ReadFactor(ts[1..]);
      ReadFactorIsSpelled(ts[1..]);
      if r.Done? {
        ReadMoreAndIsSpelled(AndOf(left, r.tree), r.rest);
        Regroup(AndSpelling(left), ts[0], FactorSpelling(r.tree), r.rest);
      }
    }
  }

  lemma {:induction false} ReadFactorIsSpelled(ts: seq<Token>)
    ensures var r := ReadFactor(ts); r.Done? ==> FactorSpelling(r.tree) + r.rest == ts
    decreases |ts|, 1
  {
    if StartsWith(ts, Not) {
      ReadPrimaryIsSpelled(ts[1..]);
      assert ts == [ts[0]] + ts[1..];
    } else {
      ReadPrimaryIsSpelled(ts);
    }
  }

  lemma {:induction false} ReadPrimaryIsSpelled(ts: seq<Token>)
    ensures var r := ReadPrimary(ts); r.Done? ==> PrimarySpelling(r.tree) + r.rest == ts
    decreases |ts|, 0
  {
    if StartsWith(ts, Open) {
      var r := Read(ts[1..]);
      ReadIsSpelled(ts[1..]);
      if r.Done? && StartsWith(r.rest, Close) {
        assert ts == [ts[0]] + ts[1..];
        assert r.rest == [r.rest[0]] + r.rest[1..];
      }
    }
  }

  // ---- Every tree is read back from its spelling ----

  /** What may follow an expression, an operand of '||' and an operand of '&&'. */
  predicate EndsExpr(rest: seq<Token>) {
    rest == [] || rest[0] == Op(Close)
  }

  predicate EndsConjunction(rest: seq<Token>) {
    EndsExpr(rest) || rest[0] == Op(Or)
  }

  predicate EndsFactor(rest: seq<Token>) {
    EndsConjunction(rest) || rest[0] == Op(And)
  }

  lemma {:induction false} ReadsSpelling(t: Disjunction, rest: seq<Token>)
    requires EndsExpr(rest)
    ensures Read(Spelling(t) + rest) == Done(t, rest)
    decreases t, 1
  {
    ReadsDisjunction(t, rest);
  }

  lemma {:induction false} ReadsDisjunction(t: Disjunction, rest: seq<Token>)
    requires EndsConjunction(rest)
    ensures Read(Spelling(t) + rest) == ReadMoreOr(t, rest)
    decreases t, 0
  {
    match t
    case OneConjunction(only) =>
      ReadsConjunction(only, rest);
      assert ReadMoreAnd(only, rest) == Done(only, rest);
    case OrOf(init, last) =>
      var tail := [Op(Or)] + (AndSpelling(last) + rest);
      assert Spelling(t) + rest == Spelling(init) + tail;
      ReadsDisjunction(init, tail);
      ReadsConjunction(last, rest);
      assert ReadMoreAnd(last, rest) == Done(last, rest);
      assert tail[1..] == AndSpelling(last) + rest;
  }

  lemma {:induction false} ReadsConjunction(t: Conjunction, rest: seq<Token>)
    requires EndsFactor(rest)
    ensures ReadAnd(AndSpelling(t) + rest) == ReadMoreAnd(t, rest)
    decreases t, 0
  {
    match t
    case OneFactor(only) =>
      ReadsFactor(only, rest);
    case AndOf(init, last) =>
      var tail := [Op(And)] + (FactorSpelling(last) + rest);
      assert AndSpelling(t) + rest == AndSpelling(init) + tail;
      ReadsConjunction(init, tail);
      ReadsFactor(last, rest);
      assert tail[1..] == FactorSpelling(last) + rest;
  }

  lemma {:induction false} ReadsFactor(t: Factor, rest: seq<Token>)
    requires EndsFactor(rest)
    ensures ReadFactor(FactorSpelling(t) + rest) == Done(t, rest)
    decreases t, 0
  {
    var ts := FactorSpelling(t) + rest;
    ReadsPrimary(t.primary, rest);
    if t.negated {
      assert ts[1..] == PrimarySpelling(t.primary) + rest;
    } else {
      assert ts == PrimarySpelling(t.primary) + rest;
    }
  }

  lemma {:induction false} ReadsPrimary(t: Primary, rest: seq<Token>)
    requires EndsFactor(rest)
    ensures ReadPrimary(PrimarySpelling(t) + rest) == Done(t, rest)
    ensures !StartsWith(PrimarySpelling(t) + rest, Not)
    decreases t, 0
  {
    match t
    case Nothing => assert PrimarySpelling(t) + rest == rest;
    case Parenthesized(inner) =>
      var tail := [Op(Close)] + rest;
      assert PrimarySpelling(t) + rest == [Op(Open)] + (Spelling(inner) + tail);
      ReadsSpelling(inner, tail);
      assert tail[1..] == rest;
    case Plain(atom) => ReadsAtom(atom, rest);
  }

  lemma ReadsAtom(atom: Atomic, rest: seq<Token>)
    requires EndsFactor(rest)
    ensures ReadAtom(AtomSpelling(atom) + rest) == Done(atom, rest)
  {
    var ts := AtomSpelling(atom) + rest;
    assert ts[|AtomSpelling(atom)|..] == rest;
    if atom.Compare? {
      assert ts[2] == ValueToken(atom.value);
      assert ValueOf(ts[2]) == Converted(atom.value);
    }
  }

  /** No token list has two syntax trees. */
  lemma Unambiguous(t: Disjunction, u: Disjunction)
    requires Spelling(t) == Spelling(u)
    ensures t == u
  {
    ReadsSpelling(t, []);
    ReadsSpelling(u, []);
    assert Spelling(t) + [] == Spelling(u) + [];
  }

  // ---- Printing an expression with no more parentheses than it needs ----

  predicate Binds(e: Expr, level: nat) {
    match e
    case OrExpr(_, _) => level == 0
    case AndExpr(_, _) => level <= 1
    case NotExpr(_) => level <= 2
    case _ => true
  }

  function Layout(e: Expr): (t: Disjunction)
    ensures Meaning(t) == e
    decreases e, 3
  {
    match e
    case OrExpr(left, right) => OrOf(Layout(left), AndLayout(right))
    case _ => OneConjunction(AndLayout(e))
  }

  function AndLayout(e: Expr): (t: Conjunction)
    ensures AndMeaning(t) == e
    decreases e, if Binds(e, 1) then 2 else 6
  {
    match e
    case AndExpr(left, right) => AndOf(AndLayout(left), FactorLayout(right))
    case _ => OneFactor(FactorLayout(e))
  }

  function FactorLayout(e: Expr): (t: Factor)
    ensures FactorMeaning(t) == e
    decreases e, if Binds(e, 2) then 1 else 5
  {
    match e
    case NotExpr(operand) => Factor(true, PrimaryLayout(operand))
    case _ => Factor(false, PrimaryLayout(e))
  }

  function PrimaryLayout(e: Expr): (t: Primary)
    ensures PrimaryMeaning(t) == e
    decreases e, if Binds(e, 3) then 0 else 4
  {
    match e
    case Missing => Nothing
    case Atom(atom) => Plain(atom)
    case _ => Parenthesized(Layout(e))
  }

  function Parentheses(t: Disjunction): nat {
    match t
    case OneConjunction(only) => AndParentheses(only)
    case OrOf(init, last) => Parentheses(init) + AndParentheses(last)
  }

  function AndParentheses(t: Conjunction): nat {
    match t
    case OneFactor(only) => PrimaryParentheses(only.primary)
    case AndOf(init, last) => AndParentheses(init) + PrimaryParentheses(last.primary)
  }

  function PrimaryParentheses(t: Primary): nat {
    match t
    case Parenthesized(inner) => 1 + Parentheses(inner)
    case _ => 0
  }

  /** Asking for a tighter level costs at most one pair, and never saves one. */
  lemma TighterCostsAPair(e: Expr)
    ensures Parentheses(Layout(e)) <= AndParentheses(AndLayout(e))
    ensures AndParentheses(AndLayout(e)) <= PrimaryParentheses(FactorLayout(e).primary)
    ensures PrimaryParentheses(FactorLayout(e).primary) <= PrimaryParentheses(PrimaryLayout(e)) <= 1 + Parentheses(Layout(e))
  {
  }

  /** No other way of writing an expression has fewer parentheses than its layout. */
  lemma {:induction false} LayoutIsLeast(t: Disjunction)
    ensures Parentheses(Layout(Meaning(t))) <= Parentheses(t)
  {
    match t
    case OneConjunction(only) =>
      AndLayoutIsLeast(only);
      TighterCostsAPair(AndMeaning(only));
    case OrOf(init, last) =>
      LayoutIsLeast(init);
      AndLayoutIsLeast(last);
  }

  lemma {:induction false} AndLayoutIsLeast(t: Conjunction)
    ensures AndParentheses(AndLayout(AndMeaning(t))) <= AndParentheses(t)
  {
    match t
    case OneFactor(only) =>
      FactorLayoutIsLeast(only);
      TighterCostsAPair(FactorMeaning(only));
    case AndOf(init, last) =>
      AndLayoutIsLeast(init);
      FactorLayoutIsLeast(last);
  }

  lemma {:induction false} FactorLayoutIsLeast(t: Factor)
    ensures PrimaryParentheses(FactorLayout(FactorMeaning(t)).primary) <= PrimaryParentheses(t.primary)
    decreases t, 1
  {
    PrimaryLayoutIsLeast(t.primary);
    TighterCostsAPair(FactorMeaning(t));
  }

  lemma {:induction false} PrimaryLayoutIsLeast(t: Primary)
    ensures PrimaryParentheses(PrimaryLayout(PrimaryMeaning(t))) <= PrimaryParentheses(t)
  {
    match t
    case Parenthesized(inner) =>
      LayoutIsLeast(inner);
      TighterCostsAPair(Meaning(inner));
    case _ =>
  }

  /** The tokens of an expression, with parentheses only where precedence and associativity need them. */
  function Print(e: Expr): seq<Token> {
    Spelling(Layout(e))
  }

  // ---- Missing operands ----

  predicate Complete(e: Expr) {
    match e
    case Missing => false
    case OrExpr(left, right) => Complete(left) && Complete(right)
    case AndExpr(left, right) => Complete(left) && Complete(right)
    case NotExpr(operand) => Complete(operand)
    case Atom(_) => true
  }

  /** The grammar as meant: every operand is there. */
  predicate NoGap(t: Disjunction) {
    match t
    case OneConjunction(only) => AndNoGap(only)
    case OrOf(init, last) => NoGap(init) && AndNoGap(last)
  }

  predicate AndNoGap(t: Conjunction) {
    match t
    case OneFactor(only) => PrimaryNoGap(only.primary)
    case AndOf(init, last) => AndNoGap(init) && PrimaryNoGap(last.primary)
  }

  predicate PrimaryNoGap(t: Primary) {
    match t
    case Nothing => false
    case Parenthesized(inner) => NoGap(inner)
    case Plain(_) => true
  }

  lemma {:induction false} CompleteIffNoGap(t: Disjunction)
    ensures Complete(Meaning(t)) <==> NoGap(t)
  {
    match t
    case OneConjunction(only) => AndCompleteIffNoGap(only);
    case OrOf(init, last) =>
      CompleteIffNoGap(init);
      AndCompleteIffNoGap(last);
  }

  lemma {:induction false} AndCompleteIffNoGap(t: Conjunction)
    ensures Complete(AndMeaning(t)) <==> AndNoGap(t)
  {
    match t
    case OneFactor(only) => PrimaryCompleteIffNoGap(only.primary);
    case AndOf(init, last) =>
      AndCompleteIffNoGap(init);
      PrimaryCompleteIffNoGap(last.primary);
  }

  lemma {:induction false} PrimaryCompleteIffNoGap(t: Primary)
    ensures Complete(PrimaryMeaning(t)) <==> PrimaryNoGap(t)
  {
    match t
    case Parenthesized(inner) => CompleteIffNoGap(inner);
    case _ =>
  }

  // ---- The parser ----

  /** What the parser returns for a whole token list. */
  function Parse(ts: seq<Token>): Outcome {
    match Read(ts)
    case Failed => SyntaxError
    case Done(tree, rest) => if rest == [] then Parsed(Meaning(tree)) else SyntaxError
  }

  /** A result is returned exactly for the spellings of the grammar, and it is their meaning. */
  lemma ParsesExactlyTheGrammar(ts: seq<Token>, e: Expr)
    ensures Parse(ts) == Parsed(e) <==> exists t :: Spelling(t) == ts && Meaning(t) == e
  {
    if Parse(ts) == Parsed(e) {
      var tree := Read(ts).tree;
      ReadIsSpelled(ts);
      assert Spelling(tree) + [] == ts;
      assert Spelling(tree) == ts && Meaning(tree) == e;
    }
    if t :| Spelling(t) == ts && Meaning(t) == e {
      ReadsSpelling(t, []);
      assert Spelling(t) + [] == ts;
    }
  }

  /** Printing and parsing gives back the expression. */
  lemma ParsesWhatIsPrinted(e: Expr)
    ensures Parse(Print(e)) == Parsed(e)
  {
    ReadsSpelling(Layout(e), []);
    assert Print(e) + [] == Print(e);
  }

  /** Exactly the token lists of the grammar without gaps give an expression that has all its operands. */
  lemma CompleteExactlyWithoutGaps(ts: seq<Token>)
    ensures (Parse(ts).Parsed? && Complete(Parse(ts).tree)) <==> exists t :: Spelling(t) == ts && NoGap(t)
  {
    if Parse(ts).Parsed? {
      ParsesExactlyTheGrammar(ts, Parse(ts).tree);
      var t :| Spelling(t) == ts && Meaning(t) == Parse(ts).tree;
      CompleteIffNoGap(t);
    }
    if t :| Spelling(t) == ts && NoGap(t) {
      ParsesExactlyTheGrammar(ts, Meaning(t));
      CompleteIffNoGap(t);
    }
  }

  /** The tree with which a missing operand is spelled. */
  const NO_FACTOR := Factor(false, Nothing)
  const NO_CONJUNCTION := OneFactor(NO_FACTOR)

  lemma SpellsItsMeaning(t: Disjunction, ts: seq<Token>)
    requires Spelling(t) == ts
    ensures Parse(ts) == Parsed(Meaning(t))
  {
    ParsesExactlyTheGrammar(ts, Meaning(t));
  }

  /** An operator without its left or right operand is accepted around anything: no error, and a null operand. */
  lemma GapsAreAccepted(t: Disjunction, c: Conjunction, f: Factor)
    ensures Parse(Spelling(t) + [Op(Or)]) == Parsed(OrExpr(Meaning(t), Missing))
    ensures Parse([Op(Or)] + AndSpelling(c)) == Parsed(OrExpr(Missing, AndMeaning(c)))
    ensures Parse(AndSpelling(c) + [Op(And)]) == Parsed(AndExpr(AndMeaning(c), Missing))
    ensures Parse([Op(And)] + FactorSpelling(f)) == Parsed(AndExpr(Missing, FactorMeaning(f)))
  {
    hide Parse;
    assert FactorSpelling(NO_FACTOR) == [] == AndSpelling(NO_CONJUNCTION);
    SpellsItsMeaning(OrOf(t, NO_CONJUNCTION), Spelling(t) + [Op(Or)]);
    SpellsItsMeaning(OrOf(OneConjunction(NO_CONJUNCTION), c), [Op(Or)] + AndSpelling(c));
    SpellsItsMeaning(OneConjunction(AndOf(c, NO_FACTOR)), AndSpelling(c) + [Op(And)]);
    SpellsItsMeaning(OneConjunction(AndOf(NO_CONJUNCTION, f)), [Op(And)] + FactorSpelling(f));
  }

  /** Nothing at all, a lone '!' and "()" are accepted as well. */
  lemma NothingIsAccepted()
    ensures Parse([]) == Parsed(Missing)
    ensures Parse([Op(Not)]) == Parsed(NotExpr(Missing))
    ensures Parse([Op(Open), Op(Close)]) == Parsed(Missing)
    ensures Parse([Op(Not), Op(Open), Op(Close)]) == Parsed(NotExpr(Missing))
  {
    hide Parse;
    var none := OneConjunction(NO_CONJUNCTION);
    assert Spelling(none) == [];
    var brackets := Parenthesized(none);
    assert PrimarySpelling(brackets) == [Op(Open), Op(Close)];
    SpellsItsMeaning(none, []);
    SpellsItsMeaning(OneConjunction(OneFactor(Factor(true, Nothing))), [Op(Not)]);
    SpellsItsMeaning(OneConjunction(OneFactor(Factor(false, brackets))), [Op(Open), Op(Close)]);
    SpellsItsMeaning(OneConjunction(OneFactor(Factor(true, brackets))), [Op(Not), Op(Open), Op(Close)]);
  }

  lemma FirstFactor(ts: seq<Token>)
    ensures var r := ReadFactor(ts);
      if r.Failed? then ReadAnd(ts) == Failed
      else
        && AndMeaning(OneFactor(r.tree)) == FactorMeaning(r.tree)
        && ReadAnd(ts) == ReadMoreAnd(OneFactor(r.tree), r.rest)
  {
  }

  lemma OneMoreFactor(left: Conjunction, ts: seq<Token>)
    requires StartsWith(ts, And)
    ensures var r := ReadFactor(ts[1..]);
      if r.Failed? then ReadMoreAnd(left, ts) == Failed
      else
        && AndMeaning(AndOf(left, r.tree)) == AndExpr(AndMeaning(left), FactorMeaning(r.tree))
        && ReadMoreAnd(left, ts) == ReadMoreAnd(AndOf(left, r.tree), r.rest)
  {
  }

  lemma NoMoreFactors(left: Conjunction, ts: seq<Token>)
    requires !StartsWith(ts, And)
    ensures ReadMoreAnd(left, ts) == Done(left, ts)
  {
  }

  class QueryParser {
    const tokens: seq<Token>
    var position: nat

    constructor (tokens: seq<Token>)
      ensures this.tokens == tokens && position == 0
    {
      this.tokens := tokens;
      position := 0;
    }

    ghost predicate Valid()
      reads this`position
    {
      && position <= |tokens|
      && EndOfInput !in tokens
    }

    /** `next` has been taken from the input and not been used yet. */
    ghost predicate Ahead(next: Token)
      reads this`position
    {
      && Valid()
      && if next == EndOfInput then position == |tokens| else position > 0 && next == tokens[position - 1]
    }

    /** The input still to be read when `next` is ahead. */
    ghost function Unread(next: Token): seq<Token>
      requires Ahead(next)
      reads this`position
    {
      if next == EndOfInput then [] else tokens[position - 1..]
    }

    method NextToken() returns (next: Token)
      requires Valid()
      modifies this`position
      ensures Ahead(next)
      ensures Unread(next) == old(tokens[position..])
    {
      if position < |tokens| {
        next := tokens[position];
        position := position + 1;
      } else {
        next := EndOfInput;
      }
    }

    method Run() returns (outcome: Outcome)
      requires Valid() && position == 0
      modifies this`position
      ensures outcome == Parse(tokens)
    {
      var next := NextToken();
      assert Unread(next) == tokens;
      next, outcome := ParseExpr(next);
      if outcome.Parsed? && next != EndOfInput {
        outcome := SyntaxError;
      }
    }

    method ParseExpr(first: Token) returns (next: Token, outcome: Outcome)
      requires Ahead(first)
      modifies this`position
      ensures Ahead(next)
      ensures match Read(old(Unread(first)))
              case Failed => outcome == SyntaxError
              case Done(tree, rest) => outcome == Parsed(Meaning(tree)) && Unread(next) == rest
      decreases |Unread(first)|, 3
    {
      hide ReadAnd, AndMeaning;
      next, outcome := ParseAndExpr(first);
      if outcome.SyntaxError? {
        return;
      }
      ghost var ts := old(Unread(first));
      ghost var left := OneConjunction(ReadAnd(ts).tree);
      while next == Op(Or)
        invariant Ahead(next) && |Unread(next)| <= |ts|
        invariant outcome == Parsed(Meaning(left))
        invariant Read(ts) == ReadMoreOr(left, Unread(next))
        decreases |Unread(next)|
      {
        ghost var before := Unread(next);
        next := NextToken();
        assert Unread(next) == before[1..];
        var right;
        next, right := ParseAndExpr(next);
        if right.SyntaxError? {
          return next, SyntaxError;
        }
        left := OrOf(left, ReadAnd(before[1..]).tree);
        outcome := Parsed(OrExpr(outcome.tree, right.tree));
      }
    }

    method ParseAndExpr(first: Token) returns (next: Token, outcome: Outcome)
      requires Ahead(first)
      modifies this`position
      ensures Ahead(next)
      ensures match ReadAnd(old(Unread(first)))
              case Failed => outcome == SyntaxError
              case Done(tree, rest) => outcome == Parsed(AndMeaning(tree)) && Unread(next) == rest
      decreases |Unread(first)|, 2
    {
      hide ReadFactor, FactorMeaning, AndMeaning, ReadAnd, ReadMoreAnd;
      FirstFactor(Unread(first));
      next, outcome := ParseRelExpr(first);
      if outcome.SyntaxError? {
        return;
      }
      ghost var ts := old(Unread(first));
      ghost var left := OneFactor(ReadFactor(ts).tree);
      while next == Op(And)
        invariant Ahead(next) && |Unread(next)| <= |ts|
        invariant outcome == Parsed(AndMeaning(left))
        invariant ReadAnd(ts) == ReadMoreAnd(left, Unread(next))
        decreases |Unread(next)|
      {
        ghost var before := Unread(next);
        OneMoreFactor(left, before);
        next := NextToken();
        assert Unread(next) == before[1..];
        var right;
        next, right := ParseRelExpr(next);
        if right.SyntaxError? {
          return next, SyntaxError;
        }
        left := AndOf(left, ReadFactor(before[1..]).tree);
        outcome := Parsed(AndExpr(outcome.tree, right.tree));
      }
      NoMoreFactors(left, Unread(next));
    }

    method ParseRelExpr(first: Token) returns (next: Token, outcome: Outcome)
      requires Ahead(first)
      modifies this`position
      ensures Ahead(next)
      ensures match ReadFactor(old(Unread(first)))
              case Failed => outcome == SyntaxError
              case Done(tree, rest) => outcome == Parsed(FactorMeaning(tree)) && Unread(next) == rest
      decreases |Unread(first)|, 1
    {
      next := first;
      var neg := false;
      if next == Op(Not) {
        neg := true;
        next := NextToken();
      }
      next, outcome := ParseOperand(next);
      if neg && outcome.Parsed? {
        outcome := Parsed(NotExpr(outcome.tree));
      }
    }

    /** What may be negated: an expression in parentheses, a relation, or nothing. */
    method ParseOperand(first: Token) returns (next: Token, outcome: Outcome)
      requires Ahead(first)
      modifies this`position
      ensures Ahead(next)
      ensures match ReadPrimary(old(Unread(first)))
              case Failed => outcome == SyntaxError
              case Done(tree, rest) => outcome == Parsed(PrimaryMeaning(tree)) && Unread(next) == rest
      decreases |Unread(first)|, 0
    {
      if first == Op(Open) {
        next := NextToken();
        assert Unread(next) == old(Unread(first))[1..];
        next, outcome := ParseExpr(next);
        if outcome.SyntaxError? {
          return;
        }
        if next != Op(Close) {
          return next, SyntaxError;
        }
        next := NextToken();
      } else if first.Identifier? {
        next, outcome := ParseRelation(first);
      } else {
        next, outcome := first, Parsed(Missing);
      }
    }

    /** A property name on its own, or compared with a value or a pattern. */
    method ParseRelation(first: Token) returns (next: Token, outcome: Outcome)
      requires Ahead(first) && first.Identifier?
      modifies this`position
      ensures Ahead(next)
      ensures match ReadAtom(old(Unread(first)))
              case Failed => outcome == SyntaxError
              case Done(atom, rest) => outcome == Parsed(Atom(atom)) && Unread(next) == rest
    {
      ghost var ts := Unread(first);
      var prop := first.name;
      next := NextToken();
      assert Unread(next) == ts[1..];
      if !IsRelation(next) {
        return next, Parsed(Atom(Exists(prop)));
      }
      var op := next.op;
      next := NextToken();
      assert Unread(next) == ts[2..];
      outcome := Comparison(prop, op, next);
      ComparisonIsRead(ts, prop, op, next);
      if outcome.Parsed? {
        next := NextToken();
        assert Unread(next) == ts[3..];
      }
    }
  }

  /** The relation of a property and the value or pattern after the operator. */
  function Comparison(prop: string, op: Operator, token: Token): Outcome
    requires IsRelation(Op(op))
  {
    if op == Match then
      if token.StringLiteral? then Parsed(Atom(MatchGlob(prop, token.text)))
      else if token.RegExp? then Parsed(Atom(MatchRegExp(prop, token.pattern)))
      else SyntaxError
    else match ValueOf(token)
      case Misplaced => SyntaxError
      case Converted(value) => Parsed(Atom(Compare(prop, RelationOf(op), value)))
  }

  lemma ComparisonIsRead(ts: seq<Token>, prop: string, op: Operator, token: Token)
    requires |ts| >= 2 && ts[0] == Identifier(prop) && ts[1] == Op(op) && IsRelation(Op(op))
    requires token == if |ts| > 2 then ts[2] else EndOfInput
    ensures match ReadAtom(ts)
            case Failed => Comparison(prop, op, token) == SyntaxError
            case Done(atom, rest) => |ts| > 2 && rest == ts[3..] && Comparison(prop, op, token) == Parsed(Atom(atom))
  {
  }
}
