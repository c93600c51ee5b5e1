/** The parameter expression parser: precedence climbing over the operator levels of the grammar
    (+ 8, - 7, * 6, / 5, prefix minus 4, ^ 3). */
module ExpParser {
  import opened Wrappers
  import opened Sequences

  datatype Token =
    | RealLit(text: string)
    | IntLit(text: string)
    | PiLit
    | Ident(text: string)
    | Func(text: string)  // sin, cos, tan, exp, ln, sqrt
    | Plus
    | Minus
    | Star
    | Slash
    | Caret
    | LParen
    | RParen
    | Other(text: string)

  datatype Exp =
    | Atom(tok: Token)
    | Neg(arg: Exp)
    | Paren(arg: Exp)
    | App(func: Token, arg: Exp)
    | Bin(op: Token, left: Exp, right: Exp)

  /** The level at which the loop of exp() continues over an operator; 0 for other tokens. */
  function Level(tok: Token): nat {
    match tok
    case Plus => 8
    case Minus => 7
    case Star => 6
    case Slash => 5
    case Caret => 3
    case _ => 0
  }

  predicate IsAtom(tok: Token) {
    tok.RealLit? || tok.IntLit? || tok.PiLit? || tok.Ident?
  }

  type Parsed = Option<(Exp, seq<Token>)>

  /** exp(p): a tree and the tokens after it, or None for a syntax error. */
  function ParseExp(ts: seq<Token>, p: nat): (r: Parsed)
    ensures r.Some? ==> |r.value.1| < |ts|
    decreases |ts|, 1
  {
    match ParsePrimary(ts)
    case None => None
    case Some((e, rest)) => Climb(e, rest, p)
  }

  function ParsePrimary(ts: seq<Token>): (r: Parsed)
    ensures r.Some? ==> |r.value.1| < |ts|
    decreases |ts|, 0
  {
    if ts == [] then None
    else if IsAtom(ts[0]) then Some((Atom(ts[0]), ts[1..]))
    else if ts[0] == Minus then
      match ParseExp(ts[1..], 4)
      case None => None
      case Some((e, rest)) => Some((Neg(e), rest))
    else if ts[0] == LParen then
      match ParseClosed(ts[1..])
      case None => None
      case Some((e, rest)) => Some((Paren(e), rest))
    else if ts[0].Func? && |ts| > 1 && ts[1] == LParen then
      match ParseClosed(ts[2..])
      case None => None
      case Some((e, rest)) => Some((App(ts[0], e), rest))
    else None
  }

  /** exp(0) and the closing parenthesis. */
  function ParseClosed(ts: seq<Token>): (r: Parsed)
    ensures r.Some? ==> |r.value.1| < |ts|
    decreases |ts|, 2
  {
    match ParseExp(ts, 0)
    case None => None
    case Some((e, rest)) => if rest != [] && rest[0] == RParen then Some((e, rest[1..])) else None
  }

  predicate Continues(ts: seq<Token>, p: nat) {
    ts != [] && Level(ts[0]) > 0 && Level(ts[0]) >= p
  }

  /** The loop of exp(p) with `left` built so far. */
  function Climb(left: Exp, ts: seq<Token>, p: nat): (r: Parsed)
    ensures r.Some? ==> |r.value.1| <= |ts|
    decreases |ts|, 0
  {
    if Continues(ts, p) then
      match ParseExp(ts[1..], Level(ts[0]) + 1)
      case None => None
      case Some((right, rest)) => Climb(Bin(ts[0], left, right), rest, p)
    else Some((left, ts))
  }

  // ----- the trees the grammar describes -----

  function Flatten(e: Exp): seq<Token> {
    match e
    case Atom(tok) => [tok]
    case Neg(a) => [Minus] + Flatten(a)
    case Paren(a) => [LParen] + Flatten(a) + [RParen]
    case App(f, a) => [f, LParen] + Flatten(a) + [RParen]
    case Bin(op, l, r) => Flatten(l) + [op] + Flatten(r)
  }

  function Min(a: nat, b: nat): nat {
    if a < b then a else b
  }

  /** Every operator on the left spine has at least level p: the loop of exp(p) can build e. */
  predicate TightFor(e: Exp, p: nat) {
    e.Bin? ==> Level(e.op) >= p && TightFor(e.left, p)
  }

  lemma {:induction false} AnyTightForZero(e: Exp)
    ensures TightFor(e, 0)
  {
    if e.Bin? {
      AnyTightForZero(e.left);
    }
  }

  /** The operands still open at the right edge of e refuse exactly the operators below this level. */
  function OpenLevel(e: Exp): nat {
    match e
    case Neg(a) => Min(4, OpenLevel(a))
    case Bin(op, _, r) => Min(Level(op) + 1, OpenLevel(r))
    case _ => 9
  }

  /** e obeys the levels: operators associate to the left, an operand of an operator holds only
      tighter operators on its spine, and an operand that ends in a prefix minus is followed only by
      an operator that the minus does not swallow. */
  predicate Obeys(e: Exp) {
    match e
    case Atom(tok) => IsAtom(tok)
    case Neg(a) => Obeys(a) && TightFor(a, 4)
    case Paren(a) => Obeys(a)
    case App(f, a) => f.Func? && Obeys(a)
    case Bin(op, l, r) =>
      && Level(op) > 0
      && Obeys(l) && Level(op) < OpenLevel(l)
      && Obeys(r) && TightFor(r, Level(op) + 1)
  }

  /** The next token does not continue a loop at level p. */
  predicate Refused(ts: seq<Token>, p: nat) {
    !Continues(ts, p)
  }

  /** Parsing the tokens of a tree reaches the loop with exactly that tree built. */
  lemma {:induction false} ParseReachesTree(e: Exp, rest: seq<Token>, p: nat)
    requires Obeys(e) && TightFor(e, p) && Refused(rest, OpenLevel(e))
    ensures ParseExp(Flatten(e) + rest, p) == Climb(e, rest, p)
    decreases e, 1
  {
    if e.Bin? {
      var tail := [e.op] + (Flatten(e.right) + rest);
      assert Flatten(e) + rest == Flatten(e.left) + tail;
      ParseReachesTree(e.left, tail, p);
      assert tail[1..] == Flatten(e.right) + rest;
      ParseReachesTree(e.right, rest, Level(e.op) + 1);
    } else {
      PrimaryReachesTree(e, rest);
    }
  }

  lemma {:induction false} PrimaryReachesTree(e: Exp, rest: seq<Token>)
    requires Obeys(e) && !e.Bin? && Refused(rest, OpenLevel(e))
    ensures ParsePrimary(Flatten(e) + rest) == Some((e, rest))
    decreases e, 0
  {
    var ts := Flatten(e) + rest;
    match e
    case Atom(tok) =>
      assert ts[1..] == rest;
    case Neg(a) =>
      assert ts[1..] == Flatten(a) + rest;
      ParseReachesTree(a, rest, 4);
    case Paren(a) =>
      assert ts[1..] == Flatten(a) + ([RParen] + rest);
      ClosedReachesTree(a, rest);
    case App(f, a) =>
      assert ts[2..] == Flatten(a) + ([RParen] + rest);
      ClosedReachesTree(a, rest);
  }

  lemma {:induction false} ClosedReachesTree(e: Exp, rest: seq<Token>)
    requires Obeys(e)
    ensures ParseClosed(Flatten(e) + ([RParen] + rest)) == Some((e, rest))
    decreases e, 2
  {
    AnyTightForZero(e);
    ParseReachesTree(e, [RParen] + rest, 0);
    assert ([RParen] + rest)[1..] == rest;
  }

  /** What a successful parse at level p guarantees about its result. */
  ghost predicate Good(ts: seq<Token>, p: nat, e: Exp, rest: seq<Token>) {
    && ts == Flatten(e) + rest
    && Obeys(e) && TightFor(e, p)
    && Refused(rest, OpenLevel(e)) && Refused(rest, p)
  }

  lemma {:induction false} ParseIsGood(ts: seq<Token>, p: nat)
    ensures ParseExp(ts, p).Some? ==> Good(ts, p, ParseExp(ts, p).value.0, ParseExp(ts, p).value.1)
    decreases |ts|, 2
  {
    if ParseExp(ts, p).Some? {
      PrimaryIsGood(ts);
      var (e, rest) := ParsePrimary(ts).value;
      ClimbIsGood(ts, e, rest, p);
    }
  }

  lemma {:induction false} PrimaryIsGood(ts: seq<Token>)
    requires ParsePrimary(ts).Some?
    ensures GoodPrimary(ts, ParsePrimary(ts).value.0, ParsePrimary(ts).value.1)
    decreases |ts|, 1
  {
    if IsAtom(ts[0]) {
      HeadTail(ts);
    } else if ts[0] == Minus {
      ParseIsGood(ts[1..], 4);
      var (e, rest) := ParseExp(ts[1..], 4).value;
      MinusIsGood(ts, e, rest);
    } else if ts[0] == LParen {
      ParseIsGood(ts[1..], 0);
      var (e, rest) := ParseExp(ts[1..], 0).value;
      ParenIsGood(ts, e, rest);
    } else {
      ParseIsGood(ts[2..], 0);
      var (e, rest) := ParseExp(ts[2..], 0).value;
      AppIsGood(ts, e, rest);
    }
  }

  /** What a successful primary guarantees about its result. */
  ghost predicate GoodPrimary(ts: seq<Token>, e: Exp, rest: seq<Token>) {
    ts == Flatten(e) + rest && Obeys(e) && !e.Bin? && Refused(rest, OpenLevel(e))
  }

  lemma MinusIsGood(ts: seq<Token>, e: Exp, rest: seq<Token>)
    requires ts != [] && ts[0] == Minus && Good(ts[1..], 4, e, rest)
    ensures GoodPrimary(ts, Neg(e), rest)
  {
    HeadTail(ts);
    Assoc([Minus], Flatten(e), rest);
  }

  lemma ParenIsGood(ts: seq<Token>, e: Exp, rest: seq<Token>)
    requires ts != [] && ts[0] == LParen && Good(ts[1..], 0, e, rest) && rest != [] && rest[0] == RParen
    ensures GoodPrimary(ts, Paren(e), rest[1..])
  {
    hide Flatten, Obeys;
    HeadTail(ts);
    HeadTail(rest);
    FlattenParen(e);
    Assoc([LParen] + Flatten(e), [RParen], rest[1..]);
    Assoc([LParen], Flatten(e), rest);
    ObeysInside(e, LParen);
    NothingRefused(rest[1..]);
  }

  lemma AppIsGood(ts: seq<Token>, e: Exp, rest: seq<Token>)
    requires |ts| > 1 && ts[0].Func? && ts[1] == LParen && Good(ts[2..], 0, e, rest) && rest != [] && rest[0] == RParen
    ensures GoodPrimary(ts, App(ts[0], e), rest[1..])
  {
    hide Flatten, Obeys;
    assert ts == [ts[0], LParen] + ts[2..];
    HeadTail(rest);
    FlattenApp(ts[0], e);
    Assoc([ts[0], LParen] + Flatten(e), [RParen], rest[1..]);
    Assoc([ts[0], LParen], Flatten(e), rest);
    ObeysInside(e, ts[0]);
    NothingRefused(rest[1..]);
  }

  lemma FlattenParen(e: Exp)
    ensures Flatten(Paren(e)) == [LParen] + Flatten(e) + [RParen] && OpenLevel(Paren(e)) == 9
  {
  }

  lemma FlattenApp(f: Token, e: Exp)
    ensures Flatten(App(f, e)) == [f, LParen] + Flatten(e) + [RParen] && OpenLevel(App(f, e)) == 9
  {
  }

  lemma ObeysInside(e: Exp, f: Token)
    requires Obeys(e)
    ensures Obeys(Paren(e)) && (f.Func? ==> Obeys(App(f, e)))
  {
  }

  lemma NothingRefused(ts: seq<Token>)
    ensures Refused(ts, 9)
  {
  }

  lemma {:induction false} ClimbIsGood(all: seq<Token>, left: Exp, ts: seq<Token>, p: nat)
    requires all == Flatten(left) + ts
    requires Obeys(left) && TightFor(left, p) && Refused(ts, OpenLevel(left))
    requires Climb(left, ts, p).Some?
    ensures Good(all, p, Climb(left, ts, p).value.0, Climb(left, ts, p).value.1)
    decreases |ts|, 0
  {
    if Continues(ts, p) {
      var op := ts[0];
      ParseIsGood(ts[1..], Level(op) + 1);
      var (right, rest) := ParseExp(ts[1..], Level(op) + 1).value;
      var e := Bin(op, left, right);
      assert ts == [op] + (Flatten(right) + rest);
      assert all == Flatten(e) + rest;
      ClimbIsGood(all, e, rest, p);
    }
  }

  /** exp(p) returns a tree from exactly its own tokens if and only if the tree obeys the levels
      and its spine is tight enough for p. */
  lemma ParseInvertsFlatten(e: Exp, p: nat)
    ensures ParseExp(Flatten(e), p) == Some((e, [])) <==> Obeys(e) && TightFor(e, p)
  {
    assert Flatten(e) + [] == Flatten(e);
    if Obeys(e) && TightFor(e, p) {
      ParseReachesTree(e, [], p);
    }
    ParseIsGood(Flatten(e), p);
  }

  /** Every accepted stream has one tree: two obeying trees with the same tokens are the same. */
  lemma ObeyingTreesAreUnique(a: Exp, b: Exp)
    requires Obeys(a) && Obeys(b) && Flatten(a) == Flatten(b)
    ensures a == b
  {
    AnyTightForZero(a);
    AnyTightForZero(b);
    ParseInvertsFlatten(a, 0);
    ParseInvertsFlatten(b, 0);
  }

  // ----- the text handed to the expression evaluator -----

  function TokenText(tok: Token): string {
    match tok
    case PiLit => "pi"
    case Plus => "+"
    case Minus => "-"
    case Star => "*"
    case Slash => "/"
    case Caret => "^"
    case LParen => "("
    case RParen => ")"
    case _ => tok.text
  }

  function TokensText(ts: seq<Token>): string {
    if ts == [] then "" else TokenText(ts[0]) + TokensText(ts[1..])
  }

  /** getText(): the texts of the leaves, from left to right. */
  function GetText(e: Exp): string {
    match e
    case Atom(tok) => TokenText(tok)
    case Neg(a) => "-" + GetText(a)
    case Paren(a) => "(" + GetText(a) + ")"
    case App(f, a) => TokenText(f) + "(" + GetText(a) + ")"
    case Bin(op, l, r) => GetText(l) + TokenText(op) + GetText(r)
  }

  lemma {:induction false} TokensTextConcat(a: seq<Token>, b: seq<Token>)
    ensures TokensText(a + b) == TokensText(a) + TokensText(b)
  {
    if a == [] {
      assert a + b == b;
    } else {
      assert (a + b)[1..] == a[1..] + b;
      TokensTextConcat(a[1..], b);
    }
  }

  lemma TextOfThree(a: seq<Token>, b: seq<Token>, c: seq<Token>)
    ensures TokensText(a + b + c) == TokensText(a) + TokensText(b) + TokensText(c)
  {
    TokensTextConcat(a + b, c);
    TokensTextConcat(a, b);
  }

  lemma TextOfOne(tok: Token)
    ensures TokensText([tok]) == TokenText(tok)
  {
    assert [tok][1..] == [];
  }

  lemma {:induction false} TextOfTree(e: Exp)
    ensures GetText(e) == TokensText(Flatten(e))
  {
    hide TokensText;
    TextOfOne(Minus);
    TextOfOne(LParen);
    TextOfOne(RParen);
    match e
    case Atom(tok) =>
      TextOfOne(tok);
    case Neg(a) =>
      TextOfTree(a);
      TokensTextConcat([Minus], Flatten(a));
    case Paren(a) =>
      TextOfTree(a);
      TextOfThree([LParen], Flatten(a), [RParen]);
    case App(f, a) =>
      TextOfTree(a);
      TextOfThree([f, LParen], Flatten(a), [RParen]);
      TextOfOne(f);
      TokensTextConcat([f], [LParen]);
      assert [f] + [LParen] == [f, LParen];
    case Bin(op, l, r) =>
      TextOfTree(l);
      TextOfTree(r);
      TextOfThree(Flatten(l), [op], Flatten(r));
      TextOfOne(op);
  }

  /** The text evaluated for a parameter is the text of the consumed tokens, whatever tree the
      levels made of them. */
  lemma EvaluatedTextIgnoresLevels(ts: seq<Token>, p: nat)
    requires ParseExp(ts, p).Some?
    ensures var (e, rest) := ParseExp(ts, p).value;
            |rest| < |ts| && GetText(e) == TokensText(ts[..|ts| - |rest|]) && rest == ts[|ts| - |rest|..]
  {
    ParseIsGood(ts, p);
    var (e, rest) := ParseExp(ts, p).value;
    assert ts[..|ts| - |rest|] == Flatten(e);
    TextOfTree(e);
  }

  // ----- groupings -----

  /** The tokens of three operands and two operators. */
  function Chain(a: Token, op1: Token, b: Token, op2: Token, c: Token): seq<Token> {
    [a, op1, b, op2, c]
  }

  function FirstFirst(a: Token, op1: Token, b: Token, op2: Token, c: Token): Exp {
    Bin(op2, Bin(op1, Atom(a), Atom(b)), Atom(c))
  }

  function SecondFirst(a: Token, op1: Token, b: Token, op2: Token, c: Token): Exp {
    Bin(op1, Atom(a), Bin(op2, Atom(b), Atom(c)))
  }

  lemma AtomFits(a: Token, p: nat)
    requires IsAtom(a)
    ensures Obeys(Atom(a)) && TightFor(Atom(a), p) && OpenLevel(Atom(a)) == 9 && Flatten(Atom(a)) == [a]
  {
  }

  lemma PairFits(a: Token, op: Token, b: Token, p: nat)
    requires IsAtom(a) && IsAtom(b) && Level(op) > 0
    ensures var e := Bin(op, Atom(a), Atom(b));
            Obeys(e) && (TightFor(e, p) <==> Level(op) >= p) && OpenLevel(e) == Level(op) + 1 && Flatten(e) == [a, op, b]
  {
    AtomFits(a, p);
    AtomFits(b, Level(op) + 1);
  }

  lemma BinFits(op: Token, l: Exp, r: Exp)
    requires Obeys(l) && Obeys(r) && 0 < Level(op) < OpenLevel(l) && TightFor(r, Level(op) + 1)
    ensures Obeys(Bin(op, l, r)) && TightFor(Bin(op, l, r), 0) && Flatten(Bin(op, l, r)) == Flatten(l) + [op] + Flatten(r)
  {
    AnyTightForZero(l);
  }

  lemma ChainGroups(a: Token, op1: Token, b: Token, op2: Token, c: Token)
    requires IsAtom(a) && IsAtom(b) && IsAtom(c) && Level(op1) > 0 && Level(op2) > 0
    ensures ParseExp(Chain(a, op1, b, op2, c), 0)
         == Some((if Level(op1) >= Level(op2) then FirstFirst(a, op1, b, op2, c)
                  else SecondFirst(a, op1, b, op2, c), []))
  {
    if Level(op1) >= Level(op2) {
      PairFits(a, op1, b, 0);
      AtomFits(c, Level(op2) + 1);
      BinFits(op2, Bin(op1, Atom(a), Atom(b)), Atom(c));
      assert [a, op1, b] + [op2] + [c] == Chain(a, op1, b, op2, c);
      ParseInvertsFlatten(FirstFirst(a, op1, b, op2, c), 0);
    } else {
      PairFits(b, op2, c, Level(op1) + 1);
      AtomFits(a, 0);
      BinFits(op1, Atom(a), Bin(op2, Atom(b), Atom(c)));
      assert [a] + [op1] + [b, op2, c] == Chain(a, op1, b, op2, c);
      ParseInvertsFlatten(SecondFirst(a, op1, b, op2, c), 0);
    }
  }

  /** A sum binds tightest, then a difference, a product, a quotient, and a power least; each is
      grouped from the left. */
  lemma Groupings(a: Token, b: Token, c: Token)
    requires IsAtom(a) && IsAtom(b) && IsAtom(c)
    ensures ParseExp([a, Plus, b, Minus, c], 0) == Some((Bin(Minus, Bin(Plus, Atom(a), Atom(b)), Atom(c)), []))
    ensures ParseExp([a, Minus, b, Plus, c], 0) == Some((Bin(Minus, Atom(a), Bin(Plus, Atom(b), Atom(c))), []))
    ensures ParseExp([a, Minus, b, Star, c], 0) == Some((Bin(Star, Bin(Minus, Atom(a), Atom(b)), Atom(c)), []))
    ensures ParseExp([a, Star, b, Minus, c], 0) == Some((Bin(Star, Atom(a), Bin(Minus, Atom(b), Atom(c))), []))
    ensures ParseExp([a, Star, b, Slash, c], 0) == Some((Bin(Slash, Bin(Star, Atom(a), Atom(b)), Atom(c)), []))
    ensures ParseExp([a, Slash, b, Star, c], 0) == Some((Bin(Slash, Atom(a), Bin(Star, Atom(b), Atom(c))), []))
    ensures ParseExp([a, Slash, b, Caret, c], 0) == Some((Bin(Caret, Bin(Slash, Atom(a), Atom(b)), Atom(c)), []))
    ensures ParseExp([a, Caret, b, Slash, c], 0) == Some((Bin(Caret, Atom(a), Bin(Slash, Atom(b), Atom(c))), []))
  {
    ChainGroups(a, Plus, b, Minus, c);
    ChainGroups(a, Minus, b, Plus, c);
    ChainGroups(a, Minus, b, Star, c);
    ChainGroups(a, Star, b, Minus, c);
    ChainGroups(a, Star, b, Slash, c);
    ChainGroups(a, Slash, b, Star, c);
    ChainGroups(a, Slash, b, Caret, c);
    ChainGroups(a, Caret, b, Slash, c);
  }

  lemma LeftGroupings(a: Token, b: Token, c: Token, op: Token)
    requires IsAtom(a) && IsAtom(b) && IsAtom(c)
    requires op == Plus || op == Minus || op == Star || op == Slash || op == Caret
    ensures ParseExp([a, op, b, op, c], 0) == Some((Bin(op, Bin(op, Atom(a), Atom(b)), Atom(c)), []))
  {
    ChainGroups(a, op, b, op, c);
  }

  /** A prefix minus takes in a quotient, but not a power. */
  lemma MinusGroupings(a: Token, b: Token)
    requires IsAtom(a) && IsAtom(b)
    ensures ParseExp([Minus, a, Slash, b], 0) == Some((Neg(Bin(Slash, Atom(a), Atom(b))), []))
    ensures ParseExp([Minus, a, Caret, b], 0) == Some((Bin(Caret, Neg(Atom(a)), Atom(b)), []))
  {
    MinusQuotient(a, b);
    MinusPower(a, b);
  }

  lemma MinusQuotient(a: Token, b: Token)
    requires IsAtom(a) && IsAtom(b)
    ensures ParseExp([Minus, a, Slash, b], 0) == Some((Neg(Bin(Slash, Atom(a), Atom(b))), []))
  {
    var inner := Bin(Slash, Atom(a), Atom(b));
    PairFits(a, Slash, b, 4);
    NegFits(inner);
    assert [Minus] + [a, Slash, b] == [Minus, a, Slash, b];
    ParseInvertsFlatten(Neg(inner), 0);
  }

  lemma MinusPower(a: Token, b: Token)
    requires IsAtom(a) && IsAtom(b)
    ensures ParseExp([Minus, a, Caret, b], 0) == Some((Bin(Caret, Neg(Atom(a)), Atom(b)), []))
  {
    AtomFits(a, 4);
    AtomFits(b, 4);
    NegFits(Atom(a));
    BinFits(Caret, Neg(Atom(a)), Atom(b));
    assert ([Minus] + [a]) + [Caret] + [b] == [Minus, a, Caret, b];
    ParseInvertsFlatten(Bin(Caret, Neg(Atom(a)), Atom(b)), 0);
  }

  lemma NegFits(e: Exp)
    requires Obeys(e) && TightFor(e, 4)
    ensures Obeys(Neg(e)) && TightFor(Neg(e), 0) && OpenLevel(Neg(e)) == Min(4, OpenLevel(e))
    ensures Flatten(Neg(e)) == [Minus] + Flatten(e)
  {
  }

  /** The levels are not those of arithmetic: 1 + 2 * 3 is grouped as (1 + 2) * 3. */
  lemma SumBindsTighter()
    ensures var one, two, three := IntLit("1"), IntLit("2"), IntLit("3");
            ParseExp([one, Plus, two, Star, three], 0)
            == Some((Bin(Star, Bin(Plus, Atom(one), Atom(two)), Atom(three)), []))
  {
    ChainGroups(IntLit("1"), Plus, IntLit("2"), Star, IntLit("3"));
  }

  /** The written forms of the operators, and of pi, a function and parentheses. */
  lemma OperatorTexts(a: Exp, b: Exp)
    ensures GetText(Bin(Plus, a, b)) == GetText(a) + "+" + GetText(b)
    ensures GetText(Bin(Minus, a, b)) == GetText(a) + "-" + GetText(b)
    ensures GetText(Bin(Star, a, b)) == GetText(a) + "*" + GetText(b)
    ensures GetText(Bin(Slash, a, b)) == GetText(a) + "/" + GetText(b)
    ensures GetText(Bin(Caret, a, b)) == GetText(a) + "^" + GetText(b)
  {
  }

  lemma OperandTexts(a: Exp, x: string)
    ensures GetText(Atom(PiLit)) == "pi" && GetText(Atom(Ident(x))) == GetText(Atom(RealLit(x))) == x
    ensures GetText(Atom(IntLit(x))) == x && GetText(Neg(a)) == "-" + GetText(a)
    ensures GetText(Paren(a)) == "(" + GetText(a) + ")" && GetText(App(Func(x), a)) == x + "(" + GetText(a) + ")"
  {
  }

  // ----- the parser itself -----

  class Parser {
    const tokens: seq<Token>
    var pos: nat

    constructor (tokens: seq<Token>)
      ensures this.tokens == tokens && pos == 0
    {
      this.tokens := tokens;
      pos := 0;
    }

    ghost function Input(): seq<Token>
      requires pos <= |tokens|
      reads this
    {
      tokens[pos..]
    }

    /** What a parsing method has done when its specification function gave `parsed`. */
    ghost predicate Did(parsed: Parsed, r: Option<Exp>)
      reads this
    {
      && pos <= |tokens|
      && (match parsed
          case None => r == None
          case Some((e, rest)) => r == Some(e) && Input() == rest)
    }

    method Primary() returns (r: Option<Exp>)
      requires pos <= |tokens|
      modifies this
      ensures Did(ParsePrimary(old(Input())), r)
      decreases |tokens| - pos, 0
    {
      if pos == |tokens| {
        return None;
      }
      var next := tokens[pos];
      ghost var ts := Input();
      if IsAtom(next) {
        pos := pos + 1;
        return Some(Atom(next));
      } else if next == Minus {
        pos := pos + 1;
        assert Input() == ts[1..];
        r := Exp(4);
        return match r case None => None case Some(e) => Some(Neg(e));
      } else if next == LParen {
        pos := pos + 1;
        assert Input() == ts[1..];
        r := Closed();
        return match r case None => None case Some(e) => Some(Paren(e));
      } else if next.Func? && pos + 1 < |tokens| && tokens[pos + 1] == LParen {
        pos := pos + 2;
        assert Input() == ts[2..];
        r := Closed();
        return match r case None => None case Some(e) => Some(App(next, e));
      } else {
        return None;
      }
    }

    method Closed() returns (r: Option<Exp>)
      requires pos <= |tokens|
      modifies this
      ensures Did(ParseClosed(old(Input())), r)
      decreases |tokens| - pos, 2
    {
      r := Exp(0);
      if r.Some? {
        if pos < |tokens| && tokens[pos] == RParen {
          pos := pos + 1;
        } else {
          r := None;
        }
      }
    }

    method Exp(precedence: nat) returns (r: Option<Exp>)
      requires pos <= |tokens|
      modifies this
      ensures Did(ParseExp(old(Input()), precedence), r)
      decreases |tokens| - pos, 1
    {
      ghost var start := pos;
      r := Primary();
      if r == None {
        return;
      }
      var localctx := r.value;
      while pos < |tokens| && Level(tokens[pos]) > 0 && Level(tokens[pos]) >= precedence
        invariant start < pos <= |tokens|
        invariant Climb(localctx, Input(), precedence) == ParseExp(old(Input()), precedence)
      {
        var op := tokens[pos];
        ghost var ts := Input();
        pos := pos + 1;
        assert Input() == ts[1..];
        var right := Exp(Level(op) + 1);
        if right == None {
          return None;
        }
        localctx := Bin(op, localctx, right.value);
      }
      return Some(localctx);
    }
  }
}
