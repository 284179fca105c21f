/**
 Conditions as the inliner sees them: trees that keep the source parentheses,
 their token text, and a parser for that text with the usual precedences.
 */
module ConditionSyntax {
  import opened Wrappers

  datatype Op = Or | And | StrictEq | StrictNe | LooseEq | LooseNe | Lt | Gt | Le | Ge

  datatype Expr<A> = Atom(atom: A) | Paren(inner: Expr<A>) | Not(operand: Expr<A>) | Bin(op: Op, l: Expr<A>, r: Expr<A>)

  datatype Token<A> = TAtom(atom: A) | TOp(op: Op) | TBang | TOpen | TClose

  predicate Equality(op: Op) {
    op.StrictEq? || op.StrictNe? || op.LooseEq? || op.LooseNe?
  }

  predicate Relational(op: Op) {
    op.Lt? || op.Gt? || op.Le? || op.Ge?
  }

  /** How tightly an operator binds. */
  function OpLevel(op: Op): (k: nat)
    ensures 1 <= k <= 4
  {
    if op.Or? then 1 else if op.And? then 2 else if Equality(op) then 3 else 4
  }

  const UNARY := 5

  function Level(e: Expr): nat {
    match e
    case Bin(op, _, _) => OpLevel(op)
    case Not(_) => UNARY
    case _ => UNARY + 1
  }

  /** The trees a parser builds: left-associative, lower levels only inside parentheses. */
  predicate WellFormed(e: Expr) {
    match e
    case Atom(_) => true
    case Paren(x) => WellFormed(x)
    case Not(x) => WellFormed(x) && Level(x) >= UNARY
    case Bin(op, l, r) => WellFormed(l) && WellFormed(r) && Level(l) >= OpLevel(op) && Level(r) > OpLevel(op)
  }

  function Text<A>(e: Expr<A>): (ts: seq<Token<A>>)
    ensures ts != []
  {
    match e
    case Atom(a) => [TAtom(a)]
    case Paren(x) => [TOpen] + Text(x) + [TClose]
    case Not(x) => [TBang] + Text(x)
    case Bin(op, l, r) => Text(l) + [TOp(op)] + Text(r)
  }

  type Parsed<A> = Option<(Expr<A>, seq<Token<A>>)>

  /** Parses an expression of level `k` or tighter and returns the tokens left over. */
  function Parse<A>(k: nat, ts: seq<Token<A>>): (r: Parsed<A>)
    requires 1 <= k <= UNARY
    ensures r.Some? ==> |r.value.1| < |ts|
    decreases |ts|, UNARY - k
  {
    if k < UNARY then
      match Parse(k + 1, ts)
      case None => None
      case Some((e, rest)) => ParseTail(k, e, rest)
    else if ts == [] then None
    else
      match ts[0]
      case TAtom(a) => Some((Atom(a), ts[1..]))
      case TBang =>
        (match Parse(UNARY, ts[1..])
         case None => None
         case Some((e, rest)) => Some((Not(e), rest)))
      case TOpen =>
        (match Parse(1, ts[1..])
         case None => None
         case Some((e, rest)) => if rest != [] && rest[0].TClose? then Some((Paren(e), rest[1..])) else None)
      case _ => None
  }

  /** Goes on after `acc` while operators of level `k` follow. */
  function ParseTail<A>(k: nat, acc: Expr<A>, ts: seq<Token<A>>): (r: Parsed<A>)
    requires 1 <= k <= UNARY
    ensures r.Some? ==> |r.value.1| <= |ts|
    decreases |ts|, UNARY - k
  {
    if ts != [] && ts[0].TOp? && OpLevel(ts[0].op) == k then
      match Parse(k + 1, ts[1..])
      case None => None
      case Some((e, rest)) => ParseTail(k, Bin(ts[0].op, acc, e), rest)
    else Some((acc, ts))
  }

  /** The whole text is one condition. */
  function ParseCondition<A>(ts: seq<Token<A>>): Option<Expr<A>> {
    match Parse(1, ts)
    case None => None
    case Some((e, rest)) => if rest == [] then Some(e) else None
  }

  /** No operator that binds tighter than `k` follows. */
  predicate Ends(k: nat, rest: seq<Token>) {
    rest != [] && rest[0].TOp? ==> OpLevel(rest[0].op) <= k
  }

  lemma TailStep<A>(k: nat, op: Op, l: Expr<A>, r: Expr<A>, ts: seq<Token<A>>, rest: seq<Token<A>>)
    requires OpLevel(op) == k && Parse(k + 1, ts) == Some((r, rest))
    ensures ParseTail(k, l, [TOp(op)] + ts) == ParseTail(k, Bin(op, l, r), rest)
  {
    assert ([TOp(op)] + ts)[1..] == ts;
  }

  lemma OperatorText<A>(op: Op, l: Expr<A>, r: Expr<A>, rest: seq<Token<A>>)
    ensures Text(Bin(op, l, r)) + rest == Text(l) + ([TOp(op)] + (Text(r) + rest))
  {
  }

  /** Once both operands parse, so does the operator between them. */
  lemma ParsesOperator<A>(k: nat, op: Op, l: Expr<A>, r: Expr<A>, rest: seq<Token<A>>)
    requires OpLevel(op) == k && Ends(k, rest)
    requires Parse(k, Text(l) + ([TOp(op)] + (Text(r) + rest))) == ParseTail(k, l, [TOp(op)] + (Text(r) + rest))
    requires Parse(k + 1, Text(r) + rest) == ParseTail(k + 1, r, rest)
    ensures Parse(k, Text(Bin(op, l, r)) + rest) == ParseTail(k, Bin(op, l, r), rest)
  {
    OperatorText(op, l, r, rest);
    TailStep(k, op, l, r, Text(r) + rest, rest);
  }

  lemma ParsesParenthesized<A>(x: Expr<A>, body: seq<Token<A>>, rest: seq<Token<A>>)
    requires Parse(1, body) == Some((x, [TClose] + rest))
    ensures Parse(UNARY, [TOpen] + body) == Some((Paren(x), rest))
  {
    var ts := [TOpen] + body;
    assert ts[1..] == body;
    assert ([TClose] + rest)[1..] == rest;
  }

  lemma ParsesNegated<A>(x: Expr<A>, body: seq<Token<A>>, rest: seq<Token<A>>)
    requires Parse(UNARY, body) == Some((x, rest))
    ensures Parse(UNARY, [TBang] + body) == Some((Not(x), rest))
  {
    assert ([TBang] + body)[1..] == body;
  }

  lemma ParsesParenText<A>(x: Expr<A>, rest: seq<Token<A>>)
    requires Parse(1, Text(x) + ([TClose] + rest)) == ParseTail(1, x, [TClose] + rest)
    ensures Parse(UNARY, Text(Paren(x)) + rest) == Some((Paren(x), rest))
  {
    ParsesParenthesized(x, Text(x) + ([TClose] + rest), rest);
    assert Text(Paren(x)) + rest == [TOpen] + (Text(x) + ([TClose] + rest));
  }

  lemma ParsesNotText<A>(x: Expr<A>, rest: seq<Token<A>>)
    requires Parse(UNARY, Text(x) + rest) == Some((x, rest))
    ensures Parse(UNARY, Text(Not(x)) + rest) == Some((Not(x), rest))
  {
    ParsesNegated(x, Text(x) + rest, rest);
    assert Text(Not(x)) + rest == [TBang] + (Text(x) + rest);
  }

  lemma ParsesAtomText<A>(a: A, rest: seq<Token<A>>)
    ensures Parse(UNARY, Text(Atom(a)) + rest) == Some((Atom(a), rest))
  {
    assert (Text(Atom(a)) + rest)[1..] == rest;
  }

  lemma {:induction false} ParsesText<A>(k: nat, e: Expr<A>, rest: seq<Token<A>>)
    requires 1 <= k <= UNARY && WellFormed(e) && Level(e) >= k && Ends(k, rest)
    ensures Parse(k, Text(e) + rest) == ParseTail(k, e, rest)
    decreases e, UNARY - k
  {
    if k == UNARY {
      match e
      case Atom(a) => ParsesAtomText(a, rest);
      case Paren(x) =>
        ParsesText(1, x, [TClose] + rest);
        ParsesParenText(x, rest);
      case Not(x) =>
        ParsesText(UNARY, x, rest);
        ParsesNotText(x, rest);
    } else if Level(e) > k {
      ParsesText(k + 1, e, rest);
    } else {
      ParsesText(k, e.l, [TOp(e.op)] + (Text(e.r) + rest));
      ParsesText(k + 1, e.r, rest);
      ParsesOperator(k, e.op, e.l, e.r, rest);
    }
  }

  /** The text of a well-formed tree parses back to that tree, so no two such trees share a text. */
  lemma TextRoundTrip<A>(e: Expr<A>)
    requires WellFormed(e)
    ensures ParseCondition(Text(e)) == Some(e)
  {
    ParsesText(1, e, []);
    assert Text(e) + [] == Text(e);
  }

  /** The order of the operators: or, and, equality, comparison, each binding tighter than those before it. */
  predicate Tighter(p: Op, o: Op) {
    || (o.Or? && !p.Or?)
    || (o.And? && (Equality(p) || Relational(p)))
    || (Equality(o) && Relational(p))
  }

  /** Of two operators the tighter takes the operand between them, of two alike the left one; a bang takes its operand before either. */
  lemma OperandsGoToTighter<A>(a: A, o: Op, b: A, p: Op, c: A)
    ensures ParseCondition([TBang, TAtom(a), TOp(o), TAtom(b), TOp(p), TAtom(c)])
         == Some(if Tighter(p, o) then Bin(o, Not(Atom(a)), Bin(p, Atom(b), Atom(c))) else Bin(p, Bin(o, Not(Atom(a)), Atom(b)), Atom(c)))
  {
    var first, last: Expr<A> := Not(Atom(a)), Atom(c);
    var middle: Expr<A> := Atom(b);
    LeavesAre(a);
    LeavesAre(b);
    LeavesAre(c);
    if Tighter(p, o) {
      PairIs(p, middle, last);
      PairIs(o, first, Bin(p, middle, last));
      TextRoundTrip(Bin(o, first, Bin(p, middle, last)));
      assert Text(Bin(o, first, Bin(p, middle, last))) == [TBang, TAtom(a), TOp(o), TAtom(b), TOp(p), TAtom(c)];
    } else {
      PairIs(o, first, middle);
      PairIs(p, Bin(o, first, middle), last);
      TextRoundTrip(Bin(p, Bin(o, first, middle), last));
      assert Text(Bin(p, Bin(o, first, middle), last)) == [TBang, TAtom(a), TOp(o), TAtom(b), TOp(p), TAtom(c)];
    }
  }

  lemma LeavesAre<A>(a: A)
    ensures Text(Atom(a)) == [TAtom(a)] && Text(Not(Atom(a))) == [TBang, TAtom(a)]
    ensures WellFormed(Atom(a)) && WellFormed(Not(Atom(a))) && Level(Atom(a)) >= UNARY && Level(Not(Atom(a))) >= UNARY
  {
    assert Text(Atom(a)) == [TAtom(a)] && WellFormed(Atom(a));
  }

  lemma PairIs<A>(op: Op, l: Expr<A>, r: Expr<A>)
    ensures Text(Bin(op, l, r)) == Text(l) + [TOp(op)] + Text(r) && Level(Bin(op, l, r)) == OpLevel(op)
    ensures WellFormed(Bin(op, l, r)) <==> WellFormed(l) && WellFormed(r) && Level(l) >= OpLevel(op) && Level(r) > OpLevel(op)
  {
  }
}
