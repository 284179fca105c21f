/**
 Inversion of leading guard clauses: the negated text of each guard, the text of
 the combined run-condition, and what that text evaluates to.
 */
module GuardInversion {
  import opened Wrappers
  import opened ConditionSyntax

  // ---- the text the inliner emits ----

  const PREC_OR := 1
  const PREC_AND := 2
  const PREC_ATOM := 3

  /** What the substitution edits make of a leaf. */
  type Subst<!A> = A -> A

  function MapExpr<A>(e: Expr<A>, sub: Subst<A>): Expr<A> {
    match e
    case Atom(a) => Atom(sub(a))
    case Paren(x) => Paren(MapExpr(x, sub))
    case Not(x) => Not(MapExpr(x, sub))
    case Bin(op, l, r) => Bin(op, MapExpr(l, sub), MapExpr(r, sub))
  }

  /** The source text of a node with the edits applied. */
  function SubText<A>(e: Expr<A>, sub: Subst<A>): seq<Token<A>> {
    Text(MapExpr(e, sub))
  }

  datatype Negated<A> = Negated(text: seq<Token<A>>, prec: nat)

  function LogicalPrec(e: Expr): nat {
    match e
    case Paren(x) => LogicalPrec(x)
    case Bin(Or, _, _) => PREC_OR
    case Bin(And, _, _) => PREC_AND
    case _ => PREC_ATOM
  }

  predicate Flips(op: Op) {
    Equality(op) || Relational(op)
  }

  function Flip(op: Op): Op {
    match op
    case StrictEq => StrictNe
    case StrictNe => StrictEq
    case LooseEq => LooseNe
    case LooseNe => LooseEq
    case Lt => Ge
    case Gt => Le
    case Le => Gt
    case Ge => Lt
    case Or => Or
    case And => And
  }

  function Wrap<A>(part: Negated<A>, minPrec: nat): seq<Token<A>> {
    if part.prec < minPrec then [TOpen] + part.text + [TClose] else part.text
  }

  function Negate<A>(e: Expr<A>, sub: Subst<A>): Negated<A> {
    match e
    case Paren(x) => Negate(x, sub)
    case Not(x) => Negated(SubText(x, sub), LogicalPrec(x))
    case Atom(_) => Negated([TBang, TOpen] + SubText(e, sub) + [TClose], PREC_ATOM)
    case Bin(op, l, r) =>
      if Flips(op) then
        Negated(SubText(l, sub) + [TOp(Flip(op))] + SubText(r, sub), PREC_ATOM)
      else if op == And then
        Negated(Negate(l, sub).text + [TOp(Or)] + Negate(r, sub).text, PREC_OR)
      else
        Negated(Wrap(Negate(l, sub), PREC_AND) + [TOp(And)] + Wrap(Negate(r, sub), PREC_AND), PREC_AND)
  }

  /** The wrapped parts joined by `&&`. */
  function JoinAnd<A>(guards: seq<Expr<A>>, sub: Subst<A>): seq<Token<A>>
    requires guards != []
  {
    var n := |guards| - 1;
    var last := Wrap(Negate(guards[n], sub), PREC_AND);
    if n == 0 then last else JoinAnd(guards[..n], sub) + [TOp(And)] + last
  }

  function CombineGuards<A>(guards: seq<Expr<A>>, sub: Subst<A>): seq<Token<A>>
    requires guards != []
  {
    if |guards| == 1 then Negate(guards[0], sub).text else JoinAnd(guards, sub)
  }

  // ---- the trees behind the text ----

  /** The tree of `l op r` once the parser has reassociated a chain on the right. */
  function Chain<A>(op: Op, l: Expr<A>, r: Expr<A>): Expr<A> {
    if r.Bin? && r.op == op then Bin(op, Chain(op, l, r.l), r.r) else Bin(op, l, r)
  }

  function WrapTree<A>(e: Expr<A>, prec: nat): Expr<A> {
    if prec < PREC_AND then Paren(e) else e
  }

  function NegTree<A>(e: Expr<A>, sub: Subst<A>): Expr<A>
    decreases e, 0
  {
    match e
    case Paren(x) => NegTree(x, sub)
    case Not(x) => MapExpr(x, sub)
    case Atom(_) => Not(Paren(MapExpr(e, sub)))
    case Bin(op, l, r) =>
      if Flips(op) then Bin(Flip(op), MapExpr(l, sub), MapExpr(r, sub))
      else if op == And then Chain(Or, NegTree(l, sub), NegTree(r, sub))
      else Chain(And, WrappedNeg(l, sub), WrappedNeg(r, sub))
  }

  function WrappedNeg<A>(e: Expr<A>, sub: Subst<A>): Expr<A>
    decreases e, 1
  {
    WrapTree(NegTree(e, sub), Negate(e, sub).prec)
  }

  function CombinedTree<A>(guards: seq<Expr<A>>, sub: Subst<A>): Expr<A>
    requires guards != []
  {
    if |guards| == 1 then NegTree(guards[0], sub) else JoinTree(guards, sub)
  }

  function JoinTree<A>(guards: seq<Expr<A>>, sub: Subst<A>): Expr<A>
    requires guards != []
  {
    var n := |guards| - 1;
    var last := WrappedNeg(guards[n], sub);
    if n == 0 then last else Chain(And, JoinTree(guards[..n], sub), last)
  }

  lemma {:induction false} MapExprShape<A>(e: Expr<A>, sub: Subst<A>)
    ensures Level(MapExpr(e, sub)) == Level(e)
    ensures WellFormed(e) ==> WellFormed(MapExpr(e, sub))
  {
    match e
    case Atom(_) =>
    case Paren(x) => MapExprShape(x, sub);
    case Not(x) => MapExprShape(x, sub);
    case Bin(op, l, r) =>
      MapExprShape(l, sub);
      MapExprShape(r, sub);
  }

  lemma {:induction false} ChainShape<A>(op: Op, l: Expr<A>, r: Expr<A>)
    requires op.Or? || op.And?
    requires WellFormed(l) && WellFormed(r) && Level(l) >= OpLevel(op) && Level(r) >= OpLevel(op)
    ensures WellFormed(Chain(op, l, r)) && Level(Chain(op, l, r)) == OpLevel(op)
    ensures Text(Chain(op, l, r)) == Text(l) + [TOp(op)] + Text(r)
  {
    if r.Bin? && r.op == op {
      ChainShape(op, l, r.l);
      assert Text(l) + [TOp(op)] + Text(r.l) + [TOp(op)] + Text(r.r)
          == Text(l) + [TOp(op)] + (Text(r.l) + [TOp(op)] + Text(r.r));
    }
  }

  /** The emitted text is the text of a well-formed tree, and the reported precedence is a true lower bound. */
  ghost predicate Shaped<A>(t: Expr<A>, part: Negated<A>) {
    WellFormed(t) && Text(t) == part.text && (part.prec >= PREC_AND ==> Level(t) >= OpLevel(And))
  }

  lemma WrapShape<A>(t: Expr<A>, part: Negated<A>)
    requires Shaped(t, part)
    ensures WellFormed(WrapTree(t, part.prec)) && Text(WrapTree(t, part.prec)) == Wrap(part, PREC_AND)
    ensures Level(WrapTree(t, part.prec)) >= OpLevel(And)
  {
  }

  lemma {:induction false} NegateShape<A>(e: Expr<A>, sub: Subst<A>)
    requires WellFormed(e)
    ensures Shaped(NegTree(e, sub), Negate(e, sub))
  {
    match e
    case Paren(x) => NegateShape(x, sub);
    case Not(x) => MapExprShape(x, sub);
    case Atom(_) => MapExprShape(e, sub);
    case Bin(op, l, r) =>
      if Flips(op) {
        MapExprShape(l, sub);
        MapExprShape(r, sub);
      } else {
        NegateShape(l, sub);
        NegateShape(r, sub);
        if op == And {
          ChainShape(Or, NegTree(l, sub), NegTree(r, sub));
        } else {
          WrapShape(NegTree(l, sub), Negate(l, sub));
          WrapShape(NegTree(r, sub), Negate(r, sub));
          ChainShape(And, WrappedNeg(l, sub), WrappedNeg(r, sub));
        }
      }
  }

  lemma {:induction false} JoinShape<A>(guards: seq<Expr<A>>, sub: Subst<A>)
    requires guards != [] && forall g :: g in guards ==> WellFormed(g)
    ensures WellFormed(JoinTree(guards, sub)) && Level(JoinTree(guards, sub)) >= OpLevel(And)
    ensures Text(JoinTree(guards, sub)) == JoinAnd(guards, sub)
  {
    var n := |guards| - 1;
    assert guards[n] in guards;
    NegateShape(guards[n], sub);
    WrapShape(NegTree(guards[n], sub), Negate(guards[n], sub));
    if n > 0 {
      JoinShape(guards[..n], sub);
      ChainShape(And, JoinTree(guards[..n], sub), WrappedNeg(guards[n], sub));
    }
  }

  /** Reading the emitted condition back gives exactly the combined tree. */
  lemma CombinedTextParses<A>(guards: seq<Expr<A>>, sub: Subst<A>)
    requires guards != [] && forall g :: g in guards ==> WellFormed(g)
    ensures ParseCondition(CombineGuards(guards, sub)) == Some(CombinedTree(guards, sub))
  {
    if |guards| == 1 {
      assert guards[0] in guards;
      NegateShape(guards[0], sub);
    } else {
      JoinShape(guards, sub);
    }
    TextRoundTrip(CombinedTree(guards, sub));
  }
}
