/**
 What conditions evaluate to, atom by atom in order, and when the inverted guard
 text means the same as running the guards.
 */
module GuardSemantics {
  import opened Wrappers
  import opened ConditionSyntax
  import opened GuardInversion

  datatype Value = Num(n: int) | Bool(b: bool) | NaN | Undefined

  predicate Truthy(v: Value) {
    match v
    case Num(n) => n != 0
    case Bool(b) => b
    case NaN => false
    case Undefined => false
  }

  /** Comparison operands are numbers, except the values that convert to NaN. */
  function ToNumber(v: Value): Option<int> {
    match v
    case Num(n) => Some(n)
    case Bool(b) => Some(if b then 1 else 0)
    case NaN => None
    case Undefined => None
  }

  predicate StrictEquals(a: Value, b: Value) {
    a == b && !a.NaN?
  }

  predicate LooseEquals(a: Value, b: Value) {
    if a.Undefined? || b.Undefined? then a == b
    else ToNumber(a).Some? && ToNumber(a) == ToNumber(b)
  }

  /** Every relational comparison with a NaN operand is false. */
  predicate Compare(op: Op, a: Value, b: Value)
    requires Flips(op)
  {
    match op
    case StrictEq => StrictEquals(a, b)
    case StrictNe => !StrictEquals(a, b)
    case LooseEq => LooseEquals(a, b)
    case LooseNe => !LooseEquals(a, b)
    case Lt => ToNumber(a).Some? && ToNumber(b).Some? && ToNumber(a).value < ToNumber(b).value
    case Gt => ToNumber(a).Some? && ToNumber(b).Some? && ToNumber(a).value > ToNumber(b).value
    case Le => ToNumber(a).Some? && ToNumber(b).Some? && ToNumber(a).value <= ToNumber(b).value
    case Ge => ToNumber(a).Some? && ToNumber(b).Some? && ToNumber(a).value >= ToNumber(b).value
  }

  /** Evaluating a leaf yields a value and may change the state. */
  type Leaf<!A, !S> = (A, S) -> (Value, S)

  function Eval<A, S>(e: Expr<A>, leaf: Leaf<A, S>, s: S): (Value, S) {
    match e
    case Atom(a) => leaf(a, s)
    case Paren(x) => Eval(x, leaf, s)
    case Not(x) => var (v, t) := Eval(x, leaf, s); (Bool(!Truthy(v)), t)
    case Bin(op, l, r) =>
      var (v, t) := Eval(l, leaf, s);
      if op == And then if Truthy(v) then Eval(r, leaf, t) else (v, t)
      else if op == Or then if Truthy(v) then (v, t) else Eval(r, leaf, t)
      else var (w, u) := Eval(r, leaf, t); (Bool(Compare(op, v, w)), u)
  }

  /** `if (g) return;` for each guard in turn: does one fire, and in which state. */
  function RunGuards<A, S>(guards: seq<Expr<A>>, sub: Subst<A>, leaf: Leaf<A, S>, s: S): (bool, S) {
    if guards == [] then (false, s)
    else
      var (v, t) := Eval(MapExpr(guards[0], sub), leaf, s);
      if Truthy(v) then (true, t) else RunGuards(guards[1..], sub, leaf, t)
  }

  lemma {:induction false} ChainEval<A, S>(op: Op, l: Expr<A>, r: Expr<A>, leaf: Leaf<A, S>, s: S)
    requires op.Or? || op.And?
    ensures Eval(Chain(op, l, r), leaf, s) == Eval(Bin(op, l, r), leaf, s)
  {
    if r.Bin? && r.op == op {
      ChainEval(op, l, r.l, leaf, s);
    }
  }

  // ---- one run ----

  /** No comparison that the inversion flips meets a NaN operand in this run. */
  ghost predicate Clean<A, S>(e: Expr<A>, leaf: Leaf<A, S>, s: S) {
    match e
    case Paren(x) => Clean(x, leaf, s)
    case Not(_) => true
    case Atom(_) => true
    case Bin(op, l, r) =>
      var (v, t) := Eval(l, leaf, s);
      if op == And then Clean(l, leaf, s) && (Truthy(v) ==> Clean(r, leaf, t))
      else if op == Or then Clean(l, leaf, s) && (!Truthy(v) ==> Clean(r, leaf, t))
      else Relational(op) ==> ToNumber(v).Some? && ToNumber(Eval(r, leaf, t).0).Some?
  }

  /** `b` in state `t`, for a truth value that must be the complement of that of `a`, in the same state. */
  ghost predicate Complement<S>(a: (Value, S), b: (Value, S)) {
    Truthy(b.0) == !Truthy(a.0) && a.1 == b.1
  }

  /** The negated condition has the opposite truth value and runs the same leaves in the same order. */
  lemma {:induction false} NegationComplements<A, S>(e: Expr<A>, sub: Subst<A>, leaf: Leaf<A, S>, s: S)
    requires Clean(MapExpr(e, sub), leaf, s)
    ensures Complement(Eval(MapExpr(e, sub), leaf, s), Eval(NegTree(e, sub), leaf, s))
  {
    match e
    case Paren(x) => NegationComplements(x, sub, leaf, s);
    case Not(_) =>
    case Atom(_) =>
    case Bin(op, l, r) =>
      if !Flips(op) {
        NegationComplements(l, sub, leaf, s);
        var (v, t) := Eval(MapExpr(l, sub), leaf, s);
        if Truthy(v) == (op == And) {
          NegationComplements(r, sub, leaf, t);
        }
        UnfoldNegation(op, l, r, sub, leaf, s);
      }
  }

  /** The tree behind a negated `&&` or `||`, without the parentheses and the reassociation. */
  lemma UnfoldNegation<A, S>(op: Op, l: Expr<A>, r: Expr<A>, sub: Subst<A>, leaf: Leaf<A, S>, s: S)
    requires op.Or? || op.And?
    ensures Eval(NegTree(Bin(op, l, r), sub), leaf, s)
      == Eval(Bin(if op == And then Or else And, NegTree(l, sub), NegTree(r, sub)), leaf, s)
  {
    if op == And {
      ChainEval(Or, NegTree(l, sub), NegTree(r, sub), leaf, s);
    } else {
      ChainEval(And, WrappedNeg(l, sub), WrappedNeg(r, sub), leaf, s);
    }
  }

  /** The guards as one condition: does the first or the second or ... fire. */
  function AnyFires<A>(guards: seq<Expr<A>>): Expr<A>
    requires guards != []
  {
    var n := |guards| - 1;
    if n == 0 then guards[0] else Bin(Or, AnyFires(guards[..n]), guards[n])
  }

  lemma {:induction false} RunGuardsSnoc<A, S>(guards: seq<Expr<A>>, g: Expr<A>, sub: Subst<A>, leaf: Leaf<A, S>, s: S)
    ensures var (fired, t) := RunGuards(guards, sub, leaf, s);
      RunGuards(guards + [g], sub, leaf, s) ==
        if fired then (true, t)
        else (Truthy(Eval(MapExpr(g, sub), leaf, t).0), Eval(MapExpr(g, sub), leaf, t).1)
  {
    if guards == [] {
      assert RunGuards([g][1..], sub, leaf, s) == (false, s);
      assert [] + [g] == [g];
      assert RunGuards([g], sub, leaf, s) == RunGuards(guards + [g], sub, leaf, s);
      var (v, t) := Eval(MapExpr(g, sub), leaf, s);
      assert [g][1..] == [];
    } else {
      var (v, t) := Eval(MapExpr(guards[0], sub), leaf, s);
      assert (guards + [g])[1..] == guards[1..] + [g];
      RunGuardsSnoc(guards[1..], g, sub, leaf, t);
    }
  }

  lemma {:induction false} GuardsAreDisjunction<A, S>(guards: seq<Expr<A>>, sub: Subst<A>, leaf: Leaf<A, S>, s: S)
    requires guards != []
    ensures var (v, t) := Eval(MapExpr(AnyFires(guards), sub), leaf, s);
      RunGuards(guards, sub, leaf, s) == (Truthy(v), t)
  {
    var n := |guards| - 1;
    assert guards == guards[..n] + [guards[n]];
    RunGuardsSnoc(guards[..n], guards[n], sub, leaf, s);
    if n > 0 {
      GuardsAreDisjunction(guards[..n], sub, leaf, s);
    }
  }

  lemma {:induction false} CombinedIsNegation<A, S>(guards: seq<Expr<A>>, sub: Subst<A>, leaf: Leaf<A, S>, s: S)
    requires guards != []
    ensures Eval(CombinedTree(guards, sub), leaf, s) == Eval(NegTree(AnyFires(guards), sub), leaf, s)
    ensures Eval(JoinTree(guards, sub), leaf, s) == Eval(NegTree(AnyFires(guards), sub), leaf, s)
  {
    var n := |guards| - 1;
    if n > 0 {
      CombinedIsNegation(guards[..n], sub, leaf, s);
      UnfoldNegation(Or, AnyFires(guards[..n]), guards[n], sub, leaf, s);
      ChainEval(And, JoinTree(guards[..n], sub), WrappedNeg(guards[n], sub), leaf, s);
    }
  }

  /**
   The inverted condition is true exactly when no guard fires, and leaves the
   state (so the evaluated leaves and their order) of running the guards.
   */
  ghost predicate Faithful<A, S>(guards: seq<Expr<A>>, sub: Subst<A>, leaf: Leaf<A, S>, s: S)
    requires guards != []
  {
    var (fired, t) := RunGuards(guards, sub, leaf, s);
    var (v, u) := Eval(CombinedTree(guards, sub), leaf, s);
    Truthy(v) == !fired && u == t
  }

  lemma FaithfulIsComplement<A, S>(guards: seq<Expr<A>>, sub: Subst<A>, leaf: Leaf<A, S>, s: S)
    requires guards != []
    ensures Faithful(guards, sub, leaf, s) <==>
      Complement(Eval(MapExpr(AnyFires(guards), sub), leaf, s), Eval(NegTree(AnyFires(guards), sub), leaf, s))
  {
    GuardsAreDisjunction(guards, sub, leaf, s);
    CombinedIsNegation(guards, sub, leaf, s);
  }

  /** A run without NaN in a flipped comparison is inverted faithfully. */
  lemma CleanRunIsFaithful<A, S>(guards: seq<Expr<A>>, sub: Subst<A>, leaf: Leaf<A, S>, s: S)
    requires guards != [] && Clean(MapExpr(AnyFires(guards), sub), leaf, s)
    ensures Faithful(guards, sub, leaf, s)
  {
    NegationComplements(AnyFires(guards), sub, leaf, s);
    FaithfulIsComplement(guards, sub, leaf, s);
  }

  lemma {:induction false} NumbersStayNumbers<A, S>(e: Expr<A>, leaf: Leaf<A, S>, s: S)
    requires forall a, t :: ToNumber(leaf(a, t).0).Some?
    ensures Clean(e, leaf, s) && ToNumber(Eval(e, leaf, s).0).Some?
  {
    match e
    case Atom(_) =>
    case Paren(x) => NumbersStayNumbers(x, leaf, s);
    case Not(x) =>
    case Bin(op, l, r) =>
      NumbersStayNumbers(l, leaf, s);
      NumbersStayNumbers(r, leaf, Eval(l, leaf, s).1);
  }

  /** Over totally ordered operands the inversion is exact, with side effects and short-circuits included. */
  lemma NumericGuardsAreFaithful<A, S>(guards: seq<Expr<A>>, sub: Subst<A>, leaf: Leaf<A, S>, s: S)
    requires guards != [] && forall a, t :: ToNumber(leaf(a, t).0).Some?
    ensures Faithful(guards, sub, leaf, s)
  {
    NumbersStayNumbers(MapExpr(AnyFires(guards), sub), leaf, s);
    CleanRunIsFaithful(guards, sub, leaf, s);
  }
}
