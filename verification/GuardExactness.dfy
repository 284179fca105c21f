/**
 The inversion is claimed for every guard. It fails when a flipped comparison
 meets NaN, and this is the only way it can: the guards invert faithfully in
 every environment exactly when no flipped comparison has an operand that may
 be NaN.
 */
module GuardExactness {
  import opened Wrappers
  import opened ConditionSyntax
  import opened GuardInversion
  import opened GuardSemantics

  /** Can this operand evaluate to NaN (or to a value that converts to it)? */
  predicate MayBeNaN(e: Expr) {
    match e
    case Atom(_) => true
    case Paren(x) => MayBeNaN(x)
    case Not(_) => false
    case Bin(op, l, r) =>
      if op == And then MayBeNaN(l) || MayBeNaN(r) else if op == Or then MayBeNaN(r) else false
  }

  /** No comparison the inversion flips is relational with an operand that may be NaN. */
  predicate SafeToFlip(e: Expr) {
    match e
    case Atom(_) => true
    case Paren(x) => SafeToFlip(x)
    case Not(_) => true
    case Bin(op, l, r) =>
      if Flips(op) then Relational(op) ==> !MayBeNaN(l) && !MayBeNaN(r)
      else SafeToFlip(l) && SafeToFlip(r)
  }

  lemma {:induction false} NeverNaN<A, S>(e: Expr<A>, leaf: Leaf<A, S>, s: S)
    requires !MayBeNaN(e)
    ensures ToNumber(Eval(e, leaf, s).0).Some?
  {
    match e
    case Paren(x) => NeverNaN(x, leaf, s);
    case Not(_) =>
    case Bin(op, l, r) =>
      var (v, t) := Eval(l, leaf, s);
      if op == And {
        NeverNaN(l, leaf, s);
        NeverNaN(r, leaf, t);
      } else if op == Or {
        NeverNaN(r, leaf, t);
      }
  }

  lemma {:induction false} SafeIsClean<A, S>(e: Expr<A>, leaf: Leaf<A, S>, s: S)
    requires SafeToFlip(e)
    ensures Clean(e, leaf, s)
  {
    match e
    case Atom(_) =>
    case Paren(x) => SafeIsClean(x, leaf, s);
    case Not(_) =>
    case Bin(op, l, r) =>
      var (v, t) := Eval(l, leaf, s);
      if !Flips(op) {
        SafeIsClean(l, leaf, s);
        SafeIsClean(r, leaf, t);
      } else if Relational(op) {
        NeverNaN(l, leaf, s);
        NeverNaN(r, leaf, t);
      }
  }

  lemma {:induction false} MapExprKeepsSafety<A>(e: Expr<A>, sub: Subst<A>)
    ensures MayBeNaN(MapExpr(e, sub)) == MayBeNaN(e) && SafeToFlip(MapExpr(e, sub)) == SafeToFlip(e)
    ensures Size(MapExpr(e, sub)) == Size(e)
  {
    match e
    case Atom(_) =>
    case Paren(x) => MapExprKeepsSafety(x, sub);
    case Not(x) => MapExprKeepsSafety(x, sub);
    case Bin(op, l, r) =>
      MapExprKeepsSafety(l, sub);
      MapExprKeepsSafety(r, sub);
  }

  // ---- environments that feed chosen values ----

  /** The state is the list of leaves evaluated so far; the n-th of them gets the n-th value. */
  function Feed<A>(values: seq<Value>): Leaf<A, seq<A>> {
    (a: A, h: seq<A>) => (if |h| < |values| then values[|h|] else Undefined, h + [a])
  }

  function Size(e: Expr): (n: nat)
    ensures n >= 1
  {
    match e
    case Atom(_) => 1
    case Paren(x) => Size(x)
    case Not(x) => Size(x)
    case Bin(_, l, r) => Size(l) + Size(r)
  }

  lemma {:induction false} EvaluatesAtMostSize<A>(e: Expr<A>, values: seq<Value>, h: seq<A>)
    ensures |h| + 1 <= |Eval(e, Feed(values), h).1| <= |h| + Size(e)
  {
    match e
    case Atom(_) =>
    case Paren(x) => EvaluatesAtMostSize(x, values, h);
    case Not(x) => EvaluatesAtMostSize(x, values, h);
    case Bin(op, l, r) =>
      EvaluatesAtMostSize(l, values, h);
      EvaluatesAtMostSize(r, values, Eval(l, Feed(values), h).1);
  }

  /** The two truth values of a comparison's boolean operands that make it come out as `b`. */
  function Operands(op: Op, b: bool): (bool, bool)
    requires Flips(op)
  {
    match op
    case StrictEq => (true, b)
    case LooseEq => (true, b)
    case StrictNe => (true, !b)
    case LooseNe => (true, !b)
    case Lt => (!b, true)
    case Gt => (true, !b)
    case Le => (true, b)
    case Ge => (b, true)
  }

  /** The truth values `Full` gives to the operands of a binary operator. */
  function FullOperands(op: Op, b: bool): (bool, bool) {
    if op == And then (true, b) else if op == Or then (false, b) else Operands(op, b)
  }

  lemma FullOperandsWork(op: Op, b: bool)
    ensures var (x, y) := FullOperands(op, b);
      && (op == And ==> x && y == b) && (op == Or ==> !x && y == b)
      && (Flips(op) ==> Compare(op, Bool(x), Bool(y)) == b)
  {
  }

  /** Values that make `e` evaluate every one of its leaves and come out as `b`. */
  function Full(e: Expr, b: bool): (vs: seq<Value>)
    ensures |vs| == Size(e)
  {
    match e
    case Atom(_) => [Bool(b)]
    case Paren(x) => Full(x, b)
    case Not(x) => Full(x, !b)
    case Bin(op, l, r) => Full(l, FullOperands(op, b).0) + Full(r, FullOperands(op, b).1)
  }

  /** `vs` stands in `values` right after the first `n`. */
  predicate At(values: seq<Value>, n: nat, vs: seq<Value>) {
    n + |vs| <= |values| && values[n..n + |vs|] == vs
  }

  lemma AtSplits(values: seq<Value>, n: nat, vs: seq<Value>, ws: seq<Value>)
    requires At(values, n, vs + ws)
    ensures At(values, n, vs) && At(values, n + |vs|, ws)
  {
    assert values[n..n + |vs|] == (vs + ws)[..|vs|] == vs;
    assert values[n + |vs|..n + |vs| + |ws|] == (vs + ws)[|vs|..] == ws;
  }

  lemma {:induction false} FullRuns<A>(e: Expr<A>, b: bool, values: seq<Value>, h: seq<A>)
    requires At(values, |h|, Full(e, b))
    ensures Eval(e, Feed(values), h).0 == Bool(b)
    ensures |Eval(e, Feed(values), h).1| == |h| + Size(e)
  {
    match e
    case Atom(_) => assert values[|h|] == values[|h|..|h| + 1][0];
    case Paren(x) => FullRuns(x, b, values, h);
    case Not(x) => FullRuns(x, !b, values, h);
    case Bin(op, l, r) =>
      var (bl, br) := FullOperands(op, b);
      FullOperandsWork(op, b);
      AtSplits(values, |h|, Full(l, bl), Full(r, br));
      FullRuns(l, bl, values, h);
      FullRuns(r, br, values, Eval(l, Feed(values), h).1);
  }

  /** Values that make an operand come out as NaN. */
  function ToNaN(e: Expr): (vs: seq<Value>)
    requires MayBeNaN(e)
  {
    match e
    case Atom(_) => [NaN]
    case Paren(x) => ToNaN(x)
    case Bin(op, l, r) =>
      if MayBeNaN(r) then Full(l, op == And) + ToNaN(r) else ToNaN(l)
  }

  lemma {:induction false} ToNaNRuns<A>(e: Expr<A>, values: seq<Value>, h: seq<A>)
    requires MayBeNaN(e) && At(values, |h|, ToNaN(e))
    ensures ToNumber(Eval(e, Feed(values), h).0).None?
    ensures |Eval(e, Feed(values), h).1| == |h| + |ToNaN(e)|
  {
    match e
    case Atom(_) => assert values[|h|] == values[|h|..|h| + 1][0];
    case Paren(x) => ToNaNRuns(x, values, h);
    case Bin(op, l, r) =>
      if MayBeNaN(r) {
        AtSplits(values, |h|, Full(l, op == And), ToNaN(r));
        FullRuns(l, op == And, values, h);
        ToNaNRuns(r, values, Eval(l, Feed(values), h).1);
      } else {
        ToNaNRuns(l, values, h);
      }
  }

  // ---- where an unsafe guard diverges from its inversion ----

  /**
   How an unsafe condition and its negation part: both come out false after the
   same leaves, or one of them goes on to evaluate more leaves than the other.
   */
  datatype Divergence = BothFalse | OriginalLonger | InvertedLonger

  function Kind(e: Expr): Divergence
    requires !SafeToFlip(e)
  {
    match e
    case Paren(x) => Kind(x)
    case Bin(op, l, r) =>
      if Flips(op) then BothFalse
      else if SafeToFlip(l) then Kind(r)
      else if !Kind(l).BothFalse? then Kind(l)
      else if op == And then InvertedLonger
      else OriginalLonger
  }

  /** Values that bring the divergence about; the longer side then comes out as `b`. */
  function Diverging<A>(e: Expr<A>, sub: Subst<A>, b: bool): seq<Value>
    requires !SafeToFlip(e)
  {
    match e
    case Paren(x) => Diverging(x, sub, b)
    case Bin(op, l, r) =>
      if Flips(op) then
        (MapExprKeepsSafety(l, sub);
         MapExprKeepsSafety(r, sub);
         if MayBeNaN(l) then ToNaN(MapExpr(l, sub)) + Full(MapExpr(r, sub), true)
         else Full(MapExpr(l, sub), true) + ToNaN(MapExpr(r, sub)))
      else if SafeToFlip(l) then Full(MapExpr(l, sub), op == And) + Diverging(r, sub, b)
      else if Kind(e).OriginalLonger? then Diverging(l, sub, op == And) + Full(MapExpr(r, sub), b)
      else Diverging(l, sub, op == Or) + Full(NegTree(r, sub), b)
  }

  ghost predicate Diverges<A>(kind: Divergence, original: (Value, seq<A>), inverted: (Value, seq<A>), end: nat, b: bool) {
    match kind
    case BothFalse =>
      |original.1| == end && |inverted.1| == end && !Truthy(original.0) && !Truthy(inverted.0)
    case OriginalLonger => |original.1| == end && |inverted.1| < end && Truthy(original.0) == b
    case InvertedLonger => |inverted.1| == end && |original.1| < end && Truthy(inverted.0) == b
  }

  lemma {:induction false} ChainSize<A>(op: Op, l: Expr<A>, r: Expr<A>)
    ensures Size(Chain(op, l, r)) == Size(l) + Size(r)
  {
    if r.Bin? && r.op == op {
      ChainSize(op, l, r.l);
    }
  }

  lemma {:induction false} NegTreeSize<A>(e: Expr<A>, sub: Subst<A>)
    ensures Size(NegTree(e, sub)) == Size(e)
  {
    MapExprKeepsSafety(e, sub);
    match e
    case Atom(_) =>
    case Paren(x) => NegTreeSize(x, sub);
    case Not(x) =>
    case Bin(op, l, r) =>
      if !Flips(op) {
        NegTreeSize(l, sub);
        NegTreeSize(r, sub);
        ChainSize(Or, NegTree(l, sub), NegTree(r, sub));
        ChainSize(And, WrappedNeg(l, sub), WrappedNeg(r, sub));
      }
  }

  /** The operands of a comparison evaluate in turn, and one of them comes out as NaN. */
  ghost predicate MeetsNaN<A>(l: Expr<A>, r: Expr<A>, values: seq<Value>, h: seq<A>, end: nat) {
    var a := Eval(l, Feed(values), h);
    var b := Eval(r, Feed(values), a.1);
    (ToNumber(a.0).None? || ToNumber(b.0).None?) && |b.1| == end
  }

  lemma NaNOnTheLeft<A>(l: Expr<A>, r: Expr<A>, values: seq<Value>, h: seq<A>)
    requires MayBeNaN(l) && At(values, |h|, ToNaN(l) + Full(r, true))
    ensures MeetsNaN(l, r, values, h, |h| + |ToNaN(l)| + Size(r))
  {
    AtSplits(values, |h|, ToNaN(l), Full(r, true));
    ToNaNRuns(l, values, h);
    FullRuns(r, true, values, Eval(l, Feed(values), h).1);
  }

  lemma NaNOnTheRight<A>(l: Expr<A>, r: Expr<A>, values: seq<Value>, h: seq<A>)
    requires MayBeNaN(r) && At(values, |h|, Full(l, true) + ToNaN(r))
    ensures MeetsNaN(l, r, values, h, |h| + Size(l) + |ToNaN(r)|)
  {
    AtSplits(values, |h|, Full(l, true), ToNaN(r));
    FullRuns(l, true, values, h);
    ToNaNRuns(r, values, Eval(l, Feed(values), h).1);
  }

  /** A relational comparison that meets NaN is false, and so is the flipped one. */
  lemma BothFalseOnNaN<A>(op: Op, l: Expr<A>, r: Expr<A>, values: seq<Value>, h: seq<A>, end: nat, b: bool)
    requires Relational(op) && MeetsNaN(l, r, values, h, end)
    ensures Diverges(BothFalse, Eval(Bin(op, l, r), Feed(values), h), Eval(Bin(Flip(op), l, r), Feed(values), h), end, b)
  {
  }

  lemma FlippedNaN<A>(op: Op, l: Expr<A>, r: Expr<A>, sub: Subst<A>, b: bool, values: seq<Value>, h: seq<A>)
    requires Relational(op) && (MayBeNaN(l) || MayBeNaN(r))
    requires At(values, |h|, Diverging(Bin(op, l, r), sub, b))
    ensures Diverges(BothFalse,
              Eval(MapExpr(Bin(op, l, r), sub), Feed(values), h), Eval(NegTree(Bin(op, l, r), sub), Feed(values), h),
              |h| + |Diverging(Bin(op, l, r), sub, b)|, b)
  {
    var l', r' := MapExpr(l, sub), MapExpr(r, sub);
    MapExprKeepsSafety(l, sub);
    MapExprKeepsSafety(r, sub);
    if MayBeNaN(l) {
      NaNOnTheLeft(l', r', values, h);
    } else {
      NaNOnTheRight(l', r', values, h);
    }
    BothFalseOnNaN(op, l', r', values, h, |h| + |Diverging(Bin(op, l, r), sub, b)|, b);
  }

  /** The left operand's divergence, seen from the whole condition. */
  ghost predicate LeftDiverges<A>(l: Expr<A>, sub: Subst<A>, bl: bool, values: seq<Value>, h: seq<A>)
    requires !SafeToFlip(l)
  {
    Diverges(Kind(l), Eval(MapExpr(l, sub), Feed(values), h), Eval(NegTree(l, sub), Feed(values), h),
             |h| + |Diverging(l, sub, bl)|, bl)
  }

  /** The longer side runs to the end of the condition; the other, being behind, cannot catch up. */
  lemma OriginalRunsOn<A>(op: Op, l: Expr<A>, r: Expr<A>, sub: Subst<A>, b: bool, values: seq<Value>, h: seq<A>)
    requires !Flips(op) && !SafeToFlip(l) && Kind(Bin(op, l, r)).OriginalLonger?
    requires At(values, |h|, Diverging(Bin(op, l, r), sub, b))
    requires LeftDiverges(l, sub, op == And, values, h)
    ensures Diverges(OriginalLonger,
              Eval(MapExpr(Bin(op, l, r), sub), Feed(values), h), Eval(NegTree(Bin(op, l, r), sub), Feed(values), h),
              |h| + |Diverging(Bin(op, l, r), sub, b)|, b)
  {
    var r' := MapExpr(r, sub);
    MapExprKeepsSafety(r, sub);
    NegTreeSize(r, sub);
    UnfoldNegation(op, l, r, sub, Feed(values), h);
    EvaluatesAtMostSize(NegTree(r, sub), values, Eval(NegTree(l, sub), Feed(values), h).1);
    AtSplits(values, |h|, Diverging(l, sub, op == And), Full(r', b));
    FullRuns(r', b, values, Eval(MapExpr(l, sub), Feed(values), h).1);
  }

  lemma InvertedRunsOn<A>(op: Op, l: Expr<A>, r: Expr<A>, sub: Subst<A>, b: bool, values: seq<Value>, h: seq<A>)
    requires !Flips(op) && !SafeToFlip(l) && Kind(Bin(op, l, r)).InvertedLonger?
    requires At(values, |h|, Diverging(Bin(op, l, r), sub, b))
    requires LeftDiverges(l, sub, op == Or, values, h)
    ensures Diverges(InvertedLonger,
              Eval(MapExpr(Bin(op, l, r), sub), Feed(values), h), Eval(NegTree(Bin(op, l, r), sub), Feed(values), h),
              |h| + |Diverging(Bin(op, l, r), sub, b)|, b)
  {
    var n' := NegTree(r, sub);
    MapExprKeepsSafety(r, sub);
    NegTreeSize(r, sub);
    UnfoldNegation(op, l, r, sub, Feed(values), h);
    EvaluatesAtMostSize(MapExpr(r, sub), values, Eval(MapExpr(l, sub), Feed(values), h).1);
    AtSplits(values, |h|, Diverging(l, sub, op == Or), Full(n', b));
    FullRuns(n', b, values, Eval(NegTree(l, sub), Feed(values), h).1);
  }

  /** A safe left operand complements, so the divergence of the right one is that of the whole. */
  lemma DivergesRight<A>(op: Op, l: Expr<A>, r: Expr<A>, sub: Subst<A>, b: bool, values: seq<Value>, h: seq<A>)
    requires !Flips(op) && SafeToFlip(l) && !SafeToFlip(r)
    requires At(values, |h|, Diverging(Bin(op, l, r), sub, b))
    requires var t := Eval(MapExpr(l, sub), Feed(values), h).1;
      At(values, |t|, Diverging(r, sub, b)) ==>
      Diverges(Kind(r), Eval(MapExpr(r, sub), Feed(values), t), Eval(NegTree(r, sub), Feed(values), t),
               |t| + |Diverging(r, sub, b)|, b)
    ensures Diverges(Kind(Bin(op, l, r)),
              Eval(MapExpr(Bin(op, l, r), sub), Feed(values), h), Eval(NegTree(Bin(op, l, r), sub), Feed(values), h),
              |h| + |Diverging(Bin(op, l, r), sub, b)|, b)
  {
    var l' := MapExpr(l, sub);
    AtSplits(values, |h|, Full(l', op == And), Diverging(r, sub, b));
    FullRuns(l', op == And, values, h);
    MapExprKeepsSafety(l, sub);
    SafeIsClean(l', Feed(values), h);
    NegationComplements(l, sub, Feed(values), h);
    UnfoldNegation(op, l, r, sub, Feed(values), h);
  }

  lemma {:induction false} UnsafeDiverges<A>(e: Expr<A>, sub: Subst<A>, b: bool, values: seq<Value>, h: seq<A>)
    requires !SafeToFlip(e) && At(values, |h|, Diverging(e, sub, b))
    ensures Diverges(Kind(e), Eval(MapExpr(e, sub), Feed(values), h), Eval(NegTree(e, sub), Feed(values), h),
                     |h| + |Diverging(e, sub, b)|, b)
  {
    match e
    case Paren(x) => UnsafeDiverges(x, sub, b, values, h);
    case Bin(op, l, r) =>
      if Flips(op) {
        FlippedNaN(op, l, r, sub, b, values, h);
      } else if SafeToFlip(l) {
        var t := Eval(MapExpr(l, sub), Feed(values), h).1;
        if At(values, |t|, Diverging(r, sub, b)) {
          UnsafeDiverges(r, sub, b, values, t);
        }
        DivergesRight(op, l, r, sub, b, values, h);
      } else {
        if Kind(e).OriginalLonger? {
          AtSplits(values, |h|, Diverging(l, sub, op == And), Full(MapExpr(r, sub), b));
          UnsafeDiverges(l, sub, op == And, values, h);
          OriginalRunsOn(op, l, r, sub, b, values, h);
        } else {
          AtSplits(values, |h|, Diverging(l, sub, op == Or), Full(NegTree(r, sub), b));
          UnsafeDiverges(l, sub, op == Or, values, h);
          InvertedRunsOn(op, l, r, sub, b, values, h);
        }
      }
  }

  // ---- the exact condition ----

  /** The value of a leaf may depend on everything evaluated before it. */
  type Oracle<!A> = (seq<A>, A) -> Value

  function Traced<A>(oracle: Oracle<A>): Leaf<A, seq<A>> {
    (a: A, h: seq<A>) => (oracle(h, a), h + [a])
  }

  ghost predicate FaithfulUnder<A>(guards: seq<Expr<A>>, sub: Subst<A>, oracle: Oracle<A>)
    requires guards != []
  {
    Faithful(guards, sub, Traced(oracle), [])
  }

  lemma {:induction false} TracedFeed<A>(e: Expr<A>, oracle: Oracle<A>, values: seq<Value>, h: seq<A>)
    requires forall h, a :: oracle(h, a) == if |h| < |values| then values[|h|] else Undefined
    ensures Eval(e, Traced(oracle), h) == Eval(e, Feed(values), h)
  {
    match e
    case Atom(_) =>
    case Paren(x) => TracedFeed(x, oracle, values, h);
    case Not(x) => TracedFeed(x, oracle, values, h);
    case Bin(op, l, r) =>
      TracedFeed(l, oracle, values, h);
      TracedFeed(r, oracle, values, Eval(l, Feed(values), h).1);
  }

  lemma UnsafeHasCounterexample<A>(guards: seq<Expr<A>>, sub: Subst<A>) returns (oracle: Oracle<A>)
    requires guards != [] && !SafeToFlip(AnyFires(guards))
    ensures !FaithfulUnder(guards, sub, oracle)
  {
    var e := AnyFires(guards);
    var values := Diverging(e, sub, true);
    oracle := (h: seq<A>, a: A) => if |h| < |values| then values[|h|] else Undefined;
    assert values[0..0 + |values|] == values;
    UnsafeDiverges(e, sub, true, values, []);
    TracedFeed(MapExpr(e, sub), oracle, values, []);
    TracedFeed(NegTree(e, sub), oracle, values, []);
    FaithfulIsComplement(guards, sub, Traced(oracle), []);
  }

  /** Exactly when the inversion may be trusted in every environment. */
  lemma InversionIsExact<A(!new)>(guards: seq<Expr<A>>, sub: Subst<A>)
    requires guards != []
    ensures (forall oracle :: FaithfulUnder(guards, sub, oracle)) <==> SafeToFlip(AnyFires(guards))
  {
    if SafeToFlip(AnyFires(guards)) {
      MapExprKeepsSafety(AnyFires(guards), sub);
      forall oracle ensures FaithfulUnder(guards, sub, oracle) {
        SafeIsClean(MapExpr(AnyFires(guards), sub), Traced(oracle), []);
        CleanRunIsFaithful(guards, sub, Traced(oracle), []);
      }
    } else {
      var oracle := UnsafeHasCounterexample(guards, sub);
    }
  }

  /** The condition on a guard list is the condition on each guard. */
  lemma {:induction false} SafeGuards<A>(guards: seq<Expr<A>>)
    requires guards != []
    ensures SafeToFlip(AnyFires(guards)) <==> forall i :: 0 <= i < |guards| ==> SafeToFlip(guards[i])
  {
    var n := |guards| - 1;
    if n > 0 {
      SafeGuards(guards[..n]);
      assert forall i :: 0 <= i < n ==> guards[..n][i] == guards[i];
    }
  }
}
