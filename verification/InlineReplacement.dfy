/**
 The replacement of one call in strict mode: every used argument is hoisted into
 a fresh constant, in order, and the guards become one wrapper condition.
 Running it has the effects of the call.
 */
module InlineReplacement {
  import opened Wrappers
  import opened ConditionSyntax
  import opened GuardInversion
  import opened GuardSemantics
  import opened StrictInlining

  // ---- the replacement ----

  datatype Replacement = Replacement(prefix: seq<Stmt>, condition: Option<seq<Token<Term>>>, tail: seq<Stmt>)

  /** The statements a replacement puts in place of the call; the condition is read back from its text. */
  function Statements(r: Replacement): seq<Stmt> {
    match r.condition
    case None => r.prefix + r.tail
    case Some(text) =>
      match ParseCondition(text)
      case None => r.prefix
      case Some(c) => r.prefix + [If(c, r.tail, [])]
  }

  predicate IsLiteral(e: Expr<Term>) {
    match e
    case Atom(t) => t.Lit?
    case Paren(x) => IsLiteral(x)
    case _ => false
  }

  /** What one argument contributes to the prefix. */
  function Hoisted(param: string, arg: Expr<Term>, used: set<string>, temp: string): seq<Stmt> {
    if param in used then [Const(temp, arg)] else if IsLiteral(arg) then [] else [Do(arg)]
  }

  function Prefix(params: seq<string>, args: seq<Expr<Term>>, used: set<string>, temps: seq<string>): seq<Stmt>
    requires |args| <= |params| == |temps|
  {
    if args == [] then [] else Hoisted(params[0], args[0], used, temps[0]) + Prefix(params[1..], args[1..], used, temps[1..])
  }

  /** Where parameter `i` goes. */
  function ParamTarget(i: nat, args: seq<Expr<Term>>, temps: seq<string>): Term
    requires i < |temps|
  {
    if i < |args| then Var(temps[i]) else Lit(Undefined)
  }

  ghost predicate Distinct(s: seq<string>) {
    forall i, j :: 0 <= i < j < |s| ==> s[i] != s[j]
  }

  function Elems(s: seq<string>): set<string> {
    set x | x in s
  }

  /** An argument is hoisted into a temporary when its parameter is used. */
  predicate IsHoisted(i: nat, params: seq<string>, args: seq<Expr<Term>>, used: set<string>) {
    i < |args| && i < |params| && params[i] in used
  }

  /** The temporaries in use; the entries of `temps` for other parameters mean nothing. */
  function Temps(params: seq<string>, args: seq<Expr<Term>>, used: set<string>, temps: seq<string>): set<string>
    requires |params| == |temps|
  {
    set i | 0 <= i < |temps| && IsHoisted(i, params, args, used) :: temps[i]
  }

  ghost predicate DistinctTemps(params: seq<string>, args: seq<Expr<Term>>, used: set<string>, temps: seq<string>)
    requires |params| == |temps|
  {
    forall i, j :: 0 <= i < j < |temps| && IsHoisted(i, params, args, used) && IsHoisted(j, params, args, used)
      ==> temps[i] != temps[j]
  }

  /** `m` sends every used parameter to its temporary (or `undefined`), and renames only locals. */
  ghost predicate Renames(m: Renaming, params: seq<string>, args: seq<Expr<Term>>, used: set<string>, temps: seq<string>)
    requires |params| == |temps|
  {
    forall i :: 0 <= i < |params| && params[i] in used ==> params[i] in m && m[params[i]] == ParamTarget(i, args, temps)
  }

  /** The replacement the inliner plans, given its choice of names. */
  ghost predicate IsReplacement(r: Replacement, h: Helper, args: seq<Expr<Term>>, used: set<string>,
                                temps: seq<string>, m: Renaming)
    requires |args| <= |h.params| == |temps|
  {
    && Renames(m, h.params, args, used, temps)
    && r.prefix == Prefix(h.params, args, used, temps)
    && r.tail == SubStmts(h.tail, m)
    && r.condition == if h.guards == [] then None else Some(CombineGuards(h.guards, Edits(m)))
  }

  // ---- names in arguments ----

  function TermNames(t: Term): set<string> {
    match t
    case Var(x) => {x}
    case Lit(_) => {}
    case Call(_, a) => TermNames(a)
    case Assign(x, a) => {x} + TermNames(a)
  }

  function ExprNames(e: Expr<Term>): set<string> {
    match e
    case Atom(t) => TermNames(t)
    case Paren(x) => ExprNames(x)
    case Not(x) => ExprNames(x)
    case Bin(_, l, r) => ExprNames(l) + ExprNames(r)
  }

  /** Temporaries that a term does not mention do not change its evaluation. */
  lemma {:induction false} TermIgnoresTemps(t: Term, world: World, s: Store, c: Store)
    requires SameEffects(s, c) && s.frame == map[] && TermNames(t) !! c.frame.Keys
    ensures var (v, s') := EvalTerm(t, world, true, s);
      var (w, c') := EvalTerm(t, world, true, c);
      v == w && SameEffects(s', c') && s'.frame == map[] && c'.frame == c.frame && s'.locals.Keys == s.locals.Keys
  {
    match t
    case Var(_) =>
    case Lit(_) =>
    case Call(_, a) => TermIgnoresTemps(a, world, s, c);
    case Assign(_, a) => TermIgnoresTemps(a, world, s, c);
  }

  lemma {:induction false} ExprIgnoresTemps(e: Expr<Term>, world: World, s: Store, c: Store)
    requires SameEffects(s, c) && s.frame == map[] && ExprNames(e) !! c.frame.Keys
    ensures var (v, s') := EvalExpr(e, world, true, s);
      var (w, c') := EvalExpr(e, world, true, c);
      v == w && SameEffects(s', c') && s'.frame == map[] && c'.frame == c.frame && s'.locals.Keys == s.locals.Keys
  {
    match e
    case Atom(t) => TermIgnoresTemps(t, world, s, c);
    case Paren(x) => ExprIgnoresTemps(x, world, s, c);
    case Not(x) => ExprIgnoresTemps(x, world, s, c);
    case Bin(_, l, r) =>
      ExprIgnoresTemps(l, world, s, c);
      ExprIgnoresTemps(r, world, EvalExpr(l, world, true, s).1, EvalExpr(l, world, true, c).1);
  }

  lemma {:induction false} LiteralHasNoEffect(e: Expr<Term>, world: World, s: Store)
    requires IsLiteral(e)
    ensures EvalExpr(e, world, true, s).1 == s
  {
    if e.Paren? {
      LiteralHasNoEffect(e.inner, world, s);
    }
  }

  // ---- the hoisted prefix ----

  /** No argument mentions a temporary. */
  ghost predicate ArgsAvoid(args: seq<Expr<Term>>, names: set<string>) {
    forall i :: 0 <= i < |args| ==> ExprNames(args[i]) !! names
  }

  lemma HoistOne(param: string, arg: Expr<Term>, used: set<string>, temp: string, world: World, s: Store, c: Store)
    requires SameEffects(s, c) && s.frame == map[] && ExprNames(arg) !! c.frame.Keys
    ensures var (v, s') := EvalExpr(arg, world, true, s);
      var c' := Exec(Hoisted(param, arg, used, temp), world, true, c);
      && SameEffects(s', c') && s'.frame == map[] && s'.locals.Keys == s.locals.Keys
      && c'.frame == if param in used then c.frame[temp := v] else c.frame
  {
    ExprIgnoresTemps(arg, world, s, c);
    if param !in used && IsLiteral(arg) {
      LiteralHasNoEffect(arg, world, s);
    } else {
      assert Hoisted(param, arg, used, temp)[1..] == [];
    }
  }

  lemma {:induction false} ExecConcat(a: seq<Stmt>, b: seq<Stmt>, world: World, inCaller: bool, s: Store)
    ensures Exec(a + b, world, inCaller, s) == Exec(b, world, inCaller, Exec(a, world, inCaller, s))
  {
    if a == [] {
      assert a + b == b;
    } else {
      assert (a + b)[1..] == a[1..] + b;
      ExecConcat(a[1..], b, world, inCaller, ExecStmt(a[0], world, inCaller, s));
    }
  }

  /** The prefix has evaluated every argument, left to right, and holds the used values in its temporaries. */
  lemma {:induction false} PrefixEvaluatesArgs(params: seq<string>, args: seq<Expr<Term>>, used: set<string>,
                                               temps: seq<string>, world: World, s: Store, c: Store)
    requires |args| <= |params| == |temps|
    requires SameEffects(s, c) && s.frame == map[]
    requires DistinctTemps(params, args, used, temps)
    requires ArgsAvoid(args, c.frame.Keys + Temps(params, args, used, temps))
    requires Temps(params, args, used, temps) !! c.frame.Keys
    ensures var (vs, s') := EvalArgs(args, world, s);
      var c' := Exec(Prefix(params, args, used, temps), world, true, c);
      && |vs| == |args|
      && SameEffects(s', c') && s'.frame == map[] && s'.locals.Keys == s.locals.Keys
      && (forall x :: x in c.frame ==> x in c'.frame && c'.frame[x] == c.frame[x])
      && (forall x :: x in c'.frame ==> x in c.frame || x in Temps(params, args, used, temps))
      && (forall i :: 0 <= i < |args| && params[i] in used ==> temps[i] in c'.frame && c'.frame[temps[i]] == vs[i])
  {
    if args != [] {
      var head := Hoisted(params[0], args[0], used, temps[0]);
      var rest, others := Temps(params[1..], args[1..], used, temps[1..]), Temps(params, args, used, temps);
      assert ExprNames(args[0]) !! c.frame.Keys;
      HoistOne(params[0], args[0], used, temps[0], world, s, c);
      var s1, c1 := EvalExpr(args[0], world, true, s).1, Exec(head, world, true, c);
      assert forall i: nat :: IsHoisted(i, params[1..], args[1..], used) <==> IsHoisted(i + 1, params, args, used);
      forall x | x in rest ensures x in others && x !in c1.frame {
        var i :| 0 <= i < |temps[1..]| && IsHoisted(i, params[1..], args[1..], used) && temps[1..][i] == x;
        assert IsHoisted(i + 1, params, args, used) && temps[i + 1] == x;
        assert IsHoisted(0, params, args, used) ==> temps[0] != x;
      }
      assert IsHoisted(0, params, args, used) ==> temps[0] in others;
      forall i | 0 <= i < |args[1..]| ensures ExprNames(args[1..][i]) !! c1.frame.Keys + rest {
        assert ExprNames(args[i + 1]) !! c.frame.Keys + others;
      }
      PrefixEvaluatesArgs(params[1..], args[1..], used, temps[1..], world, s1, c1);
      ExecConcat(head, Prefix(params[1..], args[1..], used, temps[1..]), world, true, c);
    }
  }

  lemma {:induction false} BindFinds(params: seq<string>, vs: seq<Value>, i: nat)
    requires Distinct(params) && |vs| <= |params| && i < |params|
    ensures params[i] in Bind(params, vs) && Bind(params, vs)[params[i]] == if i < |vs| then vs[i] else Undefined
    ensures forall x :: x in Bind(params, vs) ==> x in params
  {
    var rest := if vs == [] then [] else vs[1..];
    if i > 0 {
      BindFinds(params[1..], rest, i - 1);
    } else if |params| > 1 {
      BindFinds(params[1..], rest, 0);
    }
  }

  // ---- exactness ----

  /** What the analysis accepts: parameters are never written, every name is resolved, no guard is malformed. */
  ghost predicate HelperOk(h: Helper, used: set<string>, sc: Scoping) {
    && Distinct(h.params) && used <= Elems(h.params)
    && sc.fixed == Elems(h.params) && sc.free !! sc.fixed
    && (forall i :: 0 <= i < |h.guards| ==> WellFormed(h.guards[i]) && ExprOk(h.guards[i], used, sc))
    && StmtsOk(h.tail, used, sc)
    && used + Declared(h.tail) <= sc.names
  }

  /** No free name is shadowed at the call, and the temporaries are fresh for the arguments and for the body. */
  ghost predicate CallSiteOk(h: Helper, args: seq<Expr<Term>>, used: set<string>, temps: seq<string>, sc: Scoping, s: Store)
    requires |h.params| == |temps|
  {
    && s.frame == map[]
    && sc.free !! s.locals.Keys
    && DistinctTemps(h.params, args, used, temps)
    && ArgsAvoid(args, Temps(h.params, args, used, temps))
    && sc.free !! Temps(h.params, args, used, temps)
    && NoCapture(sc)
  }

  /** The state in which the helper's body starts. */
  function BodyStart(h: Helper, args: seq<Expr<Term>>, world: World, s: Store): Store {
    var (vs, t) := EvalArgs(args, world, s);
    t.(frame := Bind(h.params, vs))
  }

  /** No comparison that the inversion flips meets NaN while the helper's guards run. */
  ghost predicate NoNaNFlips(h: Helper, args: seq<Expr<Term>>, world: World, s: Store) {
    h.guards != [] ==> Clean(AnyFires(h.guards), Sem(world, false), BodyStart(h, args, world, s))
  }

  lemma BodyStartsRelated(h: Helper, args: seq<Expr<Term>>, used: set<string>, temps: seq<string>, sc: Scoping,
                          world: World, s: Store)
    requires |args| <= |h.params| == |temps| && HelperOk(h, used, sc) && CallSiteOk(h, args, used, temps, sc, s)
    requires Renames(sc.m, h.params, args, used, temps)
    ensures Related(sc, used, BodyStart(h, args, world, s), Exec(Prefix(h.params, args, used, temps), world, true, s))
  {
    var (vs, t) := EvalArgs(args, world, s);
    var start, c := BodyStart(h, args, world, s), Exec(Prefix(h.params, args, used, temps), world, true, s);
    PrefixEvaluatesArgs(h.params, args, used, temps, world, s, s);
    forall x | x in used ensures Matches(sc.m, x, start, c) {
      assert x in Elems(h.params);
      var i :| 0 <= i < |h.params| && h.params[i] == x;
      BindFinds(h.params, vs, i);
    }
    forall x | x in sc.free ensures x !in start.frame && x !in c.frame && x !in c.locals {
      if h.params != [] {
        BindFinds(h.params, vs, 0);
      }
      assert x !in Elems(h.params) && x !in Temps(h.params, args, used, temps);
    }
  }

  lemma {:induction false} AnyFiresOk(guards: seq<Expr<Term>>, bound: set<string>, sc: Scoping)
    requires guards != [] && forall i :: 0 <= i < |guards| ==> ExprOk(guards[i], bound, sc)
    ensures ExprOk(AnyFires(guards), bound, sc)
  {
    if |guards| > 1 {
      AnyFiresOk(guards[..|guards| - 1], bound, sc);
    }
  }

  /** From related states, the body and the rest of the replacement have the same effects. */
  lemma BodyAgrees(h: Helper, used: set<string>, sc: Scoping, world: World, start: Store, c: Store)
    requires HelperOk(h, used, sc) && NoCapture(sc) && Related(sc, used, start, c)
    requires h.guards != [] && Clean(AnyFires(h.guards), Sem(world, false), start)
    ensures SameEffects(RunBody(h, world, start),
              ExecStmt(If(CombinedTree(h.guards, Edits(sc.m)), SubStmts(h.tail, sc.m), []), world, true, c))
  {
    AnyFiresOk(h.guards, used, sc);
    CleanAgrees(AnyFires(h.guards), world, sc, used, start, c);
    CleanRunIsFaithful(h.guards, Edits(sc.m), Sem(world, true), c);
    GuardsAgree(h.guards, world, sc, used, start, c);
    var (fired, h1) := RunGuards(h.guards, Identity, Sem(world, false), start);
    var (_, c1) := RunGuards(h.guards, Edits(sc.m), Sem(world, true), c);
    if !fired {
      BranchAgrees(h.tail, world, sc, used, h1, c1);
    }
  }

  /**
   The replacement has exactly the effects of the call: the same final bindings
   and the same sequence of calls, for every world, store and argument list.
   */
  lemma StrictInliningIsExact(r: Replacement, h: Helper, args: seq<Expr<Term>>, used: set<string>, temps: seq<string>,
                              sc: Scoping, world: World, s: Store)
    requires |args| <= |h.params| == |temps| && IsReplacement(r, h, args, used, temps, sc.m)
    requires HelperOk(h, used, sc) && CallSiteOk(h, args, used, temps, sc, s) && NoNaNFlips(h, args, world, s)
    ensures SameEffects(CallHelper(h, args, world, s), Exec(Statements(r), world, true, s))
  {
    BodyStartsRelated(h, args, used, temps, sc, world, s);
    var start, c := BodyStart(h, args, world, s), Exec(r.prefix, world, true, s);
    if h.guards == [] {
      StmtsAgree(h.tail, world, sc, used, start, c);
      ExecConcat(r.prefix, r.tail, world, true, s);
      assert RunBody(h, world, start) == Exec(h.tail, world, false, start);
    } else {
      CombinedTextParses(h.guards, Edits(sc.m));
      var wrapper := If(CombinedTree(h.guards, Edits(sc.m)), r.tail, []);
      BodyAgrees(h, used, sc, world, start, c);
      ExecConcat(r.prefix, [wrapper], world, true, s);
      assert [wrapper][1..] == [];
    }
  }
}
