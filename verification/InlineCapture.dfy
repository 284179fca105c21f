/**
 When a plan is exact. The planner draws its names fresh for the block of the
 call, not for the body of the helper: the plan is exact for every helper of a
 shape exactly if no planned name is a name that the body keeps.
 */
module InlineCapture {
  import opened Wrappers
  import opened ConditionSyntax
  import opened GuardInversion
  import opened GuardSemantics
  import opened StrictInlining
  import opened InlineReplacement
  import opened InlinePlanner

  // ---- names in a body ----

  function StmtNames(st: Stmt): set<string> {
    match st
    case Do(e) => ExprNames(e)
    case Const(x, e) => {x} + ExprNames(e)
    case If(c, thn, els) => ExprNames(c) + StmtsNames(thn) + StmtsNames(els)
  }

  function StmtsNames(stmts: seq<Stmt>): set<string> {
    if stmts == [] then {} else StmtNames(stmts[0]) + StmtsNames(stmts[1..])
  }

  function GuardNames(guards: seq<Expr<Term>>): set<string> {
    if guards == [] then {} else ExprNames(guards[0]) + GuardNames(guards[1..])
  }

  // ---- the setting ----

  /** What the planner sees of a call, and the names the body may use: local ones and ones from the module. */
  datatype Site = Site(params: seq<string>, args: seq<Expr<Term>>, used: set<string>, reserved: set<string>,
                       guarded: bool, tops: seq<string>, names: set<string>, free: set<string>)

  /** Every name an argument mentions is live in the block of the call. */
  ghost predicate ArgsLive(args: seq<Expr<Term>>, reserved: set<string>) {
    forall i :: 0 <= i < |args| ==> ExprNames(args[i]) <= reserved
  }

  /** Parameters, local and free names are apart, and the declarations at the top of the tail are among the local names. */
  ghost predicate SiteOk(c: Site) {
    && Distinct(c.params) && |c.args| <= |c.params| && c.used <= Elems(c.params)
    && ArgsLive(c.args, c.reserved)
    && Distinct(c.tops) && Elems(c.tops) <= c.names
    && c.names !! c.free && c.names !! Elems(c.params) && c.free !! Elems(c.params)
  }

  ghost function Renamed(c: Site): Renaming
    requires SiteOk(c)
  {
    PlanRenaming(c.params, c.args, c.used, c.reserved, c.guarded, c.tops)
  }

  ghost function ScopingOf(c: Site): Scoping
    requires SiteOk(c)
  {
    Scoping(Renamed(c), c.used + c.names, c.free, Elems(c.params))
  }

  /** The names the planner puts in: temporaries, and new names of colliding declarations. */
  ghost function NewNames(c: Site): set<string>
    requires SiteOk(c)
  {
    set x | x in Renamed(c) && Renamed(c)[x].Var? :: Renamed(c)[x].x
  }

  /** The names of a body that the plan leaves alone: what it takes from the module, and declarations that are not renamed. */
  ghost function KeptNames(c: Site): set<string>
    requires SiteOk(c)
  {
    c.free + (c.names - Renamed(c).Keys)
  }

  /** A helper of this shape over these names, using exactly these parameters. */
  ghost predicate HelperOver(h: Helper, c: Site)
    requires SiteOk(c)
  {
    && h.params == c.params && (h.guards != [] <==> c.guarded) && TopNames(h.tail) == c.tops
    && Declared(h.tail) <= c.names && (GuardNames(h.guards) + StmtsNames(h.tail)) * Elems(c.params) == c.used
    && HelperOk(h, c.used, ScopingOf(c))
  }

  /** A call where no binding of the caller shadows a free name of the body, and no flipped comparison meets NaN. */
  ghost predicate CallOk(h: Helper, c: Site, world: World, s: Store) {
    s.frame == map[] && c.free !! s.locals.Keys && NoNaNFlips(h, c.args, world, s)
  }

  /** Running the plan for the call has the effects of the call. */
  ghost predicate PlanExact(h: Helper, c: Site, world: World, s: Store)
    requires SiteOk(c) && h.params == c.params
  {
    SameEffects(CallHelper(h, c.args, world, s), Exec(Statements(PlanOf(h, c.args, c.used, c.reserved)), world, true, s))
  }

  // ---- apart means exact ----

  lemma TempsAreNew(c: Site, i: nat)
    requires SiteOk(c) && i < |c.params| && IsHoisted(i, c.params, c.args, c.used)
    ensures var temp := Hoist(c.params, c.args, c.used, c.reserved).0[i];
      c.params[i] in Renamed(c) && Renamed(c)[c.params[i]] == Var(temp) && temp in NewNames(c) && temp !in c.reserved
  {
    hide Hoist, LocalRenaming, ParamRenaming;
    PlanFacts(c.params, c.args, c.used, c.reserved, c.guarded, c.tops);
    assert c.params[i] in Elems(c.params);
  }

  lemma NoNameIsCaptured(c: Site)
    requires SiteOk(c) && NewNames(c) !! KeptNames(c)
    ensures NoCapture(ScopingOf(c))
  {
    hide PlanRenaming;
    PlanFacts(c.params, c.args, c.used, c.reserved, c.guarded, c.tops);
    var m, sc := Renamed(c), ScopingOf(c);
    assert forall x :: x in m && m[x].Var? ==> m[x].x in NewNames(c);
    forall x, y | x in sc.names && y in sc.names && Target(m, x).Var? && Target(m, x) == Target(m, y) ensures x == y {
      assert x !in m ==> x in KeptNames(c);
      assert y !in m ==> y in KeptNames(c);
    }
  }

  lemma ArgsMissTemps(c: Site)
    requires SiteOk(c)
    ensures var hoisted := Temps(c.params, c.args, c.used, Hoist(c.params, c.args, c.used, c.reserved).0);
      ArgsAvoid(c.args, hoisted) && hoisted <= NewNames(c) && hoisted !! c.reserved
  {
    hide Hoist, PlanRenaming, NewNames, Renamed;
    var temps := Hoist(c.params, c.args, c.used, c.reserved).0;
    var hoisted := Temps(c.params, c.args, c.used, temps);
    forall t | t in hoisted ensures t in NewNames(c) && t !in c.reserved {
      var i :| 0 <= i < |temps| && IsHoisted(i, c.params, c.args, c.used) && temps[i] == t;
      TempsAreNew(c, i);
    }
    forall i | 0 <= i < |c.args| ensures ExprNames(c.args[i]) !! hoisted {
      assert ExprNames(c.args[i]) <= c.reserved;
    }
  }

  /** If no planned name is kept by the body, the plan has exactly the effects of the call. */
  lemma PlannedReplacementIsExact(h: Helper, c: Site, world: World, s: Store)
    requires SiteOk(c) && NewNames(c) !! KeptNames(c) && HelperOver(h, c) && CallOk(h, c, world, s)
    ensures PlanExact(h, c, world, s)
  {
    hide Hoist, PlanRenaming, NoCapture, NewNames, HelperOk, DistinctTemps, ArgsAvoid, Temps, SameEffects, NoNaNFlips;
    var sc, temps := ScopingOf(c), Hoist(c.params, c.args, c.used, c.reserved).0;
    NoNameIsCaptured(c);
    ArgsMissTemps(c);
    PlanFacts(c.params, c.args, c.used, c.reserved, c.guarded, c.tops);
    StrictInliningIsExact(PlanOf(h, c.args, c.used, c.reserved), h, c.args, c.used, temps, sc, world, s);
  }

  // ---- a helper that shows a capture ----

  /** A statement without effects: it reads, or declares a name with a literal. */
  predicate Quiet(st: Stmt) {
    match st
    case Do(Atom(t)) => t.Var? || t.Lit?
    case Const(_, Atom(t)) => t.Lit?
    case _ => false
  }

  ghost predicate AllQuiet(stmts: seq<Stmt>) {
    forall i :: 0 <= i < |stmts| ==> Quiet(stmts[i])
  }

  lemma {:induction false} QuietRun(stmts: seq<Stmt>, world: World, inCaller: bool, s: Store)
    requires AllQuiet(stmts)
    ensures Exec(stmts, world, inCaller, s).trace == s.trace
    ensures Exec(stmts, world, inCaller, s).frame.Keys == s.frame.Keys + TopDeclared(stmts)
  {
    if stmts != [] {
      var st := stmts[0];
      assert Quiet(st);
      assert forall i :: 0 <= i < |stmts[1..]| ==> stmts[1..][i] == stmts[i + 1];
      QuietRun(stmts[1..], world, inCaller, ExecStmt(st, world, inCaller, s));
    }
  }

  lemma {:induction false} SubTops(stmts: seq<Stmt>, m: Renaming)
    ensures TopDeclared(SubStmts(stmts, m)) == set x | x in TopDeclared(stmts) :: TargetName(m, x)
  {
    if stmts != [] {
      SubTops(stmts[1..], m);
      assert SubStmts(stmts, m)[1..] == SubStmts(stmts[1..], m);
    }
  }

  lemma {:induction false} QuietStays(stmts: seq<Stmt>, m: Renaming)
    requires AllQuiet(stmts) && forall x :: x in m ==> m[x].Var? || m[x].Lit?
    ensures AllQuiet(SubStmts(stmts, m))
  {
    if stmts != [] {
      assert Quiet(stmts[0]);
      assert forall i :: 0 <= i < |stmts[1..]| ==> stmts[1..][i] == stmts[i + 1];
      QuietStays(stmts[1..], m);
      var rest := SubStmts(stmts[1..], m);
      assert SubStmts(stmts, m) == [SubStmt(stmts[0], m)] + rest;
      assert Quiet(SubStmt(stmts[0], m));
    }
  }

  /** Reads every used parameter. */
  function Reads(params: seq<string>, used: set<string>): seq<Stmt> {
    if params == [] then []
    else (if params[0] in used then [Do(Atom(Var(params[0])))] else []) + Reads(params[1..], used)
  }

  function Declares(tops: seq<string>): seq<Stmt> {
    if tops == [] then [] else [Const(tops[0], Atom(Lit(Undefined)))] + Declares(tops[1..])
  }

  /** `f(x)` */
  function Show(x: string): Stmt {
    Do(Atom(Call("f", Var(x))))
  }

  function Set(x: string, n: int): Stmt {
    Do(Atom(Assign(x, Lit(Num(n)))))
  }

  /** `x = 1; f(p); x = 2; f(p);` shows whether `x` and `p` are one. */
  function Probe(x: string, p: string): seq<Stmt> {
    [Set(x, 1), Show(p), Set(x, 2), Show(p)]
  }

  /** The last statement of the body: the probe, on a declaration of its own unless there is one at the top. */
  function ProbeBlock(x: string, p: string, declare: bool): Stmt {
    If(Atom(Lit(Bool(true))), (if declare then [Const(x, Atom(Lit(Undefined)))] else []) + Probe(x, p), [])
  }

  const NEVER: Expr<Term> := Atom(Lit(Bool(false)))

  /** Reads and declarations as asked for, and then the statements that show the capture. */
  function Witness(c: Site, end: seq<Stmt>): Helper {
    Helper(c.params, if c.guarded then [NEVER] else [], Reads(c.params, c.used) + Declares(c.tops) + end)
  }

  lemma {:induction false} ReadsAre(params: seq<string>, used: set<string>, bound: set<string>, sc: Scoping)
    requires used <= bound
    ensures AllQuiet(Reads(params, used)) && TopNames(Reads(params, used)) == [] && Declared(Reads(params, used)) == {}
    ensures StmtsNames(Reads(params, used)) == used * Elems(params)
    ensures StmtsOk(Reads(params, used), bound, sc)
  {
    if params != [] {
      ReadsAre(params[1..], used, bound, sc);
      var rest := Reads(params[1..], used);
      if params[0] in used {
        var read := Do(Atom(Var(params[0])));
        assert Reads(params, used) == [read] + rest;
        assert ([read] + rest)[1..] == rest;
        assert bound + DeclaredHere(read) == bound;
        assert TermOk(Var(params[0]), bound, sc);
        assert ExprNames(Atom(Var(params[0]))) == {params[0]};
      } else {
        assert Reads(params, used) == [] + rest == rest;
      }
    }
  }

  lemma {:induction false} DeclaresAre(tops: seq<string>, bound: set<string>, sc: Scoping)
    requires Distinct(tops) && Elems(tops) !! bound && Elems(tops) !! sc.free && Elems(tops) !! sc.fixed
    ensures AllQuiet(Declares(tops)) && TopNames(Declares(tops)) == tops && Declared(Declares(tops)) == Elems(tops)
    ensures StmtsNames(Declares(tops)) == Elems(tops)
    ensures StmtsOk(Declares(tops), bound, sc)
  {
    if tops != [] {
      var first, rest := Const(tops[0], Atom(Lit(Undefined))), Declares(tops[1..]);
      assert tops[0] !in tops[1..];
      DeclaresAre(tops[1..], bound + {tops[0]}, sc);
      assert Declares(tops) == [first] + rest && ([first] + rest)[1..] == rest;
      assert ExprNames(Atom(Lit(Undefined))) == {};
      assert ExprOk(Atom(Lit(Undefined)), bound, sc);
    }
  }

  // ---- joining statement lists ----

  lemma {:induction false} JoinedNames(a: seq<Stmt>, b: seq<Stmt>)
    ensures StmtsNames(a + b) == StmtsNames(a) + StmtsNames(b)
    ensures Declared(a + b) == Declared(a) + Declared(b)
  {
    hide StmtNames, DeclaredIn;
    if a == [] {
      assert a + b == b;
    } else {
      assert (a + b)[1..] == a[1..] + b && (a + b)[0] == a[0];
      JoinedNames(a[1..], b);
    }
  }

  lemma {:induction false} JoinedTops(a: seq<Stmt>, b: seq<Stmt>)
    ensures TopNames(a + b) == TopNames(a) + TopNames(b)
    ensures TopDeclared(a + b) == TopDeclared(a) + TopDeclared(b)
  {
    if a == [] {
      assert a + b == b && TopNames(a) + TopNames(b) == TopNames(b);
    } else {
      assert (a + b)[1..] == a[1..] + b && (a + b)[0] == a[0];
      JoinedTops(a[1..], b);
    }
  }

  lemma {:induction false} JoinedOk(a: seq<Stmt>, b: seq<Stmt>, bound: set<string>, sc: Scoping)
    requires StmtsOk(a, bound, sc) && StmtsOk(b, bound + TopDeclared(a), sc)
    ensures StmtsOk(a + b, bound, sc)
  {
    if a == [] {
      assert a + b == b && bound + TopDeclared(a) == bound;
    } else {
      assert (a + b)[1..] == a[1..] + b && (a + b)[0] == a[0];
      assert bound + TopDeclared(a) == bound + DeclaredHere(a[0]) + TopDeclared(a[1..]);
      JoinedOk(a[1..], b, bound + DeclaredHere(a[0]), sc);
    }
  }

  lemma {:induction false} JoinedSub(a: seq<Stmt>, b: seq<Stmt>, m: Renaming)
    ensures SubStmts(a + b, m) == SubStmts(a, m) + SubStmts(b, m)
  {
    if a == [] {
      assert a + b == b && SubStmts(a, m) + SubStmts(b, m) == SubStmts(b, m);
    } else {
      assert (a + b)[1..] == a[1..] + b && (a + b)[0] == a[0];
      JoinedSub(a[1..], b, m);
    }
  }

  // ---- the witness is a helper of the shape ----

  lemma WitnessOver(c: Site, end: seq<Stmt>)
    requires SiteOk(c) && TopNames(end) == [] && Declared(end) <= c.names
    requires StmtsNames(end) * Elems(c.params) <= c.used
    requires StmtsOk(end, c.used + Elems(c.tops), ScopingOf(c))
    ensures HelperOver(Witness(c, end), c)
  {
    hide PlanRenaming, StmtsOk, StmtsNames, Declared, TopNames, TopDeclared, Reads, Declares;
    var sc, h := ScopingOf(c), Witness(c, end);
    var first, second := Reads(c.params, c.used), Declares(c.tops);
    ReadsAre(c.params, c.used, c.used, sc);
    DeclaresAre(c.tops, c.used, sc);
    JoinedNames(first, second);
    JoinedTops(first, second);
    JoinedNames(first + second, end);
    JoinedTops(first + second, end);
    assert [] + c.tops == c.tops && c.tops + [] == c.tops;
    assert TopDeclared(first) == {};
    assert c.used + {} == c.used;
    JoinedOk(first, second, c.used, sc);
    assert TopDeclared(first + second) == Elems(c.tops);
    JoinedOk(first + second, end, c.used, sc);
    NeverIsOk(c.used, sc);
    assert c.used * Elems(c.params) == c.used;
    assert GuardNames(h.guards) == {};
    assert (StmtsNames(h.tail)) * Elems(c.params) == c.used;
    assert HelperOk(h, c.used, sc);
  }

  lemma NeverIsOk(bound: set<string>, sc: Scoping)
    ensures WellFormed(NEVER) && ExprOk(NEVER, bound, sc) && GuardNames([NEVER]) == {} && GuardNames([]) == {}
    ensures AnyFires([NEVER]) == NEVER
  {
    assert [NEVER][1..] == [];
  }

  lemma NeverFires(sub: Subst<Term>, world: World, inCaller: bool, s: Store)
    ensures Clean(AnyFires([NEVER]), Sem(world, inCaller), s) && Clean(MapExpr(AnyFires([NEVER]), Edits(map[])), Sem(world, inCaller), s)
    ensures RunGuards([NEVER], Identity, Sem(world, inCaller), s) == (false, s)
    ensures RunGuards([], Identity, Sem(world, inCaller), s) == (false, s)
  {
    assert [NEVER][1..] == [];
    assert Eval(MapExpr(NEVER, Identity), Sem(world, inCaller), s) == (Bool(false), s);
  }

  lemma NeverInverted(m: Renaming, tail: seq<Stmt>, world: World, s: Store)
    ensures ExecStmt(If(CombinedTree([NEVER], Edits(m)), tail, []), world, true, s) == ExitBlock(s, Exec(tail, world, true, s))
  {
    hide Exec;
    var tree := CombinedTree([NEVER], Edits(m));
    assert tree == Not(Paren(NEVER));
    assert Eval(NEVER, Sem(world, true), s) == (Bool(false), s);
    assert EvalExpr(tree, world, true, s) == (Bool(true), s);
  }

  // ---- and its runs are those of its end ----

  const EMPTY := Store(map[], map[], map[], [])

  /** Where the end of the body starts in the helper: in the frame there are parameters and declarations. */
  lemma HelperRun(c: Site, end: seq<Stmt>, world: World) returns (u: Store)
    requires SiteOk(c)
    ensures CallHelper(Witness(c, end), c.args, world, EMPTY).trace == Exec(end, world, false, u).trace
    ensures u.frame.Keys <= Elems(c.params) + Elems(c.tops)
  {
    hide Exec, Reads, Declares, EvalArgs, StmtsOk;
    var h := Witness(c, end);
    var quiet := Reads(c.params, c.used) + Declares(c.tops);
    var start := BodyStart(h, c.args, world, EMPTY);
    WitnessIsQuiet(c);
    NeverFires(Identity, world, false, start);
    ArgCount(c.args, world, EMPTY);
    if c.params != [] {
      BindFinds(c.params, EvalArgs(c.args, world, EMPTY).0, 0);
    }
    assert start.frame.Keys <= Elems(c.params);
    QuietRun(quiet, world, false, start);
    ExecConcat(quiet, end, world, false, start);
    u := Exec(quiet, world, false, start);
  }

  lemma {:induction false} ArgCount(args: seq<Expr<Term>>, world: World, s: Store)
    ensures |EvalArgs(args, world, s).0| == |args|
  {
    if args != [] {
      ArgCount(args[1..], world, EvalExpr(args[0], world, true, s).1);
    }
  }

  lemma WitnessIsQuiet(c: Site)
    requires SiteOk(c)
    ensures AllQuiet(Reads(c.params, c.used) + Declares(c.tops))
    ensures TopDeclared(Reads(c.params, c.used) + Declares(c.tops)) == Elems(c.tops)
    ensures TopNames(Reads(c.params, c.used) + Declares(c.tops)) == c.tops
  {
    var sc := Scoping(map[], {}, {}, {});
    ReadsAre(c.params, c.used, c.used, sc);
    DeclaresAre(c.tops, {}, sc);
    JoinedTops(Reads(c.params, c.used), Declares(c.tops));
    assert [] + c.tops == c.tops;
  }

  /** Where it starts in the plan: every new name is in the frame. */
  lemma PlanRun(c: Site, end: seq<Stmt>, world: World) returns (u: Store)
    requires SiteOk(c) && TopNames(end) == []
    ensures Exec(Statements(PlanOf(Witness(c, end), c.args, c.used, c.reserved)), world, true, EMPTY).trace
         == Exec(SubStmts(end, Renamed(c)), world, true, u).trace
    ensures NewNames(c) <= u.frame.Keys
  {
    hide Exec, Reads, Declares, Hoist, PlanRenaming, EvalArgs, Prefix, CombinedTree, CombineGuards;
    var h, m := Witness(c, end), Renamed(c);
    var r := PlanOf(h, c.args, c.used, c.reserved);
    var quiet := Reads(c.params, c.used) + Declares(c.tops);
    var before := Exec(r.prefix, world, true, EMPTY);
    WitnessIsQuiet(c);
    JoinedTops(quiet, end);
    assert c.tops + [] == c.tops;
    assert HelperRenaming(h, c.args, c.used, c.reserved) == m;
    PlanFacts(c.params, c.args, c.used, c.reserved, c.guarded, c.tops);
    QuietStays(quiet, m);
    SubTops(quiet, m);
    QuietRun(SubStmts(quiet, m), world, true, before);
    JoinedSub(quiet, end, m);
    ExecConcat(SubStmts(quiet, m), SubStmts(end, m), world, true, before);
    u := Exec(SubStmts(quiet, m), world, true, before);
    NewNamesAreBound(c, world, before);
    ExecConcat(r.prefix, if c.guarded then [If(CombinedTree(h.guards, Edits(m)), r.tail, [])] else r.tail, world, true, EMPTY);
    if c.guarded {
      NeverIsOk({}, Scoping(map[], {}, {}, {}));
      CombinedTextParses(h.guards, Edits(m));
      var wrapper := If(CombinedTree(h.guards, Edits(m)), r.tail, []);
      SingleStatement(wrapper, world, true, before);
      NeverInverted(m, r.tail, world, before);
    }
  }

  lemma SingleStatement(st: Stmt, world: World, inCaller: bool, s: Store)
    ensures Exec([st], world, inCaller, s) == ExecStmt(st, world, inCaller, s)
  {
    hide ExecStmt;
    assert [st][1..] == [];
  }

  /** The prefix has the temporaries in the frame; what else is new comes with a declaration at the top. */
  lemma NewNamesAreBound(c: Site, world: World, before: Store)
    requires SiteOk(c)
    requires before == Exec(Prefix(c.params, c.args, c.used, Hoist(c.params, c.args, c.used, c.reserved).0), world, true, EMPTY)
    ensures forall n :: n in NewNames(c) ==>
      n in before.frame || exists x :: x in Elems(c.tops) && TargetName(Renamed(c), x) == n
  {
    hide Exec, Hoist, PlanRenaming, EvalArgs, Prefix;
    var m, temps := Renamed(c), Hoist(c.params, c.args, c.used, c.reserved).0;
    PlanFacts(c.params, c.args, c.used, c.reserved, c.guarded, c.tops);
    ArgsMissTemps(c);
    assert EMPTY.frame.Keys == {};
    PrefixEvaluatesArgs(c.params, c.args, c.used, temps, world, EMPTY, EMPTY);
    forall n | n in NewNames(c) ensures n in before.frame || exists x :: x in Elems(c.tops) && TargetName(m, x) == n {
      var x :| x in m && m[x].Var? && m[x].x == n;
      if x in c.used {
        assert x in Elems(c.params);
        var i :| 0 <= i < |c.params| && c.params[i] == x;
        assert m[x] == ParamTarget(i, c.args, temps);
      } else {
        assert x in Elems(c.tops) && TargetName(m, x) == n;
      }
    }
  }

  // ---- what the end shows ----

  /** Nothing outside changes. */
  function Still(): World {
    (e: Event, s: Store) => (Undefined, s.globals, s.locals)
  }

  /** Every call changes the module binding `x` to something other than the argument. */
  function Changing(x: string): World {
    (e: Event, s: Store) => (Undefined, s.globals[x := Other(e.arg)], s.locals)
  }

  function Other(v: Value): (w: Value)
    ensures w != v
  {
    if v == Num(1) then Num(2) else Num(1)
  }

  /** What two calls add to the trace. */
  ghost predicate ShowsTwo(s: Store, u: Store, a: Value, b: Value) {
    u.trace == s.trace + [Event("f", a), Event("f", b)]
  }

  lemma ShownValues(s: Store, s': Store, u: Store, u': Store, a: Value, b: Value, a': Value, b': Value)
    requires ShowsTwo(s, u, a, b) && ShowsTwo(s', u', a', b') && u.trace == u'.trace
    ensures a == a' && b == b'
  {
    var n := |u.trace|;
    assert u.trace[n - 2] == Event("f", a) && u'.trace[n - 2] == Event("f", a');
    assert u.trace[n - 1] == Event("f", b) && u'.trace[n - 1] == Event("f", b');
  }

  lemma ShowRun(x: string, world: World, inCaller: bool, s: Store)
    ensures ExecStmt(Show(x), world, inCaller, s) == CallEffect(world, Event("f", Lookup(x, inCaller, s)), s).1
  {
    assert EvalTerm(Var(x), world, inCaller, s) == (Lookup(x, inCaller, s), s);
    assert EvalExpr(Atom(Call("f", Var(x))), world, inCaller, s) == CallEffect(world, Event("f", Lookup(x, inCaller, s)), s);
  }

  lemma SetRun(x: string, n: int, world: World, inCaller: bool, s: Store)
    ensures ExecStmt(Set(x, n), world, inCaller, s) == Write(x, Num(n), inCaller, s)
    ensures Lookup(x, inCaller, Write(x, Num(n), inCaller, s)) == Num(n)
  {
    assert EvalTerm(Lit(Num(n)), world, inCaller, s) == (Num(n), s);
    assert EvalExpr(Atom(Assign(x, Lit(Num(n)))), world, inCaller, s) == (Num(n), Write(x, Num(n), inCaller, s));
  }

  lemma StillShow(x: string, inCaller: bool, s: Store)
    ensures ExecStmt(Show(x), Still(), inCaller, s) == s.(trace := s.trace + [Event("f", Lookup(x, inCaller, s))])
  {
    ShowRun(x, Still(), inCaller, s);
  }

  /** `x` and `p` are one: two values. They are not: the same value twice. */
  lemma ProbeRun(x: string, p: string, inCaller: bool, s: Store) returns (a: Value, b: Value)
    ensures ShowsTwo(s, Exec(Probe(x, p), Still(), inCaller, s), a, b)
    ensures x == p ==> a == Num(1) && b == Num(2)
    ensures x != p ==> a == b
  {
    hide ExecStmt, Still;
    var s1 := Write(x, Num(1), inCaller, s);
    a := Lookup(p, inCaller, s1);
    var s2 := s1.(trace := s1.trace + [Event("f", a)]);
    var s3 := Write(x, Num(2), inCaller, s2);
    b := Lookup(p, inCaller, s3);
    var s4 := s3.(trace := s3.trace + [Event("f", b)]);
    SetRun(x, 1, Still(), inCaller, s);
    StillShow(p, inCaller, s1);
    SetRun(x, 2, Still(), inCaller, s2);
    StillShow(p, inCaller, s3);
    var probe := Probe(x, p);
    assert probe[1..] == [Show(p), Set(x, 2), Show(p)] && probe[1..][1..] == [Set(x, 2), Show(p)];
    assert probe[1..][1..][1..] == [Show(p)] && [Show(p)][1..] == [];
    assert Exec([Show(p)], Still(), inCaller, s3) == s4;
    assert Exec([Set(x, 2), Show(p)], Still(), inCaller, s2) == s4;
    assert Exec([Show(p), Set(x, 2), Show(p)], Still(), inCaller, s1) == s4;
    assert Exec(probe, Still(), inCaller, s) == s4;
    assert s4.trace == s.trace + [Event("f", a), Event("f", b)];
  }

  lemma ProbeBlockRun(x: string, p: string, declare: bool, inCaller: bool, s: Store) returns (a: Value, b: Value)
    ensures ShowsTwo(s, Exec([ProbeBlock(x, p, declare)], Still(), inCaller, s), a, b)
    ensures x == p ==> a == Num(1) && b == Num(2)
    ensures x != p ==> a == b
  {
    hide Exec, Still, Probe;
    var first := if declare then [Const(x, Atom(Lit(Undefined)))] else [];
    var block := ProbeBlock(x, p, declare);
    SingleStatement(block, Still(), inCaller, s);
    ExecConcat(first, Probe(x, p), Still(), inCaller, s);
    var t := Exec(first, Still(), inCaller, s);
    assert AllQuiet(first);
    QuietRun(first, Still(), inCaller, s);
    a, b := ProbeRun(x, p, inCaller, t);
    assert EvalExpr(Atom(Lit(Bool(true))), Still(), inCaller, s) == (Bool(true), s);
  }

  /** A name bound in the frame keeps its value, a module binding does not. */
  lemma ShowTwiceRun(x: string, inCaller: bool, s: Store) returns (a: Value, b: Value)
    ensures ShowsTwo(s, Exec([Show(x), Show(x)], Changing(x), inCaller, s), a, b)
    ensures x in s.frame ==> a == b
    ensures x !in s.frame && !inCaller ==> a != b
  {
    hide ExecStmt;
    a := Lookup(x, inCaller, s);
    var s1 := CallEffect(Changing(x), Event("f", a), s).1;
    b := Lookup(x, inCaller, s1);
    var s2 := CallEffect(Changing(x), Event("f", b), s1).1;
    assert s1.globals == s.globals[x := Other(a)] && s1.frame == s.frame;
    ShowRun(x, Changing(x), inCaller, s);
    ShowRun(x, Changing(x), inCaller, s1);
    assert [Show(x), Show(x)][1..] == [Show(x)] && [Show(x)][1..] == [];
    assert Exec([Show(x)], Changing(x), inCaller, s1) == s2;
    assert s2.trace == s.trace + [Event("f", a), Event("f", b)];
  }

  // ---- a kept name among the new ones means a difference ----

  /** The new name is a module binding of the body. */
  lemma CapturedFreeName(c: Site, t: string) returns (h: Helper, world: World, s: Store)
    requires SiteOk(c) && t in NewNames(c) && t in c.free
    ensures HelperOver(h, c) && CallOk(h, c, world, s) && !PlanExact(h, c, world, s)
  {
    hide Exec, PlanRenaming, Reads, Declares, EvalArgs, Statements, PlanOf, HelperOk, CallHelper, Changing;
    var end, m := [Show(t), Show(t)], Renamed(c);
    h, world, s := Witness(c, end), Changing(t), EMPTY;
    PlanFacts(c.params, c.args, c.used, c.reserved, c.guarded, c.tops);
    FreeEndIsOk(c, t);
    WitnessOver(c, end);
    var u := HelperRun(c, end, world);
    var v := PlanRun(c, end, world);
    assert SubStmts(end, m) == end;
    var a, b := ShowTwiceRun(t, false, u);
    var a', b' := ShowTwiceRun(t, true, v);
    if PlanExact(h, c, world, s) {
      ShownValues(u, v, Exec(end, world, false, u), Exec(end, world, true, v), a, b, a', b');
    }
    WitnessIsClean(c, end, world);
  }

  lemma WitnessIsClean(c: Site, end: seq<Stmt>, world: World)
    requires SiteOk(c)
    ensures CallOk(Witness(c, end), c, world, EMPTY)
  {
    hide BodyStart, EvalArgs;
    NeverFires(Identity, world, false, BodyStart(Witness(c, end), c.args, world, EMPTY));
  }

  lemma FreeEndIsOk(c: Site, t: string)
    requires SiteOk(c) && t in c.free
    ensures var end := [Show(t), Show(t)];
      && TopNames(end) == [] && Declared(end) <= c.names && StmtsNames(end) == {t}
      && StmtsOk(end, c.used + Elems(c.tops), ScopingOf(c))
      && SubStmts(end, Renamed(c)) == end
  {
    hide PlanRenaming, TermOk, TermNames, SubTerm;
    PlanFacts(c.params, c.args, c.used, c.reserved, c.guarded, c.tops);
    var bound, sc := c.used + Elems(c.tops), ScopingOf(c);
    assert t !in Renamed(c);
    ShowIs(t, bound, sc, Renamed(c));
    TwiceIs(Show(t), bound, sc, Renamed(c));
    assert TargetName(Renamed(c), t) == t;
  }

  /** What holds of a statement that declares nothing holds of it in front of others. */
  lemma InFront(st: Stmt, rest: seq<Stmt>, bound: set<string>, sc: Scoping, m: Renaming)
    requires st.Do? && StmtOk(st, bound, sc) && StmtsOk(rest, bound, sc)
    ensures var all := [st] + rest;
      && StmtsNames(all) == StmtNames(st) + StmtsNames(rest) && StmtsOk(all, bound, sc)
      && SubStmts(all, m) == [SubStmt(st, m)] + SubStmts(rest, m) && TopNames(all) == TopNames(rest)
  {
    hide StmtOk, SubStmt, StmtNames;
    var all := [st] + rest;
    assert all[0] == st && all[1..] == rest && bound + DeclaredHere(st) == bound;
    assert [] + TopNames(rest) == TopNames(rest);
  }

  lemma TwiceIs(st: Stmt, bound: set<string>, sc: Scoping, m: Renaming)
    requires st.Do? && StmtOk(st, bound, sc)
    ensures var twice := [st, st];
      && StmtsNames(twice) == StmtNames(st) && StmtsOk(twice, bound, sc)
      && SubStmts(twice, m) == [SubStmt(st, m), SubStmt(st, m)]
      && TopNames(twice) == [] && Declared(twice) == {}
  {
    hide StmtOk, SubStmt, StmtNames, Declared;
    var nothing: seq<Stmt> := [];
    assert StmtsOk(nothing, bound, sc) && StmtsNames(nothing) == {} && SubStmts(nothing, m) == [] && TopNames(nothing) == [];
    InFront(st, nothing, bound, sc, m);
    assert [st] + nothing == [st] && [st] + [st] == [st, st];
    InFront(st, [st], bound, sc, m);
    DeclaresNothing(st, [st, st]);
  }

  lemma {:induction false} DeclaresNothing(st: Stmt, stmts: seq<Stmt>)
    requires st.Do? && forall i :: 0 <= i < |stmts| ==> stmts[i] == st
    ensures Declared(stmts) == {}
  {
    if stmts != [] {
      DeclaresNothing(st, stmts[1..]);
    }
  }

  lemma ShowIs(x: string, bound: set<string>, sc: Scoping, m: Renaming)
    requires x in bound || x in sc.free
    requires x in m ==> m[x].Var?
    ensures StmtOk(Show(x), bound, sc) && StmtNames(Show(x)) == {x}
    ensures SubStmt(Show(x), m) == Show(TargetName(m, x))
  {
    assert TermOk(Var(x), bound, sc) && TermNames(Var(x)) == {x} && SubTerm(Var(x), m) == Var(TargetName(m, x));
    assert TermOk(Call("f", Var(x)), bound, sc) && TermNames(Call("f", Var(x))) == {x};
    assert SubTerm(Call("f", Var(x)), m) == Call("f", Var(TargetName(m, x)));
  }

  lemma SetIs(x: string, n: int, bound: set<string>, sc: Scoping, m: Renaming)
    requires x in bound && x !in sc.fixed && x !in m
    ensures StmtOk(Set(x, n), bound, sc) && StmtNames(Set(x, n)) == {x} && SubStmt(Set(x, n), m) == Set(x, n)
  {
    var value := Lit(Num(n));
    assert TermOk(value, bound, sc) && TermNames(value) == {} && SubTerm(value, m) == value;
    assert TermOk(Assign(x, value), bound, sc) && TermNames(Assign(x, value)) == {x};
    assert SubTerm(Assign(x, value), m) == Assign(x, value);
  }

  /** The new name is a declaration of the body that keeps its name. */
  lemma CapturedLocal(c: Site, p: string, t: string) returns (h: Helper, world: World, s: Store)
    requires SiteOk(c) && p in Renamed(c) && Renamed(c)[p] == Var(t) && t in c.names && t !in Renamed(c)
    ensures HelperOver(h, c) && CallOk(h, c, world, s) && !PlanExact(h, c, world, s)
  {
    hide Exec, PlanRenaming, Reads, Declares, EvalArgs, Statements, PlanOf, HelperOk, CallHelper, Still, Probe;
    var declare := t !in c.tops;
    var end, m := [ProbeBlock(t, p, declare)], Renamed(c);
    h, world, s := Witness(c, end), Still(), EMPTY;
    LocalEndIsOk(c, p, t);
    WitnessOver(c, end);
    var u := HelperRun(c, end, world);
    var v := PlanRun(c, end, world);
    var renamed := [ProbeBlock(t, t, declare)];
    var a, b := ProbeBlockRun(t, p, declare, false, u);
    var a', b' := ProbeBlockRun(t, t, declare, true, v);
    if PlanExact(h, c, world, s) {
      ShownValues(u, v, Exec(end, world, false, u), Exec(renamed, world, true, v), a, b, a', b');
    }
    WitnessIsClean(c, end, world);
  }

  lemma LocalEndIsOk(c: Site, p: string, t: string)
    requires SiteOk(c) && p in Renamed(c) && Renamed(c)[p] == Var(t) && t in c.names && t !in Renamed(c)
    ensures var end := [ProbeBlock(t, p, t !in c.tops)];
      && TopNames(end) == [] && Declared(end) <= c.names && StmtsNames(end) <= {p, t}
      && StmtsOk(end, c.used + Elems(c.tops), ScopingOf(c))
      && SubStmts(end, Renamed(c)) == [ProbeBlock(t, t, t !in c.tops)]
    ensures p in c.used || p in c.names
  {
    hide PlanRenaming;
    PlanFacts(c.params, c.args, c.used, c.reserved, c.guarded, c.tops);
    var bound, sc, m := c.used + Elems(c.tops), ScopingOf(c), Renamed(c);
    var first := if t !in c.tops then [Const(t, Atom(Lit(Undefined)))] else [];
    ProbeIs(t, p, bound + {t}, sc, m);
    assert SubStmts(first, m) == first && bound + TopDeclared(first) == bound + {t};
    assert AllQuiet(first);
    assert StmtsOk(first, bound, sc) && StmtsNames(first) <= {t} && Declared(first) <= {t};
    JoinedOk(first, Probe(t, p), bound, sc);
    JoinedNames(first, Probe(t, p));
    JoinedSub(first, Probe(t, p), m);
    hide Probe, Declared, StmtsNames, SubStmts, StmtsOk;
    BlockIs(first + Probe(t, p), bound, sc, m);
  }

  lemma ProbeIs(t: string, p: string, bound: set<string>, sc: Scoping, m: Renaming)
    requires t in bound && p in bound && t !in sc.fixed && p in m && m[p] == Var(t) && t !in m
    ensures StmtsOk(Probe(t, p), bound, sc) && StmtsNames(Probe(t, p)) <= {p, t} && Declared(Probe(t, p)) == {}
    ensures SubStmts(Probe(t, p), m) == Probe(t, t)
  {
    hide StmtOk, StmtNames, SubStmt;
    SetIs(t, 1, bound, sc, m);
    SetIs(t, 2, bound, sc, m);
    ShowIs(p, bound, sc, m);
    var four := Probe(t, p);
    var three, two, one := [Show(p), Set(t, 2), Show(p)], [Set(t, 2), Show(p)], [Show(p)];
    assert four[1..] == three && three[1..] == two && two[1..] == one && one[1..] == [];
    assert bound + {} == bound;
    assert StmtsOk(one, bound, sc) && StmtsNames(one) == {p} && Declared(one) == {} && SubStmts(one, m) == [Show(t)];
    assert StmtsOk(two, bound, sc) && StmtsNames(two) <= {p, t} && Declared(two) == {};
    assert SubStmts(two, m) == [Set(t, 2), Show(t)];
    assert StmtsOk(three, bound, sc) && StmtsNames(three) <= {p, t} && Declared(three) == {};
    assert SubStmts(three, m) == [Show(t), Set(t, 2), Show(t)];
  }

  lemma BlockIs(thn: seq<Stmt>, bound: set<string>, sc: Scoping, m: Renaming)
    requires StmtsOk(thn, bound, sc)
    ensures var block := [If(Atom(Lit(Bool(true))), thn, [])];
      && StmtsOk(block, bound, sc) && TopNames(block) == [] && Declared(block) == Declared(thn)
      && StmtsNames(block) == StmtsNames(thn)
      && SubStmts(block, m) == [If(Atom(Lit(Bool(true))), SubStmts(thn, m), [])]
  {
    var st := If(Atom(Lit(Bool(true))), thn, []);
    assert [st][1..] == [];
    assert ExprOk(Atom(Lit(Bool(true))), bound, sc) && ExprNames(Atom(Lit(Bool(true)))) == {};
    assert StmtsOk([], bound, sc) && StmtsNames([]) == {} && Declared([]) == {} && SubStmts([], m) == [];
    assert StmtOk(st, bound, sc) && StmtNames(st) == StmtsNames(thn) && DeclaredIn(st) == Declared(thn);
    assert bound + DeclaredHere(st) == bound;
  }

  /**
   The exact condition, which can be checked before the call: the plan has the
   effects of the call, for every helper of the shape over the names, every
   world and every store, if and only if no planned name is one the body keeps.
   */
  lemma PlanIsExactIff(c: Site)
    requires SiteOk(c)
    ensures (forall h, world, s :: HelperOver(h, c) && CallOk(h, c, world, s) ==> PlanExact(h, c, world, s))
       <==> NewNames(c) !! KeptNames(c)
  {
    hide HelperOk, CallOk, PlanRenaming, SameEffects;
    if NewNames(c) !! KeptNames(c) {
      forall h, world, s | HelperOver(h, c) && CallOk(h, c, world, s) ensures PlanExact(h, c, world, s) {
        PlannedReplacementIsExact(h, c, world, s);
      }
    } else {
      var t :| t in NewNames(c) && t in KeptNames(c);
      if t in c.free {
        var h, world, s := CapturedFreeName(c, t);
      } else {
        var p :| p in Renamed(c) && Renamed(c)[p].Var? && Renamed(c)[p].x == t;
        var h, world, s := CapturedLocal(c, p, t);
      }
    }
  }

  // ---- one such call ----

  /** `x === g(name)`. */
  function ComparesWithG(x: string, name: string): Stmt {
    Do(Bin(StrictEq, Atom(Var(x)), Atom(Call("g", Var(name)))))
  }

  /** The helper `function h(x) { x === g(__inl_x); }`, where `__inl_x` is a module binding. */
  const CAPTURING := Helper(["x"], [], [ComparesWithG("x", "__inl_x")])

  lemma GSees(world: World, x: string, name: string, inCaller: bool, s: Store)
    ensures ExecStmt(ComparesWithG(x, name), world, inCaller, s)
      == CallEffect(world, Event("g", Lookup(name, inCaller, s)), s).1
  {
    var call: Expr<Term> := Atom(Call("g", Var(name)));
    assert EvalTerm(Var(name), world, inCaller, s) == (Lookup(name, inCaller, s), s);
    assert EvalExpr(Atom(Var(x)), world, inCaller, s).1 == s;
    assert EvalExpr(call, world, inCaller, s) == CallEffect(world, Event("g", Lookup(name, inCaller, s)), s);
  }

  lemma CapturingPlan(args: seq<Expr<Term>>)
    requires args == [Atom(Lit(Num(1)))]
    ensures HelperRenaming(CAPTURING, args, {"x"}, {"h"}) == map["x" := Var("__inl_x")]
    ensures Hoist(["x"], args, {"x"}, {"h"}).0 == ["__inl_x"]
  {
    hide FreshOf, LocalRenaming;
    assert "__inl_" + "x" == "__inl_x";
    assert "__inl_x"[0] != "h"[0];
    assert FreshOf("__inl_x", {"h"}) == "__inl_x" by {
      FreshBase("__inl_x", {"h"});
    }
    assert Hoist([], [], {"x"}, {"h"} + {"__inl_x"}) == ([], {"h"} + {"__inl_x"});
    assert ["x"][1..] == [] && args[1..] == [] && ["__inl_x"] + [] == ["__inl_x"];
    assert Hoist(["x"], args, {"x"}, {"h"}) == (["__inl_x"], {"h"} + {"__inl_x"});
    assert TopNames(CAPTURING.tail) == [];
    NothingRenamed(ParamRenaming(["x"], args, {"x"}, ["__inl_x"]), {"h"} + {"__inl_x"});
    assert ParamTarget(0, args, ["__inl_x"]) == Var("__inl_x");
    RenamingIs(["x"], args, {"x"}, ["__inl_x"], map["x" := Var("__inl_x")]);
  }

  lemma FreshBase(base: string, taken: set<string>)
    requires base !in taken
    ensures FreshOf(base, taken) == base
  {
  }

  lemma NothingRenamed(m: Renaming, taken: set<string>)
    ensures LocalRenaming([], m, taken) == m
  {
  }

  /**
   A body that uses a module binding named like the temporary: the planner
   takes the name (the block of the call, `h(1)`, does not mention that
   binding), the temporary captures it, and the effects differ.
   */
  lemma TemporaryCapturesBodyName()
    ensures var args := [Atom(Lit(Num(1)))];
      var r := PlanOf(CAPTURING, args, {"x"}, {"h"});
      var s := Store(map["__inl_x" := Num(2)], map[], map[], []);
      && r.prefix == [Const("__inl_x", args[0])] && r.tail == [ComparesWithG("__inl_x", "__inl_x")]
      && !SameEffects(CallHelper(CAPTURING, args, Still(), s), Exec(Statements(r), Still(), true, s))
  {
    hide HelperRenaming, Hoist;
    var args := [Atom(Lit(Num(1)))];
    var m: Renaming := map["x" := Var("__inl_x")];
    CapturingPlan(args);
    var body, inlined, first := ComparesWithG("x", "__inl_x"), ComparesWithG("__inl_x", "__inl_x"), Const("__inl_x", args[0]);
    var r := PlanOf(CAPTURING, args, {"x"}, {"h"});
    var s := Store(map["__inl_x" := Num(2)], map[], map[], []);
    assert r.prefix == [first];
    assert SubStmts([body], m) == [inlined];
    assert Statements(r) == [first, inlined];
    PrefixEvaluatesArgs(["x"], args, {"x"}, ["__inl_x"], Still(), s, s);
    BindFinds(["x"], EvalArgs(args, Still(), s).0, 0);
    var start := BodyStart(CAPTURING, args, Still(), s);
    assert EvalExpr(args[0], Still(), true, s) == (Num(1), s);
    GSees(Still(), "x", "__inl_x", false, start);
    SingleStatement(body, Still(), false, start);
    var c := ExecStmt(first, Still(), true, s);
    GSees(Still(), "__inl_x", "__inl_x", true, c);
    SingleStatement(inlined, Still(), true, c);
    assert Exec([first, inlined], Still(), true, s) == Exec([inlined], Still(), true, c);
    assert Exec([body], Still(), false, start).trace[0] == Event("g", Num(2));
    assert Exec([inlined], Still(), true, c).trace[0] == Event("g", Num(1));
  }

  // ---- what the plan leaves in the block of the call ----

  lemma {:induction false} TermKeys(t: Term, world: World, inCaller: bool, s: Store)
    ensures EvalTerm(t, world, inCaller, s).1.frame.Keys == s.frame.Keys
  {
    match t
    case Var(_) =>
    case Lit(_) =>
    case Call(_, a) => TermKeys(a, world, inCaller, s);
    case Assign(_, a) => TermKeys(a, world, inCaller, s);
  }

  lemma {:induction false} ExprKeys(e: Expr<Term>, world: World, inCaller: bool, s: Store)
    ensures EvalExpr(e, world, inCaller, s).1.frame.Keys == s.frame.Keys
  {
    match e
    case Atom(t) => TermKeys(t, world, inCaller, s);
    case Paren(x) => ExprKeys(x, world, inCaller, s);
    case Not(x) => ExprKeys(x, world, inCaller, s);
    case Bin(_, l, r) =>
      ExprKeys(l, world, inCaller, s);
      ExprKeys(r, world, inCaller, EvalExpr(l, world, inCaller, s).1);
  }

  lemma {:induction false} StmtKeys(st: Stmt, world: World, inCaller: bool, s: Store)
    ensures ExecStmt(st, world, inCaller, s).frame.Keys == s.frame.Keys + DeclaredHere(st)
  {
    match st
    case Do(e) => ExprKeys(e, world, inCaller, s);
    case Const(_, e) => ExprKeys(e, world, inCaller, s);
    case If(e, thn, els) =>
      ExprKeys(e, world, inCaller, s);
      var u := EvalExpr(e, world, inCaller, s).1;
      ExecKeys(thn, world, inCaller, u);
      ExecKeys(els, world, inCaller, u);
  }

  /** Statements add to a frame what they declare at their top. */
  lemma {:induction false} ExecKeys(stmts: seq<Stmt>, world: World, inCaller: bool, s: Store)
    ensures Exec(stmts, world, inCaller, s).frame.Keys == s.frame.Keys + TopDeclared(stmts)
  {
    if stmts != [] {
      StmtKeys(stmts[0], world, inCaller, s);
      ExecKeys(stmts[1..], world, inCaller, ExecStmt(stmts[0], world, inCaller, s));
    }
  }

  lemma {:induction false} PrefixTops(params: seq<string>, args: seq<Expr<Term>>, used: set<string>, temps: seq<string>)
    requires |args| <= |params| == |temps|
    ensures TopDeclared(Prefix(params, args, used, temps)) <= Temps(params, args, used, temps)
  {
    if args != [] {
      var head, rest := Hoisted(params[0], args[0], used, temps[0]), Prefix(params[1..], args[1..], used, temps[1..]);
      PrefixTops(params[1..], args[1..], used, temps[1..]);
      JoinedTops(head, rest);
      var inner := Temps(params[1..], args[1..], used, temps[1..]);
      forall x | x in inner ensures x in Temps(params, args, used, temps) {
        var i :| 0 <= i < |temps[1..]| && IsHoisted(i, params[1..], args[1..], used) && temps[1..][i] == x;
        assert IsHoisted(i + 1, params, args, used) && temps[i + 1] == x;
      }
      if params[0] in used {
        assert IsHoisted(0, params, args, used);
        assert head == [Const(temps[0], args[0])] && head[1..] == [];
      }
      assert TopDeclared(head) <= {temps[0]};
    }
  }

  /** Nothing the plan declares in the block of the call meets a name that was live there. */
  lemma PlanKeepsLiveNames(h: Helper, c: Site, world: World, s: Store)
    requires SiteOk(c) && HelperOver(h, c) && s.frame == map[]
    ensures Exec(Statements(PlanOf(h, c.args, c.used, c.reserved)), world, true, s).frame.Keys !! c.reserved
  {
    hide *;
    PlanShape(h, c);
    var r, m, temps := PlanOf(h, c.args, c.used, c.reserved), Renamed(c), Hoist(c.params, c.args, c.used, c.reserved).0;
    ArgsMissTemps(c);
    PrefixTops(c.params, c.args, c.used, temps);
    ExecKeys(Statements(r), world, true, s);
    var rest := if c.guarded then [If(CombinedTree(h.guards, Edits(m)), r.tail, [])] else r.tail;
    JoinedTops(r.prefix, rest);
    TailTops(h, c);
  }

  lemma PlanShape(h: Helper, c: Site)
    requires SiteOk(c) && HelperOver(h, c)
    ensures var r := PlanOf(h, c.args, c.used, c.reserved);
      var rest := if h.guards != [] then [If(CombinedTree(h.guards, Edits(Renamed(c))), r.tail, [])] else r.tail;
      && Statements(r) == r.prefix + rest && r.tail == SubStmts(h.tail, Renamed(c)) && (h.guards != [] <==> c.guarded)
      && r.prefix == Prefix(c.params, c.args, c.used, Hoist(c.params, c.args, c.used, c.reserved).0)
      && h.params == c.params && Distinct(c.params) && |c.args| <= |c.params|
  {
    hide Hoist, PlanRenaming, CombineGuards, CombinedTree, Prefix, SubStmts, StmtsOk, ExprOk;
    if h.guards != [] {
      CombinedTextParses(h.guards, Edits(Renamed(c)));
    }
  }

  lemma TailTops(h: Helper, c: Site)
    requires SiteOk(c) && HelperOver(h, c)
    ensures !c.guarded ==> TopDeclared(SubStmts(h.tail, Renamed(c))) !! c.reserved
    ensures forall e, tail {:trigger If(e, tail, [])} :: TopDeclared([If(e, tail, [])]) == {}
  {
    hide Hoist, PlanRenaming, SubStmts, StmtsOk, TopNames;
    var m := Renamed(c);
    PlanFacts(c.params, c.args, c.used, c.reserved, c.guarded, c.tops);
    SubTops(h.tail, m);
    if !c.guarded {
      forall x | x in TopDeclared(h.tail) ensures TargetName(m, x) !in c.reserved {
        assert x in Elems(c.tops);
      }
    }
    forall e, tail ensures TopDeclared([If(e, tail, [])]) == {} {
      assert [If(e, tail, [])][1..] == [];
    }
  }
}
