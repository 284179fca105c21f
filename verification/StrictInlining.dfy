/**
 Inlining a helper call with `--strict-effects`: the semantics of the call, the
 semantics of the replacement, and their equality.
 */
module StrictInlining {
  import opened Wrappers
  import opened ConditionSyntax
  import opened GuardInversion
  import opened GuardSemantics

  // ---- a small effectful language ----

  /** Leaves of expressions: variables, literals, effectful calls and assignments. */
  datatype Term = Var(x: string) | Lit(v: Value) | Call(f: string, arg: Term) | Assign(x: string, rhs: Term)

  datatype Stmt =
    | Do(e: Expr<Term>)
    | Const(x: string, e: Expr<Term>)
    | If(cond: Expr<Term>, thn: seq<Stmt>, els: seq<Stmt>)

  datatype Event = Event(f: string, arg: Value)

  /**
   Module bindings, bindings of the calling function, and the innermost frame:
   parameters and local declarations of a helper, or the temporaries and local
   declarations of its replacement. `trace` lists the calls made so far.
   */
  datatype Store = Store(
    globals: map<string, Value>,
    locals: map<string, Value>,
    frame: map<string, Value>,
    trace: seq<Event>)

  /** What a call returns and how it changes the bindings it can see. */
  type World = (Event, Store) -> (Value, map<string, Value>, map<string, Value>)

  function CallEffect(world: World, event: Event, s: Store): (Value, Store) {
    var (v, globals, locals) := world(event, s.(frame := map[]));
    (v, Store(globals, map x | x in s.locals :: if x in locals then locals[x] else s.locals[x], s.frame, s.trace + [event]))
  }

  /** `inCaller`: the scope chain passes through the bindings of the calling function. */
  function Lookup(x: string, inCaller: bool, s: Store): Value {
    if x in s.frame then s.frame[x]
    else if inCaller && x in s.locals then s.locals[x]
    else if x in s.globals then s.globals[x]
    else Undefined
  }

  function Write(x: string, v: Value, inCaller: bool, s: Store): Store {
    if x in s.frame then s.(frame := s.frame[x := v])
    else if inCaller && x in s.locals then s.(locals := s.locals[x := v])
    else s.(globals := s.globals[x := v])
  }

  function EvalTerm(t: Term, world: World, inCaller: bool, s: Store): (Value, Store) {
    match t
    case Var(x) => (Lookup(x, inCaller, s), s)
    case Lit(v) => (v, s)
    case Call(f, a) =>
      var (v, u) := EvalTerm(a, world, inCaller, s);
      CallEffect(world, Event(f, v), u)
    case Assign(x, a) =>
      var (v, u) := EvalTerm(a, world, inCaller, s);
      (v, Write(x, v, inCaller, u))
  }

  function Sem(world: World, inCaller: bool): Leaf<Term, Store> {
    (t: Term, s: Store) => EvalTerm(t, world, inCaller, s)
  }

  function EvalExpr(e: Expr<Term>, world: World, inCaller: bool, s: Store): (Value, Store) {
    Eval(e, Sem(world, inCaller), s)
  }

  /** Leaving a block drops the bindings declared in it. */
  function ExitBlock(outer: Store, inner: Store): Store {
    inner.(frame := map x | x in inner.frame && x in outer.frame :: inner.frame[x])
  }

  function ExecStmt(st: Stmt, world: World, inCaller: bool, s: Store): Store {
    match st
    case Do(e) => EvalExpr(e, world, inCaller, s).1
    case Const(x, e) =>
      var (v, u) := EvalExpr(e, world, inCaller, s);
      u.(frame := u.frame[x := v])
    case If(c, thn, els) =>
      var (v, u) := EvalExpr(c, world, inCaller, s);
      ExitBlock(u, if Truthy(v) then Exec(thn, world, inCaller, u) else Exec(els, world, inCaller, u))
  }

  function Exec(stmts: seq<Stmt>, world: World, inCaller: bool, s: Store): Store {
    if stmts == [] then s
    else Exec(stmts[1..], world, inCaller, ExecStmt(stmts[0], world, inCaller, s))
  }

  // ---- a helper and a call to it ----

  datatype Helper = Helper(params: seq<string>, guards: seq<Expr<Term>>, tail: seq<Stmt>)

  function EvalArgs(args: seq<Expr<Term>>, world: World, s: Store): (seq<Value>, Store) {
    if args == [] then ([], s)
    else
      var (v, t) := EvalExpr(args[0], world, true, s);
      var (vs, u) := EvalArgs(args[1..], world, t);
      ([v] + vs, u)
  }

  /** Parameters without an argument are `undefined`. */
  function Bind(params: seq<string>, vs: seq<Value>): map<string, Value> {
    if params == [] then map[]
    else Bind(params[1..], if vs == [] then [] else vs[1..])[params[0] := if vs == [] then Undefined else vs[0]]
  }

  /** Guards, then the tail, in the helper's own frame. */
  function RunBody(h: Helper, world: World, s: Store): Store {
    var (fired, t) := RunGuards(h.guards, Identity, Sem(world, false), s);
    if fired then t else Exec(h.tail, world, false, t)
  }

  function Identity(t: Term): Term { t }

  /** A real call: arguments left to right in the caller, then the body. */
  function CallHelper(h: Helper, args: seq<Expr<Term>>, world: World, s: Store): Store {
    var (vs, t) := EvalArgs(args, world, s);
    RunBody(h, world, t.(frame := Bind(h.params, vs))).(frame := t.frame)
  }

  // ---- substitution of parameters and local declarations ----

  /** Parameters go to their temporary or to `undefined`, renamed locals to their new name. */
  type Renaming = map<string, Term>

  function Target(m: Renaming, x: string): Term {
    if x in m then m[x] else Var(x)
  }

  function TargetName(m: Renaming, x: string): string {
    if Target(m, x).Var? then Target(m, x).x else x
  }

  function SubTerm(t: Term, m: Renaming): Term {
    match t
    case Var(x) => Target(m, x)
    case Lit(_) => t
    case Call(f, a) => Call(f, SubTerm(a, m))
    case Assign(x, a) => Assign(TargetName(m, x), SubTerm(a, m))
  }

  function Edits(m: Renaming): Subst<Term> {
    (t: Term) => SubTerm(t, m)
  }

  function SubStmt(st: Stmt, m: Renaming): Stmt {
    match st
    case Do(e) => Do(MapExpr(e, Edits(m)))
    case Const(x, e) => Const(TargetName(m, x), MapExpr(e, Edits(m)))
    case If(c, thn, els) => If(MapExpr(c, Edits(m)), SubStmts(thn, m), SubStmts(els, m))
  }

  function SubStmts(stmts: seq<Stmt>, m: Renaming): seq<Stmt> {
    if stmts == [] then [] else [SubStmt(stmts[0], m)] + SubStmts(stmts[1..], m)
  }

  // ---- what the analysis of the helper establishes ----

  /**
   The names of a helper body: the used parameters and the local declarations
   (`names`), what becomes of them (`m`), the names it takes from the module
   (`free`), and the parameters, which it never writes (`fixed`).
   */
  datatype Scoping = Scoping(m: Renaming, names: set<string>, free: set<string>, fixed: set<string>)

  /** Every name is bound or free, and no parameter is written. */
  predicate TermOk(t: Term, bound: set<string>, sc: Scoping) {
    match t
    case Var(x) => x in bound || x in sc.free
    case Lit(_) => true
    case Call(_, a) => TermOk(a, bound, sc)
    case Assign(x, a) => (x in bound || x in sc.free) && x !in sc.fixed && TermOk(a, bound, sc)
  }

  predicate ExprOk(e: Expr<Term>, bound: set<string>, sc: Scoping) {
    match e
    case Atom(t) => TermOk(t, bound, sc)
    case Paren(x) => ExprOk(x, bound, sc)
    case Not(x) => ExprOk(x, bound, sc)
    case Bin(_, l, r) => ExprOk(l, bound, sc) && ExprOk(r, bound, sc)
  }

  predicate StmtOk(st: Stmt, bound: set<string>, sc: Scoping) {
    match st
    case Do(e) => ExprOk(e, bound, sc)
    case Const(x, e) => ExprOk(e, bound, sc) && x !in bound && x !in sc.free && x !in sc.fixed
    case If(c, thn, els) =>
      ExprOk(c, bound, sc) && StmtsOk(thn, bound, sc) && StmtsOk(els, bound, sc)
  }

  predicate StmtsOk(stmts: seq<Stmt>, bound: set<string>, sc: Scoping) {
    stmts == [] ||
    (&& StmtOk(stmts[0], bound, sc)
     && StmtsOk(stmts[1..], bound + DeclaredHere(stmts[0]), sc))
  }

  /** The name a statement adds to its own block. */
  function DeclaredHere(st: Stmt): set<string> {
    if st.Const? then {st.x} else {}
  }

  /** The names declared anywhere in a statement. */
  function DeclaredIn(st: Stmt): set<string> {
    match st
    case Do(_) => {}
    case Const(x, _) => {x}
    case If(_, thn, els) => Declared(thn) + Declared(els)
  }

  function Declared(stmts: seq<Stmt>): set<string> {
    if stmts == [] then {} else DeclaredIn(stmts[0]) + Declared(stmts[1..])
  }

  /** The new names are distinct and do not capture a free name of the body. */
  ghost predicate NoCapture(sc: Scoping) {
    && (forall x, y :: x in sc.names && y in sc.names && Target(sc.m, x).Var? && Target(sc.m, x) == Target(sc.m, y) ==> x == y)
    && (forall x :: x in sc.names && Target(sc.m, x).Var? ==> Target(sc.m, x).x !in sc.free)
    && (forall x :: x in sc.names && !Target(sc.m, x).Var? ==> x in sc.fixed && Target(sc.m, x) == Lit(Undefined))
    && (forall x :: x in sc.free ==> x !in sc.m)
  }

  // ---- the helper's run and the replacement's run, side by side ----

  /** Bindings of the module and the caller, and the calls made, are the same. */
  ghost predicate SameEffects(h: Store, c: Store) {
    h.globals == c.globals && h.locals == c.locals && h.trace == c.trace
  }

  ghost predicate Matches(m: Renaming, x: string, h: Store, c: Store) {
    && x in h.frame
    && match Target(m, x)
       case Var(t) => t in c.frame && c.frame[t] == h.frame[x]
       case Lit(v) => h.frame[x] == v
       case _ => false
  }

  /** `h` is a state of the helper, `c` the corresponding one of its replacement. */
  ghost predicate Related(sc: Scoping, bound: set<string>, h: Store, c: Store) {
    && SameEffects(h, c)
    && (forall x :: x in bound ==> Matches(sc.m, x, h, c))
    && (forall x :: x in sc.free ==> x !in h.frame && x !in c.frame && x !in c.locals)
  }

  ghost predicate SameFrames(h: Store, c: Store, h': Store, c': Store) {
    h'.frame.Keys == h.frame.Keys && c'.frame.Keys == c.frame.Keys
  }

  lemma WriteAgrees(x: string, v: Value, sc: Scoping, bound: set<string>, h: Store, c: Store)
    requires Related(sc, bound, h, c) && NoCapture(sc) && bound <= sc.names && x in bound && x !in sc.fixed
    ensures Related(sc, bound, Write(x, v, false, h), Write(TargetName(sc.m, x), v, true, c))
  {
    var h', c' := Write(x, v, false, h), Write(TargetName(sc.m, x), v, true, c);
    assert Matches(sc.m, x, h, c);
    forall y | y in bound ensures Matches(sc.m, y, h', c') {
      assert Matches(sc.m, y, h, c);
    }
  }

  lemma {:induction false} TermsAgree(t: Term, world: World, sc: Scoping, bound: set<string>, h: Store, c: Store)
    requires Related(sc, bound, h, c) && NoCapture(sc) && bound <= sc.names && TermOk(t, bound, sc)
    ensures var (v, h') := EvalTerm(t, world, false, h);
      var (w, c') := EvalTerm(SubTerm(t, sc.m), world, true, c);
      v == w && Related(sc, bound, h', c') && SameFrames(h, c, h', c')
  {
    match t
    case Var(x) => assert x in bound ==> Matches(sc.m, x, h, c);
    case Lit(_) =>
    case Call(f, a) => TermsAgree(a, world, sc, bound, h, c);
    case Assign(x, a) =>
      TermsAgree(a, world, sc, bound, h, c);
      var (v, h1) := EvalTerm(a, world, false, h);
      var (_, c1) := EvalTerm(SubTerm(a, sc.m), world, true, c);
      if x in bound {
        assert Matches(sc.m, x, h1, c1);
        WriteAgrees(x, v, sc, bound, h1, c1);
      }
  }

  lemma {:induction false} ExprsAgree(e: Expr<Term>, world: World, sc: Scoping, bound: set<string>, h: Store, c: Store)
    requires Related(sc, bound, h, c) && NoCapture(sc) && bound <= sc.names && ExprOk(e, bound, sc)
    ensures var (v, h') := EvalExpr(e, world, false, h);
      var (w, c') := EvalExpr(MapExpr(e, Edits(sc.m)), world, true, c);
      v == w && Related(sc, bound, h', c') && SameFrames(h, c, h', c')
  {
    match e
    case Atom(t) => TermsAgree(t, world, sc, bound, h, c);
    case Paren(x) => ExprsAgree(x, world, sc, bound, h, c);
    case Not(x) => ExprsAgree(x, world, sc, bound, h, c);
    case Bin(op, l, r) =>
      ExprsAgree(l, world, sc, bound, h, c);
      ExprsAgree(r, world, sc, bound,
                 EvalExpr(l, world, false, h).1, EvalExpr(MapExpr(l, Edits(sc.m)), world, true, c).1);
  }

  /** A declaration adds its name to both frames. */
  lemma DeclarationAgrees(x: string, v: Value, sc: Scoping, bound: set<string>, h: Store, c: Store)
    requires Related(sc, bound, h, c) && NoCapture(sc) && bound + {x} <= sc.names
    requires x !in bound && x !in sc.free && x !in sc.fixed
    ensures Related(sc, bound + {x}, h.(frame := h.frame[x := v]), c.(frame := c.frame[TargetName(sc.m, x) := v]))
  {
    var h', c' := h.(frame := h.frame[x := v]), c.(frame := c.frame[TargetName(sc.m, x) := v]);
    forall y | y in bound + {x} ensures Matches(sc.m, y, h', c') {
      if y != x {
        assert Matches(sc.m, y, h, c);
      }
    }
  }

  /** Leaving a block keeps what was related when it was entered. */
  lemma ExitAgrees(sc: Scoping, bound: set<string>, inner: set<string>, h: Store, c: Store, h1: Store, c1: Store)
    requires Related(sc, bound, h, c) && Related(sc, inner, h1, c1) && bound <= inner
    ensures Related(sc, bound, ExitBlock(h, h1), ExitBlock(c, c1))
  {
    forall x | x in bound ensures Matches(sc.m, x, ExitBlock(h, h1), ExitBlock(c, c1)) {
      assert Matches(sc.m, x, h, c) && Matches(sc.m, x, h1, c1);
    }
  }

  /** What both runs know after a statement list: the outer names and the ones declared at its top. */
  function TopDeclared(stmts: seq<Stmt>): set<string> {
    if stmts == [] then {} else DeclaredHere(stmts[0]) + TopDeclared(stmts[1..])
  }

  lemma {:induction false} StmtAgrees(st: Stmt, world: World, sc: Scoping, bound: set<string>, h: Store, c: Store)
    requires Related(sc, bound, h, c) && NoCapture(sc) && bound + DeclaredIn(st) <= sc.names
    requires StmtOk(st, bound, sc)
    ensures Related(sc, bound + DeclaredHere(st), ExecStmt(st, world, false, h), ExecStmt(SubStmt(st, sc.m), world, true, c))
  {
    match st
    case Do(e) =>
      ExprsAgree(e, world, sc, bound, h, c);
      assert bound + DeclaredHere(st) == bound;
    case Const(x, e) =>
      ExprsAgree(e, world, sc, bound, h, c);
      DeclarationAgrees(x, EvalExpr(e, world, false, h).0, sc, bound,
                        EvalExpr(e, world, false, h).1, EvalExpr(MapExpr(e, Edits(sc.m)), world, true, c).1);
    case If(b, thn, els) =>
      ExprsAgree(b, world, sc, bound, h, c);
      var (v, h1) := EvalExpr(b, world, false, h);
      var (_, c1) := EvalExpr(MapExpr(b, Edits(sc.m)), world, true, c);
      if Truthy(v) {
        BranchAgrees(thn, world, sc, bound, h1, c1);
      } else {
        BranchAgrees(els, world, sc, bound, h1, c1);
      }
      assert bound + DeclaredHere(st) == bound;
  }

  lemma {:induction false} BranchAgrees(stmts: seq<Stmt>, world: World, sc: Scoping, bound: set<string>, h: Store, c: Store)
    requires Related(sc, bound, h, c) && NoCapture(sc) && bound + Declared(stmts) <= sc.names
    requires StmtsOk(stmts, bound, sc)
    ensures Related(sc, bound,
              ExitBlock(h, Exec(stmts, world, false, h)), ExitBlock(c, Exec(SubStmts(stmts, sc.m), world, true, c)))
    decreases stmts, 1
  {
    StmtsAgree(stmts, world, sc, bound, h, c);
    ExitAgrees(sc, bound, bound + TopDeclared(stmts), h, c,
               Exec(stmts, world, false, h), Exec(SubStmts(stmts, sc.m), world, true, c));
  }

  lemma {:induction false} StmtsAgree(stmts: seq<Stmt>, world: World, sc: Scoping, bound: set<string>, h: Store, c: Store)
    requires Related(sc, bound, h, c) && NoCapture(sc) && bound + Declared(stmts) <= sc.names
    requires StmtsOk(stmts, bound, sc)
    ensures Related(sc, bound + TopDeclared(stmts),
              Exec(stmts, world, false, h), Exec(SubStmts(stmts, sc.m), world, true, c))
    decreases stmts, 0
  {
    if stmts == [] {
      assert bound + TopDeclared(stmts) == bound;
    } else {
      var st, rest := stmts[0], stmts[1..];
      assert SubStmts(stmts, sc.m)[1..] == SubStmts(rest, sc.m);
      StmtAgrees(st, world, sc, bound, h, c);
      StmtsAgree(rest, world, sc, bound + DeclaredHere(st),
                 ExecStmt(st, world, false, h), ExecStmt(SubStmt(st, sc.m), world, true, c));
      assert bound + DeclaredHere(st) + TopDeclared(rest) == bound + TopDeclared(stmts);
    }
  }

  // ---- guards ----

  lemma {:induction false} MapIdentity(e: Expr<Term>)
    ensures MapExpr(e, Identity) == e
  {
    match e
    case Atom(_) =>
    case Paren(x) => MapIdentity(x);
    case Not(x) => MapIdentity(x);
    case Bin(_, l, r) =>
      MapIdentity(l);
      MapIdentity(r);
  }

  lemma {:induction false} GuardsAgree(guards: seq<Expr<Term>>, world: World, sc: Scoping, bound: set<string>, h: Store, c: Store)
    requires Related(sc, bound, h, c) && NoCapture(sc) && bound <= sc.names
    requires forall i :: 0 <= i < |guards| ==> ExprOk(guards[i], bound, sc)
    ensures var (fired, h') := RunGuards(guards, Identity, Sem(world, false), h);
      var (fired', c') := RunGuards(guards, Edits(sc.m), Sem(world, true), c);
      fired == fired' && Related(sc, bound, h', c')
  {
    if guards != [] {
      MapIdentity(guards[0]);
      ExprsAgree(guards[0], world, sc, bound, h, c);
      GuardsAgree(guards[1..], world, sc, bound,
                  EvalExpr(guards[0], world, false, h).1, EvalExpr(MapExpr(guards[0], Edits(sc.m)), world, true, c).1);
    }
  }

  lemma {:induction false} CleanAgrees(e: Expr<Term>, world: World, sc: Scoping, bound: set<string>, h: Store, c: Store)
    requires Related(sc, bound, h, c) && NoCapture(sc) && bound <= sc.names && ExprOk(e, bound, sc)
    requires Clean(e, Sem(world, false), h)
    ensures Clean(MapExpr(e, Edits(sc.m)), Sem(world, true), c)
  {
    match e
    case Atom(_) =>
    case Paren(x) => CleanAgrees(x, world, sc, bound, h, c);
    case Not(_) =>
    case Bin(op, l, r) =>
      ExprsAgree(l, world, sc, bound, h, c);
      var (v, h1) := EvalExpr(l, world, false, h);
      var (_, c1) := EvalExpr(MapExpr(l, Edits(sc.m)), world, true, c);
      ExprsAgree(r, world, sc, bound, h1, c1);
      if op == And || op == Or {
        CleanAgrees(l, world, sc, bound, h, c);
        if Truthy(v) == (op == And) {
          CleanAgrees(r, world, sc, bound, h1, c1);
        }
      }
  }
}
