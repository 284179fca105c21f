/** Planning a replacement: fresh names, hoisted arguments, renamed locals. */
module InlinePlanner {
  import opened Wrappers
  import opened ConditionSyntax
  import opened GuardInversion
  import opened GuardSemantics
  import opened StrictInlining
  import opened InlineReplacement

  // ---- fresh names ----

  lemma {:induction false} DecimalInjective(a: nat, b: nat)
    requires Decimal(a) == Decimal(b)
    ensures a == b
  {
    var s := Decimal(a);
    assert s[|s| - 1] == '0' + (a % 10) as char == '0' + (b % 10) as char;
    if a >= 10 && b >= 10 {
      assert s[..|s| - 1] == Decimal(a / 10) == Decimal(b / 10);
      DecimalInjective(a / 10, b / 10);
    }
  }

  function Suffixed(base: string, i: nat): string {
    base + "_" + Decimal(i)
  }

  lemma SuffixedInjective(base: string, i: nat, j: nat)
    requires Suffixed(base, i) == Suffixed(base, j)
    ensures i == j
  {
    assert Suffixed(base, i)[|base| + 1..] == Decimal(i);
    assert Suffixed(base, j)[|base| + 1..] == Decimal(j);
    DecimalInjective(i, j);
  }

  lemma SubsetSize<T>(small: set<T>, big: set<T>)
    requires small <= big
    ensures |small| <= |big|
  {
    assert big == small + (big - small);
  }

  ghost predicate LeastFree(base: string, taken: set<string>, i: nat) {
    i >= 2 && Suffixed(base, i) !in taken && forall k :: 2 <= k < i ==> Suffixed(base, k) in taken
  }

  /** Among more suffixes than taken names one is free. */
  lemma HasLeastFree(base: string, taken: set<string>)
    ensures exists i: nat :: LeastFree(base, taken, i)
  {
    var i := 2;
    var tried: set<string> := {};
    while Suffixed(base, i) in taken
      invariant i >= 2
      invariant forall k :: 2 <= k < i ==> Suffixed(base, k) in taken
      invariant tried == set k | 2 <= k < i :: Suffixed(base, k)
      invariant tried <= taken && |tried| == i - 2
      decreases |taken| - |tried|
    {
      if Suffixed(base, i) in tried {
        var k :| 2 <= k < i && Suffixed(base, k) == Suffixed(base, i);
        SuffixedInjective(base, k, i);
      }
      tried := tried + {Suffixed(base, i)};
      SubsetSize(tried, taken);
      i := i + 1;
    }
    assert LeastFree(base, taken, i);
  }

  /** The base itself, or the base with the smallest free suffix from 2 on. */
  ghost function FreshOf(base: string, taken: set<string>): (name: string)
    ensures name !in taken
  {
    if base !in taken then base
    else
      HasLeastFree(base, taken);
      var i: nat :| LeastFree(base, taken, i);
      Suffixed(base, i)
  }

  method FreshName(base: string, taken: set<string>) returns (name: string)
    ensures name !in taken && name == FreshOf(base, taken)
    ensures base !in taken ==> name == base
    ensures base in taken ==>
      exists i :: i >= 2 && name == Suffixed(base, i) && forall k :: 2 <= k < i ==> Suffixed(base, k) in taken
  {
    if base !in taken {
      return base;
    }
    var i := 2;
    HasLeastFree(base, taken);
    ghost var least: nat :| LeastFree(base, taken, least);
    while Suffixed(base, i) in taken
      invariant 2 <= i <= least
      invariant forall k :: 2 <= k < i ==> Suffixed(base, k) in taken
      decreases least - i
    {
      i := i + 1;
    }
    assert LeastFree(base, taken, i);
    return Suffixed(base, i);
  }

  // ---- planning ----

  /**
   The temporary of each hoisted argument, drawn in order from the names not
   taken so far, and the names taken in the end. Other entries mean nothing.
   */
  ghost function Hoist(params: seq<string>, args: seq<Expr<Term>>, used: set<string>, taken: set<string>)
    : (r: (seq<string>, set<string>))
    ensures |r.0| == |params|
  {
    if params == [] then ([], taken)
    else if params[0] in used && args != [] then
      var temp := FreshOf("__inl_" + params[0], taken);
      var (temps, after) := Hoist(params[1..], args[1..], used, taken + {temp});
      ([temp] + temps, after)
    else
      var (temps, after) := Hoist(params[1..], if args == [] then [] else args[1..], used, taken);
      ([""] + temps, after)
  }

  /** Every used parameter goes to its temporary or to `undefined`. */
  function ParamRenaming(params: seq<string>, args: seq<Expr<Term>>, used: set<string>, temps: seq<string>): Renaming
    requires Distinct(params) && |temps| == |params|
  {
    map i | 0 <= i < |params| && params[i] in used :: params[i] := ParamTarget(i, args, temps)
  }

  /** Declarations that would meet a taken name get a fresh one; either name is taken from then on. */
  ghost function LocalRenaming(tops: seq<string>, m: Renaming, taken: set<string>): Renaming {
    if tops == [] then m
    else if tops[0] !in taken then LocalRenaming(tops[1..], m, taken + {tops[0]})
    else
      var unused := FreshOf(tops[0], taken);
      LocalRenaming(tops[1..], m[tops[0] := Var(unused)], taken + {unused})
  }

  /** What the tail declares in its own block, in order. */
  function TopNames(stmts: seq<Stmt>): (r: seq<string>)
    ensures Elems(r) == TopDeclared(stmts)
  {
    if stmts == [] then [] else (if stmts[0].Const? then [stmts[0].x] else []) + TopNames(stmts[1..])
  }

  /** The renaming of a whole plan: a tail behind guards gets a block of its own, so its declarations stay. */
  ghost function PlanRenaming(params: seq<string>, args: seq<Expr<Term>>, used: set<string>, reserved: set<string>,
                              guarded: bool, tops: seq<string>): Renaming
    requires Distinct(params)
  {
    var (temps, taken) := Hoist(params, args, used, reserved);
    var m := ParamRenaming(params, args, used, temps);
    if guarded then m else LocalRenaming(tops, m, taken)
  }

  ghost function HelperRenaming(h: Helper, args: seq<Expr<Term>>, used: set<string>, reserved: set<string>): Renaming
    requires Distinct(h.params)
  {
    PlanRenaming(h.params, args, used, reserved, h.guards != [], TopNames(h.tail))
  }

  /** The plan for one call. */
  ghost function PlanOf(h: Helper, args: seq<Expr<Term>>, used: set<string>, reserved: set<string>): Replacement
    requires Distinct(h.params) && |args| <= |h.params|
  {
    var m := HelperRenaming(h, args, used, reserved);
    Replacement(
      Prefix(h.params, args, used, Hoist(h.params, args, used, reserved).0),
      if h.guards == [] then None else Some(CombineGuards(h.guards, Edits(m))),
      SubStmts(h.tail, m))
  }

  lemma {:induction false} PrefixSnoc(params: seq<string>, args: seq<Expr<Term>>, used: set<string>, temps: seq<string>,
                                      param: string, arg: Expr<Term>, temp: string)
    requires |args| == |params| == |temps|
    ensures Prefix(params + [param], args + [arg], used, temps + [temp])
      == Prefix(params, args, used, temps) + Hoisted(param, arg, used, temp)
  {
    if args == [] {
      assert Prefix([param][1..], [arg][1..], used, [temp][1..]) == [];
      assert params + [param] == [param] && args + [arg] == [arg] && temps + [temp] == [temp];
    } else {
      PrefixSnoc(params[1..], args[1..], used, temps[1..], param, arg, temp);
      assert (params + [param])[1..] == params[1..] + [param];
      assert (args + [arg])[1..] == args[1..] + [arg];
      assert (temps + [temp])[1..] == temps[1..] + [temp];
    }
  }

  lemma {:induction false} PrefixPads(params: seq<string>, args: seq<Expr<Term>>, used: set<string>, temps: seq<string>,
                                      param: string, temp: string)
    requires |args| <= |params| == |temps|
    ensures Prefix(params + [param], args, used, temps + [temp]) == Prefix(params, args, used, temps)
  {
    if args != [] {
      PrefixPads(params[1..], args[1..], used, temps[1..], param, temp);
      assert (params + [param])[1..] == params[1..] + [param];
      assert (temps + [temp])[1..] == temps[1..] + [temp];
    }
  }

  /** The first `i` parameters have been planned. */
  ghost predicate Planned(i: nat, params: seq<string>, args: seq<Expr<Term>>, used: set<string>, temps: seq<string>,
                          prefix: seq<Stmt>, m: Renaming)
    requires i <= |params| && |args| <= |params|
  {
    && |temps| == i
    && Renames(m, params[..i], args, used, temps)
    && m.Keys == used * Elems(params[..i])
    && prefix == Prefix(params[..i], args[..if i < |args| then i else |args|], used, temps)
  }

  /** What parameter `i` adds to the renaming. */
  function Extended(m: Renaming, i: nat, params: seq<string>, args: seq<Expr<Term>>, used: set<string>, temp: string): Renaming
    requires i < |params|
  {
    if params[i] !in used then m
    else m[params[i] := if i < |args| then Var(temp) else Lit(Undefined)]
  }

  lemma PlanOnePrefix(i: nat, params: seq<string>, args: seq<Expr<Term>>, used: set<string>, temps: seq<string>, temp: string)
    requires |args| <= |params| && i < |params| && |temps| == i
    ensures Prefix(params[..i + 1], args[..if i + 1 < |args| then i + 1 else |args|], used, temps + [temp])
      == Prefix(params[..i], args[..if i < |args| then i else |args|], used, temps)
         + if i < |args| then Hoisted(params[i], args[i], used, temp) else []
  {
    assert params[..i + 1] == params[..i] + [params[i]];
    if i < |args| {
      assert args[..i + 1] == args[..i] + [args[i]];
      PrefixSnoc(params[..i], args[..i], used, temps, params[i], args[i], temp);
    } else {
      PrefixPads(params[..i], args[..|args|], used, temps, params[i], temp);
    }
  }

  lemma PlanOneRenaming(i: nat, params: seq<string>, args: seq<Expr<Term>>, used: set<string>, temps: seq<string>,
                        m: Renaming, temp: string)
    requires Distinct(params) && |args| <= |params| && i < |params| && |temps| == i
    requires Renames(m, params[..i], args, used, temps) && m.Keys == used * Elems(params[..i])
    ensures Renames(Extended(m, i, params, args, used, temp), params[..i + 1], args, used, temps + [temp])
    ensures Extended(m, i, params, args, used, temp).Keys == used * Elems(params[..i + 1])
  {
    var after, ts := Extended(m, i, params, args, used, temp), temps + [temp];
    assert params[..i + 1] == params[..i] + [params[i]];
    assert Elems(params[..i + 1]) == Elems(params[..i]) + {params[i]};
    forall k | 0 <= k < i + 1 && params[k] in used ensures params[k] in after && after[params[k]] == ParamTarget(k, args, ts) {
      if k < i {
        assert params[..i][k] == params[k] && params[k] != params[i] && ts[k] == temps[k];
      }
    }
  }

  lemma PlanOne(i: nat, params: seq<string>, args: seq<Expr<Term>>, used: set<string>, temps: seq<string>,
                prefix: seq<Stmt>, m: Renaming, temp: string)
    requires Distinct(params) && |args| <= |params| && i < |params|
    requires Planned(i, params, args, used, temps, prefix, m)
    ensures Planned(i + 1, params, args, used, temps + [temp],
              prefix + if i < |args| then Hoisted(params[i], args[i], used, temp) else [],
              Extended(m, i, params, args, used, temp))
  {
    PlanOnePrefix(i, params, args, used, temps, temp);
    PlanOneRenaming(i, params, args, used, temps, m, temp);
  }

  lemma RenamingIs(params: seq<string>, args: seq<Expr<Term>>, used: set<string>, temps: seq<string>, m: Renaming)
    requires Distinct(params) && |temps| == |params|
    ensures (Renames(m, params, args, used, temps) && m.Keys == used * Elems(params))
       <==> m == ParamRenaming(params, args, used, temps)
  {
    var all := ParamRenaming(params, args, used, temps);
    forall x | x in used * Elems(params) ensures x in all {
      var i :| 0 <= i < |params| && params[i] == x;
    }
    assert all.Keys == used * Elems(params);
    if Renames(m, params, args, used, temps) && m.Keys == used * Elems(params) {
      forall x | x in m ensures m[x] == all[x] {
        var i :| 0 <= i < |params| && params[i] == x;
      }
    }
  }

  /** Hoists the arguments: one entry of `temps` per parameter, in order, each fresh for the block and the ones before. */
  method HoistArguments(params: seq<string>, args: seq<Expr<Term>>, used: set<string>, reserved: set<string>)
    returns (prefix: seq<Stmt>, m: Renaming, taken: set<string>, temps: seq<string>)
    requires Distinct(params) && |args| <= |params|
    ensures (temps, taken) == Hoist(params, args, used, reserved)
    ensures prefix == Prefix(params, args, used, temps) && m == ParamRenaming(params, args, used, temps)
  {
    hide FreshOf, ParamRenaming;
    prefix, m, taken, temps := [], map[], reserved, [];
    var i := 0;
    ghost var whole := Hoist(params, args, used, reserved);
    assert params[0..] == params && (if 0 < |args| then args[0..] else []) == args;
    assert [] + whole.0 == whole.0;
    while i < |params|
      invariant 0 <= i <= |params|
      invariant Planned(i, params, args, used, temps, prefix, m)
      invariant Elsewhere(i, params, args, used, taken, temps, whole)
    {
      var temp := "";
      ghost var prefixBefore, renamingBefore, takenBefore := prefix, m, taken;
      if params[i] !in used {
        if i < |args| && !IsLiteral(args[i]) {
          prefix := prefix + [Do(args[i])];
        }
      } else if i >= |args| {
        m := m[params[i] := Lit(Undefined)];
      } else {
        var unused := FreshName("__inl_" + params[i], taken);
        taken := taken + {unused};
        prefix := prefix + [Const(unused, args[i])];
        m := m[params[i] := Var(unused)];
        temp := unused;
      }
      PlanOne(i, params, args, used, temps, prefixBefore, renamingBefore, temp);
      HoistOneMore(i, params, args, used, takenBefore, temps, whole);
      temps := temps + [temp];
      i := i + 1;
    }
    assert params[..i] == params && params[i..] == [] && args[..|args|] == args;
    assert Hoist([], [], used, taken) == ([], taken) && temps + [] == temps;
    RenamingIs(params, args, used, temps, m);
  }

  /** Planning the parameters from `i` on completes the plan. */
  ghost predicate Elsewhere(i: nat, params: seq<string>, args: seq<Expr<Term>>, used: set<string>, taken: set<string>,
                            temps: seq<string>, whole: (seq<string>, set<string>))
    requires i <= |params|
  {
    var (rest, after) := Hoist(params[i..], if i < |args| then args[i..] else [], used, taken);
    whole == (temps + rest, after)
  }

  lemma HoistOneMore(i: nat, params: seq<string>, args: seq<Expr<Term>>, used: set<string>, taken: set<string>,
                     temps: seq<string>, whole: (seq<string>, set<string>))
    requires i < |params| && Elsewhere(i, params, args, used, taken, temps, whole)
    ensures var temp := FreshOf("__inl_" + params[i], taken);
      if params[i] in used && i < |args| then Elsewhere(i + 1, params, args, used, taken + {temp}, temps + [temp], whole)
      else Elsewhere(i + 1, params, args, used, taken, temps + [""], whole)
  {
    hide FreshOf;
    var temp := FreshOf("__inl_" + params[i], taken);
    var left := if i < |args| then args[i..] else [];
    var next := if i + 1 < |args| then args[i + 1..] else [];
    assert params[i..][1..] == params[i + 1..] && params[i..][0] == params[i];
    assert (if left == [] then [] else left[1..]) == next;
    if params[i] in used && i < |args| {
      var rest := Hoist(params[i + 1..], next, used, taken + {temp}).0;
      assert temps + ([temp] + rest) == temps + [temp] + rest;
    } else {
      var rest := Hoist(params[i + 1..], next, used, taken).0;
      assert temps + ([""] + rest) == temps + [""] + rest;
    }
  }

  /** Guardless tails land in the caller's block: their own declarations give way to names taken there. */
  method RenameCollidingLocals(tail: seq<Stmt>, m0: Renaming, taken0: set<string>) returns (m: Renaming)
    ensures m == LocalRenaming(TopNames(tail), m0, taken0)
  {
    hide FreshOf;
    m := m0;
    var taken := taken0;
    var i := 0;
    assert tail[0..] == tail;
    while i < |tail|
      invariant 0 <= i <= |tail|
      invariant LocalRenaming(TopNames(tail[i..]), m, taken) == LocalRenaming(TopNames(tail), m0, taken0)
    {
      assert tail[i..][0] == tail[i] && tail[i..][1..] == tail[i + 1..];
      var names := TopNames(tail[i + 1..]);
      if tail[i].Const? {
        var original := tail[i].x;
        assert TopNames(tail[i..]) == [original] + names && ([original] + names)[1..] == names;
        if original !in taken {
          taken := taken + {original};
        } else {
          var unused := FreshName(original, taken);
          taken := taken + {unused};
          m := m[original := Var(unused)];
        }
      } else {
        assert TopNames(tail[i..]) == [] + names == names;
      }
      i := i + 1;
    }
  }

  /** The whole plan for one call. `reserved` holds the names live in the target block. */
  method BuildReplacement(h: Helper, args: seq<Expr<Term>>, used: set<string>, reserved: set<string>)
    returns (r: Replacement, temps: seq<string>, m: Renaming)
    requires Distinct(h.params) && used <= Elems(h.params) && |args| <= |h.params|
    requires TopDeclared(h.tail) !! Elems(h.params)
    ensures r == PlanOf(h, args, used, reserved)
    ensures m == HelperRenaming(h, args, used, reserved) && temps == Hoist(h.params, args, used, reserved).0
    ensures IsReplacement(r, h, args, used, temps, m)
    ensures FreshTargets(m, reserved) && m.Keys <= used + TopDeclared(h.tail)
    ensures forall x :: x in m && !m[x].Var? ==> x in used
  {
    hide Hoist, LocalRenaming, ParamRenaming;
    PlanFacts(h.params, args, used, reserved, h.guards != [], TopNames(h.tail));
    var prefix, edits, taken;
    prefix, edits, taken, temps := HoistArguments(h.params, args, used, reserved);
    var condition := None;
    if h.guards != [] {
      condition := Some(CombineGuards(h.guards, Edits(edits)));
    } else {
      edits := RenameCollidingLocals(h.tail, edits, taken);
    }
    r := Replacement(prefix, condition, SubStmts(h.tail, edits));
    m := edits;
  }

  // ---- the planned names are fresh for the block ----

  /** The new names of `m` are pairwise different and avoid `names`. */
  ghost predicate FreshTargets(m: Renaming, names: set<string>) {
    && (forall x :: x in m ==> m[x] == Lit(Undefined) || (m[x].Var? && m[x].x !in names))
    && (forall x, y :: x in m && y in m && m[x].Var? && m[x] == m[y] ==> x == y)
  }

  /** Every new name is reserved by now. */
  ghost predicate TargetsIn(m: Renaming, names: set<string>) {
    forall x :: x in m && m[x].Var? ==> m[x].x in names
  }

  lemma {:induction false} HoistIsFresh(params: seq<string>, args: seq<Expr<Term>>, used: set<string>, taken: set<string>)
    requires |args| <= |params|
    ensures var (temps, after) := Hoist(params, args, used, taken);
      && taken <= after && DistinctTemps(params, args, used, temps)
      && forall i :: 0 <= i < |temps| && IsHoisted(i, params, args, used) ==> temps[i] !in taken && temps[i] in after
  {
    hide FreshOf;
    if params != [] {
      var hoisted := params[0] in used && args != [];
      var temp := FreshOf("__inl_" + params[0], taken);
      var others, next := if args == [] then [] else args[1..], if hoisted then taken + {temp} else taken;
      HoistIsFresh(params[1..], others, used, next);
      var temps, rest := Hoist(params, args, used, taken).0, Hoist(params[1..], others, used, next).0;
      assert forall i: nat :: IsHoisted(i, params[1..], others, used) <==> IsHoisted(i + 1, params, args, used);
      forall i | 0 <= i < |temps| && IsHoisted(i, params, args, used)
        ensures temps[i] !in taken && temps[i] in Hoist(params, args, used, taken).1
        ensures i > 0 ==> temps[i] == rest[i - 1] && temps[i] !in next
      {
        assert i > 0 ==> IsHoisted(i - 1, params[1..], others, used);
      }
      forall i, j | 0 <= i < j < |temps| && IsHoisted(i, params, args, used) && IsHoisted(j, params, args, used)
        ensures temps[i] != temps[j]
      {
        assert i > 0 ==> IsHoisted(i - 1, params[1..], others, used);
        assert IsHoisted(j - 1, params[1..], others, used);
      }
    }
  }

  lemma {:induction false} LocalsAreFresh(tops: seq<string>, m: Renaming, taken: set<string>, reserved: set<string>)
    requires FreshTargets(m, reserved) && TargetsIn(m, taken) && reserved <= taken
    ensures var after := LocalRenaming(tops, m, taken);
      && FreshTargets(after, reserved)
      && (forall x :: x in m && x !in tops ==> x in after && after[x] == m[x])
      && m.Keys <= after.Keys <= m.Keys + Elems(tops)
      && (forall x :: x in after && !after[x].Var? ==> x in m && m[x] == after[x])
      && (forall x :: x in tops && x !in after ==> x !in taken)
  {
    hide FreshOf;
    if tops != [] {
      if tops[0] !in taken {
        LocalsAreFresh(tops[1..], m, taken + {tops[0]}, reserved);
      } else {
        var unused := FreshOf(tops[0], taken);
        LocalsAreFresh(tops[1..], m[tops[0] := Var(unused)], taken + {unused}, reserved);
      }
    }
  }

  /** What the plan's names keep to, whatever the body of the helper is. */
  lemma PlanFacts(params: seq<string>, args: seq<Expr<Term>>, used: set<string>, reserved: set<string>,
                  guarded: bool, tops: seq<string>)
    requires Distinct(params) && used <= Elems(params) && |args| <= |params| && Elems(tops) !! Elems(params)
    ensures var m := PlanRenaming(params, args, used, reserved, guarded, tops);
      var temps := Hoist(params, args, used, reserved).0;
      && Renames(m, params, args, used, temps) && DistinctTemps(params, args, used, temps)
      && FreshTargets(m, reserved) && used <= m.Keys <= used + Elems(tops)
      && (guarded ==> m.Keys == used)
      && (forall x :: x in m && !m[x].Var? ==> x in used)
      && (!guarded ==> forall x :: x in tops && x !in m ==> x !in reserved)
  {
    hide Hoist, LocalRenaming, ParamRenaming;
    var (temps, taken) := Hoist(params, args, used, reserved);
    var m := ParamRenaming(params, args, used, temps);
    HoistIsFresh(params, args, used, reserved);
    RenamingIs(params, args, used, temps, m);
    forall x | x in m ensures m[x] == Lit(Undefined) || (m[x].Var? && m[x].x !in reserved && m[x].x in taken) {
      var i :| 0 <= i < |params| && params[i] == x;
      assert i < |args| ==> IsHoisted(i, params, args, used);
    }
    forall x, y | x in m && y in m && m[x].Var? && m[x] == m[y] ensures x == y {
      var i :| 0 <= i < |params| && params[i] == x;
      var j :| 0 <= j < |params| && params[j] == y;
      assert IsHoisted(i, params, args, used) && IsHoisted(j, params, args, used);
    }
    assert used * Elems(params) == used;
    LocalsAreFresh(tops, m, taken, reserved);
    assert forall i :: 0 <= i < |params| && params[i] in used ==> params[i] in Elems(params) && params[i] !in tops;
  }
}
