/**
 The cycle check that guards the publisher: a depth-first walk over the known
 dependencies of every job, with a mutable mark per job.
 */
module DependencyGraph {
  import opened Wrappers

  type Name = string

  /** The dependency list of every known job. Unknown names may occur in the lists. */
  type Graph = map<Name, seq<Name>>

  /** A known dependency; the walk ignores the unknown ones. */
  predicate Edge(g: Graph, a: Name, b: Name) {
    a in g && b in g && b in g[a]
  }

  function Last(p: seq<Name>): Name
    requires p != []
  {
    p[|p| - 1]
  }

  ghost predicate IsPath(g: Graph, p: seq<Name>) {
    && p != []
    && p[0] in g
    && forall i :: 0 <= i < |p| - 1 ==> Edge(g, p[i], p[i + 1])
  }

  /** `b` is `a` itself or one of its transitive known dependencies. */
  ghost predicate Reaches(g: Graph, a: Name, b: Name) {
    exists p :: IsPath(g, p) && p[0] == a && Last(p) == b
  }

  ghost predicate Cyclic(g: Graph) {
    exists p :: IsPath(g, p) && |p| >= 2 && p[0] == Last(p)
  }

  ghost predicate Distinct(s: seq<Name>) {
    forall i, j :: 0 <= i < j < |s| ==> s[i] != s[j]
  }

  /** Every name of `order` has all its known dependencies earlier in `order`. */
  ghost predicate DependenciesFirst(g: Graph, order: seq<Name>) {
    forall i, d :: 0 <= i < |order| && Edge(g, order[i], d) ==> d in order[..i]
  }

  ghost predicate Topological(g: Graph, order: seq<Name>) {
    && Distinct(order)
    && (forall n :: n in order <==> n in g)
    && DependenciesFirst(g, order)
  }

  /** The chain a failing walk reports: a path that comes back to a name it has passed. */
  ghost predicate ClosesCycle(g: Graph, chain: seq<Name>) {
    IsPath(g, chain) && Last(chain) in chain[..|chain| - 1]
  }

  lemma ExtendPath(g: Graph, p: seq<Name>, n: Name)
    requires p == [] ==> n in g
    requires p != [] ==> IsPath(g, p) && Edge(g, Last(p), n)
    ensures IsPath(g, p + [n])
  {
  }

  lemma ClosedChainIsCyclic(g: Graph, chain: seq<Name>)
    requires ClosesCycle(g, chain)
    ensures Cyclic(g)
  {
    var i :| 0 <= i < |chain| - 1 && chain[i] == Last(chain);
    var p := chain[i..];
    assert IsPath(g, p) by {
      assert i > 0 ==> Edge(g, chain[i - 1], chain[i]);
      forall k | 0 <= k < |p| - 1 ensures Edge(g, p[k], p[k + 1]) {
        assert Edge(g, chain[i + k], chain[i + k + 1]);
      }
    }
    assert p[0] == Last(p);
  }

  /** Along a path the position in a topological order only falls. */
  lemma {:induction false} PathDescends(g: Graph, order: seq<Name>, p: seq<Name>, at: nat)
    requires Topological(g, order) && IsPath(g, p) && |p| >= 2
    requires at < |order| && order[at] == p[0]
    ensures Last(p) in order[..at]
  {
    assert Edge(g, p[0], p[1]);
    var next :| 0 <= next < at && order[next] == p[1];
    if |p| > 2 {
      var rest := p[1..];
      assert IsPath(g, rest) by {
        forall k | 0 <= k < |rest| - 1 ensures Edge(g, rest[k], rest[k + 1]) {
          assert Edge(g, p[k + 1], p[k + 2]);
        }
      }
      PathDescends(g, order, rest, next);
      assert Last(p) in order[..next];
    }
  }

  lemma TopologicalIsAcyclic(g: Graph, order: seq<Name>)
    requires Topological(g, order)
    ensures !Cyclic(g)
  {
    if Cyclic(g) {
      var p :| IsPath(g, p) && |p| >= 2 && p[0] == Last(p);
      var at :| 0 <= at < |order| && order[at] == p[0];
      PathDescends(g, order, p, at);
      assert false;
    }
  }

  datatype Mark = Visiting | Done

  /**
   The marks of the walk: the names marked visiting are exactly the current
   chain, and the names marked done stand in `order` after all their dependencies.
   */
  ghost predicate Consistent(g: Graph, state: map<Name, Mark>, order: seq<Name>, chain: seq<Name>) {
    && (forall n :: n in state ==> n in g)
    && (forall n :: n in order <==> n in state && state[n] == Done)
    && (forall n :: n in chain <==> n in state && state[n] == Visiting)
    && Distinct(order)
    && Distinct(chain)
    && (chain != [] ==> IsPath(g, chain))
    && DependenciesFirst(g, order)
  }

  lemma EnterName(g: Graph, state: map<Name, Mark>, order: seq<Name>, chain: seq<Name>, name: Name)
    requires Consistent(g, state, order, chain)
    requires name in g && name !in state
    requires chain != [] ==> Edge(g, Last(chain), name)
    ensures Consistent(g, state[name := Visiting], order, chain + [name])
  {
    ExtendPath(g, chain, name);
  }

  lemma LeaveName(g: Graph, state: map<Name, Mark>, order: seq<Name>, chain: seq<Name>, name: Name)
    requires Consistent(g, state, order, chain + [name])
    requires forall d :: Edge(g, name, d) ==> d in order
    requires chain != [] ==> IsPath(g, chain)
    ensures Consistent(g, state[name := Done], order + [name], chain)
  {
    var here := chain + [name];
    assert here[|chain|] == name;
    assert name in here && name !in order;
    forall n ensures n in chain <==> n in here && n != name {
      if n in chain {
        var k :| 0 <= k < |chain| && chain[k] == n;
        assert here[k] == n;
      }
    }
    assert Distinct(chain) by {
      assert forall i :: 0 <= i < |chain| ==> here[i] == chain[i];
    }
    var after := order + [name];
    forall i, d | 0 <= i < |after| && Edge(g, after[i], d) ensures d in after[..i] {
      if i < |order| {
        assert after[..i] == order[..i];
      } else {
        assert after[..i] == order;
      }
    }
  }

  class CycleChecker {
    const graph: Graph
    var state: map<Name, Mark>
    /** The names in the order in which they were marked done. */
    ghost var order: seq<Name>

    ghost predicate Valid(chain: seq<Name>)
      reads this
    {
      Consistent(graph, state, order, chain)
    }

    constructor (g: Graph)
      ensures graph == g && order == [] && Valid([])
    {
      graph := g;
      state := map[];
      order := [];
    }

    /** Returns the reported chain when the walk finds a cycle. */
    method Visit(name: Name, chain: seq<Name>) returns (cycle: Option<seq<Name>>)
      requires Valid(chain) && name in graph
      requires chain != [] ==> Edge(graph, Last(chain), name)
      modifies this
      ensures cycle.Some? ==> ClosesCycle(graph, cycle.value) && chain <= cycle.value
      ensures cycle.None? ==> Valid(chain) && name in order && old(order) <= order
      decreases graph.Keys - set n | n in chain
    {
      if name in state {
        if state[name] == Done {
          return None;
        }
        ExtendPath(graph, chain, name);
        assert (chain + [name])[..|chain|] == chain;
        return Some(chain + [name]);
      }
      EnterName(graph, state, order, chain, name);
      assert name !in chain;
      state := state[name := Visiting];
      var here := chain + [name];
      assert (set n | n in here) == (set n | n in chain) + {name};
      var deps := graph[name];
      var i := 0;
      while i < |deps|
        invariant 0 <= i <= |deps|
        invariant Valid(here)
        invariant old(order) <= order
        invariant forall k :: 0 <= k < i && deps[k] in graph ==> deps[k] in order
      {
        if deps[i] in graph {
          cycle := Visit(deps[i], here);
          if cycle.Some? {
            assert chain <= here <= cycle.value;
            return;
          }
        }
        i := i + 1;
      }
      LeaveName(graph, state, order, chain, name);
      state, order := state[name := Done], order + [name];
      return None;
    }
  }

  /** Returns the reported chain, or nothing when the graph may be published. */
  method AssertAcyclic(names: seq<Name>, graph: Graph) returns (cycle: Option<seq<Name>>, ghost order: seq<Name>)
    requires forall n :: n in names <==> n in graph
    ensures cycle.Some? <==> Cyclic(graph)
    ensures cycle.Some? ==> ClosesCycle(graph, cycle.value)
    ensures cycle.None? ==> Topological(graph, order)
  {
    var checker := new CycleChecker(graph);
    var i := 0;
    while i < |names|
      invariant 0 <= i <= |names|
      invariant checker.graph == graph
      invariant checker.Valid([])
      invariant forall k :: 0 <= k < i ==> names[k] in checker.order
    {
      cycle := checker.Visit(names[i], []);
      if cycle.Some? {
        ClosedChainIsCyclic(graph, cycle.value);
        order := [];
        return;
      }
      i := i + 1;
    }
    order := checker.order;
    TopologicalIsAcyclic(graph, order);
    return None, order;
  }
}
