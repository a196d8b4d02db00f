/** The depth-first cycle check over the chosen manifests. */
module Cycles {
  import opened Finite
  import opened Lexicographic
  import opened Text
  import opened Registry
  import opened Solver
  import opened Graphs

  /** Who depends on whom. A dependency without a manifest is a node that
      depends on nothing, as a missing key reads as the empty manifest. */
  function DependencyGraph(ms: Choice): Graph
  {
    map id | id in ms.Keys + (set x, d | x in ms && d in Targets(ms[x].dependencies) :: d) ::
      if id in ms then Targets(ms[id].dependencies) else {}
  }

  function Dependencies(ms: Choice, id: string): seq<Dependency> { if id in ms then ms[id].dependencies else [] }

  lemma {:induction false} GraphFacts(ms: Choice)
    ensures IsGraphOf(DependencyGraph(ms), ms)
  {
    var g := DependencyGraph(ms);
    forall id | id in g ensures g[id] == Targets(Dependencies(ms, id)) && g[id] <= g.Keys {}
  }

  ghost predicate IsGraphOf(g: Graph, ms: Choice)
  {
    ms.Keys <= g.Keys && forall id :: id in g ==> g[id] == Targets(Dependencies(ms, id)) && g[id] <= g.Keys
  }

  /** The colours: 1 for the nodes on the stack, which is a walk; 2 for finished
      nodes, whose finishing order has dependencies first. */
  ghost predicate Coloured(g: Graph, state: map<string, nat>, stack: seq<string>, order: seq<string>)
  {
    && (stack == [] || Walk(g, stack)) && Distinct(stack)
    && DepsFirst(g, order)
    && state.Keys <= g.Keys
    && (forall x :: x in stack <==> x in state && state[x] == 1)
    && (forall x :: x in order <==> x in state && state[x] == 2)
    && (forall x :: x in state ==> state[x] == 1 || state[x] == 2)
  }

  ghost predicate Enterable(g: Graph, stack: seq<string>, id: string)
  {
    stack != [] ==> Edge(g, stack[|stack| - 1], id)
  }

  lemma {:induction false} StackGrows(g: Graph, stack: seq<string>, id: string)
    requires (stack == [] || Walk(g, stack)) && Enterable(g, stack, id)
    ensures Walk(g, stack + [id])
  {
    var w := stack + [id];
    forall i | 0 <= i < |w| - 1 ensures Edge(g, w[i], w[i + 1]) {
      if i < |stack| - 1 { assert Edge(g, stack[i], stack[i + 1]); }
    }
  }

  lemma {:induction false} Enter(g: Graph, state: map<string, nat>, stack: seq<string>, order: seq<string>, id: string)
    requires Coloured(g, state, stack, order) && id in g && Enterable(g, stack, id) && id !in state
    ensures Coloured(g, state[id := 1], stack + [id], order)
  {
    StackGrows(g, stack, id);
  }

  lemma {:induction false} Finish(g: Graph, state: map<string, nat>, stack: seq<string>, order: seq<string>, id: string)
    requires Coloured(g, state, stack + [id], order) && g[id] <= Elements(order)
    ensures Coloured(g, state[id := 2], stack, order + [id])
  {
    var w := stack + [id];
    assert id in w;
    FinishKeepsOrder(g, order, id);
    if stack != [] {
      forall i | 0 <= i < |stack| - 1 ensures Edge(g, stack[i], stack[i + 1]) { assert Edge(g, w[i], w[i + 1]); }
    }
    forall i | 0 <= i < |stack| ensures stack[i] != id && stack[i] in w {
      assert w[i] == stack[i] && w[|stack|] == id;
    }
    forall x ensures x in w <==> x in stack || x == id {}
    forall x ensures x in order + [id] <==> x in order || x == id {}
    assert Distinct(stack) by {
      forall i, j | 0 <= i < j < |stack| ensures stack[i] != stack[j] { assert w[i] != w[j]; }
    }
  }

  class CycleChecker {
    const ms: Choice
    ghost const g: Graph
    var state: map<string, nat>
    var stack: seq<string>
    /** Finished nodes, in the order they were finished. */
    ghost var order: seq<string>

    ghost predicate Valid()
      reads this
    {
      IsGraphOf(g, ms) && Coloured(g, state, stack, order)
    }

    constructor (ms: Choice)
      ensures Valid() && this.ms == ms && g == DependencyGraph(ms)
      ensures stack == [] && order == [] && state == map[]
    {
      GraphFacts(ms);
      this.ms := ms;
      g := DependencyGraph(ms);
      state, stack, order := map[], [], [];
    }

    /** Reports a walk that closes on itself, or finishes id. */
    method Visit(id: string) returns (cycle: Option<seq<string>>)
      requires Valid() && id in g && Enterable(g, stack, id)
      modifies this
      ensures cycle.Some? ==> ClosesOnItself(g, cycle.value)
      ensures cycle.None? ==> Valid() && stack == old(stack) && id in Elements(order)
      ensures cycle.None? ==> Grew(old(state), old(order), state, order)
      decreases |g.Keys - state.Keys|, 0
    {
      hide Coloured, IsGraphOf, Elements, Enterable, ClosesOnItself, Dependencies, TargetsIn, Grew;
      if id in state && state[id] == 1 {
        BackEdge(g, state, stack, order, id);
        return Some(stack + [id]);
      }
      if id in state && state[id] == 2 {
        Finished(g, state, stack, order, id);
        Grown(state, order, state, order);
        return None;
      }
      Fresh(g, state, stack, order, id);
      Enter(g, state, stack, order, id);
      state := state[id := 1];
      stack := stack + [id];
      ghost var entered := state;
      Grown(old(state), order, entered, order);
      cycle := VisitDependencies(id);
      if cycle.Some? { return; }
      AllFinished(g, ms, order, id);
      Finish(g, state, old(stack), order, id);
      ElementsAppend(order, id);
      GrewByFinishing(entered, old(order), state, order, id);
      stack := stack[..|stack| - 1];
      state := state[id := 2];
      order := order + [id];
      assert stack == old(stack);
      GrewTwice(old(state), old(order), entered, old(order), state, order);
      return None;
    }

    /** The loop of Visit: every dependency of the node on top of the stack. */
    method VisitDependencies(id: string) returns (cycle: Option<seq<string>>)
      requires Valid() && id in g && stack != [] && stack[|stack| - 1] == id
      modifies this
      ensures cycle.Some? ==> ClosesOnItself(g, cycle.value)
      ensures cycle.None? ==> Valid() && stack == old(stack) && Grew(old(state), old(order), state, order)
      ensures cycle.None? ==> TargetsIn(Dependencies(ms, id), |Dependencies(ms, id)|, Elements(order))
      decreases |g.Keys - state.Keys|, 1
    {
      hide Coloured, IsGraphOf, Elements, Enterable, ClosesOnItself, Dependencies, TargetsIn, Grew;
      var deps := Dependencies(ms, id);
      NoTargets(deps, Elements(order));
      Grown(state, order, state, order);
      for i := 0 to |deps|
        invariant Valid() && stack == old(stack)
        invariant Grew(old(state), old(order), state, order)
        invariant TargetsIn(deps, i, Elements(order))
      {
        ghost var before, ordered := state, order;
        DependencyEnterable(g, ms, stack, id, i);
        GrewMeasure(g, old(state), old(order), state, order);
        cycle := Visit(deps[i].id);
        if cycle.Some? { return; }
        OneMoreTarget(deps, i, before, ordered, state, order);
        GrewTwice(old(state), old(order), before, ordered, state, order);
      }
      return None;
    }
  }

  ghost predicate TargetsIn(deps: seq<Dependency>, n: nat, s: set<string>)
    requires n <= |deps|
  {
    forall j :: 0 <= j < n ==> deps[j].id in s
  }

  lemma {:induction false} NoTargets(deps: seq<Dependency>, s: set<string>)
    ensures TargetsIn(deps, 0, s)
  {
  }

  ghost predicate Grew(s0: map<string, nat>, o0: seq<string>, s1: map<string, nat>, o1: seq<string>)
  {
    s0.Keys <= s1.Keys && Elements(o0) <= Elements(o1)
  }

  lemma {:induction false} Grown(s0: map<string, nat>, o0: seq<string>, s1: map<string, nat>, o1: seq<string>)
    requires s0.Keys <= s1.Keys && o0 == o1
    ensures Grew(s0, o0, s1, o1)
  {
  }

  lemma {:induction false} GrewTwice(s0: map<string, nat>, o0: seq<string>, s1: map<string, nat>, o1: seq<string>,
                                     s2: map<string, nat>, o2: seq<string>)
    requires Grew(s0, o0, s1, o1) && Grew(s1, o1, s2, o2)
    ensures Grew(s0, o0, s2, o2)
  {
  }

  lemma {:induction false} GrewMeasure(g: Graph, s0: map<string, nat>, o0: seq<string>, s1: map<string, nat>, o1: seq<string>)
    requires Grew(s0, o0, s1, o1)
    ensures |g.Keys - s1.Keys| <= |g.Keys - s0.Keys|
  {
    SubsetSize(g.Keys - s1.Keys, g.Keys - s0.Keys);
  }

  lemma {:induction false} GrewByFinishing(s0: map<string, nat>, o0: seq<string>, s1: map<string, nat>, o1: seq<string>, id: string)
    requires Grew(s0, o0, s1, o1)
    ensures Grew(s0, o0, s1[id := 2], o1 + [id])
  {
    ElementsAppend(o1, id);
  }

  lemma {:induction false} OneMoreTarget(deps: seq<Dependency>, n: nat, s0: map<string, nat>, o0: seq<string>,
                                         s1: map<string, nat>, o1: seq<string>)
    requires n < |deps| && TargetsIn(deps, n, Elements(o0)) && Grew(s0, o0, s1, o1) && deps[n].id in Elements(o1)
    ensures TargetsIn(deps, n + 1, Elements(o1))
  {
  }

  ghost predicate ClosesOnItself(g: Graph, w: seq<string>) { w != [] && Lasso(g, w[0], w) }

  lemma {:induction false} BackEdge(g: Graph, state: map<string, nat>, stack: seq<string>, order: seq<string>, id: string)
    requires Coloured(g, state, stack, order) && Enterable(g, stack, id) && id in state && state[id] == 1
    ensures ClosesOnItself(g, stack + [id])
  {
    StackGrows(g, stack, id);
    var k :| 0 <= k < |stack| && stack[k] == id;
    assert (stack + [id])[k] == (stack + [id])[|stack|];
  }

  lemma {:induction false} Finished(g: Graph, state: map<string, nat>, stack: seq<string>, order: seq<string>, id: string)
    requires Coloured(g, state, stack, order) && id in state && state[id] == 2
    ensures id in Elements(order)
  {
  }

  lemma {:induction false} Fresh(g: Graph, state: map<string, nat>, stack: seq<string>, order: seq<string>, id: string)
    requires Coloured(g, state, stack, order) && id in g
    requires !(id in state && state[id] == 1) && !(id in state && state[id] == 2)
    ensures id !in state && |g.Keys - state[id := 1].Keys| < |g.Keys - state.Keys|
  {
    assert id in g.Keys - state.Keys && id !in g.Keys - state[id := 1].Keys;
    SmallerSet(g.Keys - state[id := 1].Keys, g.Keys - state.Keys);
  }

  lemma {:induction false} DependencyEnterable(g: Graph, ms: Choice, stack: seq<string>, id: string, i: nat)
    requires IsGraphOf(g, ms) && stack != [] && stack[|stack| - 1] == id && id in g && i < |Dependencies(ms, id)|
    ensures Dependencies(ms, id)[i].id in g && Enterable(g, stack, Dependencies(ms, id)[i].id)
  {
    assert Dependencies(ms, id)[i].id in Targets(Dependencies(ms, id));
  }

  lemma {:induction false} AllFinished(g: Graph, ms: Choice, order: seq<string>, id: string)
    requires IsGraphOf(g, ms) && id in g
    requires TargetsIn(Dependencies(ms, id), |Dependencies(ms, id)|, Elements(order))
    ensures g[id] <= Elements(order)
  {
  }

  lemma {:induction false} FinishKeepsOrder(g: Graph, order: seq<string>, id: string)
    requires DepsFirst(g, order) && id in g && g[id] <= Elements(order)
    ensures DepsFirst(g, order + [id])
  {
    var w := order + [id];
    forall i | 0 <= i < |w| ensures w[i] in g && g[w[i]] <= Elements(w[..i]) {
      if i < |order| { assert w[..i] == order[..i]; } else { assert w[..i] == order; }
    }
  }

  /** nil exactly on acyclic graphs; otherwise the reported walk closes on itself. */
  method CheckCycles(ms: Choice) returns (cycle: Option<seq<string>>)
    ensures cycle.None? <==> Acyclic(DependencyGraph(ms))
    ensures cycle.Some? ==> ClosesOnItself(DependencyGraph(ms), cycle.value)
  {
    hide DependencyGraph, Coloured;
    var ids := SortedKeys(ms.Keys);
    var checker := new CycleChecker(ms);
    for i := 0 to |ids|
      invariant checker.Valid() && checker.ms == ms && checker.g == DependencyGraph(ms) && checker.stack == []
      invariant forall j :: 0 <= j < i ==> ids[j] in Elements(checker.order)
    {
      assert ids[i] in ids;
      cycle := checker.Visit(ids[i]);
      if cycle.Some? {
        LassoHasCycle(DependencyGraph(ms), cycle.value[0], cycle.value);
        return;
      }
    }
    forall id | id in ms ensures id in Elements(checker.order) { assert id in ids; }
    EverythingFinished(ms, checker.state, checker.stack, checker.order);
    return None;
  }

  lemma {:induction false} EverythingFinished(ms: Choice, state: map<string, nat>, stack: seq<string>, order: seq<string>)
    requires Coloured(DependencyGraph(ms), state, stack, order) && ms.Keys <= Elements(order)
    ensures Acyclic(DependencyGraph(ms))
  {
    var g := DependencyGraph(ms);
    forall id | id in g ensures id in Elements(order) {
      if id !in ms {
        var x, d :| x in ms && d in Targets(ms[x].dependencies) && d == id;
        assert x in Elements(order);
        var k :| 0 <= k < |order| && order[k] == x;
        assert id in Elements(order[..k]);
      }
    }
    OrderMeansAcyclic(g, order);
  }
}
