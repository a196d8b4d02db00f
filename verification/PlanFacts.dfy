/** What the users of a plan rely on. */
module PlanFacts {
  import opened Finite
  import opened Graphs
  import opened Text
  import opened Plans

  ghost function PlanGraph(plan: Plan): (g: Graph)
    ensures g.Keys == plan.nodes.Keys
  {
    map x | x in plan.nodes :: Elements(plan.nodes[x].dependsOn)
  }

  /** A plan as the scheduler and the reconciler take it. */
  ghost predicate Sound(plan: Plan)
  {
    var g := PlanGraph(plan);
    && TopologicalOrder(g, plan.startOrder) && plan.startOrder != []
    && (forall x :: x in plan.nodes ==> TrimSpace(x) != "")
    && (forall x :: x in plan.nodes ==>
          && Distinct(plan.nodes[x].dependsOn) && Distinct(plan.nodes[x].dependents)
          && Elements(plan.nodes[x].dependents) == DependentsOf(g, x))
    && (forall x, y :: x in plan.nodes && y in plan.nodes && plan.nodes[x].ordinal == plan.nodes[y].ordinal ==> x == y)
  }

  lemma {:induction false} GraphOfPlan(items: seq<Item>, plan: Plan)
    requires WellFormed(items) && Describes(items, plan)
    ensures PlanGraph(plan) == GraphOf(items)
  {
    hide TrimSpace, GraphOf, InOrder, LongestChain, TopologicalOrder;
    GraphKeys(items);
    forall x | x in plan.nodes ensures x in GraphOf(items) && Elements(plan.nodes[x].dependsOn) == GraphOf(items)[x] {
      var i :| 0 <= i < |items| && items[i].id == x;
      GraphAt(items, i);
      assert NodeOf(items, i, plan.nodes[x]);
    }
  }

  /** Every plan that Build returns is sound. */
  lemma {:induction false} BuiltIsSound(items: seq<Item>, plan: Plan)
    requires WellFormed(items) && Describes(items, plan)
    ensures Sound(plan)
  {
    hide TrimSpace, GraphOf, InOrder, LongestChain, TopologicalOrder, PlanGraph;
    GraphOfPlan(items, plan);
    forall x | x in plan.nodes
      ensures TrimSpace(x) != "" && Distinct(plan.nodes[x].dependsOn) && Distinct(plan.nodes[x].dependents)
      ensures Elements(plan.nodes[x].dependents) == DependentsOf(GraphOf(items), x)
    {
      NodeFacts(items, plan, x);
    }
    forall x, y | x in plan.nodes && y in plan.nodes && plan.nodes[x].ordinal == plan.nodes[y].ordinal ensures x == y {
      SameOrdinal(items, plan, x, y);
    }
    OrderNotEmpty(items, plan);
  }

  lemma {:induction false} NodeFacts(items: seq<Item>, plan: Plan, x: string)
    requires WellFormed(items) && Describes(items, plan) && x in plan.nodes
    ensures TrimSpace(x) != "" && Distinct(plan.nodes[x].dependsOn) && Distinct(plan.nodes[x].dependents)
    ensures Elements(plan.nodes[x].dependents) == DependentsOf(GraphOf(items), x)
  {
    hide TrimSpace, GraphOf, InOrder, LongestChain, TopologicalOrder, PlanGraph;
    var i :| 0 <= i < |items| && items[i].id == x;
    assert NodeOf(items, i, plan.nodes[x]) && ItemClosed(items, items[i]);
    DependentsListed(items, x);
  }

  lemma {:induction false} SameOrdinal(items: seq<Item>, plan: Plan, x: string, y: string)
    requires WellFormed(items) && Describes(items, plan)
    requires x in plan.nodes && y in plan.nodes && plan.nodes[x].ordinal == plan.nodes[y].ordinal
    ensures x == y
  {
    hide TrimSpace, GraphOf, InOrder, LongestChain, TopologicalOrder, PlanGraph, ItemClosed;
    var i :| 0 <= i < |items| && items[i].id == x;
    var j :| 0 <= j < |items| && items[j].id == y;
    assert NodeOf(items, i, plan.nodes[x]) && NodeOf(items, j, plan.nodes[y]);
  }

  lemma {:induction false} DependentsListed(items: seq<Item>, x: string)
    requires Named(items)
    ensures var a := InOrder(items, DependentsOf(GraphOf(items), x));
            Distinct(a) && Elements(a) == DependentsOf(GraphOf(items), x)
  {
    hide TrimSpace, GraphOf;
    var s := DependentsOf(GraphOf(items), x);
    InOrderDistinct(items, s);
    InOrderElements(items, s);
    GraphKeys(items);
    assert s * Ids(items) == s;
  }

  lemma {:induction false} OrderNotEmpty(items: seq<Item>, plan: Plan)
    requires items != [] && TopologicalOrder(GraphOf(items), plan.startOrder)
    ensures plan.startOrder != []
  {
    hide GraphOf, DepsFirst;
    GraphKeys(items);
    assert items[0].id in Ids(items);
  }

  lemma {:induction false} LongestChainUnique(g: Graph, x: string, m: nat, n: nat)
    requires LongestChain(g, x, m) && LongestChain(g, x, n)
    ensures m == n
  {
    var p :| Walk(g, p) && p[0] == x && |p| == m + 1;
    var q :| Walk(g, q) && q[0] == x && |q| == n + 1;
  }

  /** The same nodes in the same order with the same dependency sets. */
  ghost predicate SameSets(a: seq<Item>, b: seq<Item>)
  {
    |a| == |b| && forall i :: 0 <= i < |a| ==> a[i].id == b[i].id && Elements(a[i].dependsOn) == Elements(b[i].dependsOn)
  }

  lemma {:induction false} SameGraphs(a: seq<Item>, b: seq<Item>)
    requires SameSets(a, b)
    ensures GraphOf(a) == GraphOf(b) && Ids(a) == Ids(b)
    ensures forall s :: InOrder(a, s) == InOrder(b, s)
  {
    if a == [] {
      assert b == [];
    } else {
      SameGraphs(a[..|a| - 1], b[..|b| - 1]);
      IdsGrow(a);
      IdsGrow(b);
    }
  }

  /** Levels and orders do not depend on the order inside each DependsOn. */
  lemma {:induction false} ListOrderIrrelevant(a: seq<Item>, b: seq<Item>, p: Plan, q: Plan)
    requires WellFormed(a) && WellFormed(b) && SameSets(a, b) && Describes(a, p) && Describes(b, q)
    ensures p.levels == q.levels && p.startOrder == q.startOrder && p.stopOrder == q.stopOrder
  {
    hide TrimSpace, GraphOf, LongestChain, TopologicalOrder, InOrder, Flatten, DependentsOf, Ids;
    SameGraphs(a, b);
    forall x | x in p.nodes ensures x in q.nodes && p.nodes[x].level == q.nodes[x].level { SameLevel(a, b, p, q, x); }
    forall k: nat ensures LevelSet(p, k) == LevelSet(q, k) {}
    forall k | 0 <= k < |p.levels| && k < |q.levels| ensures p.levels[k] == q.levels[k] {
      assert p.levels[k] == InOrder(a, LevelSet(p, k));
    }
    LevelCount(a, p, q);
    LevelCount(b, q, p);
  }

  lemma {:induction false} SameLevel(a: seq<Item>, b: seq<Item>, p: Plan, q: Plan, x: string)
    requires SameSets(a, b) && Describes(a, p) && Describes(b, q) && GraphOf(a) == GraphOf(b) && x in p.nodes
    ensures x in q.nodes && p.nodes[x].level == q.nodes[x].level
  {
    hide TrimSpace, GraphOf, LongestChain, TopologicalOrder, InOrder, Flatten, DependentsOf;
    var i :| 0 <= i < |a| && a[i].id == x;
    assert NodeOf(a, i, p.nodes[x]) && NodeOf(b, i, q.nodes[x]);
    LongestChainUnique(GraphOf(a), x, p.nodes[x].level, q.nodes[x].level);
  }

  /** No level of p lies above the levels of q. */
  lemma {:induction false} LevelCount(items: seq<Item>, p: Plan, q: Plan)
    requires Describes(items, p)
    requires forall x :: x in p.nodes ==> x in q.nodes && p.nodes[x].level == q.nodes[x].level && q.nodes[x].level < |q.levels|
    ensures |p.levels| <= |q.levels|
  {
    hide TrimSpace, GraphOf, LongestChain, TopologicalOrder, InOrder, Flatten, DependentsOf;
    if |p.levels| > 0 {
      var k := |p.levels| - 1;
      assert p.levels[k] != [] && p.levels[k] == InOrder(items, LevelSet(p, k));
      InOrderElements(items, LevelSet(p, k));
      assert p.levels[k][0] in Elements(p.levels[k]);
    }
  }

  /** The stop order stops every node before its dependencies. */
  lemma {:induction false} StopsDependentsFirst(plan: Plan, i: nat, d: string)
    requires Sound(plan) && plan.stopOrder == Reversed(plan.startOrder)
    requires i < |plan.stopOrder| && plan.stopOrder[i] in plan.nodes && d in plan.nodes[plan.stopOrder[i]].dependsOn
    ensures d in plan.stopOrder[i + 1..]
  {
    hide TrimSpace, DependentsOf, Distinct, Reversed;
    var n := |plan.startOrder|;
    ReversedAt(plan.startOrder, i);
    assert d in Elements(plan.startOrder[..n - 1 - i]);
    var k :| 0 <= k < n - 1 - i && plan.startOrder[k] == d;
    ReversedAfter(plan.startOrder, i, k);
  }

  lemma {:induction false} ReversedAt(order: seq<string>, i: nat)
    requires i < |Reversed(order)|
    ensures |Reversed(order)| == |order| && Reversed(order)[i] == order[|order| - 1 - i]
  {
  }

  lemma {:induction false} ReversedAfter(order: seq<string>, i: nat, k: nat)
    requires k < |order| - 1 - i && i < |Reversed(order)|
    ensures order[k] in Reversed(order)[i + 1..]
  {
    var m := |order| - 1 - k;
    assert Reversed(order)[m] == order[k] && Reversed(order)[i + 1..][m - (i + 1)] == Reversed(order)[m];
  }

  /** The members of s in the given order. */
  ghost function Filtered(order: seq<string>, s: set<string>): seq<string>
  {
    if order == [] then []
    else Filtered(order[..|order| - 1], s) + if order[|order| - 1] in s then [order[|order| - 1]] else []
  }

  lemma {:induction false} FilteredElements(order: seq<string>, s: set<string>)
    ensures Elements(Filtered(order, s)) == s * Elements(order)
  {
    if order != [] {
      var front, last := order[..|order| - 1], order[|order| - 1];
      FilteredElements(front, s);
      assert order == front + [last];
      ElementsAppend(front, last);
      ElementsAppend(Filtered(front, s), last);
      assert Filtered(front, s) + [] == Filtered(front, s);
    }
  }

  lemma {:induction false} FilteredDistinct(order: seq<string>, s: set<string>)
    requires Distinct(order)
    ensures Distinct(Filtered(order, s))
  {
    if order != [] {
      var front, last := order[..|order| - 1], order[|order| - 1];
      FilteredDistinct(front, s);
      FilteredElements(front, s);
      assert last !in Elements(front) by { assert last !in front; }
      DistinctAppend(Filtered(front, s), last);
      assert Filtered(front, s) + [] == Filtered(front, s);
    }
  }

  lemma {:induction false} FilteredStep(order: seq<string>, i: nat, s: set<string>)
    requires i < |order|
    ensures Filtered(order[..i + 1], s) == Filtered(order[..i], s) + if order[i] in s then [order[i]] else []
  {
    assert order[..i + 1][..i] == order[..i];
  }

  lemma {:induction false} OrderListsNodes(plan: Plan)
    requires Sound(plan)
    ensures Distinct(plan.startOrder) && Elements(plan.startOrder) == plan.nodes.Keys
    ensures plan.startOrder != [] && plan.startOrder[0] in plan.nodes
  {
    hide DependentsOf, DepsFirst, TrimSpace;
    assert plan.startOrder[0] in Elements(plan.startOrder);
  }

  lemma {:induction false} DependenciesAreNodes(plan: Plan, n: string)
    requires Sound(plan) && n in plan.nodes
    ensures Elements(plan.nodes[n].dependsOn) <= plan.nodes.Keys
    ensures forall d :: d in plan.nodes[n].dependsOn ==> d in plan.nodes
  {
    hide DependentsOf, Distinct;
    var order := plan.startOrder;
    assert n in Elements(order);
    var i :| 0 <= i < |order| && order[i] == n;
    assert PlanGraph(plan)[order[i]] <= Elements(order[..i]);
    assert Elements(order[..i]) <= Elements(order);
    forall d | d in plan.nodes[n].dependsOn ensures d in plan.nodes { assert d in Elements(plan.nodes[n].dependsOn); }
  }

  lemma {:induction false} FilteredAll(a: seq<string>, s: set<string>)
    ensures Elements(a) <= s ==> Filtered(a, s) == a
    ensures Elements(a) !! s ==> Filtered(a, s) == []
  {
    if a != [] {
      var c := a[..|a| - 1];
      FilteredAll(c, s);
      assert Elements(c) <= Elements(a) && a[|a| - 1] in Elements(a);
      assert a == c + [a[|a| - 1]];
    }
  }
}
