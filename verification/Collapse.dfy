/** Merging logical nodes into physical ones. */
module Collapse {
  import opened Finite
  import opened Graphs
  import opened Text
  import opened Plans
  import opened PlanBuilder
  import opened PlanFacts

  datatype Collapsed = Built(result: Plans.Result) | NoTarget(logical: string)

  /** The physical target of a logical node; a missing key reads as "". */
  function Target(targets: map<string, string>, x: string): string { if x in targets then targets[x] else "" }

  /** The targets of the dependencies that leave p. */
  ghost function External(targets: map<string, string>, p: string, dependsOn: set<string>): set<string>
  {
    set d | d in dependsOn && Target(targets, d) != p :: Target(targets, d)
  }

  /** The external targets of all the listed nodes merged into p. */
  ghost function MergedEdges(g: Graph, targets: map<string, string>, nodes: set<string>, p: string): set<string>
  {
    set x, q | x in nodes && x in g && Target(targets, x) == p && q in External(targets, p, g[x]) :: q
  }

  ghost function Images(targets: map<string, string>, nodes: set<string>): set<string>
  {
    set x | x in nodes :: Target(targets, x)
  }

  /** The graph of the merged nodes: one depends on another if some member does. */
  ghost function Quotient(g: Graph, targets: map<string, string>): Graph
  {
    map p | p in Images(targets, g.Keys) :: MergedEdges(g, targets, g.Keys, p)
  }

  /** x's dependency d is started before x unless they are the same physical node. */
  ghost predicate StartsBefore(order: seq<string>, first: string, second: string)
  {
    exists i, j :: 0 <= i < j < |order| && order[i] == first && order[j] == second
  }

  ghost predicate RespectsLogical(logical: Plan, targets: map<string, string>, order: seq<string>)
  {
    forall x, d :: x in logical.nodes && d in logical.nodes[x].dependsOn && Target(targets, d) != Target(targets, x) ==>
      StartsBefore(order, Target(targets, d), Target(targets, x))
  }

  /** The inner loop: the external targets of one node, appended without repeats. */
  method AppendTargets(dependsOn: seq<string>, targets: map<string, string>, p: string, known: seq<string>)
    returns (edges: seq<string>, missing: Option<string>)
    requires Distinct(known)
    ensures missing.None? <==> forall d :: d in dependsOn ==> Target(targets, d) != ""
    ensures missing.None? ==> Distinct(edges) && Elements(edges) == Elements(known) + External(targets, p, Elements(dependsOn))
  {
    hide Distinct, Elements;
    edges := known;
    TargetsNone(dependsOn, targets, p);
    for j := 0 to |dependsOn|
      invariant forall k :: 0 <= k < j ==> Target(targets, dependsOn[k]) != ""
      invariant Distinct(edges) && Elements(edges) == Elements(known) + External(targets, p, Elements(dependsOn[..j]))
    {
      var q := Target(targets, dependsOn[j]);
      if q == "" { return edges, Some(dependsOn[j]); }
      TargetsOneMore(dependsOn, targets, p, j);
      MemberOf(edges, q);
      if q != p && q !in edges {
        ElementsAppend(edges, q);
        DistinctAppend(edges, q);
        edges := edges + [q];
      }
    }
    assert dependsOn[..|dependsOn|] == dependsOn;
    return edges, None;
  }

  lemma {:induction false} MemberOf(a: seq<string>, x: string)
    ensures x in Elements(a) <==> x in a
  {
  }

  lemma {:induction false} TargetsNone(dependsOn: seq<string>, targets: map<string, string>, p: string)
    ensures External(targets, p, Elements(dependsOn[..0])) == {}
  {
  }

  lemma {:induction false} TargetsOneMore(dependsOn: seq<string>, targets: map<string, string>, p: string, j: nat)
    requires j < |dependsOn|
    ensures var q := Target(targets, dependsOn[j]);
            External(targets, p, Elements(dependsOn[..j + 1])) ==
            External(targets, p, Elements(dependsOn[..j])) + if q != p then {q} else {}
  {
    assert dependsOn[..j + 1] == dependsOn[..j] + [dependsOn[j]];
    ElementsAppend(dependsOn[..j], dependsOn[j]);
  }

  /** The edges collected from the first nodes of the start order. */
  ghost predicate Merging(g: Graph, targets: map<string, string>, done: set<string>, order: seq<string>, edges: map<string, seq<string>>)
  {
    && Distinct(order) && Elements(order) == Images(targets, done)
    && (forall p :: Distinct(At(edges, p)) && Elements(At(edges, p)) == MergedEdges(g, targets, done, p))
  }

  lemma {:induction false} MergingNone(g: Graph, targets: map<string, string>)
    ensures Merging(g, targets, {}, [], map[])
  {
  }

  lemma {:induction false} MergingOneMore(g: Graph, targets: map<string, string>, done: set<string>, x: string,
                                          order: seq<string>, edges: map<string, seq<string>>, merged: seq<string>)
    requires Merging(g, targets, done, order, edges) && x in g
    requires var p := Target(targets, x);
             Distinct(merged) && Elements(merged) == Elements(At(edges, p)) + External(targets, p, g[x])
    ensures var p := Target(targets, x);
            Merging(g, targets, done + {x}, if p in Elements(order) then order else order + [p], edges[p := merged])
  {
    hide External, Distinct, Elements;
    var p := Target(targets, x);
    var order', edges', done' := if p in Elements(order) then order else order + [p], edges[p := merged], done + {x};
    if p !in Elements(order) {
      DistinctAppend(order, p);
      ElementsAppend(order, p);
    }
    ImagesGrow(targets, done, x);
    assert Elements(order') == Images(targets, done');
    forall q ensures Distinct(At(edges', q)) && Elements(At(edges', q)) == MergedEdges(g, targets, done', q) {
      EdgesGrow(g, targets, done, x, q);
      assert At(edges', q) == if q == p then merged else At(edges, q);
    }
  }

  lemma {:induction false} ImagesGrow(targets: map<string, string>, done: set<string>, x: string)
    ensures Images(targets, done + {x}) == Images(targets, done) + {Target(targets, x)}
  {
  }

  lemma {:induction false} EdgesGrow(g: Graph, targets: map<string, string>, done: set<string>, x: string, q: string)
    requires x in g
    ensures MergedEdges(g, targets, done + {x}, q) ==
            MergedEdges(g, targets, done, q) + if q == Target(targets, x) then External(targets, q, g[x]) else {}
  {
    hide External, Target;
  }

  /** One pass over the logical start order. */
  method Merge(logical: Plan, targets: map<string, string>)
    returns (order: seq<string>, edges: map<string, seq<string>>, missing: Option<string>)
    requires Sound(logical)
    ensures missing.None? <==> forall x :: x in logical.nodes ==> Target(targets, x) != ""
    ensures missing.None? ==> Merging(PlanGraph(logical), targets, logical.nodes.Keys, order, edges)
    ensures missing.None? ==> order == Firsts(targets, logical.startOrder)
  {
    hide *;
    OrderListsNodes(logical);
    order, edges := [], map[];
    MergedNone(logical, targets);
    for i := 0 to |logical.startOrder|
      invariant MergedSome(logical, targets, i, order, edges)
    {
      var x := logical.startOrder[i];
      MemberOf(logical.startOrder, x);
      var p := Target(targets, x);
      if p == "" { return order, edges, Some(x); }
      DistinctEdges(logical, targets, i, order, edges, p);
      var merged: seq<string>;
      merged, missing := AppendTargets(logical.nodes[x].dependsOn, targets, p, At(edges, p));
      DependenciesAreNodes(logical, x);
      if missing.Some? { return; }
      MergedOneMore(logical, targets, i, order, edges, merged);
      MemberOf(order, p);
      if p !in order { order := order + [p]; }
      edges := edges[p := merged];
    }
    MergedAll(logical, targets, order, edges);
    return order, edges, None;
  }

  /** The first n nodes of the start order have targets and are merged. */
  ghost predicate MergedSome(logical: Plan, targets: map<string, string>, n: nat, order: seq<string>, edges: map<string, seq<string>>)
    requires n <= |logical.startOrder|
  {
    && (forall k :: 0 <= k < n ==> Target(targets, logical.startOrder[k]) != "")
    && Merging(PlanGraph(logical), targets, Elements(logical.startOrder[..n]), order, edges)
    && order == Firsts(targets, logical.startOrder[..n])
  }

  /** The targets in the order of their first member. */
  ghost function Firsts(targets: map<string, string>, order: seq<string>): seq<string>
  {
    if order == [] then []
    else
      var before, p := Firsts(targets, order[..|order| - 1]), Target(targets, order[|order| - 1]);
      if p in Elements(before) then before else before + [p]
  }

  lemma {:induction false} FirstsAre(targets: map<string, string>, order: seq<string>)
    ensures forall p :: p in Firsts(targets, order) <==> exists k :: 0 <= k < |order| && Target(targets, order[k]) == p
  {
    if order != [] {
      var n := |order| - 1;
      var front, last := order[..n], Target(targets, order[n]);
      FirstsAre(targets, front);
      forall p ensures p in Firsts(targets, order) <==> exists k :: 0 <= k < |order| && Target(targets, order[k]) == p {
        if k :| 0 <= k < n && Target(targets, order[k]) == p { assert front[k] == order[k]; }
        if p == last { assert Target(targets, order[n]) == p; }
      }
    }
  }

  /** Physical nodes stand in the order in which they first appear: when one first
      does, none behind it has. */
  lemma {:induction false} FirstsInOrder(targets: map<string, string>, order: seq<string>, i: nat, j: nat) returns (k: nat)
    requires i < j < |Firsts(targets, order)|
    ensures k < |order| && Target(targets, order[k]) == Firsts(targets, order)[i]
    ensures forall m :: 0 <= m <= k ==> Target(targets, order[m]) != Firsts(targets, order)[j]
  {
    var n := |order| - 1;
    var front := order[..n];
    var before := Firsts(targets, front);
    if j < |before| {
      k := FirstsInOrder(targets, front, i, j);
    } else {
      FirstsAre(targets, front);
      assert before[i] in before;
      k :| 0 <= k < n && Target(targets, front[k]) == before[i];
      forall m | 0 <= m <= k ensures Target(targets, order[m]) in before { assert front[m] == order[m]; }
    }
  }

  /** So do the items of a collapsed plan, in the start order of the logical one. */
  lemma {:induction false} MergedInOrder(logical: Plan, targets: map<string, string>, items: seq<Item>, i: nat, j: nat) returns (k: nat)
    requires MergingItems(logical, targets, items) && i < j < |items|
    ensures k < |logical.startOrder| && Target(targets, logical.startOrder[k]) == items[i].id
    ensures forall m :: 0 <= m <= k ==> Target(targets, logical.startOrder[m]) != items[j].id
  {
    hide Firsts, Target, Merging;
    k := FirstsInOrder(targets, logical.startOrder, i, j);
  }

  lemma {:induction false} MergedNone(logical: Plan, targets: map<string, string>)
    ensures MergedSome(logical, targets, 0, [], map[])
  {
    hide Merging, PlanGraph;
    assert Elements(logical.startOrder[..0]) == {};
    MergingNone(PlanGraph(logical), targets);
  }

  lemma {:induction false} MergedOneMore(logical: Plan, targets: map<string, string>, n: nat, order: seq<string>,
                                         edges: map<string, seq<string>>, merged: seq<string>)
    requires n < |logical.startOrder| && logical.startOrder[n] in logical.nodes
    requires MergedSome(logical, targets, n, order, edges)
    requires Target(targets, logical.startOrder[n]) != ""
    requires var x := logical.startOrder[n]; var p := Target(targets, x);
             Distinct(merged) && Elements(merged) == Elements(At(edges, p)) + External(targets, p, Elements(logical.nodes[x].dependsOn))
    ensures var p := Target(targets, logical.startOrder[n]);
            MergedSome(logical, targets, n + 1, if p in Elements(order) then order else order + [p], edges[p := merged])
  {
    hide Merging, External, Distinct, Elements, At, Target;
    var x := logical.startOrder[n];
    assert logical.startOrder[..n + 1] == logical.startOrder[..n] + [x];
    ElementsAppend(logical.startOrder[..n], x);
    MergingOneMore(PlanGraph(logical), targets, Elements(logical.startOrder[..n]), x, order, edges, merged);
    assert logical.startOrder[..n + 1][..n] == logical.startOrder[..n];
  }

  lemma {:induction false} MergedAll(logical: Plan, targets: map<string, string>, order: seq<string>, edges: map<string, seq<string>>)
    requires Elements(logical.startOrder) == logical.nodes.Keys
    requires MergedSome(logical, targets, |logical.startOrder|, order, edges)
    ensures forall x :: x in logical.nodes ==> Target(targets, x) != ""
    ensures Merging(PlanGraph(logical), targets, logical.nodes.Keys, order, edges)
    ensures order == Firsts(targets, logical.startOrder)
  {
    hide Merging, Target;
    assert logical.startOrder[..|logical.startOrder|] == logical.startOrder;
    forall x | x in logical.nodes ensures Target(targets, x) != "" { assert x in Elements(logical.startOrder); }
  }

  lemma {:induction false} DistinctEdges(logical: Plan, targets: map<string, string>, n: nat, order: seq<string>,
                                         edges: map<string, seq<string>>, p: string)
    requires n <= |logical.startOrder| && MergedSome(logical, targets, n, order, edges)
    ensures Distinct(At(edges, p))
  {
  }

  /** The merged nodes as items for Build, in the order of their first member. */
  function MergedItems(order: seq<string>, edges: map<string, seq<string>>): seq<Item>
  {
    seq(|order|, i requires 0 <= i < |order| => Item(order[i], At(edges, order[i])))
  }

  method Collapse(logical: Plan, targets: map<string, string>) returns (r: Collapsed, ghost items: seq<Item>)
    requires Sound(logical)
    ensures r.NoTarget? <==> exists x :: x in logical.nodes && Target(targets, x) == ""
    ensures r.Built? && r.result.Ok? <==>
      (forall x :: x in logical.nodes ==> TrimSpace(Target(targets, x)) != "") && Acyclic(Quotient(PlanGraph(logical), targets))
    ensures r.Built? && r.result.Ok? ==>
      && WellFormed(items) && Describes(items, r.result.plan)
      && PlanGraph(r.result.plan) == Quotient(PlanGraph(logical), targets)
      && RespectsLogical(logical, targets, r.result.plan.startOrder)
    ensures r.Built? && r.result.Ok? ==> MergingItems(logical, targets, items)
  {
    hide *;
    items := [];
    BlankIsBlank();
    var order, edges, missing := Merge(logical, targets);
    if missing.Some? {
      MissingTarget(logical, targets);
      return NoTarget(missing.value), items;
    }
    items := MergedItems(order, edges);
    MergedItemsFacts(logical, targets, order, edges);
    AllTargeted(logical, targets);
    var built := Build(MergedItems(order, edges));
    if built.Ok? {
      GraphOfPlan(items, built.plan);
      DescribedOrder(items, built.plan);
      QuotientRespects(logical, targets, built.plan.startOrder);
    }
    return Built(built), items;
  }

  /** The items list the merged nodes by first member, each with its external targets. */
  ghost predicate MergingItems(logical: Plan, targets: map<string, string>, items: seq<Item>)
  {
    var order := Firsts(targets, logical.startOrder);
    exists edges :: items == MergedItems(order, edges) && Merging(PlanGraph(logical), targets, logical.nodes.Keys, order, edges)
  }

  lemma {:induction false} BlankIsBlank()
    ensures TrimSpace("") == ""
  {
  }

  lemma {:induction false} MissingTarget(logical: Plan, targets: map<string, string>)
    requires !forall x :: x in logical.nodes ==> Target(targets, x) != ""
    ensures exists x :: x in logical.nodes && Target(targets, x) == ""
    ensures !forall x :: x in logical.nodes ==> TrimSpace(Target(targets, x)) != ""
  {
    hide TrimSpace;
    BlankIsBlank();
    var x :| x in logical.nodes && Target(targets, x) == "";
    assert TrimSpace(Target(targets, x)) == "";
  }

  lemma {:induction false} AllTargeted(logical: Plan, targets: map<string, string>)
    requires forall x :: x in logical.nodes ==> Target(targets, x) != ""
    ensures !exists x :: x in logical.nodes && Target(targets, x) == ""
  {
  }

  lemma {:induction false} DescribedOrder(items: seq<Item>, plan: Plan)
    requires WellFormed(items) && Describes(items, plan)
    ensures TopologicalOrder(PlanGraph(plan), plan.startOrder)
  {
    hide TopologicalOrder, PlanGraph, GraphOf, TrimSpace, LongestChain, InOrder;
    GraphOfPlan(items, plan);
  }

  lemma {:induction false} MergedItemsFacts(logical: Plan, targets: map<string, string>, order: seq<string>, edges: map<string, seq<string>>)
    requires Sound(logical) && Merging(PlanGraph(logical), targets, logical.nodes.Keys, order, edges)
    requires order == Firsts(targets, logical.startOrder)
    ensures var items := MergedItems(order, edges);
      && (WellFormed(items) <==> forall x :: x in logical.nodes ==> TrimSpace(Target(targets, x)) != "")
      && (WellFormed(items) ==> GraphOf(items) == Quotient(PlanGraph(logical), targets))
      && MergingItems(logical, targets, items)
  {
    hide *;
    var items := MergedItems(order, edges);
    MergedItemsWellFormed(logical, targets, order, edges);
    if WellFormed(items) { MergedGraph(logical, targets, order, edges); }
    MergingWitness(logical, targets, order, edges);
  }

  lemma {:induction false} MergingWitness(logical: Plan, targets: map<string, string>, order: seq<string>, edges: map<string, seq<string>>)
    requires Merging(PlanGraph(logical), targets, logical.nodes.Keys, order, edges)
    requires order == Firsts(targets, logical.startOrder)
    ensures MergingItems(logical, targets, MergedItems(order, edges))
  {
    hide Merging;
  }

  lemma {:induction false} MergedItemsWellFormed(logical: Plan, targets: map<string, string>, order: seq<string>, edges: map<string, seq<string>>)
    requires Sound(logical) && Merging(PlanGraph(logical), targets, logical.nodes.Keys, order, edges)
    ensures WellFormed(MergedItems(order, edges)) <==> forall x :: x in logical.nodes ==> TrimSpace(Target(targets, x)) != ""
  {
    hide TrimSpace, Sound, ItemClosed, Named, PlanGraph, Distinct;
    var items := MergedItems(order, edges);
    OrderListsNodes(logical);
    assert Target(targets, logical.startOrder[0]) in Images(targets, logical.nodes.Keys);
    assert Target(targets, logical.startOrder[0]) in Elements(order);
    forall i | 0 <= i < |items| ensures ItemClosed(items, items[i]) { MergedItemClosed(logical, targets, order, edges, i); }
    NamedByTargets(logical, targets, order, edges);
  }

  lemma {:induction false} MergedGraph(logical: Plan, targets: map<string, string>, order: seq<string>, edges: map<string, seq<string>>)
    requires WellFormed(MergedItems(order, edges))
    requires Merging(PlanGraph(logical), targets, logical.nodes.Keys, order, edges)
    ensures GraphOf(MergedItems(order, edges)) == Quotient(PlanGraph(logical), targets)
  {
    hide TrimSpace, GraphOf, ItemClosed, Distinct, MergedEdges, Ids;
    var items, q := MergedItems(order, edges), Quotient(PlanGraph(logical), targets);
    GraphKeys(items);
    MergedIds(order, edges);
    assert PlanGraph(logical).Keys == logical.nodes.Keys;
    forall p | p in GraphOf(items) ensures p in q && GraphOf(items)[p] == q[p] {
      var i :| 0 <= i < |order| && order[i] == p;
      GraphAt(items, i);
      assert items[i] == Item(p, At(edges, p));
    }
  }

  lemma {:induction false} MergedIds(order: seq<string>, edges: map<string, seq<string>>)
    ensures Ids(MergedItems(order, edges)) == Elements(order)
  {
    var items := MergedItems(order, edges);
    forall p | p in Elements(order) ensures p in Ids(items) {
      var i :| 0 <= i < |order| && order[i] == p;
      assert items[i].id == p;
    }
  }

  lemma {:induction false} MergedItemClosed(logical: Plan, targets: map<string, string>, order: seq<string>, edges: map<string, seq<string>>, i: nat)
    requires Sound(logical) && Merging(PlanGraph(logical), targets, logical.nodes.Keys, order, edges) && i < |order|
    ensures ItemClosed(MergedItems(order, edges), MergedItems(order, edges)[i])
  {
    hide TrimSpace, TopologicalOrder, DependentsOf;
    var g, p := PlanGraph(logical), order[i];
    MergedIds(order, edges);
    forall q | q in Elements(At(edges, p)) ensures q in Elements(order) && q != p {
      var x :| x in g && Target(targets, x) == p && q in External(targets, p, g[x]);
      var d :| d in g[x] && Target(targets, d) != p && Target(targets, d) == q;
      DependenciesAreNodes(logical, x);
      assert d in logical.nodes.Keys;
    }
  }

  lemma {:induction false} NamedByTargets(logical: Plan, targets: map<string, string>, order: seq<string>, edges: map<string, seq<string>>)
    requires Distinct(order) && Elements(order) == Images(targets, logical.nodes.Keys)
    ensures Named(MergedItems(order, edges)) <==> forall x :: x in logical.nodes ==> TrimSpace(Target(targets, x)) != ""
  {
    hide TrimSpace;
    var items := MergedItems(order, edges);
    if Named(items) {
      forall x | x in logical.nodes ensures TrimSpace(Target(targets, x)) != "" {
        assert Target(targets, x) in Elements(order);
        var i :| 0 <= i < |order| && order[i] == Target(targets, x);
        assert items[i].id == order[i];
      }
    } else {
      var i :| 0 <= i < |items| && TrimSpace(items[i].id) == "";
      assert order[i] in Elements(order);
    }
  }

  /** In a topological order a dependency comes first. */
  lemma {:induction false} EdgeStartsBefore(g: Graph, order: seq<string>, x: string, d: string)
    requires TopologicalOrder(g, order) && x in g && d in g[x]
    ensures StartsBefore(order, d, x)
  {
    hide Distinct;
    assert x in Elements(order);
    var j :| 0 <= j < |order| && order[j] == x;
    assert d in Elements(order[..j]);
    var i :| 0 <= i < j && order[i] == d;
  }

  lemma {:induction false} QuotientEdge(g: Graph, targets: map<string, string>, x: string, d: string)
    requires x in g && d in g[x] && Target(targets, d) != Target(targets, x)
    ensures var q := Quotient(g, targets); Target(targets, x) in q && Target(targets, d) in q[Target(targets, x)]
  {
    assert Target(targets, d) in External(targets, Target(targets, x), g[x]);
  }

  lemma {:induction false} QuotientRespects(logical: Plan, targets: map<string, string>, order: seq<string>)
    requires Sound(logical) && TopologicalOrder(Quotient(PlanGraph(logical), targets), order)
    ensures RespectsLogical(logical, targets, order)
  {
    hide Sound, Quotient, TopologicalOrder, StartsBefore;
    forall x, d | x in logical.nodes && d in logical.nodes[x].dependsOn && Target(targets, d) != Target(targets, x)
      ensures StartsBefore(order, Target(targets, d), Target(targets, x))
    {
      QuotientEdge(PlanGraph(logical), targets, x, d);
      EdgeStartsBefore(Quotient(PlanGraph(logical), targets), order, Target(targets, x), Target(targets, d));
    }
  }

  // ---------------------------------------------------------- the identity map

  ghost predicate Identity(logical: Plan, targets: map<string, string>)
  {
    forall x :: x in logical.nodes ==> Target(targets, x) == x
  }

  lemma {:induction false} InOrderFilters(items: seq<Item>, ids: seq<string>, s: set<string>)
    requires |items| == |ids| && forall i :: 0 <= i < |ids| ==> items[i].id == ids[i]
    ensures InOrder(items, s) == Filtered(ids, s)
  {
    if items != [] { InOrderFilters(items[..|items| - 1], ids[..|ids| - 1], s); }
  }

  lemma {:induction false} FilterJoin(a: seq<string>, b: seq<string>, s: set<string>)
    ensures Filtered(a + b, s) == Filtered(a, s) + Filtered(b, s)
  {
    if b == [] {
      assert a + b == a;
    } else {
      var c := b[..|b| - 1];
      assert (a + b)[..|a + b| - 1] == a + c;
      FilterJoin(a, c, s);
    }
  }

  /** Out of the flattened levels, the set of one level filters that level. */
  lemma {:induction false} FilterLevels(levels: seq<seq<string>>, k: nat, s: set<string>)
    requires forall j :: 0 <= j < |levels| && j != k ==> Elements(levels[j]) !! s
    requires k < |levels| ==> Elements(levels[k]) <= s
    ensures Filtered(Flatten(levels), s) == if k < |levels| then levels[k] else []
  {
    if levels != [] {
      var n := |levels| - 1;
      FilterLevels(levels[..n], k, s);
      FilterJoin(Flatten(levels[..n]), levels[n], s);
      FilteredAll(levels[n], s);
      if k < n { assert levels[..n][k] == levels[k]; }
    }
  }

  /** Collapsing every node onto itself gives the plan's levels and orders back. */
  lemma {:induction false} IdentityCollapse(items: seq<Item>, logical: Plan, targets: map<string, string>, merged: seq<Item>, plan: Plan)
    requires WellFormed(items) && Describes(items, logical) && Identity(logical, targets)
    requires WellFormed(merged) && Describes(merged, plan) && PlanGraph(plan) == Quotient(PlanGraph(logical), targets)
    requires MergingItems(logical, targets, merged)
    ensures plan.levels == logical.levels && plan.startOrder == logical.startOrder && plan.stopOrder == logical.stopOrder
  {
    hide TrimSpace, GraphOf, LongestChain, TopologicalOrder, InOrder, Flatten, DependentsOf, Ids, Quotient, PlanGraph, NodeOf;
    IdentityLevels(items, logical, targets, merged, plan);
    IdentityFirsts(items, logical, targets, merged);
    forall k: nat ensures LevelSet(plan, k) == LevelSet(logical, k) {}
    forall k | 0 <= k < |logical.levels| ensures Filtered(Flatten(logical.levels), LevelSet(logical, k)) == logical.levels[k] {
      LevelFilters(items, logical, k);
    }
    forall k | 0 <= k < |plan.levels| && k < |logical.levels| ensures plan.levels[k] == logical.levels[k] {
      InOrderFilters(merged, logical.startOrder, LevelSet(plan, k));
    }
    SameHeight(items, logical, plan);
    SameHeight(merged, plan, logical);
  }

  lemma {:induction false} IdentityFirsts(items: seq<Item>, logical: Plan, targets: map<string, string>, merged: seq<Item>)
    requires WellFormed(items) && Describes(items, logical) && Identity(logical, targets) && MergingItems(logical, targets, merged)
    ensures |merged| == |logical.startOrder| && forall i :: 0 <= i < |merged| ==> merged[i].id == logical.startOrder[i]
  {
    hide TrimSpace, GraphOf, LongestChain, DepsFirst, InOrder, Flatten, DependentsOf, Ids, NodeOf, Merging;
    GraphKeys(items);
    forall x | x in Elements(logical.startOrder) ensures Target(targets, x) == x { assert x in logical.nodes; }
    FirstsOfFixed(targets, logical.startOrder);
  }

  lemma {:induction false} FirstsOfFixed(targets: map<string, string>, order: seq<string>)
    requires Distinct(order) && forall x :: x in Elements(order) ==> Target(targets, x) == x
    ensures Firsts(targets, order) == order
  {
    if order != [] {
      var n := |order| - 1;
      assert order == order[..n] + [order[n]];
      assert order[n] in Elements(order) && forall x :: x in Elements(order[..n]) ==> x in Elements(order);
      FirstsOfFixed(targets, order[..n]);
    }
  }

  lemma {:induction false} LevelFilters(items: seq<Item>, logical: Plan, k: nat)
    requires Describes(items, logical) && k < |logical.levels|
    ensures Filtered(Flatten(logical.levels), LevelSet(logical, k)) == logical.levels[k]
  {
    hide TrimSpace, GraphOf, LongestChain, TopologicalOrder, Flatten, DependentsOf, Ids, NodeOf, Filtered, InOrder;
    forall j | 0 <= j < |logical.levels| ensures Elements(logical.levels[j]) <= LevelSet(logical, j) {
      InOrderElements(items, LevelSet(logical, j));
    }
    assert forall j :: j != k ==> LevelSet(logical, j) !! LevelSet(logical, k);
    FilterLevels(logical.levels, k, LevelSet(logical, k));
  }

  lemma {:induction false} SameHeight(items: seq<Item>, p: Plan, q: Plan)
    requires Describes(items, p)
    requires forall x :: x in p.nodes ==> x in q.nodes && p.nodes[x].level == q.nodes[x].level && q.nodes[x].level < |q.levels|
    ensures |p.levels| <= |q.levels|
  {
    LevelCount(items, p, q);
  }

  lemma {:induction false} IdentityLevels(items: seq<Item>, logical: Plan, targets: map<string, string>, merged: seq<Item>, plan: Plan)
    requires WellFormed(items) && Describes(items, logical) && Identity(logical, targets)
    requires WellFormed(merged) && Describes(merged, plan) && PlanGraph(plan) == Quotient(PlanGraph(logical), targets)
    ensures plan.nodes.Keys == logical.nodes.Keys
    ensures forall x :: x in logical.nodes ==> plan.nodes[x].level == logical.nodes[x].level
  {
    hide TrimSpace, GraphOf, LongestChain, TopologicalOrder, InOrder, Flatten, DependentsOf, Quotient, PlanGraph;
    GraphOfPlan(items, logical);
    GraphOfPlan(merged, plan);
    IdentityQuotient(items, logical, targets);
    GraphKeys(items);
    GraphKeys(merged);
    forall x | x in logical.nodes ensures x in plan.nodes && plan.nodes[x].level == logical.nodes[x].level {
      var i :| 0 <= i < |items| && items[i].id == x;
      assert x in Ids(merged);
      var j :| 0 <= j < |merged| && merged[j].id == x;
      assert NodeOf(items, i, logical.nodes[x]) && NodeOf(merged, j, plan.nodes[x]);
      LongestChainUnique(GraphOf(items), x, logical.nodes[x].level, plan.nodes[x].level);
    }
  }

  lemma {:induction false} IdentityQuotient(items: seq<Item>, logical: Plan, targets: map<string, string>)
    requires WellFormed(items) && Describes(items, logical) && Identity(logical, targets)
    ensures Quotient(PlanGraph(logical), targets) == PlanGraph(logical)
  {
    hide TrimSpace, GraphOf, LongestChain, TopologicalOrder, InOrder, Flatten, DependentsOf, PlanGraph;
    GraphOfPlan(items, logical);
    GraphClosed(items);
    GraphKeys(items);
    var g := PlanGraph(logical);
    assert g.Keys == logical.nodes.Keys;
    forall x | x in g ensures x !in g[x] {
      var i :| 0 <= i < |items| && items[i].id == x;
      GraphAt(items, i);
      assert ItemClosed(items, items[i]);
    }
    IdentityGraph(g, targets);
  }

  lemma {:induction false} IdentityGraph(g: Graph, targets: map<string, string>)
    requires forall x :: x in g ==> Target(targets, x) == x && x !in g[x] && g[x] <= g.Keys
    ensures Quotient(g, targets) == g
  {
    hide Target;
    assert Images(targets, g.Keys) == g.Keys by {
      forall x | x in g ensures x in Images(targets, g.Keys) { assert Target(targets, x) == x; }
    }
    forall p | p in g ensures MergedEdges(g, targets, g.Keys, p) == g[p] {
      forall d | d in g[p] ensures d in MergedEdges(g, targets, g.Keys, p) {
        assert Target(targets, p) == p && Target(targets, d) == d && d in External(targets, p, g[p]);
      }
    }
  }
}
