/** What replacing one dependency graph by another changes. */
module Impact {
  import opened Finite
  import opened Graphs
  import opened Plans
  import opened PlanFacts

  datatype ChangeSet = ChangeSet(added: seq<string>, updated: seq<string>, removed: seq<string>, untouched: seq<string>, affected: seq<string>)

  // ------------------------------------------------------------ specification

  function Revision(revisions: map<string, string>, id: string): string { if id in revisions then revisions[id] else "" }

  function Dependencies(plan: Plan, id: string): seq<string> { if id in plan.nodes then plan.nodes[id].dependsOn else [] }

  function Dependents(plan: Plan, id: string): seq<string> { if id in plan.nodes then plan.nodes[id].dependents else [] }

  datatype Change = Change(previous: Plan, next: Plan, previousRevisions: map<string, string>, nextRevisions: map<string, string>)
  {
    /** In both graphs, with the same dependency list and the same revision. */
    predicate Kept(id: string)
    {
      && id in previous.nodes && id in next.nodes
      && previous.nodes[id].dependsOn == next.nodes[id].dependsOn
      && Revision(previousRevisions, id) == Revision(nextRevisions, id)
    }

    ghost function Nodes(): set<string> { previous.nodes.Keys + next.nodes.Keys }

    ghost function KeptNodes(): set<string> { set x | x in next.nodes && Kept(x) }

    /** Added, updated and removed nodes. */
    ghost function Changed(): set<string> { Nodes() - KeptNodes() }

    /** Whoever depends directly on a member, before or after, is a member. */
    ghost predicate Closed(s: set<string>)
    {
      forall x, d :: d in s && (Edge(PlanGraph(previous), x, d) || Edge(PlanGraph(next), x, d)) ==> x in s
    }

    /** The least set that holds every change and is closed under dependents. */
    ghost predicate IsImpact(s: set<string>)
    {
      Changed() <= s <= Nodes() && Closed(s) && forall t :: Changed() <= t && Closed(t) ==> s <= t
    }
  }

  /** Both graphs at once. */
  ghost function BothGraphs(c: Change): Graph
  {
    map x | x in c.Nodes() :: Elements(Dependencies(c.previous, x)) + Elements(Dependencies(c.next, x))
  }

  ghost predicate SoundChange(c: Change) { Sound(c.previous) && Sound(c.next) }

  /** The five lists, each in start order; the last lists the impact, of which
      there is one. */
  ghost predicate Reports(c: Change, r: ChangeSet)
  {
    && Partition(c, r) && (exists s :: c.IsImpact(s))
    && forall s :: c.IsImpact(s) ==> r.affected == Affected(c, s)
  }

  ghost function Affected(c: Change, s: set<string>): seq<string>
  {
    Filtered(c.previous.startOrder, s) + Filtered(c.next.startOrder, s - c.previous.nodes.Keys)
  }

  ghost predicate Partition(c: Change, r: ChangeSet)
  {
    && r.added == Filtered(c.next.startOrder, c.next.nodes.Keys - c.previous.nodes.Keys)
    && r.updated == Filtered(c.next.startOrder, c.next.nodes.Keys * c.previous.nodes.Keys - c.KeptNodes())
    && r.untouched == Filtered(c.next.startOrder, c.KeptNodes())
    && r.removed == Filtered(c.previous.startOrder, c.previous.nodes.Keys - c.next.nodes.Keys)
  }

  // ------------------------------------------------------- facts about impact

  /** The affected nodes are those with a changed node among their transitive
      dependencies in the two graphs together. */
  lemma {:induction false} ImpactIsReachability(c: Change, s: set<string>, x: string)
    requires SoundChange(c) && c.IsImpact(s)
    ensures x in s <==> x in c.Nodes() && exists y :: y in c.Changed() && Reaches(BothGraphs(c), x, y)
  {
    hide Sound, Reaches, BothGraphs;
    hide Change.Changed;
    if x in c.Nodes() && exists y :: y in c.Changed() && Reaches(BothGraphs(c), x, y) {
      var y :| y in c.Changed() && Reaches(BothGraphs(c), x, y);
      InwardClosed(c, s, x, y);
    }
    var t := set z | z in c.Nodes() && exists y :: y in c.Changed() && Reaches(BothGraphs(c), z, y);
    ReachersClosed(c, t);
    assert s <= t;
  }

  /** A closed set that holds y holds everything that reaches y. */
  lemma {:induction false} InwardClosed(c: Change, s: set<string>, x: string, y: string)
    requires c.Closed(s) && Reaches(BothGraphs(c), x, y) && y in s
    ensures x in s
  {
    var p :| WalkFromTo(BothGraphs(c), p, x, y);
    WalkBack(c, s, p);
  }

  lemma {:induction false} WalkBack(c: Change, s: set<string>, p: seq<string>)
    requires c.Closed(s) && Walk(BothGraphs(c), p) && p[|p| - 1] in s
    ensures p[0] in s
    decreases |p|
  {
    if |p| > 1 {
      assert Edge(BothGraphs(c), p[0], p[1]);
      var q := p[1..];
      forall i | 0 <= i < |q| - 1 ensures Edge(BothGraphs(c), q[i], q[i + 1]) { assert Edge(BothGraphs(c), p[i + 1], p[i + 2]); }
      WalkBack(c, s, q);
      assert p[1] in s;
      BothEdge(c, p[0], p[1]);
    }
  }

  lemma {:induction false} BothEdge(c: Change, x: string, d: string)
    ensures Edge(BothGraphs(c), x, d) <==> Edge(PlanGraph(c.previous), x, d) || Edge(PlanGraph(c.next), x, d)
  {
    var nobody: seq<string> := [];
    assert Elements(nobody) == {};
  }

  lemma {:induction false} ReachersClosed(c: Change, t: set<string>)
    requires t == set z | z in c.Nodes() && exists y :: y in c.Changed() && Reaches(BothGraphs(c), z, y)
    ensures c.Changed() <= t && c.Closed(t)
  {
    hide Change.Changed, Reaches, BothGraphs, PlanGraph;
    forall y | y in c.Changed() ensures y in t {
      ReachesStep(BothGraphs(c), y, y);
      ChangedAreNodes(c);
    }
    forall x, d | d in t && (Edge(PlanGraph(c.previous), x, d) || Edge(PlanGraph(c.next), x, d)) ensures x in t {
      var y :| y in c.Changed() && Reaches(BothGraphs(c), d, y);
      BothEdge(c, x, d);
      ReachesStep(BothGraphs(c), x, d);
      ReachesTransitive(BothGraphs(c), x, d, y);
    }
  }

  lemma {:induction false} ChangedAreNodes(c: Change)
    ensures c.Changed() <= c.Nodes()
  {
  }

  /** A node outside the impact, and everything below it in either graph, is in
      both graphs with the same dependencies and the same revision. */
  lemma {:induction false} OutsideIsUntouched(c: Change, s: set<string>, x: string, y: string)
    requires SoundChange(c) && c.IsImpact(s) && x in c.Nodes() && x !in s && Reaches(BothGraphs(c), x, y)
    ensures y !in s && c.Kept(y)
  {
    hide Reaches, Change.Closed;
    if y in s { InwardClosed(c, s, x, y); }
    ReachesNodes(c, x, y);
    assert y !in c.Changed() && y in c.Nodes();
  }

  lemma {:induction false} ReachesNodes(c: Change, x: string, y: string)
    requires SoundChange(c) && x in c.Nodes() && Reaches(BothGraphs(c), x, y)
    ensures y in c.Nodes()
  {
    var p :| WalkFromTo(BothGraphs(c), p, x, y);
    forall n | n in c.Nodes() && n in BothGraphs(c) ensures BothGraphs(c)[n] <= c.Nodes() { NeighboursAreNodes(c, n); }
    ClosedHoldsWalk(BothGraphs(c), c.Nodes(), p);
  }

  lemma {:induction false} NeighboursAreNodes(c: Change, n: string)
    requires SoundChange(c) && n in BothGraphs(c)
    ensures BothGraphs(c)[n] <= c.Nodes()
  {
    hide Sound;
    if n in c.previous.nodes { DependenciesAreNodes(c.previous, n); }
    if n in c.next.nodes { DependenciesAreNodes(c.next, n); }
  }

  /** There is one impact. */
  lemma {:induction false} ImpactIsUnique(c: Change, s: set<string>, t: set<string>)
    requires c.IsImpact(s) && c.IsImpact(t)
    ensures s == t
  {
    hide Change.Closed, Change.Changed;
  }

  /** Nothing changed means nothing is affected. */
  lemma {:induction false} NothingChanged(c: Change, r: ChangeSet)
    requires SoundChange(c) && Reports(c, r)
    ensures |r.added| + |r.updated| + |r.removed| == 0 <==> c.Changed() == {}
    ensures |r.added| + |r.updated| + |r.removed| == 0 ==> r.affected == []
  {
    hide Filtered, Sound;
    ListedSets(c, r);
    var s :| c.IsImpact(s);
    assert r.affected == Affected(c, s);
    assert Elements(r.added) + Elements(r.updated) + Elements(r.removed) == c.Changed();
    EmptyList(r.added);
    EmptyList(r.updated);
    EmptyList(r.removed);
    if c.Changed() == {} {
      assert c.Closed({});
      FilteredAll(c.previous.startOrder, {});
      FilteredAll(c.next.startOrder, {});
      assert s == {} && s - c.previous.nodes.Keys == {};
    }
  }

  /** A node with the same set of dependencies and the same revision as before
      counts as updated exactly if the dependencies are listed in another order. */
  lemma {:induction false} ReorderedIsUpdated(c: Change, r: ChangeSet, id: string)
    requires SoundChange(c) && Reports(c, r) && id in c.previous.nodes && id in c.next.nodes
    requires Elements(Dependencies(c.previous, id)) == Elements(Dependencies(c.next, id))
    requires Revision(c.previousRevisions, id) == Revision(c.nextRevisions, id)
    ensures id in r.updated <==> Dependencies(c.previous, id) != Dependencies(c.next, id)
    ensures id in r.untouched <==> Dependencies(c.previous, id) == Dependencies(c.next, id)
    ensures id !in r.added && id !in r.removed
  {
    hide Filtered, Sound;
    ListedSets(c, r);
    assert id in r.updated <==> id in Elements(r.updated);
    assert id in r.untouched <==> id in Elements(r.untouched);
    assert id in r.added <==> id in Elements(r.added);
    assert id in r.removed <==> id in Elements(r.removed);
  }

  /** The same revision, or none, is given for the node before and after; an empty
      one counts like none. */
  ghost predicate SameRevision(before: map<string, string>, after: map<string, string>, id: string)
  {
    if id in before && id in after then before[id] == after[id]
    else (id in before ==> before[id] == "") && (id in after ==> after[id] == "")
  }

  /** A node counts as updated exactly if it was there before, and its list of
      dependencies or its revision is another one. */
  lemma {:induction false} UpdatedExactly(c: Change, r: ChangeSet, id: string)
    requires SoundChange(c) && Reports(c, r)
    ensures id in r.updated <==>
            && id in c.previous.nodes && id in c.next.nodes
            && !(c.previous.nodes[id].dependsOn == c.next.nodes[id].dependsOn && SameRevision(c.previousRevisions, c.nextRevisions, id))
  {
    hide Filtered, Sound;
    ListedSets(c, r);
    assert id in r.updated <==> id in Elements(r.updated);
  }

  lemma {:induction false} EmptyList(a: seq<string>)
    ensures |a| == 0 <==> Elements(a) == {}
  {
    if |a| > 0 { assert a[0] in Elements(a); }
  }

  /** Added, updated and untouched nodes split the new nodes; the removed are the rest of the old. */
  lemma {:induction false} ListedSets(c: Change, r: ChangeSet)
    requires SoundChange(c) && Partition(c, r)
    ensures Elements(r.added) == c.next.nodes.Keys - c.previous.nodes.Keys
    ensures Elements(r.updated) == c.next.nodes.Keys * c.previous.nodes.Keys - c.KeptNodes()
    ensures Elements(r.untouched) == c.KeptNodes()
    ensures Elements(r.removed) == c.previous.nodes.Keys - c.next.nodes.Keys
    ensures Distinct(r.added) && Distinct(r.updated) && Distinct(r.untouched) && Distinct(r.removed)
    ensures |r.added| + |r.updated| + |r.untouched| == |c.next.startOrder|
  {
    hide Filtered, Sound, Distinct;
    OrderListsNodes(c.previous);
    OrderListsNodes(c.next);
    var next, previous, kept := c.next.nodes.Keys, c.previous.nodes.Keys, c.KeptNodes();
    KeptAreShared(c);
    FilteredElements(c.next.startOrder, next - previous);
    FilteredElements(c.next.startOrder, next * previous - kept);
    FilteredElements(c.next.startOrder, kept);
    FilteredElements(c.previous.startOrder, previous - next);
    FilteredDistinct(c.next.startOrder, next - previous);
    FilteredDistinct(c.next.startOrder, next * previous - kept);
    FilteredDistinct(c.next.startOrder, kept);
    FilteredDistinct(c.previous.startOrder, previous - next);
    ThreeParts(c.next.startOrder, next - previous, next * previous - kept, kept);
  }

  lemma {:induction false} KeptAreShared(c: Change)
    ensures c.KeptNodes() <= c.next.nodes.Keys * c.previous.nodes.Keys
  {
  }

  lemma {:induction false} ThreeParts(order: seq<string>, a: set<string>, b: set<string>, c: set<string>)
    requires a !! b && (a + b) !! c && Elements(order) <= a + b + c
    ensures |Filtered(order, a)| + |Filtered(order, b)| + |Filtered(order, c)| == |order|
  {
    if order != [] {
      var n := |order| - 1;
      assert Elements(order[..n]) <= Elements(order) && order[n] in Elements(order);
      ThreeParts(order[..n], a, b, c);
    }
  }

  // ------------------------------------------------------------- the algorithm

  /** One pass over the new order: added, updated, untouched. */
  method Compare(c: Change) returns (added: seq<string>, updated: seq<string>, untouched: seq<string>, changed: set<string>)
    requires Elements(c.next.startOrder) == c.next.nodes.Keys
    ensures added == Filtered(c.next.startOrder, c.next.nodes.Keys - c.previous.nodes.Keys)
    ensures updated == Filtered(c.next.startOrder, c.next.nodes.Keys * c.previous.nodes.Keys - c.KeptNodes())
    ensures untouched == Filtered(c.next.startOrder, c.KeptNodes())
    ensures changed == c.next.nodes.Keys - c.KeptNodes()
  {
    hide *;
    added, updated, untouched, changed := [], [], [], {};
    var order := c.next.startOrder;
    ghost var next, previous, kept := c.next.nodes.Keys, c.previous.nodes.Keys, c.KeptNodes();
    ComparedNone(order, next, previous, kept);
    for i := 0 to |order|
      invariant Compared(order, i, next, previous, kept, added, updated, untouched, changed)
    {
      var id := order[i];
      KeptMeans(c, order, i);
      ComparedOneMore(order, i, next, previous, kept, added, updated, untouched, changed);
      if id !in c.previous.nodes {
        added, changed := added + [id], changed + {id};
      } else if Dependencies(c.previous, id) != Dependencies(c.next, id) || Revision(c.previousRevisions, id) != Revision(c.nextRevisions, id) {
        updated, changed := updated + [id], changed + {id};
      } else {
        untouched := untouched + [id];
      }
    }
    ComparedAll(order, next, previous, kept, added, updated, untouched, changed);
  }

  ghost predicate Compared(order: seq<string>, i: nat, next: set<string>, previous: set<string>, kept: set<string>,
                           added: seq<string>, updated: seq<string>, untouched: seq<string>, changed: set<string>)
    requires i <= |order|
  {
    && added == Filtered(order[..i], next - previous)
    && updated == Filtered(order[..i], next * previous - kept)
    && untouched == Filtered(order[..i], kept)
    && changed == Elements(order[..i]) - kept
  }

  lemma {:induction false} ComparedNone(order: seq<string>, next: set<string>, previous: set<string>, kept: set<string>)
    ensures Compared(order, 0, next, previous, kept, [], [], [], {})
  {
  }

  lemma {:induction false} ComparedOneMore(order: seq<string>, i: nat, next: set<string>, previous: set<string>, kept: set<string>,
                                           added: seq<string>, updated: seq<string>, untouched: seq<string>, changed: set<string>)
    requires i < |order| && kept <= next * previous && order[i] in next
    requires Compared(order, i, next, previous, kept, added, updated, untouched, changed)
    ensures order[i] !in previous ==> Compared(order, i + 1, next, previous, kept, added + [order[i]], updated, untouched, changed + {order[i]})
    ensures order[i] in previous && order[i] !in kept ==>
              Compared(order, i + 1, next, previous, kept, added, updated + [order[i]], untouched, changed + {order[i]})
    ensures order[i] in kept ==> Compared(order, i + 1, next, previous, kept, added, updated, untouched + [order[i]], changed)
  {
    hide Filtered, Elements;
    var id := order[i];
    FilteredStep(order, i, next - previous);
    FilteredStep(order, i, next * previous - kept);
    FilteredStep(order, i, kept);
    assert order[..i + 1] == order[..i] + [id];
    ElementsAppend(order[..i], id);
    assert added + [] == added && updated + [] == updated && untouched + [] == untouched;
  }

  lemma {:induction false} ComparedAll(order: seq<string>, next: set<string>, previous: set<string>, kept: set<string>,
                                       added: seq<string>, updated: seq<string>, untouched: seq<string>, changed: set<string>)
    requires Compared(order, |order|, next, previous, kept, added, updated, untouched, changed)
    ensures added == Filtered(order, next - previous) && updated == Filtered(order, next * previous - kept)
    ensures untouched == Filtered(order, kept) && changed == Elements(order) - kept
  {
    assert order[..|order|] == order;
  }

  lemma {:induction false} KeptMeans(c: Change, order: seq<string>, i: nat)
    requires order == c.next.startOrder && i < |order| && Elements(order) == c.next.nodes.Keys
    ensures order[i] in c.next.nodes && c.KeptNodes() <= c.next.nodes.Keys * c.previous.nodes.Keys
    ensures order[i] in c.KeptNodes() <==>
              && order[i] in c.previous.nodes
              && Dependencies(c.previous, order[i]) == Dependencies(c.next, order[i])
              && Revision(c.previousRevisions, order[i]) == Revision(c.nextRevisions, order[i])
  {
    assert order[i] in Elements(order);
  }

  /** One pass over the old order. */
  method Vanished(c: Change, changed0: set<string>) returns (removed: seq<string>, changed: set<string>)
    ensures removed == Filtered(c.previous.startOrder, Elements(c.previous.startOrder) - c.next.nodes.Keys)
    ensures changed == changed0 + (Elements(c.previous.startOrder) - c.next.nodes.Keys)
  {
    hide *;
    removed, changed := [], changed0;
    var order := c.previous.startOrder;
    ghost var gone := Elements(order) - c.next.nodes.Keys;
    VanishedNone(c, changed0);
    for i := 0 to |order|
      invariant removed == Filtered(order[..i], gone) && changed == changed0 + (Elements(order[..i]) - c.next.nodes.Keys)
    {
      VanishedOneMore(c, i, changed0);
      if order[i] !in c.next.nodes { removed, changed := removed + [order[i]], changed + {order[i]}; }
    }
    assert order[..|order|] == order;
  }

  lemma {:induction false} VanishedNone(c: Change, changed0: set<string>)
    ensures var order := c.previous.startOrder;
            Filtered(order[..0], Elements(order) - c.next.nodes.Keys) == [] && changed0 == changed0 + (Elements(order[..0]) - c.next.nodes.Keys)
  {
  }

  lemma {:induction false} VanishedOneMore(c: Change, i: nat, changed0: set<string>)
    requires i < |c.previous.startOrder|
    ensures var order := c.previous.startOrder;
            var gone, id := Elements(order) - c.next.nodes.Keys, order[i];
            && Filtered(order[..i + 1], gone) == (if id !in c.next.nodes then Filtered(order[..i], gone) + [id] else Filtered(order[..i], gone))
            && changed0 + (Elements(order[..i + 1]) - c.next.nodes.Keys)
               == (if id !in c.next.nodes then changed0 + (Elements(order[..i]) - c.next.nodes.Keys) + {id}
                   else changed0 + (Elements(order[..i]) - c.next.nodes.Keys))
  {
    hide Filtered;
    var order := c.previous.startOrder;
    var gone := Elements(order) - c.next.nodes.Keys;
    FilteredStep(order, i, gone);
    assert order[i] in Elements(order);
    assert Filtered(order[..i], gone) + [] == Filtered(order[..i], gone);
    assert order[..i + 1] == order[..i] + [order[i]];
    ElementsAppend(order[..i], order[i]);
  }

  lemma {:induction false} FilteredNothing(s: set<string>)
    ensures Filtered([], s) == []
  {
  }

  /** The nodes of the list that are not marked are marked and queued. */
  method Enqueue(list: seq<string>, changed0: set<string>, queue0: seq<string>) returns (changed: set<string>, queue: seq<string>)
    ensures changed == changed0 + Elements(list)
    ensures Elements(queue) == Elements(queue0) + (Elements(list) - changed0)
    ensures changed == changed0 ==> queue == queue0
  {
    changed, queue := changed0, queue0;
    for i := 0 to |list|
      invariant changed == changed0 + Elements(list[..i])
      invariant Elements(queue) == Elements(queue0) + (Elements(list[..i]) - changed0)
      invariant changed == changed0 ==> queue == queue0
    {
      EnqueuedOneMore(list, i, changed0, queue);
      if list[i] !in changed { changed, queue := changed + {list[i]}, queue + [list[i]]; }
    }
    assert list[..|list|] == list;
  }

  lemma {:induction false} EnqueuedOneMore(list: seq<string>, i: nat, changed0: set<string>, queue: seq<string>)
    requires i < |list|
    ensures Elements(list[..i + 1]) == Elements(list[..i]) + {list[i]}
    ensures Elements(queue + [list[i]]) == Elements(queue) + {list[i]}
  {
    assert list[..i + 1] == list[..i] + [list[i]];
    ElementsAppend(list[..i], list[i]);
    ElementsAppend(queue, list[i]);
  }

  /** Marked are changes and their dependents, never more than the impact; a
      marked node that has left the queue has all its dependents marked. */
  ghost predicate Spreading(c: Change, changed: set<string>, pending: set<string>)
  {
    && c.Changed() <= changed <= c.Nodes() && pending <= changed
    && (forall d :: d in changed && d !in pending ==> DependentsIn(c, d, changed))
    && (forall t :: c.Changed() <= t && c.Closed(t) ==> changed <= t)
  }

  ghost predicate DependentsIn(c: Change, d: string, s: set<string>)
  {
    forall x :: Edge(PlanGraph(c.previous), x, d) || Edge(PlanGraph(c.next), x, d) ==> x in s
  }

  ghost function Unmarked(c: Change, changed: set<string>): set<string> { c.Nodes() - changed }

  /** The work-list that spreads changes to dependents. */
  method Spread(c: Change, changed0: set<string>, queue0: seq<string>) returns (changed: set<string>)
    requires SoundChange(c) && changed0 == c.Changed() && Elements(queue0) == changed0
    ensures c.IsImpact(changed)
  {
    hide *;
    changed := changed0;
    var queue := queue0;
    SpreadingStarts(c);
    while |queue| > 0
      invariant Spreading(c, changed, Elements(queue))
      decreases Unmarked(c, changed), |queue|
    {
      var id := queue[0];
      ghost var changed1, pending := changed, Elements(queue);
      Head(queue);
      queue := queue[1..];
      ghost var rest := queue;
      changed, queue := Enqueue(Dependents(c.previous, id), changed, queue);
      changed, queue := Enqueue(Dependents(c.next, id), changed, queue);
      SpreadOneMore(c, changed1, pending, id, Elements(rest));
      FewerUnmarked(c, changed1, changed, Elements(queue));
    }
    NoneLeft(queue);
    SpreadStops(c, changed);
  }

  lemma {:induction false} NoneLeft(queue: seq<string>)
    requires |queue| == 0
    ensures Elements(queue) == {}
  {
  }

  lemma {:induction false} Head(queue: seq<string>)
    requires |queue| > 0
    ensures queue[0] in Elements(queue) && Elements(queue) == Elements(queue[1..]) + {queue[0]}
  {
    assert queue == [queue[0]] + queue[1..];
  }

  lemma {:induction false} SpreadingStarts(c: Change)
    ensures Spreading(c, c.Changed(), c.Changed())
  {
    hide Change.Changed;
    ChangedAreNodes(c);
  }

  lemma {:induction false} ListsDependents(plan: Plan, d: string)
    requires Sound(plan)
    ensures forall x :: x in Elements(Dependents(plan, d)) <==> Edge(PlanGraph(plan), x, d)
    ensures Elements(Dependents(plan, d)) <= plan.nodes.Keys
  {
    hide Distinct, DepsFirst;
    forall x | Edge(PlanGraph(plan), x, d) ensures d in plan.nodes { DependenciesAreNodes(plan, x); }
  }

  lemma {:induction false} SpreadOneMore(c: Change, changed: set<string>, pending: set<string>, id: string, rest: set<string>)
    requires SoundChange(c) && Spreading(c, changed, pending) && id in pending && pending == rest + {id}
    ensures var first, second := Elements(Dependents(c.previous, id)), Elements(Dependents(c.next, id));
            Spreading(c, changed + first + second, rest + (first - changed) + (second - (changed + first)))
  {
    hide Sound, Change.Changed, Elements;
    var first, second := Elements(Dependents(c.previous, id)), Elements(Dependents(c.next, id));
    ListsDependents(c.previous, id);
    ListsDependents(c.next, id);
    hide PlanGraph, Dependents;
    var more, left := changed + first + second, rest + (first - changed) + (second - (changed + first));
    forall d | d in more && d !in left ensures DependentsIn(c, d, more) {
      if d != id { assert d in changed && d !in pending; }
    }
    forall t | c.Changed() <= t && c.Closed(t) ensures more <= t { assert changed <= t && id in t; }
  }

  lemma {:induction false} FewerUnmarked(c: Change, before: set<string>, after: set<string>, pending: set<string>)
    requires before <= after && Spreading(c, after, pending)
    ensures before != after ==> Unmarked(c, after) < Unmarked(c, before)
    ensures before == after ==> Unmarked(c, after) == Unmarked(c, before)
  {
    hide Change.Changed, Change.Closed, DependentsIn;
    if before != after {
      var x :| x in after && x !in before;
      assert x in Unmarked(c, before);
    }
  }

  lemma {:induction false} SpreadStops(c: Change, changed: set<string>)
    requires Spreading(c, changed, {})
    ensures c.IsImpact(changed)
  {
    hide Change.Changed, PlanGraph;
    forall x, d | d in changed && (Edge(PlanGraph(c.previous), x, d) || Edge(PlanGraph(c.next), x, d)) ensures x in changed {
      assert DependentsIn(c, d, changed);
    }
  }

  /** The marked nodes of an order, those already listed left out. */
  method Collect(order: seq<string>, marked: set<string>, listed: seq<string>) returns (affected: seq<string>)
    requires Distinct(order)
    ensures affected == listed + Filtered(order, marked - Elements(listed))
  {
    hide *;
    affected := listed;
    ghost var unlisted := marked - Elements(listed);
    assert Filtered(order[..0], unlisted) == [] by { FilteredNothing(unlisted); }
    for i := 0 to |order|
      invariant affected == listed + Filtered(order[..i], unlisted)
    {
      CollectOneMore(order, i, marked, listed);
      if order[i] in marked && order[i] !in affected { affected := affected + [order[i]]; }
    }
    assert order[..|order|] == order;
  }

  lemma {:induction false} CollectOneMore(order: seq<string>, i: nat, marked: set<string>, listed: seq<string>)
    requires Distinct(order) && i < |order|
    ensures var unlisted := marked - Elements(listed);
            var affected := listed + Filtered(order[..i], unlisted);
            listed + Filtered(order[..i + 1], unlisted) == if order[i] in marked && order[i] !in affected then affected + [order[i]] else affected
  {
    hide Filtered;
    var unlisted := marked - Elements(listed);
    FilteredStep(order, i, unlisted);
    FilteredElements(order[..i], unlisted);
    assert order[i] !in order[..i];
    var part := Filtered(order[..i], unlisted);
    assert order[i] in part <==> order[i] in Elements(part);
    assert part + [] == part;
  }

  /** What replacing a plan changes, and who is affected. */
  method Diff(c: Change) returns (r: ChangeSet)
    requires SoundChange(c)
    ensures Reports(c, r)
  {
    hide *;
    SoundOrders(c);
    var added, updated, untouched, changed := Compare(c);
    var removed;
    removed, changed := Vanished(c, changed);
    IsPartition(c, ChangeSet(added, updated, removed, untouched, []));
    ChangedLists(c, added, updated, removed, untouched);
    changed := Spread(c, changed, added + updated + removed);
    var affected := Collect(c.previous.startOrder, changed, []);
    ghost var first := affected;
    affected := Collect(c.next.startOrder, changed, affected);
    r := ChangeSet(added, updated, removed, untouched, affected);
    IsPartition(c, r);
    AllReported(c, r, changed, first);
  }

  lemma {:induction false} IsPartition(c: Change, r: ChangeSet)
    requires r.added == Filtered(c.next.startOrder, c.next.nodes.Keys - c.previous.nodes.Keys)
    requires r.updated == Filtered(c.next.startOrder, c.next.nodes.Keys * c.previous.nodes.Keys - c.KeptNodes())
    requires r.untouched == Filtered(c.next.startOrder, c.KeptNodes())
    requires r.removed == Filtered(c.previous.startOrder, c.previous.nodes.Keys - c.next.nodes.Keys)
    ensures Partition(c, r)
  {
  }

  lemma {:induction false} SoundOrders(c: Change)
    requires SoundChange(c)
    ensures Distinct(c.previous.startOrder) && Elements(c.previous.startOrder) == c.previous.nodes.Keys
    ensures Distinct(c.next.startOrder) && Elements(c.next.startOrder) == c.next.nodes.Keys
  {
    hide Sound;
    OrderListsNodes(c.previous);
    OrderListsNodes(c.next);
  }

  lemma {:induction false} ChangedLists(c: Change, added: seq<string>, updated: seq<string>, removed: seq<string>, untouched: seq<string>)
    requires SoundChange(c) && Partition(c, ChangeSet(added, updated, removed, untouched, []))
    ensures Elements(added + updated + removed) == c.Changed()
    ensures c.next.nodes.Keys - c.KeptNodes() + (c.previous.nodes.Keys - c.next.nodes.Keys) == c.Changed()
  {
    hide SoundChange, Filtered, Partition;
    ListedSets(c, ChangeSet(added, updated, removed, untouched, []));
    KeptAreShared(c);
    assert Elements(added + updated + removed) == Elements(added) + Elements(updated) + Elements(removed);
  }

  lemma {:induction false} AllReported(c: Change, r: ChangeSet, changed: set<string>, first: seq<string>)
    requires Elements(c.previous.startOrder) == c.previous.nodes.Keys && Partition(c, r) && c.IsImpact(changed)
    requires first == [] + Filtered(c.previous.startOrder, changed - Elements([]))
    requires r.affected == first + Filtered(c.next.startOrder, changed - Elements(first))
    ensures Reports(c, r)
  {
    hide Filtered, Partition, Change.IsImpact;
    assert changed - Elements([]) == changed;
    FilteredElements(c.previous.startOrder, changed);
    assert first == Filtered(c.previous.startOrder, changed);
    assert changed - Elements(first) == changed - c.previous.nodes.Keys;
    assert r.affected == Affected(c, changed);
    forall s | c.IsImpact(s) ensures r.affected == Affected(c, s) { ImpactIsUnique(c, s, changed); }
  }
}
