/** The start order of the applications of one host. */
module AppOrder {
  import opened Finite
  import opened Lexicographic
  import opened Graphs
  import opened Text

  // ------------------------------------------------------------ specification

  /** The graph of the dependency lists; a repeated entry counts once. */
  ghost function AppGraph(dependsOn: map<string, seq<string>>): (g: Graph)
    ensures g.Keys == dependsOn.Keys
  {
    map x | x in dependsOn :: Elements(dependsOn[x])
  }

  /** Not yet ordered, but all its dependencies are. */
  ghost function Available(g: Graph, done: set<string>): set<string> { set x | x in g && x !in done && g[x] <= done }

  /** a is b, or smaller at the first place where they differ. */
  ghost predicate Precedes(a: seq<string>, b: seq<string>)
  {
    a == b || exists k :: 0 <= k < |a| && k < |b| && a[..k] == b[..k] && Less(a[k], b[k])
  }

  /** At every step the least available node. */
  ghost predicate Greedy(g: Graph, order: seq<string>)
  {
    forall k :: 0 <= k < |order| ==> Chosen(g, Elements(order[..k]), order[k])
  }

  ghost predicate Chosen(g: Graph, done: set<string>, x: string)
  {
    x in Available(g, done) && forall y :: y in Available(g, done) ==> AtMost(x, y)
  }

  // ------------------------------------------------------- why greedy is least

  lemma {:induction false} GreedyIsTopological(g: Graph, order: seq<string>)
    requires Greedy(g, order)
    ensures Distinct(order) && Elements(order) <= g.Keys && DepsFirst(g, order)
  {
    forall i | 0 <= i < |order| ensures order[i] in g && g[order[i]] <= Elements(order[..i]) && order[i] !in Elements(order[..i]) {
      assert Chosen(g, Elements(order[..i]), order[i]);
    }
    forall i, j | 0 <= i < j < |order| ensures order[i] != order[j] {
      assert order[..j][i] == order[i];
      assert order[i] in Elements(order[..j]);
    }
  }

  /** In a topological order the next node is available. */
  lemma {:induction false} NextIsAvailable(g: Graph, order: seq<string>, k: nat)
    requires TopologicalOrder(g, order) && k < |order|
    ensures order[k] in Available(g, Elements(order[..k]))
  {
  }

  /** The first place where two sequences of one length differ. */
  lemma {:induction false} FirstDifference(a: seq<string>, b: seq<string>) returns (k: nat)
    requires |a| == |b|
    ensures k <= |a| && a[..k] == b[..k]
    ensures if k == |a| then a == b else a[k] != b[k]
  {
    k := 0;
    while k < |a| && a[k] == b[k]
      invariant 0 <= k <= |a| && a[..k] == b[..k]
    {
      assert a[..k + 1] == a[..k] + [a[k]] && b[..k + 1] == b[..k] + [b[k]];
      k := k + 1;
    }
    assert k == |a| ==> a == a[..k] == b[..k] == b;
  }

  /** The greedy order precedes every topological order. */
  lemma {:induction false} GreedyIsLeast(g: Graph, a: seq<string>, b: seq<string>)
    requires Greedy(g, a) && Elements(a) == g.Keys && TopologicalOrder(g, b)
    ensures Precedes(a, b)
  {
    hide Available, Less, Greedy, DepsFirst;
    GreedyIsTopological(g, a);
    DistinctSize(a);
    DistinctSize(b);
    var k := FirstDifference(a, b);
    if k < |a| {
      hide Distinct, Elements;
      NextIsAvailable(g, b, k);
      GreedyChose(g, a, k);
      assert AtMost(a[k], b[k]);
    }
  }

  lemma {:induction false} GreedyChose(g: Graph, a: seq<string>, k: nat)
    requires Greedy(g, a) && k < |a|
    ensures Chosen(g, Elements(a[..k]), a[k])
  {
  }

  /** If every node left waits for another one, there is no order at all. */
  lemma {:induction false} StuckHasNoOrder(g: Graph, done: set<string>, order: seq<string>)
    requires Available(g, done) == {} && Elements(order) == g.Keys && DepsFirst(g, order)
    ensures g.Keys <= done
  {
    for i := 0 to |order|
      invariant Elements(order[..i]) <= done
    {
      assert order[..i + 1] == order[..i] + [order[i]];
      ElementsAppend(order[..i], order[i]);
      assert order[i] in g && g[order[i]] <= done;
      NotAvailable(g, done, order[i]);
    }
    assert order[..|order|] == order;
  }

  lemma {:induction false} NotAvailable(g: Graph, done: set<string>, x: string)
    requires Available(g, done) == {} && x in g && g[x] <= done
    ensures x in done
  {
    assert x !in Available(g, done);
  }

  /** In a closed graph, being stuck means there is a cycle. */
  lemma {:induction false} StuckHasCycle(g: Graph, done: set<string>)
    requires Available(g, done) == {} && !(g.Keys <= done)
    requires forall x :: x in g ==> g[x] <= g.Keys
    ensures !Acyclic(g)
  {
    var left := g.Keys - done;
    forall y | y in left ensures DependsInto(g, y, left) {
      assert y !in Available(g, done);
      var d :| d in g[y] && d !in done;
      assert d in g[y] * left;
    }
    var x :| x in g.Keys && x !in done;
    assert x in left;
    StuckLeadsToCycle(g, left, x);
  }

  // ------------------------------------------------------------- the algorithm

  /** The indexes built from the first part of the applications. */
  ghost predicate Indexed(g: Graph, seen: set<string>, remaining: map<string, set<string>>, dependents: map<string, seq<string>>)
  {
    && remaining.Keys == seen && (forall x :: x in seen ==> x in g && remaining[x] == g[x])
    && (forall d :: Distinct(At(dependents, d)) && Elements(At(dependents, d)) == set x | x in seen && x in g && d in g[x])
  }

  method Index(dependsOn: map<string, seq<string>>) returns (remaining: map<string, set<string>>, dependents: map<string, seq<string>>)
    ensures Indexed(AppGraph(dependsOn), dependsOn.Keys, remaining, dependents)
  {
    hide *;
    remaining, dependents := map[], map[];
    var todo := dependsOn.Keys;
    IndexedNone(AppGraph(dependsOn));
    assert dependsOn.Keys - todo == {};
    while todo != {}
      invariant todo <= dependsOn.Keys
      invariant Indexed(AppGraph(dependsOn), dependsOn.Keys - todo, remaining, dependents)
      decreases todo
    {
      var x :| x in todo;
      var dependencies: set<string> := {};
      ghost var dependents0, seen := dependents, dependsOn.Keys - todo;
      OneIndexedNone(dependents, dependsOn[x], x);
      for i := 0 to |dependsOn[x]|
        invariant OneIndexed(dependents0, dependents, dependsOn[x], i, x, dependencies)
      {
        var d := dependsOn[x][i];
        OneIndexedMore(dependents0, dependents, dependsOn[x], i, x, dependencies);
        if d !in dependencies {
          dependencies := dependencies + {d};
          dependents := dependents[d := At(dependents, d) + [x]];
        }
      }
      OneIndexedAll(dependsOn, seen, remaining, dependents0, dependents, x, dependencies);
      remaining := remaining[x := dependencies];
      todo := todo - {x};
      assert dependsOn.Keys - todo == seen + {x};
    }
    assert dependsOn.Keys - todo == dependsOn.Keys;
  }

  lemma {:induction false} IndexedNone(g: Graph)
    ensures Indexed(g, {}, map[], map[])
  {
  }

  /** x is appended to the dependents of its first i dependencies. */
  ghost predicate OneIndexed(before: map<string, seq<string>>, after: map<string, seq<string>>, list: seq<string>, i: nat, x: string,
                             dependencies: set<string>)
    requires i <= |list|
  {
    && dependencies == Elements(list[..i])
    && forall d :: At(after, d) == if d in dependencies then At(before, d) + [x] else At(before, d)
  }

  lemma {:induction false} OneIndexedNone(before: map<string, seq<string>>, list: seq<string>, x: string)
    ensures OneIndexed(before, before, list, 0, x, {})
  {
  }

  lemma {:induction false} OneIndexedMore(before: map<string, seq<string>>, after: map<string, seq<string>>, list: seq<string>, i: nat,
                                          x: string, dependencies: set<string>)
    requires i < |list| && OneIndexed(before, after, list, i, x, dependencies)
    ensures list[i] in dependencies ==> OneIndexed(before, after, list, i + 1, x, dependencies)
    ensures list[i] !in dependencies ==>
              OneIndexed(before, after[list[i] := At(after, list[i]) + [x]], list, i + 1, x, dependencies + {list[i]})
  {
    assert list[..i + 1] == list[..i] + [list[i]];
    ElementsAppend(list[..i], list[i]);
    assert list[i] in dependencies ==> dependencies + {list[i]} == dependencies;
  }

  lemma {:induction false} OneIndexedAll(dependsOn: map<string, seq<string>>, seen: set<string>, remaining: map<string, set<string>>,
                                         before: map<string, seq<string>>, after: map<string, seq<string>>, x: string, dependencies: set<string>)
    requires x in dependsOn && x !in seen && Indexed(AppGraph(dependsOn), seen, remaining, before)
    requires OneIndexed(before, after, dependsOn[x], |dependsOn[x]|, x, dependencies)
    ensures Indexed(AppGraph(dependsOn), seen + {x}, remaining[x := dependencies], after)
  {
    hide Distinct, Elements;
    var g := AppGraph(dependsOn);
    assert dependsOn[x][..|dependsOn[x]|] == dependsOn[x];
    forall d ensures Distinct(At(after, d)) && Elements(At(after, d)) == set y | y in seen + {x} && y in g && d in g[y] {
      DependentAppended(At(before, d), x, seen);
      assert d in dependencies <==> d in g[x];
    }
  }

  lemma {:induction false} DependentAppended(list: seq<string>, x: string, seen: set<string>)
    requires Distinct(list) && x !in seen
    ensures Elements(list) <= seen ==> Distinct(list + [x])
    ensures Elements(list + [x]) == Elements(list) + {x}
  {
    ElementsAppend(list, x);
    if Elements(list) <= seen { DistinctAppend(list, x); }
  }

  /** The nodes ordered so far were chosen greedily; the queue holds, in order,
      what is available next; the counters hold what each node still waits for. */
  ghost predicate Ordering(g: Graph, remaining: map<string, set<string>>, ready: seq<string>, ordered: seq<string>)
  {
    Greedy(g, ordered) && Waiting(g, Elements(ordered), remaining) && Offered(g, Elements(ordered), ready)
  }

  ghost predicate Waiting(g: Graph, done: set<string>, remaining: map<string, set<string>>)
  {
    remaining.Keys == g.Keys && forall x :: x in g ==> remaining[x] == g[x] - done
  }

  ghost predicate Offered(g: Graph, done: set<string>, ready: seq<string>)
  {
    Distinct(ready) && Elements(ready) == Available(g, done) && SortedBy(AtMost, ready)
  }

  /** sort.Strings. */
  method SortStrings(a: seq<string>) returns (r: seq<string>)
    requires Distinct(a)
    ensures Distinct(r) && Elements(r) == Elements(a) && SortedBy(AtMost, r)
  {
    AtMostIsTotal();
    r := Sort(AtMost, a);
    PermutationFacts(a, r);
  }

  method InitiallyReady(ghost g: Graph, remaining: map<string, set<string>>) returns (ready: seq<string>)
    requires Waiting(g, {}, remaining)
    ensures Offered(g, {}, ready)
  {
    ready := [];
    var todo := remaining.Keys;
    while todo != {}
      invariant todo <= remaining.Keys && Distinct(ready)
      invariant forall x :: x in ready <==> x in remaining.Keys - todo && remaining[x] == {}
      decreases todo
    {
      var x :| x in todo;
      if remaining[x] == {} { ready := ready + [x]; }
      todo := todo - {x};
    }
    ready := SortStrings(ready);
    assert forall x :: x in g ==> (remaining[x] == {} <==> g[x] <= {});
    assert forall x :: x in ready <==> x in Elements(ready);
  }

  /** Every list names exactly the nodes that depend on the key. */
  ghost predicate Reversed(g: Graph, dependents: map<string, seq<string>>)
  {
    forall d :: DependentList(g, d, At(dependents, d))
  }

  ghost predicate DependentList(g: Graph, d: string, list: seq<string>)
  {
    Distinct(list) && Elements(list) == set y | y in g && d in g[y]
  }

  lemma {:induction false} IndexedMeans(dependsOn: map<string, seq<string>>, remaining: map<string, set<string>>, dependents: map<string, seq<string>>)
    requires Indexed(AppGraph(dependsOn), dependsOn.Keys, remaining, dependents)
    ensures Waiting(AppGraph(dependsOn), {}, remaining) && Reversed(AppGraph(dependsOn), dependents)
  {
    hide Distinct, Elements;
  }

  lemma {:induction false} OrderingStart(g: Graph, remaining: map<string, set<string>>, ready: seq<string>)
    requires Waiting(g, {}, remaining) && Offered(g, {}, ready)
    ensures Ordering(g, remaining, ready, [])
  {
    hide Waiting, Offered;
    var nobody: seq<string> := [];
    assert Elements(nobody) == {};
  }

  ghost predicate Settled(g: Graph, done: set<string>) { forall y :: y in done ==> y in g && g[y] <= done }

  /** The head of the queue is the greedy choice. */
  lemma {:induction false} HeadIsChosen(g: Graph, remaining: map<string, set<string>>, ready: seq<string>, ordered: seq<string>)
    requires Ordering(g, remaining, ready, ordered) && ready != []
    ensures Greedy(g, ordered) && Chosen(g, Elements(ordered), ready[0]) && Settled(g, Elements(ordered))
    ensures Waiting(g, Elements(ordered), remaining) && Offered(g, Elements(ordered), ready)
  {
    hide Waiting, Available, AtMost;
    GreedyIsSettled(g, ordered);
    var x := ready[0];
    assert x in Elements(ready);
    forall y | y in Available(g, Elements(ordered)) ensures AtMost(x, y) {
      assert y in Elements(ready);
      var j :| 0 <= j < |ready| && ready[j] == y;
      if j == 0 { AtMostItself(x); }
    }
  }

  lemma {:induction false} AtMostItself(x: string)
    ensures AtMost(x, x)
  {
  }

  lemma {:induction false} GreedyIsSettled(g: Graph, ordered: seq<string>)
    requires Greedy(g, ordered)
    ensures Settled(g, Elements(ordered))
  {
    hide Greedy;
    GreedyIsTopological(g, ordered);
    forall y | y in Elements(ordered) ensures y in g && g[y] <= Elements(ordered) {
      var k :| 0 <= k < |ordered| && ordered[k] == y;
      assert g[ordered[k]] <= Elements(ordered[..k]);
    }
  }

  /** The first j dependents of x no longer wait for it. */
  ghost predicate Releasing(g: Graph, done: set<string>, x: string, list: seq<string>, j: nat, ready0: seq<string>,
                            remaining: map<string, set<string>>, ready: seq<string>)
    requires j <= |list|
  {
    && remaining.Keys == g.Keys
    && (forall y :: y in g ==> remaining[y] == if y in list[..j] then g[y] - (done + {x}) else g[y] - done)
    && Distinct(ready)
    && (forall y :: y in ready <==> y in ready0 || (y in list[..j] && y in g && g[y] <= done + {x}))
  }

  lemma {:induction false} ReleasingNone(g: Graph, done: set<string>, x: string, list: seq<string>,
                                         remaining: map<string, set<string>>, ready: seq<string>)
    requires Waiting(g, done, remaining) && ready != [] && Offered(g, done, ready)
    ensures Releasing(g, done, x, list, 0, ready[1..], remaining, ready[1..])
  {
    hide Available, SortedBy;
  }

  lemma {:induction false} ReleasingOneMore(g: Graph, done: set<string>, x: string, list: seq<string>, j: nat, ready0: seq<string>,
                                            remaining: map<string, set<string>>, ready: seq<string>)
    requires j < |list| && DependentList(g, x, list) && x !in done
    requires forall y :: y in ready0 ==> y in Available(g, done)
    requires Releasing(g, done, x, list, j, ready0, remaining, ready)
    ensures var y := list[j];
            && y in remaining
            && Releasing(g, done, x, list, j + 1, ready0, remaining[y := remaining[y] - {x}],
                         if remaining[y] - {x} == {} then ready + [y] else ready)
  {
    var y := list[j];
    assert y in Elements(list) && y in g && x in g[y];
    assert list[..j + 1] == list[..j] + [y];
    assert y !in list[..j] && y !in ready0 && y !in ready;
    assert remaining[y] == g[y] - done;
    assert g[y] - done - {x} == g[y] - (done + {x});
    assert g[y] - (done + {x}) == {} <==> g[y] <= done + {x} by { EmptyDifference(g[y], done + {x}); }
  }

  lemma {:induction false} EmptyDifference(a: set<string>, b: set<string>)
    ensures a - b == {} <==> a <= b
  {
    if a - b == {} {
      forall z | z in a ensures z in b { assert z !in a - b; }
    }
  }

  lemma {:induction false} ReleasingAll(g: Graph, done: set<string>, x: string, list: seq<string>, ready0: seq<string>,
                                        remaining: map<string, set<string>>, ready: seq<string>)
    requires DependentList(g, x, list) && Chosen(g, done, x) && Settled(g, done)
    requires ready0 != [] && Offered(g, done, ready0) && ready0[0] == x
    requires Releasing(g, done, x, list, |list|, ready0[1..], remaining, ready)
    ensures Waiting(g, done + {x}, remaining) && Distinct(ready) && Elements(ready) == Available(g, done + {x})
  {
    hide SortedBy, AtMost, Distinct;
    assert list[..|list|] == list;
    assert forall y :: y in g ==> (y in list <==> x in g[y]) by { assert forall y :: y in list <==> y in Elements(list); }
    forall y | y in g && x !in g[y] ensures g[y] - done == g[y] - (done + {x}) {}
    TailMembers(ready0);
    forall y ensures y in ready <==> y in Available(g, done + {x}) {
      assert y in ready0 <==> y in Available(g, done) by { assert y in ready0 <==> y in Elements(ready0); }
    }
  }

  lemma {:induction false} TailMembers(s: seq<string>)
    requires s != [] && Distinct(s)
    ensures forall y :: y in s[1..] <==> y in s && y != s[0]
  {
    assert s == [s[0]] + s[1..];
    forall y | y in s[1..] ensures y != s[0] {
      var j :| 0 <= j < |s[1..]| && s[1..][j] == y;
      assert s[j + 1] == y;
    }
  }

  lemma {:induction false} OrderedOneMore(g: Graph, ordered: seq<string>, x: string, remaining: map<string, set<string>>, ready: seq<string>)
    requires Greedy(g, ordered) && Chosen(g, Elements(ordered), x)
    requires Waiting(g, Elements(ordered) + {x}, remaining) && Offered(g, Elements(ordered) + {x}, ready)
    ensures Ordering(g, remaining, ready, ordered + [x])
  {
    hide Chosen, Waiting, Offered;
    ElementsAppend(ordered, x);
    var more := ordered + [x];
    forall k | 0 <= k < |more| ensures Chosen(g, Elements(more[..k]), more[k]) {
      assert more[..k] == if k < |ordered| then ordered[..k] else ordered;
    }
  }

  lemma {:induction false} OrderingStops(dependsOn: map<string, seq<string>>, remaining: map<string, set<string>>, ordered: seq<string>)
    requires Ordering(AppGraph(dependsOn), remaining, [], ordered)
    ensures |ordered| == |dependsOn| ==> TopologicalOrder(AppGraph(dependsOn), ordered) && Acyclic(AppGraph(dependsOn))
    ensures |ordered| == |dependsOn| ==> forall order :: TopologicalOrder(AppGraph(dependsOn), order) ==> Precedes(ordered, order)
    ensures |ordered| != |dependsOn| ==> forall order :: !TopologicalOrder(AppGraph(dependsOn), order)
    ensures |ordered| != |dependsOn| && (forall x :: x in dependsOn ==> Elements(dependsOn[x]) <= dependsOn.Keys) ==> !Acyclic(AppGraph(dependsOn))
  {
    hide Greedy, DepsFirst, Waiting, Precedes, Acyclic, Distinct;
    var g := AppGraph(dependsOn);
    GreedyIsTopological(g, ordered);
    DistinctSize(ordered);
    SubsetSize(Elements(ordered), g.Keys);
    var nobody: seq<string> := [];
    assert Elements(nobody) == {};
    if |ordered| == |dependsOn| {
      OrderMeansAcyclic(g, ordered);
      forall order | TopologicalOrder(g, order) ensures Precedes(ordered, order) { GreedyIsLeast(g, ordered, order); }
    } else {
      assert |g.Keys| == |dependsOn.Keys| == |dependsOn| && Elements(ordered) != g.Keys;
      assert !(g.Keys <= Elements(ordered));
      forall order ensures !TopologicalOrder(g, order) { NoOrder(g, Elements(ordered), order); }
      if forall x :: x in dependsOn ==> Elements(dependsOn[x]) <= dependsOn.Keys { StuckHasCycle(g, Elements(ordered)); }
    }
  }

  lemma {:induction false} NoOrder(g: Graph, done: set<string>, order: seq<string>)
    requires Available(g, done) == {} && !(g.Keys <= done)
    ensures !TopologicalOrder(g, order)
  {
    if Elements(order) == g.Keys && DepsFirst(g, order) { StuckHasNoOrder(g, done, order); }
  }

  /** Kahn's algorithm with a sorted queue: fails exactly when no order exists,
      and otherwise returns the lexicographically least order. */
  method CanonicalApplicationOrder(dependsOn: map<string, seq<string>>) returns (result: Option<seq<string>>)
    ensures result.None? ==> forall order :: !TopologicalOrder(AppGraph(dependsOn), order)
    ensures result.Some? ==>
      && TopologicalOrder(AppGraph(dependsOn), result.value)
      && forall order :: TopologicalOrder(AppGraph(dependsOn), order) ==> Precedes(result.value, order)
    ensures (forall x :: x in dependsOn ==> Elements(dependsOn[x]) <= dependsOn.Keys) ==> (result.Some? <==> Acyclic(AppGraph(dependsOn)))
  {
    hide *;
    var remaining, dependents := Index(dependsOn);
    ghost var g := AppGraph(dependsOn);
    IndexedMeans(dependsOn, remaining, dependents);
    var ready := InitiallyReady(g, remaining);
    var ordered: seq<string> := [];
    OrderingStart(g, remaining, ready);
    while |ready| > 0
      invariant Ordering(g, remaining, ready, ordered)
      decreases g.Keys - Elements(ordered)
    {
      HeadIsChosen(g, remaining, ready, ordered);
      var x := ready[0];
      remaining, ready := Release(g, Elements(ordered), remaining, ready, dependents);
      Progress(g, ordered, x);
      OrderedOneMore(g, ordered, x, remaining, ready);
      ordered := ordered + [x];
    }
    OrderingStops(dependsOn, remaining, ordered);
    if |ordered| != |dependsOn| { return None; }
    return Some(ordered);
  }

  lemma {:induction false} Progress(g: Graph, ordered: seq<string>, x: string)
    requires Chosen(g, Elements(ordered), x)
    ensures g.Keys - Elements(ordered + [x]) < g.Keys - Elements(ordered)
  {
    ElementsAppend(ordered, x);
    assert x in g.Keys - Elements(ordered);
  }

  /** Takes the head of the queue and queues what it was the last obstacle of. */
  method Release(ghost g: Graph, ghost done: set<string>, remaining0: map<string, set<string>>, ready0: seq<string>,
                 dependents: map<string, seq<string>>)
    returns (remaining: map<string, set<string>>, ready: seq<string>)
    requires ready0 != [] && Reversed(g, dependents) && Settled(g, done) && Chosen(g, done, ready0[0])
    requires Waiting(g, done, remaining0) && Offered(g, done, ready0)
    ensures Waiting(g, done + {ready0[0]}, remaining) && Offered(g, done + {ready0[0]}, ready)
  {
    hide *;
    var x := ready0[0];
    var list := At(dependents, x);
    remaining, ready := remaining0, ready0[1..];
    ReleaseFacts(g, done, ready0, dependents);
    ReleasingNone(g, done, x, list, remaining0, ready0);
    for j := 0 to |list|
      invariant Releasing(g, done, x, list, j, ready0[1..], remaining, ready)
    {
      var y := list[j];
      ReleasingOneMore(g, done, x, list, j, ready0[1..], remaining, ready);
      remaining := remaining[y := remaining[y] - {x}];
      if remaining[y] == {} { ready := ready + [y]; }
    }
    ReleasingAll(g, done, x, list, ready0, remaining, ready);
    ready := SortStrings(ready);
    IsOffered(g, done + {x}, ready);
  }

  lemma {:induction false} ReleaseFacts(g: Graph, done: set<string>, ready0: seq<string>, dependents: map<string, seq<string>>)
    requires ready0 != [] && Reversed(g, dependents) && Chosen(g, done, ready0[0]) && Offered(g, done, ready0)
    ensures ready0[0] !in done && DependentList(g, ready0[0], At(dependents, ready0[0]))
    ensures forall y :: y in ready0[1..] ==> y in Available(g, done)
  {
    hide DependentList, SortedBy, AtMost, Distinct;
    forall y | y in ready0[1..] ensures y in Available(g, done) { assert y in Elements(ready0); }
  }

  lemma {:induction false} IsOffered(g: Graph, done: set<string>, ready: seq<string>)
    requires Distinct(ready) && Elements(ready) == Available(g, done) && SortedBy(AtMost, ready)
    ensures Offered(g, done, ready)
  {
  }
}
