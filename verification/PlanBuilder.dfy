/** Build: Kahn's algorithm, level by level. */
module PlanBuilder {
  import opened Finite
  import opened Graphs
  import opened Text
  import opened Plans

  // --------------------------------------------------------------- validation

  method CheckIds(items: seq<Item>) returns (err: Option<Error>)
    ensures err.None? <==> items != [] && Named(items)
    ensures err == Some(NoNodes) <==> items == []
    ensures err.Some? ==> !err.value.CycleInvolving?
  {
    hide Named, Ids, TrimSpace;
    if |items| == 0 { return Some(NoNodes); }
    NamedNone(items);
    var ordinals: map<string, nat> := map[];
    for i := 0 to |items|
      invariant Named(items[..i]) && ordinals.Keys == Ids(items[..i])
    {
      NamedOneMore(items, i);
      if TrimSpace(items[i].id) == "" { return Some(EmptyID(i)); }
      if items[i].id in ordinals { return Some(DuplicateNode(items[i].id)); }
      ordinals := ordinals[items[i].id := i];
    }
    assert items[..|items|] == items;
    return None;
  }

  lemma {:induction false} NamedNone(items: seq<Item>)
    ensures Named(items[..0]) && Ids(items[..0]) == {}
  {
  }

  lemma {:induction false} NamedOneMore(items: seq<Item>, i: nat)
    requires i < |items| && Named(items[..i])
    ensures Named(items[..i + 1]) <==> TrimSpace(items[i].id) != "" && items[i].id !in Ids(items[..i])
    ensures Named(items) ==> Named(items[..i + 1])
    ensures Ids(items[..i + 1]) == Ids(items[..i]) + {items[i].id}
  {
    hide Named, TrimSpace, Ids;
    assert items[..i + 1] == items[..i] + [items[i]];
    NamedAppend(items[..i], items[i]);
    NamedPrefix(items, i + 1);
  }

  lemma {:induction false} NamedPrefix(items: seq<Item>, n: nat)
    requires n <= |items|
    ensures Named(items) ==> Named(items[..n])
  {
    hide TrimSpace;
  }

  lemma {:induction false} NamedAppend(front: seq<Item>, item: Item)
    requires Named(front)
    ensures Named(front + [item]) <==> TrimSpace(item.id) != "" && item.id !in Ids(front)
    ensures Ids(front + [item]) == Ids(front) + {item.id}
  {
    hide TrimSpace;
    var more := front + [item];
    assert more[..|front|] == front;
    IdsGrow(more);
    assert more[|front|] == item;
    if item.id in Ids(front) {
      var j :| 0 <= j < |front| && front[j].id == item.id;
      assert more[j].id == more[|front|].id;
    } else {
      forall i, j | 0 <= i < j < |more| ensures more[i].id != more[j].id {
        assert more[i] == front[i] && front[i].id in Ids(front);
      }
    }
  }

  /** One item's dependencies: checked, and the item appended to their dependents. */
  method AddDependencies(items: seq<Item>, i: nat, known: map<string, seq<string>>)
    returns (dependents: map<string, seq<string>>, err: Option<Error>)
    requires i < |items|
    ensures err.None? <==> ItemClosed(items, items[i])
    ensures err.Some? ==> !err.value.NoNodes? && !err.value.CycleInvolving?
    ensures err.None? ==> forall d :: At(dependents, d) == At(known, d) + if d in Elements(items[i].dependsOn) then [items[i].id] else []
  {
    hide Ids, Distinct, Elements;
    var item := items[i];
    dependents := known;
    NothingSeen(item.dependsOn);
    var seen: set<string> := {};
    for j := 0 to |item.dependsOn|
      invariant seen == Elements(item.dependsOn[..j]) && Distinct(item.dependsOn[..j])
      invariant seen <= Ids(items) - {item.id}
      invariant forall d :: At(dependents, d) == At(known, d) + if d in seen then [item.id] else []
    {
      var d := item.dependsOn[j];
      assert item.dependsOn[..j + 1] == item.dependsOn[..j] + [d];
      InElements(item.dependsOn, j);
      if d == item.id { return dependents, Some(SelfDependency(item.id)); }
      if d !in Ids(items) { return dependents, Some(UnknownDependency(item.id, d)); }
      if d in seen {
        RepeatIsNotDistinct(item.dependsOn, j);
        return dependents, Some(RepeatedDependency(item.id, d));
      }
      ElementsAppend(item.dependsOn[..j], d);
      DistinctAppend(item.dependsOn[..j], d);
      seen := seen + {d};
      dependents := dependents[d := At(dependents, d) + [item.id]];
    }
    assert item.dependsOn[..|item.dependsOn|] == item.dependsOn;
    return dependents, None;
  }

  lemma {:induction false} RepeatIsNotDistinct(a: seq<string>, j: nat)
    requires j < |a| && a[j] in Elements(a[..j])
    ensures !Distinct(a)
  {
    var k :| 0 <= k < j && a[..j][k] == a[j];
    assert a[k] == a[j];
  }

  lemma {:induction false} InElements(a: seq<string>, j: nat)
    requires j < |a|
    ensures a[j] in Elements(a)
  {
  }

  lemma {:induction false} NothingSeen(a: seq<string>)
    ensures Elements(a[..0]) == {} && Distinct(a[..0])
  {
  }

  method CollectDependents(items: seq<Item>) returns (dependents: map<string, seq<string>>, err: Option<Error>)
    requires items != [] && Named(items)
    ensures err.None? <==> WellFormed(items)
    ensures err.Some? ==> !err.value.NoNodes? && !err.value.CycleInvolving?
    ensures err.None? ==> forall d :: At(dependents, d) == InOrder(items, DependentsOf(GraphOf(items), d))
  {
    hide *;
    dependents := map[];
    CollectedNone(items);
    for i := 0 to |items|
      invariant Collected(items, i, dependents)
    {
      ghost var known := dependents;
      dependents, err := AddDependencies(items, i, dependents);
      if err.Some? {
        NotClosed(items, i);
        return;
      }
      CollectedOneMore(items, i, known, dependents);
    }
    CollectedAll(items, dependents);
    dependents := SortDependents(items, dependents);
    return dependents, None;
  }

  /** The first n items are closed, and the lists name them as dependents. */
  ghost predicate Collected(items: seq<Item>, n: nat, dependents: map<string, seq<string>>)
    requires n <= |items|
  {
    && (forall j :: 0 <= j < n ==> ItemClosed(items, items[j]))
    && (forall d :: At(dependents, d) == InOrder(items[..n], DependentsOf(GraphOf(items), d)))
  }

  lemma {:induction false} CollectedNone(items: seq<Item>)
    ensures Collected(items, 0, map[])
  {
  }

  lemma {:induction false} NotClosed(items: seq<Item>, i: nat)
    requires i < |items| && !ItemClosed(items, items[i])
    ensures !WellFormed(items)
  {
  }

  lemma {:induction false} CollectedOneMore(items: seq<Item>, i: nat, known: map<string, seq<string>>, dependents: map<string, seq<string>>)
    requires Named(items) && i < |items| && Collected(items, i, known) && ItemClosed(items, items[i])
    requires forall d :: At(dependents, d) == At(known, d) + if d in Elements(items[i].dependsOn) then [items[i].id] else []
    ensures Collected(items, i + 1, dependents)
  {
    hide TrimSpace, GraphOf, InOrder, At, ItemClosed;
    var g := GraphOf(items);
    GraphAt(items, i);
    forall d ensures At(dependents, d) == InOrder(items[..i + 1], DependentsOf(g, d)) {
      InOrderStep(items, i, DependentsOf(g, d));
      assert items[i].id in DependentsOf(g, d) <==> d in Elements(items[i].dependsOn);
    }
  }

  lemma {:induction false} CollectedAll(items: seq<Item>, dependents: map<string, seq<string>>)
    requires items != [] && Named(items) && Collected(items, |items|, dependents)
    ensures WellFormed(items)
    ensures forall d :: At(dependents, d) == InOrder(items, DependentsOf(GraphOf(items), d))
  {
    hide TrimSpace, GraphOf, InOrder, At, DependentsOf;
    assert items[..|items|] == items;
  }

  /** The stable sort of every list finds it sorted already. */
  method SortDependents(items: seq<Item>, known: map<string, seq<string>>) returns (dependents: map<string, seq<string>>)
    requires Named(items)
    requires forall d :: At(known, d) == InOrder(items, DependentsOf(GraphOf(items), d))
    ensures forall d :: At(dependents, d) == At(known, d)
  {
    hide TrimSpace, GraphOf, DependentsOf;
    dependents := known;
    var keys := known.Keys;
    while keys != {}
      invariant keys <= known.Keys == dependents.Keys
      invariant forall d :: At(dependents, d) == At(known, d)
      decreases keys
    {
      var id :| id in keys;
      var s := Elements(dependents[id]);
      assert dependents[id] == At(known, id);
      InOrderDistinct(items, DependentsOf(GraphOf(items), id));
      InOrderElements(items, DependentsOf(GraphOf(items), id));
      var sorted := SortByOrdinal(items, dependents[id]);
      InOrderSame(items, DependentsOf(GraphOf(items), id), DependentsOf(GraphOf(items), id) * Ids(items));
      dependents := dependents[id := sorted];
      keys := keys - {id};
    }
  }

  // ------------------------------------------------------------------- levels

  /** How many dependencies of each node are still missing. */
  ghost predicate Counts(g: Graph, remaining: map<string, nat>, placed: set<string>)
  {
    forall x :: x in g ==> x in remaining && remaining[x] == |g[x] - placed|
  }

  /** The nodes all of whose dependencies are placed. */
  ghost function Satisfied(g: Graph, placed: set<string>): set<string> { set x | x in g && g[x] <= placed }

  /** The dependents of a newly placed node count down; those that reach zero join. */
  method ProcessNode(dependents: seq<string>, remaining0: map<string, nat>, next0: seq<string>,
                     ghost g: Graph, ghost id: string, ghost placed: set<string>, ghost before: set<string>)
    returns (remaining: map<string, nat>, next: seq<string>)
    requires Counts(g, remaining0, placed) && id !in placed
    requires Distinct(dependents) && Elements(dependents) == DependentsOf(g, id)
    requires before <= placed && Distinct(next0) && Elements(next0) == Satisfied(g, placed) - Satisfied(g, before)
    ensures Counts(g, remaining, placed + {id})
    ensures Distinct(next) && Elements(next) == Satisfied(g, placed + {id}) - Satisfied(g, before)
  {
    remaining, next := remaining0, next0;
    for m := 0 to |dependents|
      invariant forall x :: x in g ==> x in remaining
      invariant forall x :: x in g ==>
        remaining[x] == if x in dependents[..m] then |g[x] - (placed + {id})| else |g[x] - placed|
      invariant Distinct(next)
      invariant Elements(next) == (Satisfied(g, placed) - Satisfied(g, before)) + (Satisfied(g, placed + {id}) * Elements(dependents[..m]))
    {
      var x := dependents[m];
      assert dependents[..m + 1] == dependents[..m] + [x];
      assert x in Elements(dependents);
      assert x !in dependents[..m];
      OneLess(g[x], placed, id);
      remaining := remaining[x := remaining[x] - 1];
      ElementsAppend(dependents[..m], x);
      if remaining[x] == 0 {
        assert x !in Elements(next);
        ElementsAppend(next, x);
        next := next + [x];
      }
    }
    assert dependents[..|dependents|] == dependents;
    forall x | x in g && x !in dependents ensures g[x] - (placed + {id}) == g[x] - placed {
      assert x !in DependentsOf(g, id);
    }
    forall x | x in Satisfied(g, placed + {id}) && x !in Elements(dependents) ensures x in Satisfied(g, placed) {
      assert x !in DependentsOf(g, id);
    }
  }

  /** Levels by number: dependencies lie strictly below, one of them directly below. */
  ghost predicate Levelled(g: Graph, lev: map<string, nat>)
  {
    forall x :: x in lev ==> x in g && LevelledAt(g, lev, x)
  }

  ghost predicate LevelledAt(g: Graph, lev: map<string, nat>, x: string)
    requires x in g && x in lev
  {
    && (forall d :: d in g[x] ==> d in lev && lev[d] < lev[x])
    && (lev[x] > 0 ==> exists d :: d in g[x] && d in lev && lev[d] == lev[x] - 1)
  }

  /** One level: every node is placed, its dependents counted down. */
  method ProcessLevel(dependents: map<string, seq<string>>, level: seq<string>, number: nat,
                      remaining0: map<string, nat>, lev0: map<string, nat>, ghost g: Graph)
    returns (remaining: map<string, nat>, lev: map<string, nat>, next: seq<string>)
    requires Counts(g, remaining0, lev0.Keys)
    requires Distinct(level) && Elements(level) !! lev0.Keys
    requires forall d :: Distinct(At(dependents, d)) && Elements(At(dependents, d)) == DependentsOf(g, d)
    ensures lev == map x | x in lev0.Keys + Elements(level) :: if x in lev0 then lev0[x] else number
    ensures Counts(g, remaining, lev.Keys)
    ensures Distinct(next) && Elements(next) == Satisfied(g, lev.Keys) - Satisfied(g, lev0.Keys)
  {
    hide Counts, Satisfied, DependentsOf;
    remaining, lev, next := remaining0, lev0, [];
    assert lev0.Keys + Elements(level[..0]) == lev0.Keys;
    assert Elements(next) == Satisfied(g, lev.Keys) - Satisfied(g, lev0.Keys);
    for j := 0 to |level|
      invariant lev == map x | x in lev0.Keys + Elements(level[..j]) :: if x in lev0 then lev0[x] else number
      invariant Counts(g, remaining, lev.Keys)
      invariant Distinct(next) && Elements(next) == Satisfied(g, lev.Keys) - Satisfied(g, lev0.Keys)
    {
      var id := level[j];
      assert level[..j + 1] == level[..j] + [id];
      ElementsAppend(level[..j], id);
      assert id !in lev.Keys by { assert id in Elements(level) && id !in level[..j]; }
      ghost var was := lev;
      lev := lev[id := number];
      assert lev.Keys == was.Keys + {id};
      remaining, next := ProcessNode(At(dependents, id), remaining, next, g, id, was.Keys, lev0.Keys);
    }
    assert level[..|level|] == level;
  }

  ghost function Numbered(lev: map<string, nat>, k: nat): set<string> { set x | x in lev && lev[x] == k }

  /** The levels list the numbering, each in input order. */
  ghost predicate Listing(items: seq<Item>, levels: seq<seq<string>>, lev: map<string, nat>)
  {
    && (forall k :: 0 <= k < |levels| ==> levels[k] != [] && levels[k] == InOrder(items, Numbered(lev, k)))
    && (forall x :: x in lev ==> lev[x] < |levels|)
  }

  ghost predicate Ordering(g: Graph, levels: seq<seq<string>>, startOrder: seq<string>, lev: map<string, nat>)
  {
    && Distinct(startOrder) && Elements(startOrder) == lev.Keys && DepsFirst(g, startOrder)
    && startOrder == Flatten(levels)
  }

  /** x waited for the last of n levels. */
  ghost predicate WaitedFor(g: Graph, lev: map<string, nat>, n: nat, x: string)
  {
    x in g && (n > 0 ==> exists d :: d in g[x] && d in lev && lev[d] == n - 1)
  }

  /** Ready are the nodes that wait for nothing and are not placed. */
  ghost predicate Waiting(items: seq<Item>, n: nat, ready: seq<string>, lev: map<string, nat>)
  {
    && ready == InOrder(items, Elements(ready))
    && lev.Keys <= Satisfied(GraphOf(items), lev.Keys)
    && Elements(ready) == Satisfied(GraphOf(items), lev.Keys) - lev.Keys
    && (forall x :: x in ready ==> WaitedFor(GraphOf(items), lev, n, x))
  }

  /** The state between two levels. */
  ghost predicate Between(items: seq<Item>, levels: seq<seq<string>>, startOrder: seq<string>, ready: seq<string>,
                          remaining: map<string, nat>, lev: map<string, nat>)
  {
    var g := GraphOf(items);
    && Counts(g, remaining, lev.Keys) && Levelled(g, lev) && Listing(items, levels, lev)
    && Ordering(g, levels, startOrder, lev) && Waiting(items, |levels|, ready, lev)
  }

  lemma {:induction false} FlattenAppend(levels: seq<seq<string>>, level: seq<string>)
    ensures Flatten(levels + [level]) == Flatten(levels) + level
  {
    assert (levels + [level])[..|levels|] == levels;
  }

  lemma {:induction false} AppendDepsFirst(g: Graph, order: seq<string>, level: seq<string>)
    requires DepsFirst(g, order) && forall x :: x in level ==> x in g && g[x] <= Elements(order)
    ensures DepsFirst(g, order + level)
  {
    var w := order + level;
    forall i | 0 <= i < |w| ensures w[i] in g && g[w[i]] <= Elements(w[..i]) {
      if i < |order| {
        assert w[..i] == order[..i];
      } else {
        assert w[i] in level && w[..i] == order + level[..i - |order|];
        assert Elements(order) <= Elements(w[..i]) by { forall x | x in order ensures x in w[..i] { assert x in order + level[..i - |order|]; } }
      }
    }
  }

  lemma {:induction false} AppendDistinct(a: seq<string>, b: seq<string>)
    requires Distinct(a) && Distinct(b) && Elements(a) !! Elements(b)
    ensures Distinct(a + b) && Elements(a + b) == Elements(a) + Elements(b)
  {
    forall i, j | 0 <= i < j < |a + b| ensures (a + b)[i] != (a + b)[j] {
      if i < |a| <= j { assert a[i] in Elements(a) && b[j - |a|] in Elements(b); }
    }
  }

  /** The numbering after one more level. */
  ghost function Extended(lev: map<string, nat>, ready: set<string>, n: nat): map<string, nat>
  {
    map x | x in lev.Keys + ready :: if x in lev then lev[x] else n
  }

  /** A level of nodes above everything placed keeps the numbering. */
  lemma {:induction false} LevelPlaced(g: Graph, ready: set<string>, n: nat, lev: map<string, nat>)
    requires Levelled(g, lev) && forall x :: x in lev ==> lev[x] < n
    requires forall x :: x in ready ==> WaitedFor(g, lev, n, x) && x !in lev && x in Satisfied(g, lev.Keys)
    ensures Levelled(g, Extended(lev, ready, n))
  {
    var lev' := Extended(lev, ready, n);
    forall x | x in lev' ensures x in g && LevelledAt(g, lev', x) {
      if x in lev {
        assert LevelledAt(g, lev, x);
        if lev[x] > 0 {
          var d :| d in g[x] && d in lev && lev[d] == lev[x] - 1;
          assert d in lev' && lev'[d] == lev[d];
        }
      } else if n > 0 {
        assert WaitedFor(g, lev, n, x);
        var d :| d in g[x] && d in lev && lev[d] == n - 1;
        assert d in lev' && lev'[d] == lev[d];
      }
    }
  }

  lemma {:induction false} LevelsListed(items: seq<Item>, levels: seq<seq<string>>, ready: seq<string>, lev: map<string, nat>)
    requires Listing(items, levels, lev)
    requires Elements(ready) !! lev.Keys && ready == InOrder(items, Elements(ready)) && ready != []
    ensures Listing(items, levels + [ready], Extended(lev, Elements(ready), |levels|))
  {
    hide InOrder;
    var levels', lev' := levels + [ready], Extended(lev, Elements(ready), |levels|);
    forall k | 0 <= k < |levels'| ensures levels'[k] != [] && levels'[k] == InOrder(items, Numbered(lev', k)) {
      if k < |levels| {
        assert Numbered(lev', k) == Numbered(lev, k);
      } else {
        assert Numbered(lev', k) == Elements(ready);
      }
    }
  }

  lemma {:induction false} OrderExtended(g: Graph, levels: seq<seq<string>>, startOrder: seq<string>, ready: seq<string>, lev: map<string, nat>)
    requires Ordering(g, levels, startOrder, lev)
    requires Distinct(ready) && Elements(ready) !! lev.Keys && Elements(ready) <= Satisfied(g, lev.Keys)
    ensures Ordering(g, levels + [ready], startOrder + ready, Extended(lev, Elements(ready), |levels|))
  {
    hide Flatten, DepsFirst;
    FlattenAppend(levels, ready);
    AppendDistinct(startOrder, ready);
    forall x | x in ready ensures x in g && g[x] <= Elements(startOrder) { assert x in Elements(ready); }
    AppendDepsFirst(g, startOrder, ready);
  }

  /** What becomes ready waited for the level just placed. */
  lemma {:induction false} NextWaited(g: Graph, lev: map<string, nat>, ready: set<string>, n: nat, x: string)
    requires x in Satisfied(g, lev.Keys + ready) && x !in Satisfied(g, lev.Keys)
    ensures WaitedFor(g, Extended(lev, ready, n), n + 1, x)
  {
    var d :| d in g[x] && d !in lev.Keys;
    assert d in Extended(lev, ready, n);
  }

  lemma {:induction false} NextWaits(items: seq<Item>, n: nat, ready: seq<string>, lev: map<string, nat>, next: seq<string>)
    requires Waiting(items, n, ready, lev)
    requires var g, keys := GraphOf(items), lev.Keys + Elements(ready);
             next == InOrder(items, Satisfied(g, keys) - Satisfied(g, lev.Keys))
    ensures Waiting(items, n + 1, next, Extended(lev, Elements(ready), n))
  {
    hide GraphOf, InOrder, WaitedFor;
    var g, lev' := GraphOf(items), Extended(lev, Elements(ready), n);
    var s := Satisfied(g, lev'.Keys) - Satisfied(g, lev.Keys);
    assert lev'.Keys == lev.Keys + Elements(ready) == Satisfied(g, lev.Keys);
    GraphKeys(items);
    InOrderElements(items, s);
    assert s * Ids(items) == s;
    forall x | x in next ensures WaitedFor(g, lev', n + 1, x) {
      assert x in Elements(next);
      NextWaited(g, lev, Elements(ready), n, x);
    }
  }

  method Kahn(items: seq<Item>, dependents: map<string, seq<string>>)
    returns (levels: seq<seq<string>>, startOrder: seq<string>, remaining: map<string, nat>, lev: map<string, nat>)
    requires WellFormed(items)
    requires forall d :: At(dependents, d) == InOrder(items, DependentsOf(GraphOf(items), d))
    ensures Between(items, levels, startOrder, [], remaining, lev)
  {
    hide TrimSpace, GraphOf, InOrder, Flatten;
    ghost var g := GraphOf(items);
    forall d ensures Distinct(At(dependents, d)) && Elements(At(dependents, d)) == DependentsOf(g, d) {
      InOrderDistinct(items, DependentsOf(g, d));
      InOrderElements(items, DependentsOf(g, d));
      GraphKeys(items);
      assert DependentsOf(g, d) * Ids(items) == DependentsOf(g, d);
    }
    var ready: seq<string>;
    remaining, ready := InitialCounts(items);
    levels, startOrder, lev := [], [], map[];
    NothingPlaced(items, ready, remaining);
    while |ready| != 0
      invariant Between(items, levels, startOrder, ready, remaining, lev)
      decreases Ids(items) - lev.Keys
    {
      levels, startOrder, remaining, lev, ready := OneLevel(items, dependents, levels, startOrder, ready, remaining, lev);
    }
  }

  /** The state before the first level. */
  lemma {:induction false} NothingPlaced(items: seq<Item>, ready: seq<string>, remaining: map<string, nat>)
    requires Counts(GraphOf(items), remaining, {})
    requires ready == InOrder(items, Satisfied(GraphOf(items), {}))
    ensures Between(items, [], [], ready, remaining, map[])
  {
    hide GraphOf, InOrder, Counts;
    var none: map<string, nat>, nobody: seq<string>, s := map[], [], Satisfied(GraphOf(items), {});
    assert none.Keys == {} && Elements(nobody) == {};
    assert Ordering(GraphOf(items), [], nobody, none);
    InOrderElements(items, s);
    GraphKeys(items);
    assert s * Ids(items) == s;
    forall x | x in ready ensures WaitedFor(GraphOf(items), none, 0, x) { assert x in Elements(ready); }
  }

  /** Everything starts with all its dependencies missing. */
  method InitialCounts(items: seq<Item>) returns (remaining: map<string, nat>, ready: seq<string>)
    requires WellFormed(items)
    ensures Counts(GraphOf(items), remaining, {})
    ensures ready == InOrder(items, Satisfied(GraphOf(items), {}))
  {
    hide TrimSpace, GraphOf, CountsUpTo, InOrder, Elements, Distinct, Ids;
    ghost var g := GraphOf(items);
    GraphKeys(items);
    CountsNone(items, g);
    remaining, ready := map[], [];
    for i := 0 to |items|
      invariant CountsUpTo(items, i, remaining, g)
      invariant ready == InOrder(items[..i], Satisfied(g, {}))
    {
      var item := items[i];
      GraphAt(items, i);
      assert ItemClosed(items, item);
      CountsOneMore(items, i, remaining, g);
      remaining := remaining[item.id := |item.dependsOn|];
      assert items[..i + 1][..i] == items[..i] && items[..i + 1][i] == item;
      NoDependencies(item.dependsOn);
      InOrderStep(items, i, Satisfied(g, {}));
      if remaining[item.id] == 0 { ready := ready + [item.id]; }
    }
    assert items[..|items|] == items;
    CountsAll(items, remaining, g);
  }

  lemma {:induction false} CountsNone(items: seq<Item>, g: Graph)
    ensures CountsUpTo(items, 0, map[], g) && InOrder(items[..0], Satisfied(g, {})) == []
  {
  }

  lemma {:induction false} CountsAll(items: seq<Item>, remaining: map<string, nat>, g: Graph)
    requires CountsUpTo(items, |items|, remaining, g) && g.Keys == Ids(items)
    ensures Counts(g, remaining, {})
  {
    assert items[..|items|] == items;
  }

  ghost predicate CountsUpTo(items: seq<Item>, i: nat, remaining: map<string, nat>, g: Graph)
    requires i <= |items|
  {
    forall x :: x in Ids(items[..i]) && x in g ==> x in remaining && remaining[x] == |g[x] - {}|
  }

  lemma {:induction false} CountsOneMore(items: seq<Item>, i: nat, remaining: map<string, nat>, g: Graph)
    requires i < |items| && CountsUpTo(items, i, remaining, g)
    requires Distinct(items[i].dependsOn) && items[i].id in g && g[items[i].id] == Elements(items[i].dependsOn)
    ensures CountsUpTo(items, i + 1, remaining[items[i].id := |items[i].dependsOn|], g)
  {
    DistinctSize(items[i].dependsOn);
    assert g[items[i].id] - {} == g[items[i].id];
    assert items[..i + 1][..i] == items[..i];
    IdsGrow(items[..i + 1]);
  }

  lemma {:induction false} InOrderStep(items: seq<Item>, i: nat, s: set<string>)
    requires i < |items|
    ensures InOrder(items[..i + 1], s) == InOrder(items[..i], s) + if items[i].id in s then [items[i].id] else []
  {
    assert items[..i + 1][..i] == items[..i];
  }

  lemma {:induction false} NoDependencies(dependsOn: seq<string>)
    ensures |dependsOn| == 0 <==> Elements(dependsOn) <= {}
  {
    if |dependsOn| > 0 { assert dependsOn[0] in Elements(dependsOn); }
  }

  /** One turn of the outer loop. */
  method OneLevel(items: seq<Item>, dependents: map<string, seq<string>>, levels0: seq<seq<string>>, startOrder0: seq<string>,
                  ready: seq<string>, remaining0: map<string, nat>, lev0: map<string, nat>)
    returns (levels: seq<seq<string>>, startOrder: seq<string>, remaining: map<string, nat>, lev: map<string, nat>, next: seq<string>)
    requires WellFormed(items) && |ready| != 0
    requires forall d :: Distinct(At(dependents, d)) && Elements(At(dependents, d)) == DependentsOf(GraphOf(items), d)
    requires Between(items, levels0, startOrder0, ready, remaining0, lev0)
    ensures Between(items, levels, startOrder, next, remaining, lev)
    ensures Ids(items) - lev.Keys < Ids(items) - lev0.Keys
  {
    hide *;
    ghost var g := GraphOf(items);
    LevelFacts(items, levels0, startOrder0, ready, remaining0, lev0);
    levels := levels0 + [ready];
    startOrder := startOrder0 + ready;
    var raw: seq<string>;
    remaining, lev, raw := ProcessLevel(dependents, ready, |levels| - 1, remaining0, lev0, g);
    RawIsKnown(items, lev.Keys, lev0.Keys);
    NamedOf(items);
    next := SortByOrdinal(items, raw);
    LevelDone(items, levels0, startOrder0, ready, remaining0, lev0, remaining, lev, next);
  }

  lemma {:induction false} NamedOf(items: seq<Item>)
    requires WellFormed(items)
    ensures Named(items)
  {
  }

  lemma {:induction false} LevelFacts(items: seq<Item>, levels: seq<seq<string>>, startOrder: seq<string>, ready: seq<string>,
                                      remaining: map<string, nat>, lev: map<string, nat>)
    requires WellFormed(items) && Between(items, levels, startOrder, ready, remaining, lev)
    ensures Counts(GraphOf(items), remaining, lev.Keys)
    ensures Distinct(ready) && Elements(ready) !! lev.Keys
  {
    hide GraphOf, Counts, Levelled, Listing, Ordering, Waiting, TrimSpace;
    ReadyFacts(items, |levels|, ready, lev);
  }

  /** The invariant after a level has been processed. */
  lemma {:induction false} LevelDone(items: seq<Item>, levels: seq<seq<string>>, startOrder: seq<string>, ready: seq<string>,
                                     remaining: map<string, nat>, lev: map<string, nat>,
                                     remaining': map<string, nat>, lev': map<string, nat>, next: seq<string>)
    requires WellFormed(items) && |ready| != 0 && Between(items, levels, startOrder, ready, remaining, lev)
    requires lev' == map x | x in lev.Keys + Elements(ready) :: if x in lev then lev[x] else |levels|
    requires Counts(GraphOf(items), remaining', lev'.Keys)
    requires next == InOrder(items, Satisfied(GraphOf(items), lev'.Keys) - Satisfied(GraphOf(items), lev.Keys))
    ensures Between(items, levels + [ready], startOrder + ready, next, remaining', lev')
    ensures Ids(items) - lev'.Keys < Ids(items) - lev.Keys
  {
    hide TrimSpace, GraphOf, InOrder, Flatten, Counts, Levelled, Listing, Ordering, Waiting, Satisfied, WaitedFor, Ids;
    var g, s := GraphOf(items), Elements(ready);
    ReadyFacts(items, |levels|, ready, lev);
    assert lev' == Extended(lev, s, |levels|);
    BelowCount(items, levels, lev);
    LevelPlaced(g, s, |levels|, lev);
    LevelsListed(items, levels, ready, lev);
    OrderExtended(g, levels, startOrder, ready, lev);
    assert lev'.Keys == lev.Keys + s;
    NextWaits(items, |levels|, ready, lev, next);
    assert ready[0] in s;
  }

  lemma {:induction false} BelowCount(items: seq<Item>, levels: seq<seq<string>>, lev: map<string, nat>)
    requires Listing(items, levels, lev)
    ensures forall x :: x in lev ==> lev[x] < |levels|
  {
  }

  lemma {:induction false} RawIsKnown(items: seq<Item>, now: set<string>, before: set<string>)
    ensures Satisfied(GraphOf(items), now) - Satisfied(GraphOf(items), before) <= Ids(items)
  {
    hide GraphOf;
    GraphKeys(items);
  }

  lemma {:induction false} ReadyFacts(items: seq<Item>, n: nat, ready: seq<string>, lev: map<string, nat>)
    requires Named(items) && Waiting(items, n, ready, lev)
    ensures Distinct(ready) && Elements(ready) <= Ids(items) && Elements(ready) !! lev.Keys
    ensures ready == InOrder(items, Elements(ready)) && Elements(ready) <= Satisfied(GraphOf(items), lev.Keys)
    ensures forall x :: x in Elements(ready) ==> WaitedFor(GraphOf(items), lev, n, x)
  {
    hide GraphOf, InOrder, TrimSpace, WaitedFor;
    InOrderDistinct(items, Elements(ready));
    InOrderElements(items, Elements(ready));
  }

  // ------------------------------------------------------------------ outcome

  /** The level is the length of the longest chain of dependencies. */
  lemma {:induction false} LevelIsLongest(g: Graph, lev: map<string, nat>, x: string)
    requires Levelled(g, lev) && x in lev
    ensures LongestChain(g, x, lev[x])
  {
    var p := ChainDown(g, lev, x);
    forall q | Walk(g, q) && q[0] == x ensures |q| <= lev[x] + 1 { ChainBounded(g, lev, q); }
  }

  lemma {:induction false} ChainDown(g: Graph, lev: map<string, nat>, x: string) returns (p: seq<string>)
    requires Levelled(g, lev) && x in lev
    ensures Walk(g, p) && p[0] == x && |p| == lev[x] + 1
    decreases lev[x]
  {
    p := [x];
    assert LevelledAt(g, lev, x);
    if lev[x] > 0 {
      var d :| d in g[x] && d in lev && lev[d] == lev[x] - 1;
      var q := ChainDown(g, lev, d);
      p := [x] + q;
      forall i | 0 <= i < |p| - 1 ensures Edge(g, p[i], p[i + 1]) {
        if i > 0 { assert Edge(g, q[i - 1], q[i]); }
      }
    }
  }

  lemma {:induction false} ChainBounded(g: Graph, lev: map<string, nat>, q: seq<string>)
    requires Levelled(g, lev) && Walk(g, q) && q[0] in lev
    ensures |q| <= lev[q[0]] + 1
    decreases |q|
  {
    if |q| > 1 {
      assert Edge(g, q[0], q[1]) && LevelledAt(g, lev, q[0]);
      forall i | 0 <= i < |q[1..]| - 1 ensures Edge(g, q[1..][i], q[1..][i + 1]) { assert Edge(g, q[i + 1], q[i + 2]); }
      ChainBounded(g, lev, q[1..]);
    }
  }

  /** What is left over when nothing is ready any more: the nodes on or above a cycle. */
  lemma {:induction false} LeftOver(items: seq<Item>, levels: seq<seq<string>>, startOrder: seq<string>,
                                    remaining: map<string, nat>, lev: map<string, nat>)
    requires WellFormed(items) && Between(items, levels, startOrder, [], remaining, lev)
    ensures lev.Keys <= Ids(items) && Ids(items) == GraphOf(items).Keys
    ensures Ids(items) - lev.Keys == set x | x in Ids(items) && LeadsToCycle(GraphOf(items), x)
    ensures forall x :: x in Ids(items) ==> x in remaining && (remaining[x] != 0 <==> x !in lev)
    ensures |startOrder| == |items| <==> lev.Keys == Ids(items)
    ensures Acyclic(GraphOf(items)) <==> lev.Keys == Ids(items)
  {
    hide GraphOf, TrimSpace, Flatten, InOrder, Ids, Listing, LeadsToCycle, Acyclic, DepsFirst, Counts, Levelled, Satisfied;
    var g := GraphOf(items);
    GraphKeys(items);
    GraphClosed(items);
    EmptyElements();
    PlacedIsSatisfied(g, lev);
    WaitingLeadsToCycle(g, lev.Keys);
    forall x | x in lev ensures !LeadsToCycle(g, x) { PlacedLeadsNowhere(g, startOrder, x); }
    ZeroCounts(g, remaining, lev.Keys);
    NamedOf(items);
    IdsCount(items);
    DistinctSize(startOrder);
    SubsetSize(lev.Keys, g.Keys);
    if lev.Keys == g.Keys { OrderMeansAcyclic(g, startOrder); }
  }

  lemma {:induction false} PlacedIsSatisfied(g: Graph, lev: map<string, nat>)
    requires Levelled(g, lev)
    ensures lev.Keys <= Satisfied(g, lev.Keys) && lev.Keys <= g.Keys
  {
    forall x | x in lev ensures x in g && g[x] <= lev.Keys { assert LevelledAt(g, lev, x); }
  }

  lemma {:induction false} WaitingLeadsToCycle(g: Graph, placed: set<string>)
    requires placed <= g.Keys && Satisfied(g, placed) - placed == {}
    requires forall x :: x in g ==> g[x] <= g.Keys
    ensures forall x :: x in g && x !in placed ==> LeadsToCycle(g, x)
    ensures placed != g.Keys ==> !Acyclic(g)
  {
    hide LeadsToCycle, Acyclic;
    var stuck := g.Keys - placed;
    forall x | x in stuck ensures DependsInto(g, x, stuck) {
      assert x !in Satisfied(g, placed) - placed;
      var d :| d in g[x] && d !in placed;
      assert d in g[x] * stuck;
    }
    forall x | x in stuck ensures LeadsToCycle(g, x) && !Acyclic(g) { StuckLeadsToCycle(g, stuck, x); }
    if stuck == {} {
      forall x | x in g ensures x in placed { assert x !in stuck; }
    } else {
      var x :| x in stuck;
    }
  }

  lemma {:induction false} ZeroCounts(g: Graph, remaining: map<string, nat>, placed: set<string>)
    requires Counts(g, remaining, placed) && Satisfied(g, placed) - placed == {} && placed <= Satisfied(g, placed)
    ensures forall x :: x in g ==> x in remaining && (remaining[x] != 0 <==> x !in placed)
  {
    forall x | x in g ensures x in remaining && (remaining[x] != 0 <==> x !in placed) {
      assert |g[x] - placed| == 0 <==> g[x] - placed == {};
      assert g[x] - placed == {} <==> g[x] <= placed by {
        if g[x] - placed == {} { forall d | d in g[x] ensures d in placed { assert d !in g[x] - placed; } }
      }
      assert g[x] <= placed <==> x in Satisfied(g, placed);
      assert x in Satisfied(g, placed) && x !in placed ==> x in Satisfied(g, placed) - placed;
    }
  }

  lemma {:induction false} EmptyElements()
    ensures forall s: seq<string> :: s == [] ==> Elements(s) == {}
  {
  }

  lemma {:induction false} PlacedLeadsNowhere(g: Graph, order: seq<string>, x: string)
    requires DepsFirst(g, order) && x in Elements(order)
    ensures !LeadsToCycle(g, x)
  {
    forall p ensures !Lasso(g, x, p) {
      if Lasso(g, x, p) {
        assert order[..|order|] == order;
        WalkDescends(g, order, p, |order|);
      }
    }
  }

  lemma {:induction false} IdsCount(items: seq<Item>)
    requires Named(items)
    ensures |Ids(items)| == |items|
  {
    hide TrimSpace;
    if items != [] {
      var front, last := items[..|items| - 1], items[|items| - 1];
      IdsCount(front);
      IdsGrow(items);
      assert forall j :: 0 <= j < |front| ==> front[j].id == items[j].id;
    }
  }

  /** The nodes Kahn's algorithm left waiting, in input order. */
  method Stuck(items: seq<Item>, remaining: map<string, nat>) returns (ids: seq<string>)
    requires forall x :: x in Ids(items) ==> x in remaining
    ensures ids == InOrder(items, set x | x in Ids(items) && remaining[x] != 0)
  {
    ghost var s := set x | x in Ids(items) && remaining[x] != 0;
    ids := [];
    for i := 0 to |items|
      invariant ids == InOrder(items[..i], s)
    {
      InOrderStep(items, i, s);
      assert items[i].id in Ids(items);
      if remaining[items[i].id] != 0 { ids := ids + [items[i].id]; }
    }
    assert items[..|items|] == items;
  }

  function NodeAt(items: seq<Item>, dependents: map<string, seq<string>>, lev: map<string, nat>, i: nat): Node
    requires i < |items| && items[i].id in lev
  {
    Node(items[i].id, i, lev[items[i].id], items[i].dependsOn, At(dependents, items[i].id))
  }

  method MakeNodes(items: seq<Item>, dependents: map<string, seq<string>>, lev: map<string, nat>) returns (nodes: map<string, Node>)
    requires Named(items) && Ids(items) <= lev.Keys
    ensures nodes.Keys == Ids(items)
    ensures forall i :: 0 <= i < |items| ==> items[i].id in lev && items[i].id in nodes && nodes[items[i].id] == NodeAt(items, dependents, lev, i)
  {
    hide TrimSpace, At;
    nodes := map[];
    for i := 0 to |items|
      invariant nodes.Keys == Ids(items[..i])
      invariant forall j :: 0 <= j < i ==> items[j].id in lev && items[j].id in nodes && nodes[items[j].id] == NodeAt(items, dependents, lev, j)
    {
      assert items[i].id in Ids(items);
      assert items[..i + 1][..i] == items[..i];
      IdsGrow(items[..i + 1]);
      nodes := nodes[items[i].id := NodeAt(items, dependents, lev, i)];
    }
    assert items[..|items|] == items;
  }

  method Reverse(s: seq<string>) returns (r: seq<string>)
    ensures r == Reversed(s)
  {
    r := s;
    for i := 0 to |s|
      invariant |r| == |s|
      invariant forall j :: 0 <= j < i ==> r[j] == s[|s| - 1 - j]
    {
      r := r[i := s[|s| - 1 - i]];
    }
  }

  lemma {:induction false} PlanDescribes(items: seq<Item>, dependents: map<string, seq<string>>, levels: seq<seq<string>>,
                                         startOrder: seq<string>, remaining: map<string, nat>, lev: map<string, nat>, plan: Plan)
    requires WellFormed(items) && Between(items, levels, startOrder, [], remaining, lev) && lev.Keys == Ids(items)
    requires forall d :: At(dependents, d) == InOrder(items, DependentsOf(GraphOf(items), d))
    requires plan.nodes.Keys == Ids(items) && plan.levels == levels && plan.startOrder == startOrder && plan.stopOrder == Reversed(startOrder)
    requires forall i :: 0 <= i < |items| ==> items[i].id in lev && items[i].id in plan.nodes && plan.nodes[items[i].id] == NodeAt(items, dependents, lev, i)
    ensures Describes(items, plan)
  {
    hide TrimSpace, GraphOf, InOrder, Flatten, DependentsOf, Reversed, LongestChain, Levelled, Counts, Waiting, DepsFirst, At;
    GraphKeys(items);
    forall i | 0 <= i < |items| ensures NodeOf(items, i, plan.nodes[items[i].id]) {
      LevelIsLongest(GraphOf(items), lev, items[i].id);
    }
    forall x | x in plan.nodes ensures plan.nodes[x].level == lev[x] {
      var i :| 0 <= i < |items| && items[i].id == x;
    }
    forall k: nat ensures LevelSet(plan, k) == Numbered(lev, k) {}
  }

  /** Build succeeds exactly on well-formed acyclic inputs, with the plan of those
      inputs; on a cycle it names the nodes on it or downstream of it. */
  method Build(items: seq<Item>) returns (r: Result)
    ensures r.Ok? <==> WellFormed(items) && Acyclic(GraphOf(items))
    ensures r.Ok? ==> Describes(items, r.plan)
    ensures r == Err(NoNodes) <==> items == []
    ensures r.Err? && r.error.CycleInvolving? <==> WellFormed(items) && !Acyclic(GraphOf(items))
    ensures r.Err? && r.error.CycleInvolving? ==>
      r.error.ids == InOrder(items, set x | x in Ids(items) && LeadsToCycle(GraphOf(items), x))
  {
    hide GraphOf, Named, ItemClosed, InOrder, Acyclic, LeadsToCycle, Describes, Between, Ids, At, DependentsOf, NodeAt;
    var bad := CheckIds(items);
    if bad.Some? { return Err(bad.value); }
    var dependents, wrong := CollectDependents(items);
    if wrong.Some? { return Err(wrong.value); }
    var levels, startOrder, remaining, lev := Kahn(items, dependents);
    LeftOver(items, levels, startOrder, remaining, lev);
    if |startOrder| != |items| {
      var stuck := Stuck(items, remaining);
      assert (set x | x in Ids(items) && remaining[x] != 0) == Ids(items) - lev.Keys;
      return Err(CycleInvolving(stuck));
    }
    var nodes := MakeNodes(items, dependents, lev);
    var stopOrder := Reverse(startOrder);
    var plan := Plan(nodes, levels, startOrder, stopOrder);
    PlanDescribes(items, dependents, levels, startOrder, remaining, lev, plan);
    return Ok(plan);
  }
}
