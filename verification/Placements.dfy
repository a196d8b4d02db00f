/** The physical plan of an application: logical dependencies expanded over
    repeated placements and fused onto execution units. */
module Placements {
  import opened Finite
  import opened Graphs
  import opened Text
  import opened Plans
  import opened PlanBuilder
  import opened PlanFacts
  import opened Collapse

  datatype Placement = Placement(name: string, address: string)

  datatype Physical = Planned(result: Plans.Result) | UnknownLogical(address: string, logical: string)

  // ------------------------------------------------------------ specification

  function Addresses(placements: seq<Placement>): set<string> { set p | p in placements :: p.address }

  /** Where a logical cell runs: on its fused target, else on its placements. */
  ghost function Hosts(cells: set<string>, placements: seq<Placement>, fused: map<string, string>, l: string): set<string>
  {
    if l in fused then {fused[l]} else set p | p in placements && p.name == l && l in cells :: p.address
  }

  /** The logical cells counted at an address. */
  ghost function Members(cells: set<string>, placements: seq<Placement>, fused: map<string, string>, a: string): set<string>
  {
    (set p | p in placements && p.address == a && p.name in cells :: p.name) + (set l | l in fused && fused[l] == a)
  }

  /** The other addresses that host a dependency of one of the members. */
  ghost function Needs(plan: Plan, hosts: map<string, seq<string>>, members: set<string>, a: string): set<string>
  {
    set l, d, q | l in members && l in plan.nodes && d in plan.nodes[l].dependsOn && q in At(hosts, d) && q != a :: q
  }

  ghost function NeedsOne(hosts: map<string, seq<string>>, dependsOn: set<string>, a: string): set<string>
  {
    set d, q | d in dependsOn && q in At(hosts, d) && q != a :: q
  }

  /** The addresses an address depends on. */
  ghost function PhysicalDependencies(cells: set<string>, plan: Plan, placements: seq<Placement>, fused: map<string, string>, a: string): set<string>
  {
    set l, d, q | l in Members(cells, placements, fused, a) && l in plan.nodes && d in plan.nodes[l].dependsOn
                  && q in Hosts(cells, placements, fused, d) && q != a :: q
  }

  ghost function PhysicalGraph(cells: set<string>, plan: Plan, placements: seq<Placement>, fused: map<string, string>): Graph
  {
    map a | a in Addresses(placements) :: PhysicalDependencies(cells, plan, placements, fused, a)
  }

  ghost predicate AllKnown(cells: set<string>, plan: Plan, placements: seq<Placement>, fused: map<string, string>)
  {
    forall p, l :: p in placements && l in Members(cells, placements, fused, p.address) ==> l in plan.nodes
  }

  ghost predicate UniqueAddresses(placements: seq<Placement>)
  {
    && (forall i :: 0 <= i < |placements| ==> TrimSpace(placements[i].address) != "")
    && (forall i, j :: 0 <= i < j < |placements| ==> placements[i].address != placements[j].address)
  }

  /** Every dependency of a placed cell is hosted at a placement. */
  ghost predicate TargetsPlaced(cells: set<string>, plan: Plan, placements: seq<Placement>, fused: map<string, string>)
  {
    forall a :: a in Addresses(placements) ==> PhysicalDependencies(cells, plan, placements, fused, a) <= Addresses(placements)
  }

  /** A placed cell starts after every placement of each of its dependencies,
      unless both are the same physical node. */
  ghost predicate RespectsPlacements(cells: set<string>, plan: Plan, placements: seq<Placement>, fused: map<string, string>, order: seq<string>)
  {
    forall a, l, d, q ::
      a in Addresses(placements) && l in Members(cells, placements, fused, a) && l in plan.nodes &&
      d in plan.nodes[l].dependsOn && q in Hosts(cells, placements, fused, d) && q != a ==>
        StartsBefore(order, q, a)
  }

  // ------------------------------------------------------------ the two indexes

  /** The lists hold the hosts of every cell and the members of every address. */
  ghost predicate Index(hosts: map<string, seq<string>>, members: map<string, seq<string>>,
                        cells: set<string>, placements: seq<Placement>, fused: map<string, string>)
  {
    && (forall l :: Elements(At(hosts, l)) == Hosts(cells, placements, fused, l))
    && (forall a :: Elements(At(members, a)) == Members(cells, placements, fused, a))
  }

  method IndexPlacements(cells: set<string>, placements: seq<Placement>)
    returns (hosts: map<string, seq<string>>, members: map<string, seq<string>>)
    ensures Index(hosts, members, cells, placements, map[])
  {
    hide *;
    hosts, members := map[], map[];
    IndexNone(cells, placements);
    for i := 0 to |placements|
      invariant Index(hosts, members, cells, placements[..i], map[])
    {
      var p := placements[i];
      IndexPlaced(hosts, members, cells, placements[..i], p);
      assert placements[..i + 1] == placements[..i] + [p];
      if p.name in cells {
        hosts := hosts[p.name := At(hosts, p.name) + [p.address]];
        members := members[p.address := At(members, p.address) + [p.name]];
      }
    }
    assert placements[..|placements|] == placements;
  }

  lemma {:induction false} IndexNone(cells: set<string>, placements: seq<Placement>)
    ensures Index(map[], map[], cells, placements[..0], map[])
  {
  }

  lemma {:induction false} IndexPlaced(hosts: map<string, seq<string>>, members: map<string, seq<string>>,
                                       cells: set<string>, placements: seq<Placement>, p: Placement)
    requires Index(hosts, members, cells, placements, map[])
    ensures p.name !in cells ==> Index(hosts, members, cells, placements + [p], map[])
    ensures p.name in cells ==>
      Index(hosts[p.name := At(hosts, p.name) + [p.address]], members[p.address := At(members, p.address) + [p.name]],
            cells, placements + [p], map[])
  {
    hide Hosts, Members, Elements;
    forall l { HostsGrow(cells, placements, p, l); }
    forall a { MembersGrow(cells, placements, p, a); }
    ElementsAppend(At(hosts, p.name), p.address);
    ElementsAppend(At(members, p.address), p.name);
  }

  lemma {:induction false} HostsGrow(cells: set<string>, placements: seq<Placement>, p: Placement, l: string)
    ensures Hosts(cells, placements + [p], map[], l) ==
            Hosts(cells, placements, map[], l) + if l == p.name && l in cells then {p.address} else {}
  {
  }

  lemma {:induction false} MembersGrow(cells: set<string>, placements: seq<Placement>, p: Placement, a: string)
    ensures Members(cells, placements + [p], map[], a) ==
            Members(cells, placements, map[], a) + if a == p.address && p.name in cells then {p.name} else {}
  {
  }

  /** Fused targets replace the placements of a cell, in any order of the map. */
  method IndexFused(cells: set<string>, placements: seq<Placement>, fused: map<string, string>,
                    hosts0: map<string, seq<string>>, members0: map<string, seq<string>>)
    returns (hosts: map<string, seq<string>>, members: map<string, seq<string>>)
    requires Index(hosts0, members0, cells, placements, map[])
    ensures Index(hosts, members, cells, placements, fused)
  {
    hide Index, At;
    hosts, members := hosts0, members0;
    var rest := fused;
    ghost var done: map<string, string> := map[];
    while rest != map[]
      invariant rest == fused - done.Keys && done.Keys <= fused.Keys && forall l :: l in done ==> done[l] == fused[l]
      invariant Index(hosts, members, cells, placements, done)
      decreases rest.Keys
    {
      var l :| l in rest;
      var p := rest[l];
      FuseOne(hosts, members, cells, placements, done, l, p);
      hosts := hosts[l := [p]];
      members := members[p := At(members, p) + [l]];
      done := done[l := p];
      rest := rest - {l};
    }
    assert done == fused by {
      forall l | l in fused ensures l in done { assert l !in rest; }
    }
  }

  lemma {:induction false} FuseOne(hosts: map<string, seq<string>>, members: map<string, seq<string>>,
                                   cells: set<string>, placements: seq<Placement>, done: map<string, string>, l: string, p: string)
    requires Index(hosts, members, cells, placements, done) && l !in done
    ensures Index(hosts[l := [p]], members[p := At(members, p) + [l]], cells, placements, done[l := p])
  {
    hide Members, Elements;
    var hosts', members' := hosts[l := [p]], members[p := At(members, p) + [l]];
    ElementsAppend(At(members, p), l);
    OneElement(p);
    forall k ensures Elements(At(hosts', k)) == Hosts(cells, placements, done[l := p], k) {
      if k != l { assert At(hosts', k) == At(hosts, k); }
    }
    forall a ensures Elements(At(members', a)) == Members(cells, placements, done[l := p], a) {
      MembersFuse(cells, placements, done, l, p, a);
      if a != p { assert At(members', a) == At(members, a); }
    }
  }

  lemma {:induction false} OneElement(p: string)
    ensures Elements([p]) == {p}
  {
  }

  lemma {:induction false} MembersFuse(cells: set<string>, placements: seq<Placement>, done: map<string, string>, l: string, p: string, a: string)
    requires l !in done
    ensures Members(cells, placements, done[l := p], a) == Members(cells, placements, done, a) + if a == p then {l} else {}
  {
  }

  // ------------------------------------------------------------- dependencies

  /** The innermost loop. */
  method AppendHosts(list: seq<string>, a: string, known: seq<string>) returns (deps: seq<string>)
    requires Distinct(known)
    ensures Distinct(deps) && Elements(deps) == Elements(known) + (Elements(list) - {a})
  {
    deps := known;
    for i := 0 to |list|
      invariant Distinct(deps) && Elements(deps) == Elements(known) + (Elements(list[..i]) - {a})
    {
      assert list[..i + 1] == list[..i] + [list[i]];
      ElementsAppend(list[..i], list[i]);
      if list[i] != a && list[i] !in deps {
        ElementsAppend(deps, list[i]);
        deps := deps + [list[i]];
      }
    }
    assert list[..|list|] == list;
  }

  method AppendNeeds(dependsOn: seq<string>, hosts: map<string, seq<string>>, a: string, known: seq<string>) returns (deps: seq<string>)
    requires Distinct(known)
    ensures Distinct(deps) && Elements(deps) == Elements(known) + NeedsOne(hosts, Elements(dependsOn), a)
  {
    hide Distinct, Elements;
    deps := known;
    NeedsNone(dependsOn, hosts, a);
    for j := 0 to |dependsOn|
      invariant Distinct(deps) && Elements(deps) == Elements(known) + NeedsOne(hosts, Elements(dependsOn[..j]), a)
    {
      NeedsOneMore(dependsOn, hosts, a, j);
      deps := AppendHosts(At(hosts, dependsOn[j]), a, deps);
    }
    assert dependsOn[..|dependsOn|] == dependsOn;
  }

  lemma {:induction false} NeedsNone(dependsOn: seq<string>, hosts: map<string, seq<string>>, a: string)
    ensures NeedsOne(hosts, Elements(dependsOn[..0]), a) == {}
  {
  }

  lemma {:induction false} NeedsOneMore(dependsOn: seq<string>, hosts: map<string, seq<string>>, a: string, j: nat)
    requires j < |dependsOn|
    ensures NeedsOne(hosts, Elements(dependsOn[..j + 1]), a) ==
            NeedsOne(hosts, Elements(dependsOn[..j]), a) + (Elements(At(hosts, dependsOn[j])) - {a})
  {
    hide At;
    assert dependsOn[..j + 1] == dependsOn[..j] + [dependsOn[j]];
    ElementsAppend(dependsOn[..j], dependsOn[j]);
    assert dependsOn[j] in Elements(dependsOn[..j + 1]);
  }

  /** The dependencies of one address. */
  method AddressNeeds(plan: Plan, hosts: map<string, seq<string>>, members: seq<string>, a: string)
    returns (deps: seq<string>, unknown: Option<string>)
    ensures unknown.None? <==> forall l :: l in members ==> l in plan.nodes
    ensures unknown.None? ==> Distinct(deps) && Elements(deps) == Needs(plan, hosts, Elements(members), a)
  {
    hide Distinct, Elements;
    deps := [];
    MembersNone(plan, hosts, members, a);
    for i := 0 to |members|
      invariant forall k :: 0 <= k < i ==> members[k] in plan.nodes
      invariant Distinct(deps) && Elements(deps) == Needs(plan, hosts, Elements(members[..i]), a)
    {
      var l := members[i];
      if l !in plan.nodes { return deps, Some(l); }
      MembersOneMore(plan, hosts, members, a, i);
      deps := AppendNeeds(plan.nodes[l].dependsOn, hosts, a, deps);
    }
    assert members[..|members|] == members;
    return deps, None;
  }

  lemma {:induction false} MembersNone(plan: Plan, hosts: map<string, seq<string>>, members: seq<string>, a: string)
    ensures Needs(plan, hosts, Elements(members[..0]), a) == {}
    ensures forall s: seq<string> :: s == [] ==> Distinct(s) && Elements(s) == {}
  {
  }

  lemma {:induction false} MembersOneMore(plan: Plan, hosts: map<string, seq<string>>, members: seq<string>, a: string, i: nat)
    requires i < |members| && members[i] in plan.nodes
    ensures Needs(plan, hosts, Elements(members[..i + 1]), a) ==
            Needs(plan, hosts, Elements(members[..i]), a) + NeedsOne(hosts, Elements(plan.nodes[members[i]].dependsOn), a)
  {
    hide At;
    var l := members[i];
    assert members[..i + 1] == members[..i] + [l];
    ElementsAppend(members[..i], l);
    assert l in Elements(members[..i + 1]);
    forall q | q in NeedsOne(hosts, Elements(plan.nodes[l].dependsOn), a) ensures q in Needs(plan, hosts, Elements(members[..i + 1]), a) {
      var d :| d in Elements(plan.nodes[l].dependsOn) && q in At(hosts, d) && q != a;
    }
    forall q | q in Needs(plan, hosts, Elements(members[..i + 1]), a)
      ensures q in Needs(plan, hosts, Elements(members[..i]), a) || q in NeedsOne(hosts, Elements(plan.nodes[l].dependsOn), a)
    {
      var m, d :| m in Elements(members[..i + 1]) && m in plan.nodes && d in plan.nodes[m].dependsOn && q in At(hosts, d) && q != a;
      if m == l { assert d in Elements(plan.nodes[l].dependsOn); }
    }
  }

  /** With the index, needs are the physical dependencies. */
  lemma {:induction false} NeedsArePhysical(cells: set<string>, plan: Plan, placements: seq<Placement>, fused: map<string, string>,
                                            hosts: map<string, seq<string>>, members: map<string, seq<string>>, a: string)
    requires Index(hosts, members, cells, placements, fused)
    ensures Needs(plan, hosts, Elements(At(members, a)), a) == PhysicalDependencies(cells, plan, placements, fused, a)
  {
    hide Hosts, Members, At;
    forall d, q ensures q in At(hosts, d) <==> q in Hosts(cells, placements, fused, d) {
      assert q in At(hosts, d) <==> q in Elements(At(hosts, d));
    }
    var n, p := Needs(plan, hosts, Elements(At(members, a)), a), PhysicalDependencies(cells, plan, placements, fused, a);
    forall q | q in n ensures q in p {
      var l, d :| l in Elements(At(members, a)) && l in plan.nodes && d in plan.nodes[l].dependsOn && q in At(hosts, d) && q != a;
    }
    forall q | q in p ensures q in n {
      var l, d :| l in Members(cells, placements, fused, a) && l in plan.nodes && d in plan.nodes[l].dependsOn
                  && q in Hosts(cells, placements, fused, d) && q != a;
    }
  }

  /** The item of each placement. */
  ghost predicate ItemsFor(cells: set<string>, plan: Plan, placements: seq<Placement>, fused: map<string, string>, items: seq<Item>)
  {
    |items| <= |placements| &&
    forall i :: 0 <= i < |items| ==>
      && items[i].id == placements[i].address && Distinct(items[i].dependsOn)
      && Elements(items[i].dependsOn) == PhysicalDependencies(cells, plan, placements, fused, placements[i].address)
  }

  method PhysicalDependencyPlan(cells: seq<string>, plan: Plan, placements: seq<Placement>, fused: map<string, string>)
    returns (r: Physical, ghost items: seq<Item>)
    ensures r.UnknownLogical? <==> !AllKnown(Elements(cells), plan, placements, fused)
    ensures r.Planned? ==> |items| == |placements| && forall i :: 0 <= i < |items| ==> items[i].id == placements[i].address
    ensures r.Planned? && r.result.Ok? <==>
      && AllKnown(Elements(cells), plan, placements, fused)
      && placements != [] && UniqueAddresses(placements)
      && TargetsPlaced(Elements(cells), plan, placements, fused)
      && Acyclic(PhysicalGraph(Elements(cells), plan, placements, fused))
    ensures r.Planned? && r.result.Ok? ==>
      && WellFormed(items) && Describes(items, r.result.plan)
      && PlanGraph(r.result.plan) == PhysicalGraph(Elements(cells), plan, placements, fused)
      && RespectsPlacements(Elements(cells), plan, placements, fused, r.result.plan.startOrder)
  {
    hide *;
    items := [];
    var names := set i | 0 <= i < |cells| :: cells[i];
    NamesAreElements(cells, names);
    var hosts, members := IndexPlacements(names, placements);
    hosts, members := IndexFused(names, placements, fused, hosts, members);
    var built: seq<Item> := [];
    ItemsNone(names, plan, placements, fused);
    for i := 0 to |placements|
      invariant |built| == i && ItemsFor(names, plan, placements, fused, built)
      invariant forall k :: 0 <= k < i ==> Known(names, plan, placements, fused, placements[k].address)
    {
      var a := placements[i].address;
      var deps, unknown := AddressNeeds(plan, hosts, At(members, a), a);
      MembersKnown(names, plan, placements, fused, hosts, members, a);
      if unknown.Some? {
        NotAllKnown(names, plan, placements, fused, i);
        return UnknownLogical(a, unknown.value), items;
      }
      NeedsArePhysical(names, plan, placements, fused, hosts, members, a);
      ItemsOneMore(names, plan, placements, fused, built, Item(a, deps));
      built := built + [Item(a, deps)];
    }
    EveryoneKnown(names, plan, placements, fused);
    PlacedItems(names, plan, placements, fused, built);
    InPlacementOrder(names, plan, placements, fused, built);
    items := built;
    var result := Build(built);
    if result.Ok? {
      GraphOfPlan(items, result.plan);
      DescribedOrder(items, result.plan);
      PlacementsRespected(names, plan, placements, fused, result.plan.startOrder);
    }
    return Planned(result), items;
  }

  lemma {:induction false} InPlacementOrder(cells: set<string>, plan: Plan, placements: seq<Placement>, fused: map<string, string>, items: seq<Item>)
    requires ItemsFor(cells, plan, placements, fused, items)
    ensures forall i :: 0 <= i < |items| ==> items[i].id == placements[i].address
  {
    hide PhysicalDependencies, Distinct, Elements;
  }

  lemma {:induction false} NamesAreElements(cells: seq<string>, names: set<string>)
    requires names == set i | 0 <= i < |cells| :: cells[i]
    ensures names == Elements(cells)
  {
  }

  ghost predicate Known(cells: set<string>, plan: Plan, placements: seq<Placement>, fused: map<string, string>, a: string)
  {
    forall l :: l in Members(cells, placements, fused, a) ==> l in plan.nodes
  }

  lemma {:induction false} ItemsNone(cells: set<string>, plan: Plan, placements: seq<Placement>, fused: map<string, string>)
    ensures ItemsFor(cells, plan, placements, fused, [])
  {
  }

  lemma {:induction false} ItemsOneMore(cells: set<string>, plan: Plan, placements: seq<Placement>, fused: map<string, string>,
                                        items: seq<Item>, item: Item)
    requires ItemsFor(cells, plan, placements, fused, items) && |items| < |placements|
    requires item.id == placements[|items|].address && Distinct(item.dependsOn)
    requires Elements(item.dependsOn) == PhysicalDependencies(cells, plan, placements, fused, item.id)
    ensures ItemsFor(cells, plan, placements, fused, items + [item])
  {
    hide PhysicalDependencies, Distinct, Elements;
  }

  lemma {:induction false} MembersKnown(cells: set<string>, plan: Plan, placements: seq<Placement>, fused: map<string, string>,
                                        hosts: map<string, seq<string>>, members: map<string, seq<string>>, a: string)
    requires Index(hosts, members, cells, placements, fused)
    ensures Known(cells, plan, placements, fused, a) <==> forall l :: l in At(members, a) ==> l in plan.nodes
  {
    hide Members, Hosts, At;
    assert forall l :: l in At(members, a) <==> l in Elements(At(members, a));
  }

  lemma {:induction false} NotAllKnown(cells: set<string>, plan: Plan, placements: seq<Placement>, fused: map<string, string>, i: nat)
    requires i < |placements| && !Known(cells, plan, placements, fused, placements[i].address)
    ensures !AllKnown(cells, plan, placements, fused)
  {
    hide Members;
    assert placements[i] in placements;
  }

  lemma {:induction false} EveryoneKnown(cells: set<string>, plan: Plan, placements: seq<Placement>, fused: map<string, string>)
    requires forall k :: 0 <= k < |placements| ==> Known(cells, plan, placements, fused, placements[k].address)
    ensures AllKnown(cells, plan, placements, fused)
  {
    hide Members;
  }

  lemma {:induction false} PlacedItems(cells: set<string>, plan: Plan, placements: seq<Placement>, fused: map<string, string>, items: seq<Item>)
    requires |items| == |placements| && ItemsFor(cells, plan, placements, fused, items)
    ensures WellFormed(items) <==>
      placements != [] && UniqueAddresses(placements) && TargetsPlaced(cells, plan, placements, fused)
    ensures WellFormed(items) ==> GraphOf(items) == PhysicalGraph(cells, plan, placements, fused)
  {
    hide TrimSpace, PhysicalDependencies, GraphOf, Distinct, Elements, Ids, Addresses, TargetsPlaced, PhysicalGraph, ItemClosed;
    PlacedIds(cells, plan, placements, fused, items);
    forall i | 0 <= i < |items|
      ensures ItemClosed(items, items[i]) <==> PhysicalDependencies(cells, plan, placements, fused, items[i].id) <= Addresses(placements)
    {
      PlacedItemClosed(cells, plan, placements, fused, items, i);
    }
    TargetsByIndex(cells, plan, placements, fused);
    assert Named(items) <==> UniqueAddresses(placements);
    if WellFormed(items) { PlacedGraph(cells, plan, placements, fused, items); }
  }

  lemma {:induction false} PlacedIds(cells: set<string>, plan: Plan, placements: seq<Placement>, fused: map<string, string>, items: seq<Item>)
    requires |items| == |placements| && ItemsFor(cells, plan, placements, fused, items)
    ensures Ids(items) == Addresses(placements)
  {
    hide PhysicalDependencies, Distinct, Elements;
    forall a | a in Addresses(placements) ensures a in Ids(items) {
      var i :| 0 <= i < |placements| && placements[i].address == a;
      assert items[i].id == a;
    }
    forall a | a in Ids(items) ensures a in Addresses(placements) {
      var i :| 0 <= i < |items| && items[i].id == a;
      assert placements[i] in placements;
    }
  }

  lemma {:induction false} PlacedItemClosed(cells: set<string>, plan: Plan, placements: seq<Placement>, fused: map<string, string>,
                                            items: seq<Item>, i: nat)
    requires i < |items| == |placements| && ItemsFor(cells, plan, placements, fused, items) && Ids(items) == Addresses(placements)
    ensures ItemClosed(items, items[i]) <==> PhysicalDependencies(cells, plan, placements, fused, items[i].id) <= Addresses(placements)
  {
    hide PhysicalDependencies, Distinct, Elements, Ids, Addresses;
    NotItself(cells, plan, placements, fused, items[i].id);
  }

  lemma {:induction false} PlacedGraph(cells: set<string>, plan: Plan, placements: seq<Placement>, fused: map<string, string>, items: seq<Item>)
    requires |items| == |placements| && ItemsFor(cells, plan, placements, fused, items)
    requires Named(items) && Ids(items) == Addresses(placements)
    ensures GraphOf(items) == PhysicalGraph(cells, plan, placements, fused)
  {
    hide PhysicalDependencies, Distinct, Elements, Addresses, GraphOf, TrimSpace;
    GraphKeys(items);
    forall a | a in GraphOf(items) ensures GraphOf(items)[a] == PhysicalDependencies(cells, plan, placements, fused, a) {
      var i :| 0 <= i < |items| && items[i].id == a;
      GraphAt(items, i);
    }
  }

  lemma {:induction false} NotItself(cells: set<string>, plan: Plan, placements: seq<Placement>, fused: map<string, string>, a: string)
    ensures a !in PhysicalDependencies(cells, plan, placements, fused, a)
  {
  }

  lemma {:induction false} TargetsByIndex(cells: set<string>, plan: Plan, placements: seq<Placement>, fused: map<string, string>)
    ensures TargetsPlaced(cells, plan, placements, fused) <==>
      forall i :: 0 <= i < |placements| ==>
        PhysicalDependencies(cells, plan, placements, fused, placements[i].address) <= Addresses(placements)
  {
    hide PhysicalDependencies;
    assert forall i :: 0 <= i < |placements| ==> placements[i] in placements && placements[i].address in Addresses(placements);
  }

  lemma {:induction false} PlacementsRespected(cells: set<string>, plan: Plan, placements: seq<Placement>, fused: map<string, string>, order: seq<string>)
    requires TopologicalOrder(PhysicalGraph(cells, plan, placements, fused), order)
    ensures RespectsPlacements(cells, plan, placements, fused, order)
  {
    hide Hosts, Members, TopologicalOrder, StartsBefore;
    var g := PhysicalGraph(cells, plan, placements, fused);
    forall a, l, d, q | a in Addresses(placements) && l in Members(cells, placements, fused, a) && l in plan.nodes &&
                        d in plan.nodes[l].dependsOn && q in Hosts(cells, placements, fused, d) && q != a
      ensures StartsBefore(order, q, a)
    {
      assert q in PhysicalDependencies(cells, plan, placements, fused, a);
      EdgeStartsBefore(g, order, a, q);
    }
  }

  /** The cell runs at the address: it was placed there, or is fused onto it. */
  ghost predicate RunsAt(cells: set<string>, placements: seq<Placement>, fused: map<string, string>, l: string, a: string)
  {
    (l in fused && fused[l] == a) || (l in cells && exists i :: 0 <= i < |placements| && placements[i] == Placement(l, a))
  }

  /** What runs at an address starts after whatever serves its dependencies
      elsewhere: the fused target of a dependency if it has one, else every one of
      its placements. */
  lemma {:induction false} StartsAfterServers(cells: set<string>, plan: Plan, placements: seq<Placement>, fused: map<string, string>,
                                              order: seq<string>, a: string, l: string, d: string, q: string)
    requires RespectsPlacements(cells, plan, placements, fused, order) && (exists i :: 0 <= i < |placements| && placements[i].address == a)
    requires l in plan.nodes && d in plan.nodes[l].dependsOn && q != a
    requires RunsAt(cells, placements, fused, l, a) && RunsAt(cells, placements, fused, d, q) && (d in fused ==> q == fused[d])
    ensures exists i, j :: 0 <= i < j < |order| && order[i] == q && order[j] == a
  {
    assert l in Members(cells, placements, fused, a) by {
      if !(l in fused && fused[l] == a) { assert Placement(l, a) in placements; }
    }
    assert q in Hosts(cells, placements, fused, d) by {
      if d !in fused { assert Placement(d, q) in placements; }
    }
    var i :| 0 <= i < |placements| && placements[i].address == a;
    assert placements[i] in placements;
    assert StartsBefore(order, q, a);
  }

  /** Fused targets that are placement addresses are enough for valid targets. */
  lemma {:induction false} FusedOntoPlacements(cells: set<string>, plan: Plan, placements: seq<Placement>, fused: map<string, string>)
    requires forall l :: l in fused ==> fused[l] in Addresses(placements)
    ensures TargetsPlaced(cells, plan, placements, fused)
  {
    forall a, q | a in Addresses(placements) && q in PhysicalDependencies(cells, plan, placements, fused, a)
      ensures q in Addresses(placements)
    {
      var l, d :| l in Members(cells, placements, fused, a) && l in plan.nodes && d in plan.nodes[l].dependsOn
                  && q in Hosts(cells, placements, fused, d) && q != a;
    }
  }
}
