/** Dependency plans: validation, levels, start and stop order. */
module Plans {
  import opened Finite
  import opened Lexicographic
  import opened Graphs
  import opened Text

  datatype Item = Item(id: string, dependsOn: seq<string>)

  datatype Node = Node(id: string, ordinal: nat, level: nat, dependsOn: seq<string>, dependents: seq<string>)

  datatype Plan = Plan(nodes: map<string, Node>, levels: seq<seq<string>>, startOrder: seq<string>, stopOrder: seq<string>)

  datatype Error =
    | NoNodes
    | EmptyID(index: nat)
    | DuplicateNode(id: string)
    | SelfDependency(id: string)
    | UnknownDependency(id: string, dependency: string)
    | RepeatedDependency(id: string, dependency: string)
    | CycleInvolving(ids: seq<string>)

  datatype Result = Ok(plan: Plan) | Err(error: Error)

  // ------------------------------------------------------------ specification

  ghost predicate Named(items: seq<Item>)
  {
    && (forall i :: 0 <= i < |items| ==> TrimSpace(items[i].id) != "")
    && (forall i, j :: 0 <= i < j < |items| ==> items[i].id != items[j].id)
  }

  function Ids(items: seq<Item>): set<string> { set i | 0 <= i < |items| :: items[i].id }

  ghost predicate ItemClosed(items: seq<Item>, item: Item)
  {
    Distinct(item.dependsOn) && Elements(item.dependsOn) <= Ids(items) - {item.id}
  }

  ghost predicate WellFormed(items: seq<Item>)
  {
    items != [] && Named(items) && forall i :: 0 <= i < |items| ==> ItemClosed(items, items[i])
  }

  ghost function GraphOf(items: seq<Item>): Graph
  {
    if items == [] then map[]
    else var last := items[|items| - 1]; GraphOf(items[..|items| - 1])[last.id := Elements(last.dependsOn)]
  }

  /** The ids of the set, in input order. */
  function InOrder(items: seq<Item>, s: set<string>): seq<string>
  {
    if items == [] then []
    else
      var last := items[|items| - 1];
      InOrder(items[..|items| - 1], s) + if last.id in s then [last.id] else []
  }

  ghost function DependentsOf(g: Graph, d: string): set<string> { set x | x in g && d in g[x] }

  /** The longest chain of dependencies below x has L steps. */
  ghost predicate LongestChain(g: Graph, x: string, L: nat)
  {
    && (exists p :: Walk(g, p) && p[0] == x && |p| == L + 1)
    && (forall p :: Walk(g, p) && p[0] == x ==> |p| <= L + 1)
  }

  ghost function Flatten(levels: seq<seq<string>>): seq<string>
  {
    if levels == [] then [] else Flatten(levels[..|levels| - 1]) + levels[|levels| - 1]
  }

  ghost function Reversed(s: seq<string>): seq<string>
  {
    seq(|s|, i requires 0 <= i < |s| => s[|s| - 1 - i])
  }

  ghost function LevelSet(plan: Plan, k: nat): set<string>
  {
    set x | x in plan.nodes && plan.nodes[x].level == k
  }

  ghost predicate NodeOf(items: seq<Item>, i: nat, n: Node)
    requires i < |items|
  {
    && n.id == items[i].id && n.ordinal == i && n.dependsOn == items[i].dependsOn
    && n.dependents == InOrder(items, DependentsOf(GraphOf(items), n.id))
    && LongestChain(GraphOf(items), n.id, n.level)
  }

  /** What a plan says about its items. */
  ghost predicate Describes(items: seq<Item>, plan: Plan)
  {
    && plan.nodes.Keys == Ids(items)
    && (forall i :: 0 <= i < |items| ==> items[i].id in plan.nodes && NodeOf(items, i, plan.nodes[items[i].id]))
    && (forall k :: 0 <= k < |plan.levels| ==> plan.levels[k] != [] && plan.levels[k] == InOrder(items, LevelSet(plan, k)))
    && (forall x :: x in plan.nodes ==> plan.nodes[x].level < |plan.levels|)
    && plan.startOrder == Flatten(plan.levels) && plan.stopOrder == Reversed(plan.startOrder)
    && TopologicalOrder(GraphOf(items), plan.startOrder)
  }

  // -------------------------------------------------------- facts about items

  lemma {:induction false} GraphKeys(items: seq<Item>)
    ensures GraphOf(items).Keys == Ids(items)
  {
    if items != [] {
      var front := items[..|items| - 1];
      GraphKeys(front);
      assert items == front + [items[|items| - 1]];
      assert Ids(items) == Ids(front) + {items[|items| - 1].id};
    }
  }

  lemma {:induction false} GraphAt(items: seq<Item>, i: nat)
    requires Named(items) && i < |items|
    ensures items[i].id in GraphOf(items) && GraphOf(items)[items[i].id] == Elements(items[i].dependsOn)
  {
    if i < |items| - 1 {
      var front := items[..|items| - 1];
      GraphAt(front, i);
      assert items[i].id != items[|items| - 1].id;
    }
  }

  /** A well-formed input is a closed graph. */
  lemma {:induction false} GraphClosed(items: seq<Item>)
    requires WellFormed(items)
    ensures forall x :: x in GraphOf(items) ==> GraphOf(items)[x] <= GraphOf(items).Keys
  {
    GraphKeys(items);
    forall x | x in GraphOf(items) ensures GraphOf(items)[x] <= GraphOf(items).Keys {
      var i :| 0 <= i < |items| && items[i].id == x;
      GraphAt(items, i);
      assert ItemClosed(items, items[i]);
    }
  }

  lemma {:induction false} IdsGrow(items: seq<Item>)
    requires items != []
    ensures Ids(items) == Ids(items[..|items| - 1]) + {items[|items| - 1].id}
  {
    var front := items[..|items| - 1];
    assert items == front + [items[|items| - 1]];
  }

  lemma {:induction false} InOrderElements(items: seq<Item>, s: set<string>)
    ensures Elements(InOrder(items, s)) == s * Ids(items)
  {
    if items != [] {
      var front, last := items[..|items| - 1], items[|items| - 1];
      InOrderElements(front, s);
      IdsGrow(items);
      if last.id in s { ElementsAppend(InOrder(front, s), last.id); } else { assert InOrder(front, s) + [] == InOrder(front, s); }
    }
  }

  lemma {:induction false} InOrderDistinct(items: seq<Item>, s: set<string>)
    requires Named(items)
    ensures Distinct(InOrder(items, s))
  {
    if items != [] {
      var front, last := items[..|items| - 1], items[|items| - 1];
      InOrderDistinct(front, s);
      InOrderElements(front, s);
      var r := InOrder(front, s);
      forall i | 0 <= i < |r| ensures r[i] != last.id { assert r[i] in Elements(r); }
    }
  }

  function Ordinal(items: seq<Item>, x: string): nat
  {
    if items == [] then 0 else if items[0].id == x then 0 else 1 + Ordinal(items[1..], x)
  }

  lemma {:induction false} OrdinalAt(items: seq<Item>, i: nat)
    requires Named(items) && i < |items|
    ensures Ordinal(items, items[i].id) == i
  {
    if i > 0 {
      assert items[0].id != items[i].id;
      OrdinalAt(items[1..], i - 1);
    }
  }

  predicate Before(items: seq<Item>, x: string, y: string) { Ordinal(items, x) <= Ordinal(items, y) }

  ghost predicate Increasing(items: seq<Item>, a: seq<string>)
  {
    forall i, j :: 0 <= i < j < |a| ==> Ordinal(items, a[i]) < Ordinal(items, a[j])
  }

  lemma {:induction false} InOrderIncreasing(items: seq<Item>, all: seq<Item>, s: set<string>)
    requires Named(all) && items <= all
    ensures Increasing(all, InOrder(items, s))
    ensures forall x :: x in InOrder(items, s) ==> Ordinal(all, x) < |items|
  {
    if items != [] {
      var n := |items| - 1;
      assert items[..n] <= all && items[n] == all[n];
      InOrderIncreasing(items[..n], all, s);
      OrdinalAt(all, n);
      var r := InOrder(items[..n], s);
      forall i | 0 <= i < |r| ensures Ordinal(all, r[i]) < n { assert r[i] in r; }
    }
  }

  /** There is one increasing listing of a set. */
  lemma {:induction false} IncreasingUnique(items: seq<Item>, a: seq<string>, b: seq<string>)
    requires Increasing(items, a) && Increasing(items, b)
    requires forall x :: x in a <==> x in b
    ensures a == b
  {
    assert a != [] ==> a[0] in a;
    assert b != [] ==> b[0] in b;
    if a != [] && b != [] {
      forall x ensures x in a[1..] <==> x in b[1..] {
        if x in a[1..] { assert x in b; }
        if x in b[1..] { assert x in a; }
      }
      IncreasingUnique(items, a[1..], b[1..]);
      assert a == [a[0]] + a[1..] && b == [b[0]] + b[1..];
    }
  }

  /** A listing in increasing ordinals is the input order restricted to its members. */
  lemma {:induction false} SortedIsInOrder(items: seq<Item>, a: seq<string>)
    requires Named(items) && Distinct(a) && Elements(a) <= Ids(items)
    requires forall i, j :: 0 <= i < j < |a| ==> Ordinal(items, a[i]) <= Ordinal(items, a[j])
    ensures a == InOrder(items, Elements(a))
  {
    var r := InOrder(items, Elements(a));
    InOrderIncreasing(items, items, Elements(a));
    InOrderElements(items, Elements(a));
    forall i, j | 0 <= i < j < |a| ensures Ordinal(items, a[i]) < Ordinal(items, a[j]) {
      assert a[i] in Elements(a) && a[j] in Elements(a);
      if Ordinal(items, a[i]) == Ordinal(items, a[j]) { OrdinalInjective(items, a[i], a[j]); }
    }
    forall x ensures x in a <==> x in r { assert x in Elements(r) <==> x in r; }
    IncreasingUnique(items, a, r);
  }

  lemma {:induction false} OrdinalInjective(items: seq<Item>, x: string, y: string)
    requires Named(items) && x in Ids(items) && y in Ids(items) && Ordinal(items, x) == Ordinal(items, y)
    ensures x == y
  {
    var i :| 0 <= i < |items| && items[i].id == x;
    var j :| 0 <= j < |items| && items[j].id == y;
    OrdinalAt(items, i);
    OrdinalAt(items, j);
  }

  lemma {:induction false} InOrderSame(items: seq<Item>, s: set<string>, t: set<string>)
    requires s * Ids(items) == t * Ids(items)
    ensures InOrder(items, s) == InOrder(items, t)
  {
    if items != [] {
      var front, last := items[..|items| - 1], items[|items| - 1];
      assert items == front + [last];
      assert Ids(items) == Ids(front) + {last.id};
      assert last.id in Ids(items);
      assert Ids(front) <= Ids(items);
      assert s * Ids(front) == s * Ids(items) * Ids(front) == t * Ids(front);
      InOrderSame(front, s, t);
      assert last.id in s <==> last.id in s * Ids(items);
      assert last.id in t <==> last.id in t * Ids(items);
    }
  }

  lemma {:induction false} BeforeIsTotal(items: seq<Item>)
    ensures TotalPreorder((x: string, y: string) => Before(items, x, y))
  {
  }

  /** sort.SliceStable by ordinal on distinct ids: the ids in input order. */
  method SortByOrdinal(items: seq<Item>, a: seq<string>) returns (r: seq<string>)
    requires Named(items) && Distinct(a) && Elements(a) <= Ids(items)
    ensures r == InOrder(items, Elements(a))
  {
    var le := (x: string, y: string) => Before(items, x, y);
    BeforeIsTotal(items);
    r := Sort(le, a);
    PermutationFacts(a, r);
    assert Elements(a) == Elements(r);
    forall i, j | 0 <= i < j < |r| ensures Ordinal(items, r[i]) <= Ordinal(items, r[j]) { assert le(r[i], r[j]); }
    SortedIsInOrder(items, r);
  }
}
