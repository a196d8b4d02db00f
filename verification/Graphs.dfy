/** Finite dependency graphs: walks, cycles, dependency-first orders. */
module Graphs {
  import opened Finite

  /** Maps a node to the nodes it depends on directly. */
  type Graph = map<string, set<string>>

  /** A missing key of a Go map of slices reads as the empty slice. */
  function At(m: map<string, seq<string>>, k: string): seq<string> { if k in m then m[k] else [] }

  ghost predicate Edge(g: Graph, a: string, b: string) { a in g && b in g[a] }

  /** A nonempty walk along dependencies. */
  ghost predicate Walk(g: Graph, p: seq<string>)
  {
    p != [] && forall i :: 0 <= i < |p| - 1 ==> Edge(g, p[i], p[i + 1])
  }

  ghost predicate WalkFromTo(g: Graph, p: seq<string>, a: string, b: string)
  {
    Walk(g, p) && p[0] == a && p[|p| - 1] == b
  }

  /** b is a or one of its transitive dependencies. */
  ghost predicate Reaches(g: Graph, a: string, b: string) { exists p :: WalkFromTo(g, p, a, b) }

  ghost predicate Cycle(g: Graph, p: seq<string>)
  {
    |p| >= 2 && Walk(g, p) && p[0] == p[|p| - 1]
  }

  ghost predicate Acyclic(g: Graph) { forall p :: !Cycle(g, p) }

  /** A walk from x that comes back to a node it has visited. */
  ghost predicate Lasso(g: Graph, x: string, p: seq<string>)
  {
    Walk(g, p) && p[0] == x && !Distinct(p)
  }

  /** x is on a cycle or depends, directly or not, on a node that is. */
  ghost predicate LeadsToCycle(g: Graph, x: string) { exists p :: Lasso(g, x, p) }

  /** Every node of the sequence comes after all of its dependencies. */
  ghost predicate DepsFirst(g: Graph, order: seq<string>)
  {
    forall i :: 0 <= i < |order| ==> order[i] in g && g[order[i]] <= Elements(order[..i])
  }

  /** A duplicate-free listing of all nodes, dependencies first. */
  ghost predicate TopologicalOrder(g: Graph, order: seq<string>)
  {
    Distinct(order) && Elements(order) == g.Keys && DepsFirst(g, order)
  }

  lemma {:induction false} WalkJoin(g: Graph, p: seq<string>, q: seq<string>)
    requires Walk(g, p) && Walk(g, q) && p[|p| - 1] == q[0]
    ensures WalkFromTo(g, p + q[1..], p[0], q[|q| - 1])
  {
    var w := p + q[1..];
    forall i | 0 <= i < |w| - 1 ensures Edge(g, w[i], w[i + 1]) {
      if i >= |p| - 1 { assert w[i] == q[i - |p| + 1] && w[i + 1] == q[i - |p| + 2]; }
    }
  }

  lemma {:induction false} ReachesTransitive(g: Graph, a: string, b: string, c: string)
    requires Reaches(g, a, b) && Reaches(g, b, c)
    ensures Reaches(g, a, c)
  {
    var p :| WalkFromTo(g, p, a, b);
    var q :| WalkFromTo(g, q, b, c);
    WalkJoin(g, p, q);
  }

  lemma {:induction false} ReachesStep(g: Graph, a: string, b: string)
    requires a == b || Edge(g, a, b)
    ensures Reaches(g, a, b)
  {
    assert WalkFromTo(g, if a == b then [a] else [a, b], a, b);
  }

  /** A set closed under dependencies holds every walk that starts in it. */
  lemma {:induction false} ClosedHoldsWalk(g: Graph, s: set<string>, p: seq<string>)
    requires forall x :: x in s && x in g ==> g[x] <= s
    requires Walk(g, p) && p[0] in s
    ensures forall i :: 0 <= i < |p| ==> p[i] in s
  {
    if |p| > 1 {
      var q := p[..|p| - 1];
      ClosedHoldsWalk(g, s, q);
      assert q[|p| - 2] == p[|p| - 2] && Edge(g, p[|p| - 2], p[|p| - 1]);
      forall i | 0 <= i < |p| ensures p[i] in s { assert i < |q| ==> p[i] == q[i]; }
    }
  }

  /** In a dependency-first order, a walk never meets a node twice. */
  lemma {:induction false} WalkDescends(g: Graph, order: seq<string>, p: seq<string>, n: nat)
    requires DepsFirst(g, order) && Walk(g, p)
    requires n <= |order| && p[0] in order[..n]
    ensures Distinct(p) && Elements(p) <= Elements(order[..n])
    decreases |p|
  {
    if |p| > 1 {
      var f := FirstIndex(order, p[0]);
      assert Edge(g, p[0], p[1]);
      assert p[1] in Elements(order[..f]);
      assert Walk(g, p[1..]) by {
        forall i | 0 <= i < |p[1..]| - 1 ensures Edge(g, p[1..][i], p[1..][i + 1]) {
          assert Edge(g, p[i + 1], p[i + 2]);
        }
      }
      WalkDescends(g, order, p[1..], f);
      assert p == [p[0]] + p[1..];
      forall x | x in p[1..] ensures x != p[0] && x in order[..n] {
        assert x in Elements(order[..f]);
      }
    }
  }

  ghost function FirstIndex(s: seq<string>, x: string): (k: nat)
    requires x in s
    ensures k < |s| && s[k] == x && x !in s[..k]
    ensures forall i :: 0 <= i < |s| && s[i] == x ==> k <= i
  {
    if s[0] == x then 0 else
      var k := FirstIndex(s[1..], x) + 1;
      assert s[..k] == [s[0]] + s[1..][..k - 1];
      k
  }

  /** A graph whose nodes can be listed dependencies first has no cycle. */
  lemma {:induction false} OrderMeansAcyclic(g: Graph, order: seq<string>)
    requires DepsFirst(g, order) && g.Keys <= Elements(order)
    ensures Acyclic(g)
    ensures forall x :: !LeadsToCycle(g, x)
  {
    forall x, p | Lasso(g, x, p) ensures false {
      if |p| > 1 {
        assert Edge(g, p[0], p[1]);
        assert p[0] in order[..|order|];
        WalkDescends(g, order, p, |order|);
      }
    }
    forall p ensures !Cycle(g, p) {
      if Cycle(g, p) { assert Lasso(g, p[0], p); }
    }
  }

  /** No two of the positions can differ if the walk is longer than the set. */
  lemma {:induction false} Pigeonhole(p: seq<string>, s: set<string>)
    requires Elements(p) <= s && |p| > |s|
    ensures !Distinct(p)
  {
    if Distinct(p) {
      DistinctSize(p);
      SubsetSize(Elements(p), s);
    }
  }

  /** y has a dependency in s. */
  ghost predicate DependsInto(g: Graph, y: string, s: set<string>) { y in g && g[y] * s != {} }

  /** From a node of a set in which everybody has a dependency in the set, one
      can walk inside the set for as long as one likes. */
  lemma {:induction false} WalkInside(g: Graph, s: set<string>, x: string, n: nat) returns (p: seq<string>)
    requires x in s
    requires forall y :: y in s ==> DependsInto(g, y, s)
    ensures |p| == n + 1 && Walk(g, p) && p[0] == x && Elements(p) <= s
    decreases n
  {
    if n == 0 { return [x]; }
    assert DependsInto(g, x, s);
    var d :| d in g[x] * s;
    var q := WalkInside(g, s, d, n - 1);
    p := [x] + q;
    forall i | 0 <= i < |p| - 1 ensures Edge(g, p[i], p[i + 1]) {
      if i > 0 { assert Edge(g, q[i - 1], q[i]); }
    }
  }

  /** What an exhausted work-list leaves over: a set in which every node waits
      for another one of the set leads to a cycle from each of its nodes. */
  lemma {:induction false} StuckLeadsToCycle(g: Graph, s: set<string>, x: string)
    requires x in s
    requires forall y :: y in s ==> DependsInto(g, y, s)
    ensures LeadsToCycle(g, x) && !Acyclic(g)
  {
    var p := WalkInside(g, s, x, |s|);
    Pigeonhole(p, s);
    assert Lasso(g, x, p);
    LassoHasCycle(g, x, p);
  }

  lemma {:induction false} LassoHasCycle(g: Graph, x: string, p: seq<string>)
    requires Lasso(g, x, p)
    ensures !Acyclic(g)
  {
    var i, j :| 0 <= i < j < |p| && p[i] == p[j];
    var c := p[i..j + 1];
    assert Cycle(g, c) by {
      forall k | 0 <= k < |c| - 1 ensures Edge(g, c[k], c[k + 1]) {
        assert Edge(g, p[i + k], p[i + k + 1]);
      }
    }
  }
}
