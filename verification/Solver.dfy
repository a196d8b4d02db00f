/** The backtracking version solver. */
module Solver {
  import opened Lexicographic
  import opened Text
  import opened Versions
  import opened Registry
  import opened Finite

  type Constraints = map<string, seq<string>>
  type Choice = map<string, Manifest>

  predicate Meets(requirements: seq<string>, v: Version)
  {
    forall i :: 0 <= i < |requirements| ==> Matches(requirements[i], v)
  }

  function Targets(deps: seq<Dependency>): set<string> { set i | 0 <= i < |deps| :: deps[i].id }

  /** Each dependency appended to the requirements of its target. */
  function Append(c: Constraints, deps: seq<Dependency>): Constraints
  {
    if deps == [] then c
    else
      var d, p := deps[|deps| - 1], Append(c, deps[..|deps| - 1]);
      p[d.id := (if d.id in p then p[d.id] else []) + [d.requirement]]
  }

  lemma {:induction false} AppendKeys(c: Constraints, deps: seq<Dependency>)
    ensures Append(c, deps).Keys == c.Keys + Targets(deps)
  {
    if deps != [] {
      var front := deps[..|deps| - 1];
      AppendKeys(c, front);
      assert Targets(deps) == Targets(front) + {deps[|deps| - 1].id} by {
        assert deps == front + [deps[|deps| - 1]];
      }
    }
  }

  /** An appended list is met when the old one and the new requirements are. */
  lemma {:induction false} AppendMeets(c: Constraints, deps: seq<Dependency>, id: string, v: Version)
    requires id in Append(c, deps)
    ensures Meets(Append(c, deps)[id], v) <==>
            (id in c ==> Meets(c[id], v)) &&
            forall i :: 0 <= i < |deps| && deps[i].id == id ==> Matches(deps[i].requirement, v)
  {
    hide Matches;
    if deps != [] {
      var n := |deps| - 1;
      var front, d := deps[..n], deps[n];
      var p := Append(c, front);
      AppendKeys(c, front);
      if id in p { AppendMeets(c, front, id, v); }
      if d.id == id {
        var prior := if id in p then p[id] else [];
        assert Append(c, deps)[id] == prior + [d.requirement];
        MeetsOneMore(prior, d.requirement, v);
        if id !in p { assert forall i :: 0 <= i < n ==> deps[i].id in Targets(front) && deps[i].id != id by {
          forall i | 0 <= i < n ensures deps[i].id in Targets(front) && deps[i].id != id { assert front[i] == deps[i]; } } }
      }
      assert forall i :: 0 <= i < n ==> front[i] == deps[i];
    }
  }

  lemma {:induction false} MeetsOneMore(reqs: seq<string>, r: string, v: Version)
    ensures Meets(reqs + [r], v) <==> Meets(reqs, v) && Matches(r, v)
  {
    hide Matches;
    var all := reqs + [r];
    assert all[|reqs|] == r && forall i :: 0 <= i < |reqs| ==> all[i] == reqs[i];
  }

  /** m is what the store serves for one of the listed versions of id. */
  ghost predicate Available(s: Store, id: string, m: Manifest)
  {
    && id in s.versions && m.version in s.versions[id]
    && ReleaseID(id, m.version) in s.manifests && s.manifests[ReleaseID(id, m.version)] == m
  }

  /** d, a dependency of `owner`, holds in a. A requirement of a module on itself
      is not looked at: the solver leaves it to the cycle check. */
  ghost predicate DependencyMet(a: Choice, owner: string, d: Dependency)
  {
    d.id in a && (d.id == owner || Matches(d.requirement, a[d.id].version))
  }

  ghost predicate ModuleMet(s: Store, a: Choice, id: string)
    requires id in a
  {
    Available(s, id, a[id]) && forall i :: 0 <= i < |a[id].dependencies| ==> DependencyMet(a, id, a[id].dependencies[i])
  }

  /** a extends `chosen` to an answer for the constraints c. */
  ghost predicate Completion(s: Store, c: Constraints, chosen: Choice, a: Choice)
  {
    && (forall id :: id in chosen ==> id in a && a[id] == chosen[id])
    && (forall id :: id in c ==> id in a && (id !in chosen ==> Meets(c[id], a[id].version)))
    && (forall id :: id in a && id !in chosen ==> ModuleMet(s, a, id))
  }

  ghost predicate Unsolvable(s: Store, c: Constraints, chosen: Choice)
  {
    !exists a: Choice :: Completion(s, c, chosen, a)
  }

  /** t holds the constrained modules and, with each newly chosen one, what it needs. */
  ghost predicate Closed(c: Constraints, chosen: Choice, a: Choice, t: set<string>)
  {
    c.Keys <= t && forall id :: id in t && id in a && id !in chosen ==> Targets(a[id].dependencies) <= t
  }

  /** Nothing was chosen that the constraints do not force, given the choices. */
  ghost predicate Minimal(c: Constraints, chosen: Choice, a: Choice)
  {
    forall t :: Closed(c, chosen, a, t) ==> a.Keys <= t
  }

  /** No completion takes a version of u listed among the first n. */
  ghost predicate NoneBefore(s: Store, c: Constraints, chosen: Choice, u: string, n: nat)
    requires u in s.versions && n <= |s.versions[u]|
  {
    forall a: Choice :: Completion(s, c, chosen, a) && u in a ==> a[u].version !in s.versions[u][..n]
  }

  ghost predicate First(ids: set<string>, u: string)
  {
    u in ids && forall x :: x in ids ==> AtMost(u, x)
  }

  /** The termination measure: listed modules not chosen yet. */
  ghost function Undecided(s: Store, chosen: Choice): nat { |s.versions.Keys - chosen.Keys| }

  /** Decision by decision, the earliest listed version that can be completed. */
  ghost predicate Preferred(s: Store, c: Constraints, chosen: Choice, a: Choice)
    decreases Undecided(s, chosen)
  {
    Completion(s, c, chosen, a) &&
    forall u :: First(c.Keys - chosen.Keys, u) ==>
      (Decided(s, c, chosen, a, u);
       Progress(s, chosen, u, a[u]);
       CompletionNarrows(s, c, chosen, a, u);
       && (exists n :: 0 <= n < |s.versions[u]| && s.versions[u][n] == a[u].version && NoneBefore(s, c, chosen, u, n))
       && Preferred(s, Append(c, a[u].dependencies), chosen[u := a[u]], a))
  }

  /** Deciding u as a completion does keeps it a completion. */
  lemma {:induction false} CompletionNarrows(s: Store, c: Constraints, chosen: Choice, a: Choice, u: string)
    requires Completion(s, c, chosen, a) && u in c && u !in chosen
    ensures Completion(s, Append(c, a[u].dependencies), chosen[u := a[u]], a)
  {
    hide Matches, Append, Meets, Available;
    var deps := a[u].dependencies;
    var nc, ns := Append(c, deps), chosen[u := a[u]];
    assert ModuleMet(s, a, u);
    AppendKeys(c, deps);
    forall id | id in nc ensures id in a && (id !in ns ==> Meets(nc[id], a[id].version)) {
      if id !in c {
        var i :| 0 <= i < |deps| && deps[i].id == id;
        assert DependencyMet(a, u, deps[i]);
      }
      AppendMeets(c, deps, id, a[id].version);
      if id !in ns {
        forall i | 0 <= i < |deps| && deps[i].id == id ensures Matches(deps[i].requirement, a[id].version) {
          assert DependencyMet(a, u, deps[i]);
        }
      }
    }
  }

  /** A dependency of m fits what is already chosen. */
  predicate Compatible(chosen: Choice, d: Dependency)
  {
    d.id in chosen ==> Matches(d.requirement, chosen[d.id].version)
  }

  predicate AllCompatible(chosen: Choice, deps: seq<Dependency>)
  {
    forall i :: 0 <= i < |deps| ==> Compatible(chosen, deps[i])
  }

  /** A completion after deciding u for a compatible m is one before. */
  lemma {:induction false} CompletionWidens(s: Store, c: Constraints, chosen: Choice, a: Choice, u: string, m: Manifest)
    requires u in c && u !in chosen && Available(s, u, m) && Meets(c[u], m.version)
    requires AllCompatible(chosen, m.dependencies)
    requires Completion(s, Append(c, m.dependencies), chosen[u := m], a)
    ensures Completion(s, c, chosen, a)
  {
    hide Matches, Append, Meets, Available;
    var deps := m.dependencies;
    var nc, ns := Append(c, deps), chosen[u := m];
    AppendKeys(c, deps);
    assert u in ns && a[u] == m;
    forall i | 0 <= i < |deps| ensures DependencyMet(a, u, deps[i]) {
      var d := deps[i];
      assert d.id in nc && Compatible(chosen, d);
      if d.id !in ns { AppendMeets(c, deps, d.id, a[d.id].version); }
      if d.id in chosen { assert d.id in ns && a[d.id] == chosen[d.id]; }
    }
    forall id | id in a && id !in chosen ensures ModuleMet(s, a, id) {}
    forall id | id in chosen ensures id in a && a[id] == chosen[id] { assert id in ns; }
    forall id | id in c ensures id in a && (id !in chosen ==> Meets(c[id], a[id].version)) {
      assert id in nc;
      if id !in chosen && id != u { AppendMeets(c, deps, id, a[id].version); }
    }
  }

  lemma {:induction false} MinimalWidens(c: Constraints, chosen: Choice, a: Choice, u: string, m: Manifest)
    requires u in c && u in a && a[u] == m && u !in chosen
    requires Minimal(Append(c, m.dependencies), chosen[u := m], a)
    ensures Minimal(c, chosen, a)
  {
    forall t | Closed(c, chosen, a, t) ensures a.Keys <= t {
      assert u in t;
      AppendKeys(c, m.dependencies);
      assert Closed(Append(c, m.dependencies), chosen[u := m], a, t);
    }
  }

  /** The solver: an answer if and only if there is one, nothing superfluous in
      it, and the preferred one. */
  method Solve(h: Hashing, s: Store, c: Constraints, chosen: Choice) returns (r: Option<Choice>)
    requires Consistent(h, s)
    requires chosen.Keys <= c.Keys
    ensures r.None? <==> Unsolvable(s, c, chosen)
    ensures r.Some? ==> Completion(s, c, chosen, r.value) && Minimal(c, chosen, r.value)
    ensures r.Some? ==> Preferred(s, c, chosen, r.value)
    decreases Undecided(s, chosen)
  {
    hide Matches;
    hide Minimal, Preferred, Undecided;
    var ids := SortedKeys(c.Keys - chosen.Keys);
    if |ids| == 0 {
      NothingLeft(s, c, chosen, ids);
      return Some(chosen);
    }
    var u := ids[0];
    assert u in ids;
    SortedHeadIsFirst(ids, c.Keys - chosen.Keys);
    if u !in s.versions {
      forall a: Choice ensures !Completion(s, c, chosen, a) {
        if Completion(s, c, chosen, a) { Decided(s, c, chosen, a, u); }
      }
      return None;
    }
    var versions := s.versions[u];
    for i := 0 to |versions|
      invariant NoneBefore(s, c, chosen, u, i)
    {
      var v := versions[i];
      var ok := CheckAll(c[u], v);
      if !ok {
        Rejected(s, c, chosen, u, i);
        continue;
      }
      if ReleaseID(u, v) !in s.manifests {
        Rejected(s, c, chosen, u, i);
        continue;
      }
      var m := s.manifests[ReleaseID(u, v)];
      assert m.version == v;
      var valid, nc := Extend(c, chosen, m.dependencies);
      if !valid {
        Rejected(s, c, chosen, u, i);
        continue;
      }
      var ns := chosen[u := m];
      Progress(s, chosen, u, m);
      AppendKeys(c, m.dependencies);
      var result := Solve(h, s, nc, ns);
      if result.Some? {
        Accepted(s, c, chosen, u, i, m, result.value);
        return result;
      }
      Exhausted(s, c, chosen, u, i, m);
    }
    assert versions[..|versions|] == versions;
    forall a: Choice ensures !Completion(s, c, chosen, a) {
      if Completion(s, c, chosen, a) {
        Decided(s, c, chosen, a, u);
      }
    }
    return None;
  }

  method CheckAll(requirements: seq<string>, v: Version) returns (ok: bool)
    ensures ok == Meets(requirements, v)
  {
    hide Matches;
    for k := 0 to |requirements|
      invariant forall j :: 0 <= j < k ==> Matches(requirements[j], v)
    {
      if !Matches(requirements[k], v) { return false; }
    }
    return true;
  }

  /** The constraints with those of a candidate added, unless one of them rules
      out a module that is already chosen. */
  method Extend(c: Constraints, chosen: Choice, deps: seq<Dependency>) returns (valid: bool, nc: Constraints)
    ensures valid == AllCompatible(chosen, deps)
    ensures valid ==> nc == Append(c, deps)
  {
    hide Matches;
    nc := c;
    for k := 0 to |deps|
      invariant nc == Append(c, deps[..k])
      invariant AllCompatible(chosen, deps[..k])
    {
      var d := deps[k];
      assert deps[..k + 1][..k] == deps[..k];
      nc := nc[d.id := (if d.id in nc then nc[d.id] else []) + [d.requirement]];
      if !Compatible(chosen, d) { return false, nc; }
    }
    assert deps[..|deps|] == deps;
    return true, nc;
  }

  lemma {:induction false} NothingLeft(s: Store, c: Constraints, chosen: Choice, ids: seq<string>)
    requires chosen.Keys <= c.Keys && ids == [] && forall x :: x in ids <==> x in c.Keys - chosen.Keys
    ensures Completion(s, c, chosen, chosen) && Minimal(c, chosen, chosen) && Preferred(s, c, chosen, chosen)
  {
    hide Matches;
    forall id | id in c ensures id in chosen { assert id !in ids; }
  }

  lemma {:induction false} Decided(s: Store, c: Constraints, chosen: Choice, a: Choice, u: string)
    requires Completion(s, c, chosen, a) && u in c && u !in chosen
    ensures u in a && ModuleMet(s, a, u) && Available(s, u, a[u]) && Meets(c[u], a[u].version)
    ensures AllCompatible(chosen, a[u].dependencies)
  {
    hide Matches;
    var deps := a[u].dependencies;
    forall i | 0 <= i < |deps| ensures Compatible(chosen, deps[i]) { assert DependencyMet(a, u, deps[i]); }
  }

  lemma {:induction false} Progress(s: Store, chosen: Choice, u: string, m: Manifest)
    requires u in s.versions && u !in chosen
    ensures Undecided(s, chosen[u := m]) < Undecided(s, chosen)
  {
    assert u in s.versions.Keys - chosen.Keys && u !in s.versions.Keys - chosen[u := m].Keys;
    SmallerSet(s.versions.Keys - chosen[u := m].Keys, s.versions.Keys - chosen.Keys);
  }

  /** The three ways a listed version is passed over. */
  lemma {:induction false} Rejected(s: Store, c: Constraints, chosen: Choice, u: string, i: nat)
    requires u in c && u !in chosen && u in s.versions && i < |s.versions[u]| && NoneBefore(s, c, chosen, u, i)
    requires var r := ReleaseID(u, s.versions[u][i]);
             || !Meets(c[u], r.version) || r !in s.manifests
             || (s.manifests[r].version == r.version && !AllCompatible(chosen, s.manifests[r].dependencies))
    ensures NoneBefore(s, c, chosen, u, i + 1)
  {
    hide Matches;
    var v := s.versions[u][i];
    forall a: Choice | Completion(s, c, chosen, a) && u in a ensures a[u].version != v {
      Decided(s, c, chosen, a, u);
    }
    assert s.versions[u][..i + 1] == s.versions[u][..i] + [v];
  }

  /** The fourth: the search below it came back empty. */
  lemma {:induction false} Exhausted(s: Store, c: Constraints, chosen: Choice, u: string, i: nat, m: Manifest)
    requires u in c && u !in chosen && u in s.versions && i < |s.versions[u]| && NoneBefore(s, c, chosen, u, i)
    requires ReleaseID(u, s.versions[u][i]) in s.manifests && s.manifests[ReleaseID(u, s.versions[u][i])] == m
    requires Unsolvable(s, Append(c, m.dependencies), chosen[u := m])
    ensures NoneBefore(s, c, chosen, u, i + 1)
  {
    hide Matches;
    var v := s.versions[u][i];
    forall a: Choice | Completion(s, c, chosen, a) && u in a ensures a[u].version != v {
      Decided(s, c, chosen, a, u);
      CompletionNarrows(s, c, chosen, a, u);
    }
    assert s.versions[u][..i + 1] == s.versions[u][..i] + [v];
  }

  lemma {:induction false} Accepted(s: Store, c: Constraints, chosen: Choice, u: string, i: nat, m: Manifest, a: Choice)
    requires First(c.Keys - chosen.Keys, u)
    requires u in s.versions && i < |s.versions[u]| && NoneBefore(s, c, chosen, u, i)
    requires m.version == s.versions[u][i] && Available(s, u, m) && Meets(c[u], m.version)
    requires AllCompatible(chosen, m.dependencies)
    requires var nc, ns := Append(c, m.dependencies), chosen[u := m];
             Completion(s, nc, ns, a) && Minimal(nc, ns, a) && Preferred(s, nc, ns, a)
    ensures Completion(s, c, chosen, a) && Minimal(c, chosen, a) && Preferred(s, c, chosen, a)
  {
    hide Matches;
    assert u in chosen[u := m] && a[u] == m;
    CompletionWidens(s, c, chosen, a, u, m);
    MinimalWidens(c, chosen, a, u, m);
    FirstIsUnique(c.Keys - chosen.Keys);
  }

  /** Preference and minimality leave one answer: the search is deterministic
      although Go's map iteration is not. */
  lemma {:induction false} AnswerIsUnique(s: Store, c: Constraints, chosen: Choice, a: Choice, b: Choice)
    requires chosen.Keys <= c.Keys
    requires Preferred(s, c, chosen, a) && Minimal(c, chosen, a)
    requires Preferred(s, c, chosen, b) && Minimal(c, chosen, b)
    ensures a == b
    decreases Undecided(s, chosen)
  {
    hide *;
    if c.Keys - chosen.Keys == {} {
      OnlyChosen(s, c, chosen, a);
      OnlyChosen(s, c, chosen, b);
    } else {
      var u := Smallest(c.Keys - chosen.Keys);
      DecideFirst(s, c, chosen, a, u);
      DecideFirst(s, c, chosen, b, u);
      SameDecision(s, c, chosen, a, b, u);
      AnswerIsUnique(s, Append(c, a[u].dependencies), chosen[u := a[u]], a, b);
    }
  }

  /** The first undecided module of a preferred, minimal answer, decided. */
  lemma {:induction false} DecideFirst(s: Store, c: Constraints, chosen: Choice, a: Choice, u: string)
    requires chosen.Keys <= c.Keys && First(c.Keys - chosen.Keys, u)
    requires Preferred(s, c, chosen, a) && Minimal(c, chosen, a)
    ensures u in a && Available(s, u, a[u])
    ensures var nc, ns := Append(c, a[u].dependencies), chosen[u := a[u]];
            && Preferred(s, nc, ns, a) && Minimal(nc, ns, a) && ns.Keys <= nc.Keys
            && Undecided(s, ns) < Undecided(s, chosen)
  {
    hide Matches, Minimal, Preferred, Completion, Append, ModuleMet, AllCompatible, Meets, AtMost;
    PreferredCompletes(s, c, chosen, a);
    Decided(s, c, chosen, a, u);
    Progress(s, chosen, u, a[u]);
    MinimalNarrows(c, chosen, a, u);
    PreferredNarrows(s, c, chosen, a, u);
    AppendKeys(c, a[u].dependencies);
  }

  lemma {:induction false} PreferredCompletes(s: Store, c: Constraints, chosen: Choice, a: Choice)
    requires Preferred(s, c, chosen, a)
    ensures Completion(s, c, chosen, a)
  {
    hide Matches, Completion;
  }

  lemma {:induction false} PreferredNarrows(s: Store, c: Constraints, chosen: Choice, a: Choice, u: string)
    requires Preferred(s, c, chosen, a) && First(c.Keys - chosen.Keys, u) && u in a
    ensures Preferred(s, Append(c, a[u].dependencies), chosen[u := a[u]], a)
  {
    hide Matches, Completion, Append;
  }

  lemma {:induction false} OnlyChosen(s: Store, c: Constraints, chosen: Choice, a: Choice)
    requires chosen.Keys <= c.Keys && c.Keys - chosen.Keys == {}
    requires Preferred(s, c, chosen, a) && Minimal(c, chosen, a)
    ensures a == chosen
  {
    hide Matches;
    PreferredCompletes(s, c, chosen, a);
    forall x | x in c.Keys ensures x in chosen.Keys { assert x !in c.Keys - chosen.Keys; }
    assert Closed(c, chosen, a, c.Keys);
  }

  lemma {:induction false} Smallest(keys: set<string>) returns (u: string)
    requires keys != {}
    ensures First(keys, u)
  {
    u :| u in keys;
    if keys != {u} {
      var w := Smallest(keys - {u});
      AtMostIsTotal();
      if AtMost(w, u) {
        u := w;
      } else {
        forall x | x in keys ensures AtMost(u, x) { if x != u { assert AtMost(w, x); } }
      }
    }
  }

  lemma {:induction false} SameDecision(s: Store, c: Constraints, chosen: Choice, a: Choice, b: Choice, u: string)
    requires Preferred(s, c, chosen, a) && Preferred(s, c, chosen, b) && First(c.Keys - chosen.Keys, u)
    requires u in a && u in b && Available(s, u, a[u]) && Available(s, u, b[u])
    ensures a[u] == b[u]
  {
    hide Matches, Completion;
    var versions := s.versions[u];
    var i :| 0 <= i < |versions| && versions[i] == a[u].version && NoneBefore(s, c, chosen, u, i);
    var j :| 0 <= j < |versions| && versions[j] == b[u].version && NoneBefore(s, c, chosen, u, j);
    NotEarlier(s, c, chosen, a, u, i, j);
    NotEarlier(s, c, chosen, b, u, j, i);
  }

  lemma {:induction false} NotEarlier(s: Store, c: Constraints, chosen: Choice, a: Choice, u: string, i: nat, j: nat)
    requires Completion(s, c, chosen, a) && u in a && u in s.versions && i < |s.versions[u]| && j <= |s.versions[u]|
    requires s.versions[u][i] == a[u].version && NoneBefore(s, c, chosen, u, j)
    ensures j <= i
  {
    hide Matches, Completion;
    assert forall k :: 0 <= k < j ==> s.versions[u][k] in s.versions[u][..j];
  }

  lemma {:induction false} MinimalNarrows(c: Constraints, chosen: Choice, a: Choice, u: string)
    requires Minimal(c, chosen, a) && u in c && u in a
    ensures Minimal(Append(c, a[u].dependencies), chosen[u := a[u]], a)
  {
    AppendKeys(c, a[u].dependencies);
    forall t | Closed(Append(c, a[u].dependencies), chosen[u := a[u]], a, t) ensures a.Keys <= t {
      assert Closed(c, chosen, a, t);
    }
  }

  lemma {:induction false} SortedHeadIsFirst(ids: seq<string>, keys: set<string>)
    requires StrictlySorted(ids) && ids != [] && forall x :: x in ids <==> x in keys
    ensures First(keys, ids[0])
  {
    forall x | x in keys ensures AtMost(ids[0], x) {
      var i :| 0 <= i < |ids| && ids[i] == x;
    }
  }

  lemma {:induction false} FirstIsUnique(keys: set<string>)
    ensures forall u, w :: First(keys, u) && First(keys, w) ==> u == w
  {
    forall u, w | First(keys, u) && First(keys, w) ensures u == w {
      if Less(u, w) { LessAsymmetric(u, w); }
    }
  }
}
