/** Lock files: made by Resolve, checked independently by Verify. */
module Resolver {
  import opened Finite
  import opened Lexicographic
  import opened Text
  import opened Versions
  import opened Registry
  import opened Solver
  import opened Graphs
  import opened Cycles

  datatype Request = Request(target: string, roots: seq<Dependency>)

  datatype LockedDependency = LockedDependency(id: string, version: string)

  datatype LockedModule = LockedModule(id: string, version: string, manifestDigest: string,
                                       artifactDigest: string, dependencies: seq<LockedDependency>)

  datatype Lock = Lock(schema: nat, target: string, roots: seq<Dependency>, modules: seq<LockedModule>)

  datatype Error = NoTarget | BadRoot(id: string) | NoSolution | CycleFound(walk: seq<string>) | NoArtifact(id: string)

  datatype Result = Ok(lock: Lock) | Err(error: Error)

  /** The choice satisfies every root and every dependency, self-requirements included. */
  ghost predicate Satisfies(s: Store, roots: seq<Dependency>, a: Choice)
  {
    && (forall i :: 0 <= i < |roots| ==> roots[i].id in a && Matches(roots[i].requirement, a[roots[i].id].version))
    && (forall id :: id in a ==> Available(s, id, a[id]))
    && (forall id, i :: id in a && 0 <= i < |a[id].dependencies| ==>
          var d := a[id].dependencies[i];
          d.id in a && Matches(d.requirement, a[d.id].version))
  }

  /** x is a root or something a root needs, directly or not. */
  ghost predicate Needed(a: Choice, roots: seq<Dependency>, x: string)
  {
    exists i :: 0 <= i < |roots| && Reaches(DependencyGraph(a), roots[i].id, x)
  }

  ghost predicate ExactlyNeeded(a: Choice, roots: seq<Dependency>)
  {
    forall x :: x in a <==> Needed(a, roots, x)
  }

  /** The lock lists the choice: sorted, each module with the digests and the
      positions of its manifest. */
  ghost predicate Records(h: Hashing, a: Choice, target: string, modules: seq<LockedModule>)
  {
    && (forall i, j :: 0 <= i < j < |modules| ==> Less(modules[i].id, modules[j].id))
    && (forall id :: id in a <==> exists i :: 0 <= i < |modules| && modules[i].id == id)
    && (forall i :: 0 <= i < |modules| && modules[i].id in a ==> RecordsOne(h, a, target, modules[i]))
  }

  ghost predicate FirstFor(m: Manifest, target: string, k: nat)
  {
    k < |m.artifacts| && m.artifacts[k].target == target && forall i :: 0 <= i < k ==> m.artifacts[i].target != target
  }

  ghost predicate RecordsOne(h: Hashing, a: Choice, target: string, lm: LockedModule)
    requires lm.id in a
  {
    var m := a[lm.id];
    && lm.version == String(m.version)
    && lm.manifestDigest == ManifestDigest(h, m)
    && (exists k: nat :: FirstFor(m, target, k) && lm.artifactDigest == DigestText(m.artifacts[k].digest))
    && |lm.dependencies| == |m.dependencies|
    && forall k :: 0 <= k < |m.dependencies| ==>
         && m.dependencies[k].id in a
         && lm.dependencies[k] == LockedDependency(m.dependencies[k].id, String(a[m.dependencies[k].id].version))
  }

  ghost predicate RootsWellNamed(roots: seq<Dependency>)
  {
    forall i :: 0 <= i < |roots| ==> ValidModuleID(roots[i].id) && ValidRequirement(roots[i].requirement)
  }

  predicate ById(a: Dependency, b: Dependency) { AtMost(a.id, b.id) }

  lemma {:induction false} ByIdIsTotal()
    ensures TotalPreorder(ById)
  {
    AtMostIsTotal();
    forall x, y ensures ById(x, y) || ById(y, x) { assert AtMost(x.id, y.id) || AtMost(y.id, x.id); }
    forall x, y, z | ById(x, y) && ById(y, z) ensures ById(x, z) { assert AtMost(x.id, y.id) && AtMost(y.id, z.id); }
  }

  lemma {:induction false} SortedById(roots: seq<Dependency>)
    requires SortedBy(ById, roots)
    ensures forall i, j :: 0 <= i < j < |roots| ==> AtMost(roots[i].id, roots[j].id)
  {
    hide AtMost;
    forall i, j | 0 <= i < j < |roots| ensures AtMost(roots[i].id, roots[j].id) { assert ById(roots[i], roots[j]); }
  }

  /** The first artifact built for the target. */
  method FindArtifact(m: Manifest, target: string) returns (k: nat)
    ensures k <= |m.artifacts|
    ensures k < |m.artifacts| ==> m.artifacts[k].target == target
    ensures forall i :: 0 <= i < k ==> m.artifacts[i].target != target
  {
    k := 0;
    while k < |m.artifacts| && m.artifacts[k].target != target
      invariant k <= |m.artifacts|
      invariant forall i :: 0 <= i < k ==> m.artifacts[i].target != target
    {
      k := k + 1;
    }
  }

  predicate Builds(m: Manifest, target: string)
  {
    exists k :: 0 <= k < |m.artifacts| && m.artifacts[k].target == target
  }

  /** One lock entry. */
  method LockModule(h: Hashing, a: Choice, id: string, target: string) returns (lm: Option<LockedModule>)
    requires id in a && a[id].id == id
    requires forall i :: 0 <= i < |a[id].dependencies| ==> a[id].dependencies[i].id in a
    ensures lm.Some? <==> Builds(a[id], target)
    ensures lm.Some? ==> lm.value.id == id && RecordsOne(h, a, target, lm.value)
  {
    hide String, DigestText;
    var m := a[id];
    var k := FindArtifact(m, target);
    if k == |m.artifacts| { return None; }
    var deps: seq<LockedDependency> := [];
    for i := 0 to |m.dependencies|
      invariant |deps| == i
      invariant forall j :: 0 <= j < i ==>
        deps[j] == LockedDependency(m.dependencies[j].id, String(a[m.dependencies[j].id].version))
    {
      deps := deps + [LockedDependency(m.dependencies[i].id, String(a[m.dependencies[i].id].version))];
    }
    return Some(LockedModule(m.id, String(m.version), ManifestDigest(h, m), DigestText(m.artifacts[k].digest), deps));
  }

  /** All lock entries in the order of the identifiers. */
  method LockModules(h: Hashing, a: Choice, target: string) returns (modules: Option<seq<LockedModule>>, missing: string)
    requires forall id :: id in a ==> a[id].id == id
    requires forall id, i :: id in a && 0 <= i < |a[id].dependencies| ==> a[id].dependencies[i].id in a
    ensures modules.Some? ==> Records(h, a, target, modules.value)
    ensures modules.Some? <==> forall id :: id in a ==> Builds(a[id], target)
    ensures modules.None? ==> missing in a && !Builds(a[missing], target) && forall id :: id in a && Less(id, missing) ==> Builds(a[id], target)
  {
    hide RecordsOne, Less;
    var ids := SortedKeys(a.Keys);
    var out: seq<LockedModule> := [];
    for i := 0 to |ids|
      invariant |out| == i && forall j :: 0 <= j < i ==> out[j].id == ids[j] && ids[j] in a && RecordsOne(h, a, target, out[j])
      invariant forall j :: 0 <= j < i ==> Builds(a[ids[j]], target)
    {
      assert ids[i] in ids;
      var lm := LockModule(h, a, ids[i], target);
      if lm.None? {
        FirstMissing(a, target, ids, i);
        return None, ids[i];
      }
      out := out + [lm.value];
    }
    forall id ensures id in a <==> exists i :: 0 <= i < |out| && out[i].id == id {
      if id in a {
        assert id in ids;
        var i :| 0 <= i < |ids| && ids[i] == id;
        assert out[i].id == id;
      }
    }
    return Some(out), "";
  }

  lemma {:induction false} LessIsEarlier(ids: seq<string>, j: nat, i: nat)
    requires StrictlySorted(ids) && i < |ids| && j < |ids| && Less(ids[j], ids[i])
    ensures j < i
  {
    hide Less;
    LessAsymmetric(ids[j], ids[i]);
  }

  lemma {:induction false} FirstMissing(a: Choice, target: string, ids: seq<string>, i: nat)
    requires StrictlySorted(ids) && i < |ids| && forall id :: id in a ==> id in ids
    requires forall j :: 0 <= j < i ==> ids[j] in a && Builds(a[ids[j]], target)
    ensures forall id :: id in a && Less(id, ids[i]) ==> Builds(a[id], target)
  {
    hide Builds, Less;
    forall id | id in a && Less(id, ids[i]) ensures Builds(a[id], target) {
      var j :| 0 <= j < |ids| && ids[j] == id;
      LessIsEarlier(ids, j, i);
    }
  }

  /** The loop over the roots: validate, and collect the constraints. */
  method CollectRoots(roots: seq<Dependency>) returns (constraints: Constraints, bad: Option<string>)
    ensures bad.None? <==> RootsWellNamed(roots)
    ensures bad.None? ==> constraints == Append(map[], roots)
    ensures bad.Some? ==> exists i :: 0 <= i < |roots| && roots[i].id == bad.value && RootsWellNamed(roots[..i]) && !RootsWellNamed(roots[..i + 1])
  {
    hide ValidModuleID, ValidRequirement;
    constraints := map[];
    for i := 0 to |roots|
      invariant constraints == Append(map[], roots[..i])
      invariant RootsWellNamed(roots[..i])
    {
      var root := roots[i];
      if !ValidModuleID(root.id) || !ValidRequirement(root.requirement) {
        assert roots[..i + 1][i] == root;
        return constraints, Some(root.id);
      }
      assert roots[..i + 1][..i] == roots[..i];
      constraints := constraints[root.id := (if root.id in constraints then constraints[root.id] else []) + [root.requirement]];
    }
    assert roots[..|roots|] == roots;
    return constraints, None;
  }

  /** a is what the solver answers for the roots; there is at most one such choice. */
  ghost predicate IsAnswer(s: Store, roots: seq<Dependency>, a: Choice)
  {
    Preferred(s, Append(map[], roots), map[], a) && Minimal(Append(map[], roots), map[], a)
  }

  ghost predicate Solvable(s: Store, r: Request)
  {
    r.target != "" && RootsWellNamed(r.roots) && !Unsolvable(s, Append(map[], r.roots), map[])
  }

  method Resolve(h: Hashing, s: Store, r: Request) returns (result: Result, ghost a: Choice)
    requires Consistent(h, s)
    ensures Solvable(s, r) ==> IsAnswer(s, r.roots, a)
    // success: a sound, acyclic choice of exactly what the roots need, recorded and verifiable
    ensures result.Ok? <==> Solvable(s, r) && Acyclic(DependencyGraph(a)) && forall id :: id in a ==> Builds(a[id], r.target)
    ensures result.Ok? ==> Satisfies(s, r.roots, a) && ExactlyNeeded(a, r.roots)
    ensures result.Ok? ==>
      && result.lock.schema == 1 && result.lock.target == r.target && Records(h, a, r.target, result.lock.modules)
      && multiset(result.lock.roots) == multiset(r.roots)
      && forall i, j :: 0 <= i < j < |result.lock.roots| ==> AtMost(result.lock.roots[i].id, result.lock.roots[j].id)
    ensures result.Ok? ==> Acceptable(h, s, result.lock)
    // failure: each error exactly when its cause holds
    ensures result == Err(NoTarget) <==> r.target == ""
    ensures result.Err? && result.error.BadRoot? <==> r.target != "" && !RootsWellNamed(r.roots)
    ensures result == Err(NoSolution) <==>
            r.target != "" && RootsWellNamed(r.roots) && Unsolvable(s, Append(map[], r.roots), map[])
    ensures result.Err? && result.error.CycleFound? <==> Solvable(s, r) && !Acyclic(DependencyGraph(a))
    ensures result.Err? && result.error.CycleFound? ==> ClosesOnItself(DependencyGraph(a), result.error.walk)
    ensures result.Err? && result.error.NoArtifact? <==>
            Solvable(s, r) && Acyclic(DependencyGraph(a)) && exists id :: id in a && !Builds(a[id], r.target)
    ensures result.Err? && result.error.NoArtifact? ==>
            && result.error.id in a && !Builds(a[result.error.id], r.target)
            && forall id :: id in a && Less(id, result.error.id) ==> Builds(a[id], r.target)
  {
    hide Matches, Preferred, Minimal, Completion, Unsolvable, RootsWellNamed, Records, Acyclic, DependencyGraph, Acceptable, Satisfies, ExactlyNeeded, Append, ClosesOnItself, SortedBy, Builds, Less;
    a := map[];
    if r.target == "" { return Err(NoTarget), a; }
    var constraints, bad := CollectRoots(r.roots);
    if bad.Some? { return Err(BadRoot(bad.value)), a; }
    var solved := Solve(h, s, constraints, map[]);
    if solved.None? { return Err(NoSolution), a; }
    var chosen := solved.value;
    a := chosen;
    var cycle := CheckCycles(chosen);
    if cycle.Some? { return Err(CycleFound(cycle.value)), a; }
    AcyclicSatisfies(s, r.roots, chosen);
    MinimalIsNeeded(s, r.roots, chosen);
    ByIdIsTotal();
    var roots := Sort(ById, r.roots);
    assert forall i, j :: 0 <= i < j < |roots| ==> AtMost(roots[i].id, roots[j].id) by { SortedById(roots); }
    ChoiceFacts(h, s, r.roots, chosen);
    var modules, missing := LockModules(h, chosen, r.target);
    if modules.None? { return Err(NoArtifact(missing)), a; }
    var lock := Lock(1, r.target, roots, modules.value);
    ResolvedIsAcceptable(h, s, r, chosen, lock);
    return Ok(lock), a;
  }

  lemma {:induction false} ChoiceFacts(h: Hashing, s: Store, roots: seq<Dependency>, a: Choice)
    requires Consistent(h, s) && Satisfies(s, roots, a)
    ensures forall id :: id in a ==> a[id].id == id && WellFormed(a[id].version) && ValidModuleID(id)
    ensures forall id, i :: id in a && 0 <= i < |a[id].dependencies| ==> a[id].dependencies[i].id in a
  {
    hide Matches, ValidModuleID, WellFormed;
    forall id | id in a ensures a[id].id == id && WellFormed(a[id].version) && ValidModuleID(id) {
      assert Available(s, id, a[id]) && ReleaseID(id, a[id].version) in s.manifests;
    }
  }

  /** Every requirement of a module on itself holds. */
  ghost predicate SelfRequirementsHold(a: Choice)
  {
    forall id, i :: id in a && 0 <= i < |a[id].dependencies| && a[id].dependencies[i].id == id ==>
      Matches(a[id].dependencies[i].requirement, a[id].version)
  }

  /** The solver's blind spot: its answers satisfy everything exactly if they
      satisfy the requirements of modules on themselves. */
  lemma {:induction false} SelfRequirementsExactly(s: Store, roots: seq<Dependency>, a: Choice)
    requires Completion(s, Append(map[], roots), map[], a)
    ensures Satisfies(s, roots, a) <==> SelfRequirementsHold(a)
  {
    hide Matches;
    var c := Append(map[], roots);
    AppendKeys(map[], roots);
    forall i | 0 <= i < |roots| ensures roots[i].id in a && Matches(roots[i].requirement, a[roots[i].id].version) {
      assert roots[i].id in c;
      AppendMeets(map[], roots, roots[i].id, a[roots[i].id].version);
    }
    if SelfRequirementsHold(a) {
      forall id, i | id in a && 0 <= i < |a[id].dependencies|
        ensures var d := a[id].dependencies[i]; d.id in a && Matches(d.requirement, a[d.id].version)
      {
        assert ModuleMet(s, a, id) && DependencyMet(a, id, a[id].dependencies[i]);
      }
    }
    forall id | id in a ensures Available(s, id, a[id]) { assert ModuleMet(s, a, id); }
  }

  /** The blind spot closed: without a cycle no module requires itself. */
  lemma {:induction false} AcyclicSatisfies(s: Store, roots: seq<Dependency>, a: Choice)
    requires Completion(s, Append(map[], roots), map[], a) && Acyclic(DependencyGraph(a))
    ensures Satisfies(s, roots, a)
  {
    hide Matches, Completion, Satisfies, Append, Acyclic, DependencyGraph;
    forall id, i | id in a && 0 <= i < |a[id].dependencies| ensures a[id].dependencies[i].id != id {
      NoSelfRequirement(a, id, i);
    }
    SelfRequirementsExactly(s, roots, a);
  }

  /** One release, of version v, which requires of itself to be of version w. */
  ghost function Narcissus(v: Version, w: Version): Manifest
  {
    Manifest("a", v, [Dependency("a", String(w))], [], "")
  }

  ghost function OnlyNarcissus(v: Version, w: Version): Store
  {
    Store(map["a" := [v]], map[ReleaseID("a", v) := Narcissus(v, w)], map[])
  }

  /** The blind spot hit: the solver has an answer, and every answer violates the
      requirement of the release on itself. */
  lemma {:induction false} SelfRequirementIgnored(h: Hashing, v: Version, w: Version)
    requires WellFormed(v) && WellFormed(w) && v != w
    ensures var s, roots := OnlyNarcissus(v, w), [Dependency("a", String(v))];
            && Consistent(h, s) && RootsWellNamed(roots) && !Unsolvable(s, Append(map[], roots), map[])
            && forall a: Choice :: Completion(s, Append(map[], roots), map[], a) ==> !Satisfies(s, roots, a)
  {
    hide Matches, String, WellFormed, ValidRequirement;
    var s, roots := OnlyNarcissus(v, w), [Dependency("a", String(v))];
    PrintedPins(v, v);
    PrintedPins(w, v);
    NarcissusAnswers(v, w);
    forall a: Choice | Completion(s, Append(map[], roots), map[], a) ensures !Satisfies(s, roots, a) {
      OnlyAnswer(v, w, a);
      SelfRequirementsExactly(s, roots, a);
      assert a["a"].dependencies[0].id == "a";
    }
  }

  lemma {:induction false} OneRoot(v: Version)
    ensures Append(map[], [Dependency("a", String(v))]) == map["a" := [String(v)]]
  {
    hide String;
    var d := Dependency("a", String(v));
    assert [d][..0] == [];
    assert Append(map[], []) == map[];
    assert [] + [String(v)] == [String(v)];
  }

  lemma {:induction false} NarcissusAnswers(v: Version, w: Version)
    requires Matches(String(v), v)
    ensures Completion(OnlyNarcissus(v, w), Append(map[], [Dependency("a", String(v))]), map[], map["a" := Narcissus(v, w)])
  {
    hide Matches, String, Append;
    OneRoot(v);
    assert ModuleMet(OnlyNarcissus(v, w), map["a" := Narcissus(v, w)], "a");
  }

  lemma {:induction false} OnlyAnswer(v: Version, w: Version, a: Choice)
    requires Completion(OnlyNarcissus(v, w), Append(map[], [Dependency("a", String(v))]), map[], a)
    ensures "a" in a && a["a"] == Narcissus(v, w)
  {
    hide Matches, String, Append;
    OneRoot(v);
    assert "a" in a && ModuleMet(OnlyNarcissus(v, w), a, "a");
  }

  lemma {:induction false} NoSelfRequirement(a: Choice, id: string, i: nat)
    requires Acyclic(DependencyGraph(a)) && id in a && i < |a[id].dependencies|
    ensures a[id].dependencies[i].id != id
  {
    var d := a[id].dependencies[i];
    assert d.id in Targets(a[id].dependencies);
    assert !Cycle(DependencyGraph(a), [id, d.id]);
    assert Edge(DependencyGraph(a), id, d.id);
  }

  /** The chosen set is what the roots reach, no more and no less. */
  lemma {:induction false} MinimalIsNeeded(s: Store, roots: seq<Dependency>, a: Choice)
    requires Minimal(Append(map[], roots), map[], a) && Satisfies(s, roots, a)
    ensures ExactlyNeeded(a, roots)
  {
    hide Matches, DependencyGraph, Needed, Satisfies, Closed, Append;
    var t := set x | x in a && Needed(a, roots, x);
    NeededIsClosed(s, roots, a, t);
    forall x | Needed(a, roots, x) ensures x in a { NeededIsChosen(s, roots, a, x); }
  }

  lemma {:induction false} NeededIsClosed(s: Store, roots: seq<Dependency>, a: Choice, t: set<string>)
    requires Satisfies(s, roots, a) && t == set x | x in a && Needed(a, roots, x)
    ensures Closed(Append(map[], roots), map[], a, t)
  {
    hide Matches, DependencyGraph, Reaches;
    var g := DependencyGraph(a);
    GraphFacts(a);
    AppendKeys(map[], roots);
    forall i | 0 <= i < |roots| ensures roots[i].id in t { ReachesStep(g, roots[i].id, roots[i].id); }
    forall id, k | id in t && 0 <= k < |a[id].dependencies| ensures a[id].dependencies[k].id in t { NeededToo(s, roots, a, id, k); }
  }

  /** What a needed module requires is needed. */
  lemma {:induction false} NeededToo(s: Store, roots: seq<Dependency>, a: Choice, id: string, k: nat)
    requires Satisfies(s, roots, a) && id in a && Needed(a, roots, id) && k < |a[id].dependencies|
    ensures a[id].dependencies[k].id in a && Needed(a, roots, a[id].dependencies[k].id)
  {
    hide Matches, DependencyGraph, Reaches;
    var g := DependencyGraph(a);
    GraphFacts(a);
    var d := a[id].dependencies[k].id;
    assert d in Targets(a[id].dependencies) && Edge(g, id, d);
    var i :| 0 <= i < |roots| && Reaches(g, roots[i].id, id);
    ReachesStep(g, id, d);
    ReachesTransitive(g, roots[i].id, id, d);
  }

  lemma {:induction false} NeededIsChosen(s: Store, roots: seq<Dependency>, a: Choice, x: string)
    requires Satisfies(s, roots, a) && Needed(a, roots, x)
    ensures x in a
  {
    hide Matches, DependencyGraph;
    var g := DependencyGraph(a);
    GraphFacts(a);
    forall id | id in a ensures g[id] <= a.Keys {}
    var i :| 0 <= i < |roots| && Reaches(g, roots[i].id, x);
    var p :| WalkFromTo(g, p, roots[i].id, x);
    ClosedHoldsWalk(g, a.Keys, p);
  }

  // ------------------------------------------------------------- verification

  /** The entries by identifier. */
  function Locked(modules: seq<LockedModule>): map<string, LockedModule>
  {
    if modules == [] then map[]
    else Locked(modules[..|modules| - 1])[modules[|modules| - 1].id := modules[|modules| - 1]]
  }

  predicate NamedInOrder(modules: seq<LockedModule>)
  {
    && (forall i :: 0 <= i < |modules| ==> ValidModuleID(modules[i].id))
    && (forall i :: 0 < i < |modules| ==> Less(modules[i - 1].id, modules[i].id))
  }

  predicate RootHolds(locked: map<string, LockedModule>, root: Dependency)
  {
    && root.id in locked && ValidRequirement(root.requirement)
    && var v := Parse(locked[root.id].version); v.Some? && Matches(root.requirement, v.value)
  }

  predicate DependencyHolds(locked: map<string, LockedModule>, d: Dependency, got: LockedDependency)
  {
    && d.id in locked && got == LockedDependency(d.id, locked[d.id].version)
    && var v := Parse(locked[d.id].version); v.Some? && Matches(d.requirement, v.value)
  }

  predicate ArtifactHolds(h: Hashing, s: Store, m: Manifest, target: string, text: string)
  {
    var d := ParseDigest(text);
    && d.Some?
    && (exists k :: 0 <= k < |m.artifacts| && m.artifacts[k] == Artifact(target, d.value))
    && d.value in s.blobs && h.sum(s.blobs[d.value]) == d.value
  }

  predicate ModuleHolds(h: Hashing, s: Store, locked: map<string, LockedModule>, target: string, lm: LockedModule)
  {
    var v := Parse(lm.version);
    && v.Some? && ReleaseID(lm.id, v.value) in s.manifests
    && var m := s.manifests[ReleaseID(lm.id, v.value)];
       && lm.manifestDigest == ManifestDigest(h, m)
       && |lm.dependencies| == |m.dependencies|
       && (forall i :: 0 <= i < |m.dependencies| ==> DependencyHolds(locked, m.dependencies[i], lm.dependencies[i]))
       && ArtifactHolds(h, s, m, target, lm.artifactDigest)
  }

  /** A lock that the store backs entry by entry. */
  predicate Acceptable(h: Hashing, s: Store, l: Lock)
  {
    && l.schema == 1
    && NamedInOrder(l.modules)
    && (forall i :: 0 <= i < |l.roots| ==> RootHolds(Locked(l.modules), l.roots[i]))
    && (forall i :: 0 <= i < |l.modules| ==> ModuleHolds(h, s, Locked(l.modules), l.target, l.modules[i]))
  }

  method Verify(h: Hashing, s: Store, l: Lock) returns (ok: bool)
    ensures ok <==> Acceptable(h, s, l)
  {
    hide Matches, ValidModuleID, ModuleHolds, ValidRequirement, Parse;
    if l.schema != 1 { return false; }
    var locked: map<string, LockedModule> := map[];
    for i := 0 to |l.modules|
      invariant locked == Locked(l.modules[..i])
      invariant NamedInOrder(l.modules[..i])
    {
      var lm := l.modules[i];
      assert l.modules[..i + 1][..i] == l.modules[..i];
      if !ValidModuleID(lm.id) { return false; }
      if i > 0 && !Less(l.modules[i - 1].id, lm.id) { return false; }
      if lm.id in locked {
        DuplicateBreaksOrder(l.modules[..i], lm);
        return false;
      }
      locked := locked[lm.id := lm];
    }
    assert l.modules[..|l.modules|] == l.modules;
    for i := 0 to |l.roots|
      invariant forall j :: 0 <= j < i ==> RootHolds(locked, l.roots[j])
    {
      var root := l.roots[i];
      if root.id !in locked { return false; }
      var v := Parse(locked[root.id].version);
      if v.None? || !ValidRequirement(root.requirement) || !Matches(root.requirement, v.value) { return false; }
    }
    for i := 0 to |l.modules|
      invariant forall j :: 0 <= j < i ==> ModuleHolds(h, s, locked, l.target, l.modules[j])
    {
      ok := VerifyModule(h, s, locked, l.target, l.modules[i]);
      if !ok { return; }
    }
    return true;
  }

  /** The checks on one entry, in the source's order. */
  method VerifyModule(h: Hashing, s: Store, locked: map<string, LockedModule>, target: string, lm: LockedModule) returns (ok: bool)
    ensures ok <==> ModuleHolds(h, s, locked, target, lm)
  {
    hide Matches, Parse, ManifestDigest, ParseDigest;
    var v := Parse(lm.version);
    if v.None? { return false; }
    if ReleaseID(lm.id, v.value) !in s.manifests { return false; }
    var m := s.manifests[ReleaseID(lm.id, v.value)];
    if lm.manifestDigest != ManifestDigest(h, m) { return false; }
    if |lm.dependencies| != |m.dependencies| { return false; }
    for i := 0 to |m.dependencies|
      invariant forall j :: 0 <= j < i ==> DependencyHolds(locked, m.dependencies[j], lm.dependencies[j])
    {
      var dep, got := m.dependencies[i], lm.dependencies[i];
      if dep.id !in locked || got.id != dep.id || got.version != locked[dep.id].version { return false; }
      var child := Parse(locked[dep.id].version);
      if child.None? || !Matches(dep.requirement, child.value) { return false; }
    }
    var d := ParseDigest(lm.artifactDigest);
    if d.None? { return false; }
    var matched := false;
    for k := 0 to |m.artifacts|
      invariant matched <==> exists j :: 0 <= j < k && m.artifacts[j] == Artifact(target, d.value)
    {
      if m.artifacts[k].target == target && m.artifacts[k].digest == d.value { matched := true; break; }
    }
    if !matched { return false; }
    return d.value in s.blobs && h.sum(s.blobs[d.value]) == d.value;
  }

  lemma {:induction false} OrderIsGlobal(modules: seq<LockedModule>, i: nat, j: nat)
    requires NamedInOrder(modules) && i < j < |modules|
    ensures Less(modules[i].id, modules[j].id)
  {
    hide ValidModuleID;
    if i + 1 < j {
      OrderIsGlobal(modules, i, j - 1);
      LessTransitive(modules[i].id, modules[j - 1].id, modules[j].id);
    }
  }

  lemma {:induction false} LockedKeys(modules: seq<LockedModule>)
    ensures forall id :: id in Locked(modules) <==> exists i :: 0 <= i < |modules| && modules[i].id == id
    ensures forall id :: id in Locked(modules) ==> Locked(modules)[id] in modules && Locked(modules)[id].id == id
  {
    if modules != [] {
      var n := |modules| - 1;
      LockedKeys(modules[..n]);
      forall id ensures id in Locked(modules) <==> exists i :: 0 <= i < |modules| && modules[i].id == id {
        if id in Locked(modules[..n]) {
          var i :| 0 <= i < n && modules[..n][i].id == id;
          assert modules[i].id == id;
        }
        if i :| 0 <= i < |modules| && modules[i].id == id {
          if i < n { assert modules[..n][i].id == id; }
        }
      }
    }
  }

  lemma {:induction false} DuplicateBreaksOrder(modules: seq<LockedModule>, lm: LockedModule)
    requires NamedInOrder(modules) && lm.id in Locked(modules)
    ensures modules != [] && !Less(modules[|modules| - 1].id, lm.id)
  {
    hide ValidModuleID;
    LockedKeys(modules);
    var i :| 0 <= i < |modules| && modules[i].id == lm.id;
    var n := |modules| - 1;
    if i < n {
      OrderIsGlobal(modules, i, n);
      LessAsymmetric(modules[i].id, modules[n].id);
    } else {
      LessIrreflexive(lm.id);
    }
  }

  /** Strictly ordered entries are found under their own names. */
  lemma {:induction false} LockedFinds(modules: seq<LockedModule>, i: nat)
    requires forall i, j :: 0 <= i < j < |modules| ==> Less(modules[i].id, modules[j].id)
    requires i < |modules|
    ensures modules[i].id in Locked(modules) && Locked(modules)[modules[i].id] == modules[i]
  {
    LockedKeys(modules);
    assert modules[i].id in Locked(modules);
    var lm := Locked(modules)[modules[i].id];
    var j :| 0 <= j < |modules| && modules[j] == lm;
    if i < j { LessIrreflexive(modules[i].id); }
    if j < i { LessIrreflexive(modules[i].id); }
  }

  /** Producer and checker agree: what Resolve writes, Verify accepts. */
  lemma {:induction false} ResolvedIsAcceptable(h: Hashing, s: Store, r: Request, a: Choice, l: Lock)
    requires Consistent(h, s) && RootsWellNamed(r.roots) && Satisfies(s, r.roots, a)
    requires l.schema == 1 && l.target == r.target && Records(h, a, r.target, l.modules)
    requires multiset(l.roots) == multiset(r.roots)
    ensures Acceptable(h, s, l)
  {
    hide Matches, ValidModuleID, Parse, String, WellFormed, ValidRequirement;
    ChoiceFacts(h, s, r.roots, a);
    var locked := Locked(l.modules);
    forall id | id in a ensures id in locked && Parse(locked[id].version) == Some(a[id].version) {
      var i :| 0 <= i < |l.modules| && l.modules[i].id == id;
      LockedFinds(l.modules, i);
      assert RecordsOne(h, a, r.target, l.modules[i]);
      RoundTrip(a[id].version);
    }
    forall i | 0 <= i < |l.roots| ensures RootHolds(locked, l.roots[i]) {
      PermutationFacts(l.roots, r.roots);
      assert l.roots[i] in r.roots;
    }
    forall i | 0 <= i < |l.modules| ensures ModuleHolds(h, s, locked, l.target, l.modules[i]) {
      assert l.modules[i].id in a;
      RecordedHolds(h, s, r.roots, a, l.target, l.modules, i);
    }
    forall i | 0 <= i < |l.modules| ensures ValidModuleID(l.modules[i].id) { assert l.modules[i].id in a; }
  }

  lemma {:induction false} RecordedHolds(h: Hashing, s: Store, roots: seq<Dependency>, a: Choice, target: string, modules: seq<LockedModule>, i: nat)
    requires Consistent(h, s) && Satisfies(s, roots, a) && Records(h, a, target, modules)
    requires i < |modules| && modules[i].id in a
    ensures ModuleHolds(h, s, Locked(modules), target, modules[i])
  {
    hide Matches, ValidModuleID, Parse, String, WellFormed, ParseDigest, DigestText;
    ChoiceFacts(h, s, roots, a);
    var lm := modules[i];
    var m := a[lm.id];
    assert RecordsOne(h, a, target, lm) && Available(s, lm.id, m);
    RoundTrip(m.version);
    forall k | 0 <= k < |m.dependencies| ensures DependencyHolds(Locked(modules), m.dependencies[k], lm.dependencies[k]) {
      var d := m.dependencies[k];
      var j :| 0 <= j < |modules| && modules[j].id == d.id;
      LockedFinds(modules, j);
      assert RecordsOne(h, a, target, modules[j]);
      RoundTrip(a[d.id].version);
    }
    var k: nat :| FirstFor(m, target, k) && lm.artifactDigest == DigestText(m.artifacts[k].digest);
    DigestRoundTrip(m.artifacts[k].digest);
    assert m.artifacts[k] in m.artifacts && m.artifacts[k] == Artifact(target, m.artifacts[k].digest);
  }

  /** An accepted lock has the one known schema, lists each module once, in order,
      under a valid identifier, and names artifacts that were built for its target. */
  lemma {:induction false} AcceptedIsCanonical(h: Hashing, s: Store, l: Lock, i: nat)
    requires Acceptable(h, s, l) && i < |l.modules|
    ensures l.schema == 1 && ValidModuleID(l.modules[i].id)
    ensures forall j :: i < j < |l.modules| ==> Less(l.modules[i].id, l.modules[j].id)
    ensures var v, d := Parse(l.modules[i].version), ParseDigest(l.modules[i].artifactDigest);
            && v.Some? && d.Some? && ReleaseID(l.modules[i].id, v.value) in s.manifests
            && var m := s.manifests[ReleaseID(l.modules[i].id, v.value)];
               && (exists k :: 0 <= k < |m.artifacts| && m.artifacts[k].target == l.target && m.artifacts[k].digest == d.value)
               && |l.modules[i].dependencies| == |m.dependencies|
               && forall k :: 0 <= k < |m.dependencies| ==> l.modules[i].dependencies[k].id == m.dependencies[k].id
  {
    hide ValidModuleID, Matches, Parse, ManifestDigest, RootHolds, ParseDigest, Less;
    forall j | i < j < |l.modules| ensures Less(l.modules[i].id, l.modules[j].id) { OrderIsGlobal(l.modules, i, j); }
    var locked, lm := Locked(l.modules), l.modules[i];
    assert ModuleHolds(h, s, locked, l.target, lm);
    var m := s.manifests[ReleaseID(lm.id, Parse(lm.version).value)];
    forall k | 0 <= k < |m.dependencies| ensures lm.dependencies[k].id == m.dependencies[k].id {
      assert DependencyHolds(locked, m.dependencies[k], lm.dependencies[k]);
    }
  }

  /** In an accepted lock, the dependencies of an entry are listed with the very
      texts of the versions that their own entries lock. */
  lemma {:induction false} AcceptedNamesVersions(h: Hashing, s: Store, l: Lock, i: nat, k: nat) returns (j: nat)
    requires Acceptable(h, s, l) && i < |l.modules| && k < |l.modules[i].dependencies|
    ensures j < |l.modules| && l.modules[i].dependencies[k] == LockedDependency(l.modules[j].id, l.modules[j].version)
  {
    hide ValidModuleID, Matches, Parse, ManifestDigest, ArtifactHolds, RootHolds;
    var locked, lm := Locked(l.modules), l.modules[i];
    assert ModuleHolds(h, s, locked, l.target, lm);
    var d := s.manifests[ReleaseID(lm.id, Parse(lm.version).value)].dependencies[k];
    assert DependencyHolds(locked, d, lm.dependencies[k]);
    LockedKeys(l.modules);
    j :| 0 <= j < |l.modules| && l.modules[j] == locked[d.id];
  }

  /** The manifests an accepted lock stands for. */
  function LockedChoice(s: Store, l: Lock): Choice
  {
    map id | id in Locked(l.modules) && Parse(Locked(l.modules)[id].version).Some? &&
             ReleaseID(id, Parse(Locked(l.modules)[id].version).value) in s.manifests ::
      s.manifests[ReleaseID(id, Parse(Locked(l.modules)[id].version).value)]
  }

  /** The other direction: an accepted lock is a solution of its roots, so the
      solver finds one too. */
  lemma {:induction false} AcceptedIsSolution(h: Hashing, s: Store, l: Lock)
    requires Consistent(h, s) && Acceptable(h, s, l)
    ensures Satisfies(s, l.roots, LockedChoice(s, l))
    ensures LockedChoice(s, l).Keys == Locked(l.modules).Keys
    ensures !Unsolvable(s, Append(map[], l.roots), map[])
  {
    hide Matches, Parse, Acceptable, Consistent, LockedServes, Locked, LockedChoice, Append, Completion;
    var a := LockedChoice(s, l);
    forall id ensures id in a <==> id in Locked(l.modules) {
      if id in Locked(l.modules) { AcceptedServes(h, s, l, id); }
      LockedChoiceKeys(s, l);
    }
    forall id, i | id in a && 0 <= i < |a[id].dependencies|
      ensures var d := a[id].dependencies[i]; d.id in a && Matches(d.requirement, a[d.id].version)
    {
      AcceptedServes(h, s, l, id);
    }
    forall id | id in a ensures Available(s, id, a[id]) { AcceptedServes(h, s, l, id); }
    forall i | 0 <= i < |l.roots| ensures l.roots[i].id in a && Matches(l.roots[i].requirement, a[l.roots[i].id].version) {
      AcceptedRoot(h, s, l, i);
    }
    assert Satisfies(s, l.roots, a);
    SatisfiesCompletes(s, l.roots, a);
  }

  lemma {:induction false} LockedChoiceKeys(s: Store, l: Lock)
    ensures LockedChoice(s, l).Keys <= Locked(l.modules).Keys
  {
    hide Parse;
  }

  lemma {:induction false} AcceptedRoot(h: Hashing, s: Store, l: Lock, i: nat)
    requires Consistent(h, s) && Acceptable(h, s, l) && i < |l.roots|
    ensures var a := LockedChoice(s, l);
            l.roots[i].id in a && Matches(l.roots[i].requirement, a[l.roots[i].id].version)
  {
    hide Matches, Parse, ValidModuleID, ValidRequirement, ModuleHolds, LockedChoice;
    assert RootHolds(Locked(l.modules), l.roots[i]);
    AcceptedModule(h, s, l, l.roots[i].id);
  }

  lemma {:induction false} AcceptedServes(h: Hashing, s: Store, l: Lock, id: string)
    requires Consistent(h, s) && Acceptable(h, s, l) && id in Locked(l.modules)
    ensures id in LockedChoice(s, l) && Available(s, id, LockedChoice(s, l)[id])
    ensures forall i :: 0 <= i < |LockedChoice(s, l)[id].dependencies| ==>
              var d := LockedChoice(s, l)[id].dependencies[i];
              d.id in LockedChoice(s, l) && Matches(d.requirement, LockedChoice(s, l)[d.id].version)
  {
    hide Matches, Parse, Acceptable, Consistent, LockedChoice, Locked;
    AcceptedModule(h, s, l, id);
    var a := LockedChoice(s, l);
    forall i | 0 <= i < |a[id].dependencies|
      ensures var d := a[id].dependencies[i]; d.id in a && Matches(d.requirement, a[d.id].version)
    {
      AcceptedModule(h, s, l, a[id].dependencies[i].id);
    }
  }

  ghost predicate LockedServes(s: Store, l: Lock, id: string)
    requires id in Locked(l.modules)
  {
    var a := LockedChoice(s, l);
    id in a && Parse(Locked(l.modules)[id].version) == Some(a[id].version) && Available(s, id, a[id])
  }

  lemma {:induction false} AcceptedModule(h: Hashing, s: Store, l: Lock, id: string)
    requires Consistent(h, s) && Acceptable(h, s, l) && id in Locked(l.modules)
    ensures LockedServes(s, l, id)
    ensures var m := LockedChoice(s, l)[id];
            forall i :: 0 <= i < |m.dependencies| ==>
              var d := m.dependencies[i];
              && d.id in Locked(l.modules)
              && var v := Parse(Locked(l.modules)[d.id].version); v.Some? && Matches(d.requirement, v.value)
  {
    hide Matches, ValidModuleID, Parse, ArtifactHolds, ManifestDigest, ValidRequirement;
    var locked := Locked(l.modules);
    LockedKeys(l.modules);
    var k :| 0 <= k < |l.modules| && l.modules[k] == locked[id];
    assert ModuleHolds(h, s, locked, l.target, l.modules[k]);
    var m := LockedChoice(s, l)[id];
    forall i | 0 <= i < |m.dependencies|
      ensures var d := m.dependencies[i];
              d.id in locked && var v := Parse(locked[d.id].version); v.Some? && Matches(d.requirement, v.value)
    {
      assert DependencyHolds(locked, m.dependencies[i], locked[id].dependencies[i]);
    }
  }

  lemma {:induction false} SatisfiesCompletes(s: Store, roots: seq<Dependency>, a: Choice)
    requires Satisfies(s, roots, a)
    ensures Completion(s, Append(map[], roots), map[], a)
  {
    hide Matches;
    var c := Append(map[], roots);
    AppendKeys(map[], roots);
    forall id | id in c ensures id in a && Meets(c[id], a[id].version) {
      var i :| 0 <= i < |roots| && roots[i].id == id;
      AppendMeets(map[], roots, id, a[id].version);
    }
  }

  /** Two inputs that differ and have one digest. */
  ghost predicate Collide(h: Hashing, x: seq<byte>, y: seq<byte>) { x != y && h.sum(x) == h.sum(y) }

  /** A lock pins what it locks: any two stores that it is accepted against serve
      the same canonical manifest and the same artifact for every entry, or else
      what they serve there is a collision of the digest. */
  lemma {:induction false} LockPinsContent(h: Hashing, s: Store, t: Store, l: Lock, i: nat)
    requires Acceptable(h, s, l) && Acceptable(h, t, l) && i < |l.modules|
    ensures var v := Parse(l.modules[i].version);
            && v.Some? && ReleaseID(l.modules[i].id, v.value) in s.manifests && ReleaseID(l.modules[i].id, v.value) in t.manifests
            && var x, y := h.canonical(s.manifests[ReleaseID(l.modules[i].id, v.value)]), h.canonical(t.manifests[ReleaseID(l.modules[i].id, v.value)]);
               x == y || Collide(h, x, y)
    ensures var d := ParseDigest(l.modules[i].artifactDigest);
            && d.Some? && d.value in s.blobs && d.value in t.blobs
            && (s.blobs[d.value] == t.blobs[d.value] || Collide(h, s.blobs[d.value], t.blobs[d.value]))
  {
    hide Matches, ValidModuleID, Parse, ParseDigest, ValidRequirement, DigestText, NamedInOrder, Locked;
    var lm := l.modules[i];
    assert ModuleHolds(h, s, Locked(l.modules), l.target, lm) && ModuleHolds(h, t, Locked(l.modules), l.target, lm);
    var r := ReleaseID(lm.id, Parse(lm.version).value);
    SameSum(h, s.manifests[r], t.manifests[r]);
  }

  /** One text of a digest is one digest. */
  lemma {:induction false} SameSum(h: Hashing, m: Manifest, n: Manifest)
    requires ManifestDigest(h, m) == ManifestDigest(h, n)
    ensures h.sum(h.canonical(m)) == h.sum(h.canonical(n))
  {
    DigestRoundTrip(h.sum(h.canonical(m)));
    DigestRoundTrip(h.sum(h.canonical(n)));
  }
}
