/** The applications of a host, checked and put in start order. */
module HostedApps {
  import opened Finite
  import opened Lexicographic
  import opened Graphs
  import opened Text
  import opened AppOrder

  datatype Identity = Identity(application: string, instance: string)

  datatype App = App(identity: Identity, manifestPath: string, dependsOn: seq<string>)

  datatype Error =
    | Invalid(index: nat)
    | Duplicate(identity: Identity)
    | UnknownDependency(application: string, dependency: string)
    | Inconsistent(application: string)
    | DependencyCycle

  datatype Result = Ok(apps: seq<App>) | Err(error: Error)

  // ------------------------------------------------------------ specification

  predicate ValidApp(a: App)
  {
    TrimSpace(a.identity.application) != "" && TrimSpace(a.identity.instance) != "" && TrimSpace(a.manifestPath) != ""
  }

  /** An entry is valid exactly if its three names hold more than white space. */
  lemma {:induction false} ValidAppExactly(a: App)
    ensures ValidApp(a) <==> !Blank(a.identity.application) && !Blank(a.identity.instance) && !Blank(a.manifestPath)
  {
    hide TrimSpace, Blank;
    BlankExactly(a.identity.application);
    BlankExactly(a.identity.instance);
    BlankExactly(a.manifestPath);
  }

  ghost predicate Wellformed(apps: seq<App>)
  {
    && (forall i :: 0 <= i < |apps| ==> ValidApp(apps[i]))
    && (forall i, j :: 0 <= i < j < |apps| ==> apps[i].identity != apps[j].identity)
  }

  ghost function Applications(apps: seq<App>): set<string> { set a | a in apps :: a.identity.application }

  /** The instances of an application, in input order. */
  ghost function Instances(apps: seq<App>, id: string): seq<App>
  {
    if apps == [] then []
    else
      var last := apps[|apps| - 1];
      Instances(apps[..|apps| - 1], id) + if last.identity.application == id then [last] else []
  }

  /** What the host takes for equal sets of strings. */
  predicate SameStringSet(left: seq<string>, right: seq<string>)
  {
    |left| == |right| && forall x :: x in right ==> x in left
  }

  /** An application whose dependencies exist and whose instances agree on them. */
  ghost predicate Agreed(known: set<string>, instances: seq<App>)
  {
    instances != [] && Elements(instances[0].dependsOn) <= known &&
    forall i :: 1 <= i < |instances| ==> SameStringSet(instances[0].dependsOn, instances[i].dependsOn)
  }

  predicate NotLater(a: App, b: App) { AtMost(a.identity.instance, b.identity.instance) }

  /** The instances of every application, by instance ID. */
  ghost predicate Grouped(apps: seq<App>, groups: map<string, seq<App>>)
  {
    && groups.Keys == Applications(apps)
    && forall id :: id in groups ==> multiset(groups[id]) == multiset(Instances(apps, id)) && SortedBy(NotLater, groups[id]) && groups[id] != []
  }

  /** The graph the order is made from: the dependencies of the first instance by ID. */
  function LeadDependencies(groups: map<string, seq<App>>): (m: map<string, seq<string>>)
    ensures m.Keys == groups.Keys
  {
    map id | id in groups :: if groups[id] == [] then [] else groups[id][0].dependsOn
  }

  ghost function Concat(groups: map<string, seq<App>>, order: seq<string>): seq<App>
  {
    if order == [] then []
    else Concat(groups, order[..|order| - 1]) + Group(groups, order[|order| - 1])
  }

  function Group(groups: map<string, seq<App>>, id: string): seq<App> { if id in groups then groups[id] else [] }

  // ------------------------------------------------------------ the string-set test

  /** How often entries of the list are repeated. */
  ghost function Repetitions(list: seq<string>): int { |list| - |Elements(list)| }

  /** What the test accepts is the same set exactly if both lists repeat equally
      often, and it accepts the same set exactly then. */
  lemma {:induction false} SameStringSetExactly(left: seq<string>, right: seq<string>)
    ensures SameStringSet(left, right) ==> (Elements(left) == Elements(right) <==> Repetitions(left) == Repetitions(right))
    ensures Elements(left) == Elements(right) ==> (SameStringSet(left, right) <==> Repetitions(left) == Repetitions(right))
  {
    if SameStringSet(left, right) {
      assert Elements(right) <= Elements(left);
      if |Elements(left)| == |Elements(right)| { SubsetSize(Elements(right), Elements(left)); }
    }
    if Elements(left) == Elements(right) {
      forall x | x in right ensures x in left { assert x in Elements(right); }
    }
  }

  /** What is wrong with the list when the error is reported. Validation stops at
      the first bad entry; which of several bad applications is reported is left
      to the order of a Go map. */
  ghost predicate Cause(apps: seq<App>, e: Error)
  {
    match e
    case Invalid(i) => i < |apps| && !ValidApp(apps[i]) && Wellformed(apps[..i])
    case Duplicate(identity) => exists n :: 0 <= n < |apps| && Wellformed(apps[..n]) && Repeats(apps, n) && apps[n].identity == identity
    case UnknownDependency(id, d) => Wellformed(apps) && id in Applications(apps) && Unknown(Applications(apps), Instances(apps, id), d)
    case Inconsistent(id) => Wellformed(apps) && id in Applications(apps) && Disagree(Applications(apps), Instances(apps, id))
    case DependencyCycle => Wellformed(apps) && AllAgreed(apps)
  }

  /** A valid entry with the identity of an earlier one. */
  ghost predicate Repeats(apps: seq<App>, n: nat)
    requires n < |apps|
  {
    ValidApp(apps[n]) && exists i :: 0 <= i < n && apps[i].identity == apps[n].identity
  }

  ghost predicate Unknown(known: set<string>, instances: seq<App>, d: string)
  {
    instances != [] && d in instances[0].dependsOn && d !in known
  }

  ghost predicate Disagree(known: set<string>, instances: seq<App>)
  {
    instances != [] && Elements(instances[0].dependsOn) <= known &&
    exists i :: 1 <= i < |instances| && !SameStringSet(instances[0].dependsOn, instances[i].dependsOn)
  }

  ghost predicate AllAgreed(apps: seq<App>)
  {
    forall id :: id in Applications(apps) ==> Agreed(Applications(apps), Instances(apps, id))
  }

  // ------------------------------------------------------------ the algorithm

  /** The first n applications are sound; they are indexed by application. */
  ghost predicate Indexing(apps: seq<App>, n: nat, seen: set<Identity>, index: map<string, seq<App>>)
    requires n <= |apps|
  {
    && Wellformed(apps[..n]) && seen == (set a | a in apps[..n] :: a.identity)
    && index.Keys == Applications(apps[..n]) && forall id :: id in index ==> index[id] == Instances(apps[..n], id)
  }

  lemma {:induction false} IndexingNone(apps: seq<App>)
    ensures Indexing(apps, 0, {}, map[])
  {
  }

  lemma {:induction false} WellformedStep(apps: seq<App>, n: nat, seen: set<Identity>)
    requires n < |apps| && Wellformed(apps[..n]) && seen == (set a | a in apps[..n] :: a.identity)
    ensures Wellformed(apps[..n + 1]) <==> ValidApp(apps[n]) && apps[n].identity !in seen
    ensures Wellformed(apps) ==> Wellformed(apps[..n + 1])
    ensures (set a | a in apps[..n + 1] :: a.identity) == seen + {apps[n].identity}
  {
    hide ValidApp;
    var front, last := apps[..n], apps[n];
    assert apps[..n + 1] == front + [last];
    assert last in front + [last];
    if last.identity in seen {
      var a :| a in front && a.identity == last.identity;
      var i :| 0 <= i < n && front[i] == a;
      assert (front + [last])[i].identity == (front + [last])[n].identity;
    }
  }

  lemma {:induction false} IndexStep(apps: seq<App>, n: nat, index: map<string, seq<App>>)
    requires n < |apps| && index.Keys == Applications(apps[..n]) && forall id :: id in index ==> index[id] == Instances(apps[..n], id)
    ensures var a := apps[n];
            var more := index[a.identity.application := Group(index, a.identity.application) + [a]];
            more.Keys == Applications(apps[..n + 1]) && forall id :: id in more ==> more[id] == Instances(apps[..n + 1], id)
  {
    hide Instances, Applications;
    var last := apps[n].identity.application;
    ApplicationsStep(apps, n);
    forall id | id in index.Keys + {last} ensures Instances(apps[..n + 1], id) == if id == last then Group(index, last) + [apps[n]] else index[id] {
      InstancesStep(apps, n, id);
      if id !in index { NoInstances(apps[..n], id); }
    }
  }

  lemma {:induction false} ApplicationsStep(apps: seq<App>, n: nat)
    requires n < |apps|
    ensures Applications(apps[..n + 1]) == Applications(apps[..n]) + {apps[n].identity.application}
  {
    assert apps[..n + 1] == apps[..n] + [apps[n]];
    assert apps[n] in apps[..n + 1];
  }

  lemma {:induction false} InstancesStep(apps: seq<App>, n: nat, id: string)
    requires n < |apps|
    ensures Instances(apps[..n + 1], id) == Instances(apps[..n], id) + if apps[n].identity.application == id then [apps[n]] else []
  {
    assert apps[..n + 1][..n] == apps[..n];
  }

  lemma {:induction false} NoInstances(apps: seq<App>, id: string)
    requires id !in Applications(apps)
    ensures Instances(apps, id) == []
  {
    if apps != [] {
      var n := |apps| - 1;
      assert apps[n] in apps;
      assert Applications(apps[..n]) <= Applications(apps);
      NoInstances(apps[..n], id);
    }
  }

  lemma {:induction false} HasInstances(apps: seq<App>, id: string)
    requires id in Applications(apps)
    ensures Instances(apps, id) != []
  {
    var n := |apps| - 1;
    var a :| a in apps && a.identity.application == id;
    if apps[n].identity.application != id {
      assert a in apps[..n];
      HasInstances(apps[..n], id);
    }
  }

  lemma {:induction false} SeenBefore(apps: seq<App>, n: nat)
    requires n < |apps| && ValidApp(apps[n]) && apps[n].identity in (set a | a in apps[..n] :: a.identity)
    ensures Repeats(apps, n)
  {
    var a :| a in apps[..n] && a.identity == apps[n].identity;
    var i :| 0 <= i < n && apps[..n][i] == a;
    assert apps[i] == a;
  }

  method IndexApps(apps: seq<App>) returns (err: Option<Error>, index: map<string, seq<App>>)
    ensures err.None? <==> Wellformed(apps)
    ensures err.None? ==> index.Keys == Applications(apps) && forall id :: id in index ==> index[id] == Instances(apps, id)
    ensures err.Some? ==> (err.value.Invalid? || err.value.Duplicate?) && Cause(apps, err.value)
  {
    hide Wellformed, ValidApp, Applications, Instances, Group;
    index := map[];
    var seen: set<Identity> := {};
    IndexingNone(apps);
    for i := 0 to |apps|
      invariant Indexing(apps, i, seen, index)
    {
      WellformedStep(apps, i, seen);
      IndexStep(apps, i, index);
      var a := apps[i];
      if !ValidApp(a) { return Some(Invalid(i)), index; }
      if a.identity in seen {
        SeenBefore(apps, i);
        return Some(Duplicate(a.identity)), index;
      }
      seen := seen + {a.identity};
      index := index[a.identity.application := Group(index, a.identity.application) + [a]];
    }
    assert apps[..|apps|] == apps;
    return None, index;
  }

  /** One application: its dependencies exist, its instances agree; then they are sorted. */
  method CheckApplication(known: set<string>, id: string, instances: seq<App>) returns (err: Option<Error>, sorted: seq<App>)
    requires instances != []
    ensures err.None? <==> Agreed(known, instances)
    ensures err.None? ==> multiset(sorted) == multiset(instances) && SortedBy(NotLater, sorted) && sorted != []
    ensures err.Some? ==>
      || (err.value.UnknownDependency? && err.value.application == id && Unknown(known, instances, err.value.dependency))
      || (err.value.Inconsistent? && err.value.application == id && Disagree(known, instances))
  {
    hide SameStringSet, NotLater;
    sorted := [];
    var first := instances[0].dependsOn;
    for i := 0 to |first|
      invariant forall j :: 0 <= j < i ==> first[j] in known
    {
      if first[i] !in known {
        assert first[i] in Elements(first);
        return Some(UnknownDependency(id, first[i])), sorted;
      }
    }
    for i := 1 to |instances|
      invariant forall j :: 1 <= j < i ==> SameStringSet(first, instances[j].dependsOn)
    {
      if !SameStringSet(first, instances[i].dependsOn) { return Some(Inconsistent(id)), sorted; }
    }
    NotLaterIsTotal();
    sorted := Sort(NotLater, instances);
    PermutationFacts(instances, sorted);
    return None, sorted;
  }

  lemma {:induction false} NotLaterIsTotal()
    ensures TotalPreorder(NotLater)
  {
    AtMostIsTotal();
  }

  /** All applications, in the arbitrary order of a Go map. */
  method CheckApplications(ghost apps: seq<App>, index: map<string, seq<App>>) returns (err: Option<Error>, groups: map<string, seq<App>>)
    requires index.Keys == Applications(apps) && forall id :: id in index ==> index[id] == Instances(apps, id)
    ensures err.None? <==> AllAgreed(apps)
    ensures err.None? ==> Grouped(apps, groups)
    ensures err.Some? ==> err.value.UnknownDependency? || err.value.Inconsistent?
    ensures err.Some? && Wellformed(apps) ==> Cause(apps, err.value)
  {
    hide Agreed, Instances, Applications, NotLater, Unknown, Disagree, Wellformed;
    groups := map[];
    var todo := index.Keys;
    while todo != {}
      invariant todo <= index.Keys && groups.Keys == index.Keys - todo
      invariant forall id :: id in groups ==>
        Agreed(index.Keys, index[id]) && multiset(groups[id]) == multiset(index[id]) && SortedBy(NotLater, groups[id]) && groups[id] != []
      decreases todo
    {
      var id :| id in todo;
      HasInstances(apps, id);
      var wrong, sorted := CheckApplication(index.Keys, id, index[id]);
      if wrong.Some? {
        assert id in Applications(apps) && index[id] == Instances(apps, id);
        return wrong, groups;
      }
      groups, todo := groups[id := sorted], todo - {id};
    }
    err := None;
  }

  lemma {:induction false} LeadsAreKnown(apps: seq<App>, groups: map<string, seq<App>>)
    requires AllAgreed(apps) && Grouped(apps, groups)
    ensures forall id :: id in LeadDependencies(groups) ==> Elements(LeadDependencies(groups)[id]) <= LeadDependencies(groups).Keys
  {
    hide Applications, Instances, NotLater;
    forall id | id in groups ensures Elements(groups[id][0].dependsOn) <= groups.Keys {
      var instances := Instances(apps, id);
      assert Agreed(Applications(apps), instances);
      PermutationFacts(groups[id], instances);
      assert groups[id][0] in groups[id];
      var i :| 0 <= i < |instances| && instances[i] == groups[id][0];
      assert i > 0 ==> SameStringSet(instances[0].dependsOn, instances[i].dependsOn);
      forall d | d in Elements(groups[id][0].dependsOn) ensures d in groups {
        assert d in Elements(instances[0].dependsOn);
      }
    }
  }

  /** The hosted applications in start order, or why there is none. */
  method CanonicalHostedApplications(apps: seq<App>) returns (r: Result, ghost groups: map<string, seq<App>>, ghost order: seq<string>)
    ensures r.Err? ==> Cause(apps, r.error)
    ensures r.Err? && !r.error.DependencyCycle? <==> !(Wellformed(apps) && AllAgreed(apps))
    ensures r.Err? && (r.error.Invalid? || r.error.Duplicate?) <==> !Wellformed(apps)
    ensures Wellformed(apps) && AllAgreed(apps) ==>
      && Grouped(apps, groups) && (r.Ok? <==> Acyclic(AppGraph(LeadDependencies(groups))))
    ensures r.Ok? ==>
      && TopologicalOrder(AppGraph(LeadDependencies(groups)), order)
      && (forall other :: TopologicalOrder(AppGraph(LeadDependencies(groups)), other) ==> Precedes(order, other))
      && r.apps == Concat(groups, order)
  {
    hide *;
    groups, order := map[], [];
    var wrong, index := IndexApps(apps);
    if wrong.Some? { return Err(wrong.value), groups, order; }
    var checked;
    wrong, checked := CheckApplications(apps, index);
    groups := checked;
    if wrong.Some? { return Err(wrong.value), groups, order; }
    LeadsAreKnown(apps, checked);
    var found := CanonicalApplicationOrder(LeadDependencies(checked));
    if found.None? {
      assert Cause(apps, DependencyCycle) by { CycleCause(apps); }
      return Err(DependencyCycle), groups, order;
    }
    order := found.value;
    var ordered: seq<App> := [];
    ConcatNone(checked, found.value);
    for i := 0 to |found.value|
      invariant ordered == Concat(checked, found.value[..i])
    {
      ConcatStep(checked, found.value, i);
      ordered := ordered + Group(checked, found.value[i]);
    }
    assert found.value[..|found.value|] == found.value;
    return Ok(ordered), groups, order;
  }

  lemma {:induction false} CycleCause(apps: seq<App>)
    requires Wellformed(apps) && AllAgreed(apps)
    ensures Cause(apps, DependencyCycle)
  {
  }

  lemma {:induction false} ConcatNone(groups: map<string, seq<App>>, order: seq<string>)
    ensures Concat(groups, order[..0]) == []
  {
  }

  lemma {:induction false} ConcatStep(groups: map<string, seq<App>>, order: seq<string>, i: nat)
    requires i < |order|
    ensures Concat(groups, order[..i + 1]) == Concat(groups, order[..i]) + Group(groups, order[i])
  {
    assert order[..i + 1][..i] == order[..i];
  }

  // ------------------------------------------------------------ what the result is

  lemma {:induction false} InstancesCount(apps: seq<App>, id: string, a: App)
    ensures multiset(Instances(apps, id))[a] == if a.identity.application == id then multiset(apps)[a] else 0
  {
    if apps != [] {
      var front, last := apps[..|apps| - 1], apps[|apps| - 1];
      InstancesCount(front, id, a);
      assert apps == front + [last];
    }
  }

  lemma {:induction false} ConcatCount(apps: seq<App>, groups: map<string, seq<App>>, order: seq<string>, a: App)
    requires Grouped(apps, groups) && Distinct(order) && Elements(order) <= groups.Keys
    ensures multiset(Concat(groups, order))[a] == if a.identity.application in order then multiset(apps)[a] else 0
  {
    hide Instances, Applications, NotLater;
    if order != [] {
      var front, last := order[..|order| - 1], order[|order| - 1];
      assert order == front + [last] && last in Elements(order);
      assert Elements(front) <= Elements(order);
      assert last !in front;
      ConcatCount(apps, groups, front, a);
      InstancesCount(apps, last, a);
      assert multiset(groups[last]) == multiset(Instances(apps, last));
    }
  }

  /** Every hosted application appears in the result as often as it was given. */
  lemma {:induction false} ResultIsPermutation(apps: seq<App>, groups: map<string, seq<App>>, order: seq<string>)
    requires Grouped(apps, groups) && Distinct(order) && Elements(order) == groups.Keys
    ensures multiset(Concat(groups, order)) == multiset(apps)
  {
    hide Instances, NotLater, Concat, Distinct;
    forall a ensures multiset(Concat(groups, order))[a] == multiset(apps)[a] {
      ConcatCount(apps, groups, order, a);
      assert a in apps ==> a.identity.application in Elements(order);
    }
  }

  /** All instances of what an application's lead depends on come before it. */
  lemma {:induction false} DependenciesComeFirst(apps: seq<App>, groups: map<string, seq<App>>, order: seq<string>, k: nat, d: string, b: App)
    requires Grouped(apps, groups) && TopologicalOrder(AppGraph(LeadDependencies(groups)), order)
    requires k < |Concat(groups, order)| && Concat(groups, order)[k].identity.application in groups
    requires d in LeadDependencies(groups)[Concat(groups, order)[k].identity.application]
    requires b in apps && b.identity.application == d
    ensures b in Concat(groups, order)[..k]
  {
    hide Instances, Applications, NotLater, Concat, LeadDependencies, Distinct, Elements;
    var p := PlaceOf(apps, groups, order, k);
    EarlierDependency(LeadDependencies(groups), order, p, d);
    TopologicalParts(LeadDependencies(groups), order);
    assert Distinct(order[..p]) && Elements(order[..p]) <= groups.Keys by { PrefixParts(order, p); }
    ConcatCount(apps, groups, order[..p], b);
    assert b in multiset(apps);
    InPrefix(groups, order, p, k, b);
  }

  lemma {:induction false} TopologicalParts(dependsOn: map<string, seq<string>>, order: seq<string>)
    requires TopologicalOrder(AppGraph(dependsOn), order)
    ensures Distinct(order) && Elements(order) == dependsOn.Keys
  {
    hide DepsFirst, Distinct;
  }

  lemma {:induction false} PrefixParts(order: seq<string>, p: nat)
    requires p <= |order| && Distinct(order)
    ensures Distinct(order[..p]) && Elements(order[..p]) <= Elements(order)
  {
  }

  lemma {:induction false} EarlierDependency(dependsOn: map<string, seq<string>>, order: seq<string>, p: nat, d: string)
    requires TopologicalOrder(AppGraph(dependsOn), order) && p < |order| && order[p] in dependsOn && d in dependsOn[order[p]]
    ensures d in order[..p]
  {
    hide Distinct;
    assert AppGraph(dependsOn)[order[p]] <= Elements(order[..p]);
    assert d in Elements(dependsOn[order[p]]);
  }

  lemma {:induction false} InPrefix(groups: map<string, seq<App>>, order: seq<string>, p: nat, k: nat, b: App)
    requires p <= |order| && k < |Concat(groups, order)| && |Concat(groups, order[..p])| <= k
    requires Concat(groups, order[..p]) <= Concat(groups, order) && multiset(Concat(groups, order[..p]))[b] > 0
    ensures b in Concat(groups, order)[..k]
  {
    hide Concat;
    var front := Concat(groups, order[..p]);
    assert b in front;
    var i :| 0 <= i < |front| && front[i] == b;
    assert Concat(groups, order)[..k][i] == b;
  }

  /** The application of position k of the result, by its place in the order. */
  lemma {:induction false} PlaceOf(apps: seq<App>, groups: map<string, seq<App>>, order: seq<string>, k: nat) returns (p: nat)
    requires Grouped(apps, groups) && k < |Concat(groups, order)| && Elements(order) <= groups.Keys
    ensures p < |order| && order[p] == Concat(groups, order)[k].identity.application
    ensures Concat(groups, order[..p]) <= Concat(groups, order) && |Concat(groups, order[..p])| <= k
  {
    hide Applications, NotLater, Instances;
    var n := |order| - 1;
    var front, last := order[..n], order[n];
    assert last in Elements(order);
    assert Elements(front) <= Elements(order);
    var before := Concat(groups, front);
    if k < |before| {
      p := PlaceOf(apps, groups, front, k);
      assert front[..p] == order[..p];
    } else {
      p := n;
      var a := groups[last][k - |before|];
      assert a in groups[last] && a == Concat(groups, order)[k];
      assert a in multiset(groups[last]) && a in multiset(Instances(apps, last));
      InstancesCount(apps, last, a);
    }
  }

  ghost predicate ServesInstances(apps: seq<App>, groups: map<string, seq<App>>, id: string)
    requires id in groups
  {
    forall a :: a in apps && a.identity.application == id ==> Elements(a.dependsOn) <= Elements(LeadDependencies(groups)[id])
  }

  /** The order is made from the lead of an application, the first of its
      instances by ID. That serves every instance exactly if the lead has the same
      dependencies as the instance that was given first. */
  lemma {:induction false} ServesInstancesExactly(apps: seq<App>, groups: map<string, seq<App>>, id: string)
    requires AllAgreed(apps) && Grouped(apps, groups) && id in groups
    ensures Instances(apps, id) != []
    ensures ServesInstances(apps, groups, id) <==> Elements(Instances(apps, id)[0].dependsOn) == Elements(groups[id][0].dependsOn)
  {
    hide Instances, Applications, NotLater;
    var instances, lead := Instances(apps, id), groups[id][0];
    assert Agreed(Applications(apps), instances);
    FirstIsGiven(apps, id);
    LeadIsGiven(apps, groups, id);
    WithinFirst(Applications(apps), instances, lead);
    forall a | a in apps && a.identity.application == id ensures Elements(a.dependsOn) <= Elements(instances[0].dependsOn) {
      InstancesCount(apps, id, a);
      assert a in multiset(apps) && a in multiset(instances);
      WithinFirst(Applications(apps), instances, a);
    }
  }

  lemma {:induction false} FirstIsGiven(apps: seq<App>, id: string)
    requires Instances(apps, id) != []
    ensures Instances(apps, id)[0] in apps && Instances(apps, id)[0].identity.application == id
  {
    hide Instances;
    var first := Instances(apps, id)[0];
    InstancesCount(apps, id, first);
    assert first in multiset(Instances(apps, id)) && first in multiset(apps);
  }

  lemma {:induction false} LeadIsGiven(apps: seq<App>, groups: map<string, seq<App>>, id: string)
    requires Grouped(apps, groups) && id in groups
    ensures groups[id][0] in Instances(apps, id) && groups[id][0] in apps
  {
    hide Instances, Applications, NotLater;
    PermutationFacts(groups[id], Instances(apps, id));
    assert groups[id][0] in groups[id];
    InstancesCount(apps, id, groups[id][0]);
    assert groups[id][0] in multiset(Instances(apps, id)) && groups[id][0] in multiset(apps);
  }

  lemma {:induction false} WithinFirst(known: set<string>, instances: seq<App>, a: App)
    requires Agreed(known, instances) && a in instances
    ensures Elements(a.dependsOn) <= Elements(instances[0].dependsOn)
  {
    var i :| 0 <= i < |instances| && instances[i] == a;
    assert i > 0 ==> SameStringSet(instances[0].dependsOn, instances[i].dependsOn);
  }

  /** In particular, it serves every instance if no list repeats an entry. */
  lemma {:induction false} InstancesAgree(apps: seq<App>, groups: map<string, seq<App>>, a: App, d: string)
    requires AllAgreed(apps) && Grouped(apps, groups) && a in apps && d in a.dependsOn
    requires forall x :: x in apps ==> Distinct(x.dependsOn)
    ensures a.identity.application in groups && d in LeadDependencies(groups)[a.identity.application]
  {
    hide Instances, NotLater, SameStringSet, ServesInstances, Distinct;
    var id := a.identity.application;
    assert id in Applications(apps);
    ServesInstancesExactly(apps, groups, id);
    assert Agreed(Applications(apps), Instances(apps, id));
    FirstIsGiven(apps, id);
    LeadIsGiven(apps, groups, id);
    SameAsFirst(Applications(apps), Instances(apps, id), groups[id][0]);
    assert ServesInstances(apps, groups, id);
    Served(apps, groups, a, d);
  }

  lemma {:induction false} Served(apps: seq<App>, groups: map<string, seq<App>>, a: App, d: string)
    requires a.identity.application in groups && ServesInstances(apps, groups, a.identity.application)
    requires a in apps && d in a.dependsOn
    ensures d in LeadDependencies(groups)[a.identity.application]
  {
    assert d in Elements(a.dependsOn);
  }

  lemma {:induction false} SameAsFirst(known: set<string>, instances: seq<App>, a: App)
    requires Agreed(known, instances) && a in instances && Distinct(a.dependsOn) && Distinct(instances[0].dependsOn)
    ensures Elements(a.dependsOn) == Elements(instances[0].dependsOn)
  {
    hide SameStringSet;
    var i :| 0 <= i < |instances| && instances[i] == a;
    if i > 0 {
      SameStringSetExactly(instances[0].dependsOn, a.dependsOn);
      DistinctSize(a.dependsOn);
      DistinctSize(instances[0].dependsOn);
    }
  }

  // ------------------------------------------------------------ a hidden dependency

  const WHOLE := App(Identity("m", "2"), "p", ["a", "z"])
  const PARTIAL := App(Identity("m", "1"), "p", ["a", "a"])
  const OTHERS: seq<App> := [App(Identity("a", "1"), "p", []), App(Identity("z", "1"), "p", [])]

  /** The instances of m disagree, and the repeated entry hides it: given one way
      round they are accepted, and m may be started before z, on which one of them
      depends; given the other way round they are refused. A loader that
      removes repetitions, like that of the host manifest, cannot produce this. */
  lemma {:induction false} RepetitionHidesDependency(groups: map<string, seq<App>>)
    requires Grouped([WHOLE, PARTIAL] + OTHERS, groups)
    ensures Wellformed([WHOLE, PARTIAL] + OTHERS) && AllAgreed([WHOLE, PARTIAL] + OTHERS)
    ensures "m" in groups && "z" in WHOLE.dependsOn && "z" !in LeadDependencies(groups)["m"]
    ensures Acyclic(AppGraph(LeadDependencies(groups)))
    ensures TopologicalOrder(AppGraph(LeadDependencies(groups)), ["a", "m", "z"])
    ensures Wellformed([PARTIAL, WHOLE] + OTHERS) && !AllAgreed([PARTIAL, WHOLE] + OTHERS)
  {
    hide Wellformed, AllAgreed, Instances, Applications, Grouped;
    AcceptedList();
    RefusedList();
    PartialLeads(groups);
    LeadsOfFour(groups);
    OrderOfThree(LeadDependencies(groups));
  }

  lemma {:induction false} OrderOfThree(dependsOn: map<string, seq<string>>)
    requires dependsOn == map["m" := ["a", "a"], "a" := [], "z" := []]
    ensures TopologicalOrder(AppGraph(dependsOn), ["a", "m", "z"]) && Acyclic(AppGraph(dependsOn))
  {
    hide Acyclic;
    var order := ["a", "m", "z"];
    assert order[..0] == [] && order[..1] == ["a"] && order[..2] == ["a", "m"];
    assert order[0] == "a" && order[1] == "m" && order[2] == "z";
    assert Elements(order) == {"a", "m", "z"};
    OrderMeansAcyclic(AppGraph(dependsOn), order);
  }

  lemma {:induction false} LeadsOfFour(groups: map<string, seq<App>>)
    requires Grouped([WHOLE, PARTIAL] + OTHERS, groups)
    ensures LeadDependencies(groups) == map["m" := ["a", "a"], "a" := [], "z" := []]
  {
    hide Instances, Applications, NotLater;
    ListsOfFour(WHOLE, PARTIAL);
    FourApplications(WHOLE, PARTIAL, OTHERS[0], OTHERS[1]);
    PartialLeads(groups);
    FourInstances(WHOLE, PARTIAL, OTHERS[0], OTHERS[1], "a");
    FourInstances(WHOLE, PARTIAL, OTHERS[0], OTHERS[1], "z");
    assert [] + [OTHERS[0]] == [OTHERS[0]] && [] + [OTHERS[1]] == [OTHERS[1]];
    OneLead(groups["a"], OTHERS[0]);
    OneLead(groups["z"], OTHERS[1]);
  }

  lemma {:induction false} OneLead(g: seq<App>, a: App)
    requires multiset(g) == multiset([a]) && g != []
    ensures g[0] == a
  {
    assert g[0] in multiset(g);
  }

  lemma {:induction false} FourInstances(a: App, b: App, c: App, d: App, id: string)
    ensures var one := (x: App) => if x.identity.application == id then [x] else [];
            Instances([a, b, c, d], id) == one(a) + one(b) + one(c) + one(d)
  {
    hide Instances;
    var all := [a, b, c, d];
    assert Instances(all[..0], id) == [] by { NobodyListed(all[..0], id); }
    InstancesStep(all, 0, id);
    InstancesStep(all, 1, id);
    InstancesStep(all, 2, id);
    InstancesStep(all, 3, id);
    assert all[..4] == all;
    assert [] + [a] == [a] && [a] + [] == [a];
  }

  lemma {:induction false} NobodyListed(apps: seq<App>, id: string)
    requires |apps| == 0
    ensures Instances(apps, id) == []
  {
  }

  lemma {:induction false} FourApplications(a: App, b: App, c: App, d: App)
    ensures Applications([a, b, c, d]) == {a.identity.application, b.identity.application, c.identity.application, d.identity.application}
  {
    var all := [a, b, c, d];
    assert all[0] == a && all[1] == b && all[2] == c && all[3] == d;
  }

  lemma {:induction false} ListsOfFour(a: App, b: App)
    ensures [a, b] + OTHERS == [a, b, OTHERS[0], OTHERS[1]]
  {
  }

  lemma {:induction false} AllValid()
    ensures ValidApp(WHOLE) && ValidApp(PARTIAL) && ValidApp(OTHERS[0]) && ValidApp(OTHERS[1])
  {
    hide TrimSpace;
    NotBlank("a");
    NotBlank("m");
    NotBlank("p");
    NotBlank("z");
    NotBlank("1");
    NotBlank("2");
  }

  lemma {:induction false} NotBlank(s: string)
    requires |s| == 1 && ('a' <= s[0] <= 'z' || IsDigit(s[0]))
    ensures TrimSpace(s) != ""
  {
    hide TrimSpace;
    assert !IsSpace(s[0]);
  }

  lemma {:induction false} AcceptedList()
    ensures Wellformed([WHOLE, PARTIAL] + OTHERS) && AllAgreed([WHOLE, PARTIAL] + OTHERS)
  {
    hide ValidApp, Instances, Applications;
    AllValid();
    ListsOfFour(WHOLE, PARTIAL);
    FourApplications(WHOLE, PARTIAL, OTHERS[0], OTHERS[1]);
    forall id | id in {"m", "a", "z"} ensures Agreed({"m", "a", "z"}, Instances([WHOLE, PARTIAL, OTHERS[0], OTHERS[1]], id)) {
      FourInstances(WHOLE, PARTIAL, OTHERS[0], OTHERS[1], id);
      if id == "m" { assert [WHOLE] + [PARTIAL] + [] + [] == [WHOLE, PARTIAL]; }
    }
  }

  lemma {:induction false} RefusedList()
    ensures Wellformed([PARTIAL, WHOLE] + OTHERS) && !AllAgreed([PARTIAL, WHOLE] + OTHERS)
  {
    hide ValidApp, Instances, Applications;
    AllValid();
    ListsOfFour(PARTIAL, WHOLE);
    FourApplications(PARTIAL, WHOLE, OTHERS[0], OTHERS[1]);
    FourInstances(PARTIAL, WHOLE, OTHERS[0], OTHERS[1], "m");
    assert [PARTIAL] + [WHOLE] + [] + [] == [PARTIAL, WHOLE];
    assert ["a", "z"][1] == "z" && "z" !in ["a", "a"];
    var list := [PARTIAL, WHOLE, OTHERS[0], OTHERS[1]];
    assert !SameStringSet(Instances(list, "m")[0].dependsOn, Instances(list, "m")[1].dependsOn);
    assert "m" in Applications(list) && !Agreed(Applications(list), Instances(list, "m"));
  }

  /** By ID the partial instance comes first. */
  lemma {:induction false} PartialLeads(groups: map<string, seq<App>>)
    requires Grouped([WHOLE, PARTIAL] + OTHERS, groups)
    ensures "m" in groups && "z" in WHOLE.dependsOn && "z" !in LeadDependencies(groups)["m"]
    ensures groups["m"] != [] && groups["m"][0] == PARTIAL
  {
    hide Instances, Applications;
    ListsOfFour(WHOLE, PARTIAL);
    FourApplications(WHOLE, PARTIAL, OTHERS[0], OTHERS[1]);
    FourInstances(WHOLE, PARTIAL, OTHERS[0], OTHERS[1], "m");
    assert [WHOLE] + [PARTIAL] + [] + [] == [WHOLE, PARTIAL];
    var g := groups["m"];
    PermutationFacts(g, [WHOLE, PARTIAL]);
    assert |g| == 2 && g[0] in [WHOLE, PARTIAL] && g[1] in [WHOLE, PARTIAL] && g[0] in g && g[1] in g;
    LeadIsPartial(g);
    assert WHOLE.dependsOn[1] == "z";
  }

  lemma {:induction false} LeadIsPartial(g: seq<App>)
    requires multiset(g) == multiset([WHOLE, PARTIAL]) && SortedBy(NotLater, g) && |g| == 2
    ensures g[0] == PARTIAL
  {
    hide NotLater;
    PairOf(g, WHOLE, PARTIAL);
    assert NotLater(g[0], g[1]);
    OneBeforeTwo();
  }

  lemma {:induction false} OneBeforeTwo()
    ensures !NotLater(WHOLE, PARTIAL)
  {
    assert !AtMost("2", "1");
  }

  lemma {:induction false} PairOf(g: seq<App>, a: App, b: App)
    requires multiset(g) == multiset([a, b]) && |g| == 2
    ensures (g[0] == a && g[1] == b) || (g[0] == b && g[1] == a)
  {
    assert g == [g[0], g[1]];
    assert g[0] in multiset([a, b]) && g[1] in multiset([a, b]);
    assert a in multiset(g) && b in multiset(g);
  }
}
