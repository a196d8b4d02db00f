# Pulp: verified model of the host's algorithmic cores

Pulp hosts applications made of WASM cells. This project models the parts of it
that are algorithms or protocols rather than input and output, and proves what
they promise. `dafny verify dfyconfig.toml` checks everything.

| file | what it models |
|---|---|
| `Versions.dfy` | the version grammar, its order, and the requirements `^`, `~`, `*` and plain |
| `Registry.dfy` | module identifiers, digests, manifests and the store of releases |
| `Solver.dfy`, `Cycles.dfy`, `Resolver.dfy` | the backtracking solver, the depth-first cycle check, lock construction and the independent lock verifier |
| `ModuleCache.dfy`, `CacheProtocol.dfy` | the reference-counted module cache, one method per critical section, and its interleavings as a transition system |
| `Plans.dfy`, `PlanBuilder.dfy`, `PlanFacts.dfy` | dependency plans and the level-by-level construction |
| `Collapse.dfy`, `Placements.dfy` | plans of merged nodes and of placements |
| `Scheduler.dfy` | bounded-parallel execution of a plan under any order of completion |
| `AppOrder.dfy`, `HostedApps.dfy` | the start order of a host's applications |
| `Impact.dfy` | what replacing one dependency graph by another changes |
| `Routing.dfy`, `LiveReplacement.dfy` | the admission router and the seven-stage replacement transaction over it |
| `Journals.dfy` | the hash-chained deployment journal with torn-write repair and recovery |
| `EventDelivery.dfy` | event hand-off through pollsters, bounded queues, step loops and drains |
| `Scopes.dfy` | the length-prefixed identity encodings |
| `Finite.dfy`, `Lexicographic.dfy`, `Graphs.dfy`, `Text.dfy` | finite sets, Go's string order and sorting, graphs and walks, the used parts of strings and strconv |

Code that updates state step by step is imperative here as well: classes with
the source's fields, loops with invariants. Each such method is proved against a
specification function or predicate, and the properties are proved about that
specification. Concurrent code is modelled one critical section, one channel
operation or one outside call at a time, with every interleaving or outcome
allowed.

What is outside the code is a parameter or a free choice. SHA-256, the canonical
form of a manifest and the journal's encoding are function parameters
(`Hashing`, `Codec`); the only assumptions about them are written as
`Consistent` (a store serves the release that was asked for, and blobs have the
digests they are listed under) and `Faithful` (an encoded entry is one line and
can be read back). Nothing assumes that digests do not collide: what a digest is
to pin is stated as "the same, or these two are a collision". For a replacement
transaction everything from outside, who comes and goes and what fails, is one
parameter, a `World`, and the transaction is the function of it that the
specification tells. Elsewhere failures of compilations, workers, disk writes and
waits are chosen arbitrarily.

## Where the code does less than it seems to promise

Each of these is proved together with the exact condition under which the code
does what one would expect, most with a concrete witness beside it.

- The solver does not look at a module's requirement on itself; only the cycle
  check that follows rejects it. A solver answer satisfies everything exactly if
  it satisfies the requirements of modules on themselves
  (`Resolver.SelfRequirementsExactly`, `Resolver.SelfRequirementIgnored`).
- Version order is that of section 11 of Semantic Versioning 2.0.0 exactly for
  versions whose numeric prerelease identifiers are below 2^64
  (`Versions.SemVerExactly`, `Versions.Misplaced`).
- `^b` and `~b` accept what they promise exactly when the component they bump is
  not the largest 64-bit number; otherwise the upper bound wraps round
  (`Versions.CaretExactly`, `Versions.TildeExactly`).
- The compile leader deletes its cache entry by key. If the key was evicted
  meanwhile and acquired again, the newer entry is dropped from the map. A module
  is never closed exactly if its entry was dropped in this way and it was compiled
  and not in use when the cache was closed (`CacheProtocol.LeaksExactly`,
  `CacheProtocol.ReacquireLeaks`).
- Closing a cached-module lease checks that it is unused and releases it under two
  separate locks. An instance keeps its lease exactly if no such call, having found
  the lease unused, goes on after its instantiation has begun; else the module can be
  closed while its instance runs (`CacheProtocol.InstancesHoldExactly`,
  `CacheProtocol.InstancesAreSafe`, `CacheProtocol.ClosedInUse`).
- A rollback can find calls on the candidate, which it then shuts down, exactly if
  the call that failed came after the swap (`LiveReplacement.StrandsExactly`,
  `LiveReplacement.StrandedCall`).
- The runtime that is served after a transaction has been told to shut down by it
  exactly if it was Commit that failed (`LiveReplacement.ServesStoppedExactly`);
  and the replacement stands although an error is returned exactly if only the
  last record failed (the contract of `LiveReplacement.LiveController.Transact`).
  Both happen (`LiveReplacement.LateFailures`).
- A journal record whose line reached the disk but whose sync failed is reported
  as failed, yet it is read back after a restart; if another record follows it
  without a restart, the journal can no longer be opened. Of failed records that
  left nothing or all of their line, exactly those that left nothing are harmless
  (`Journals.ReloadsExactly`, `Journals.FailedRecordReloads`).
- The comment on `deliver` says that dropping the newest event keeps the queue
  first in, first out. A cell handles its events in the order of the hand-offs in
  every run exactly if it only reacts to events, or its queue has room for one at
  most: a cell that idles puts an event it received back at the tail
  (`EventDelivery.KeepsOrderExactly`, `EventDelivery.ReorderedIsRun`).
- The host stops its control server only after the last drain, and a reload looks
  at nothing but the cell being stopped. A reload that has waited for the module to
  load launches the step loop although the host has joined the loops already; the
  loop then takes an event before the host can drain it. When the host is done,
  everything is finalized in every run exactly if no cell may be reloaded after the
  loops were joined (`EventDelivery.FinalizesExactly`,
  `EventDelivery.OvertakenIsRun`).
- The comparison of the dependency lists of two instances of an application is
  not symmetric: a repeated entry can hide a missing one. Lists that it accepts are
  equal as sets exactly if they repeat entries equally often
  (`HostedApps.SameStringSetExactly`). The order is made from the list of the
  instance that comes first by ID, and serves every instance exactly if that one
  depends on the same as the instance that was given first
  (`HostedApps.ServesInstancesExactly`, `HostedApps.RepetitionHidesDependency`). The
  loader of host manifests removes repeated entries
  (`internal/manifest/host.go:331-349`), so that only another loader can cause
  it; without repetitions the order serves every instance
  (`HostedApps.InstancesAgree`).
- A node with the same dependencies and the same revision as before counts as
  updated exactly if its dependencies are listed in another order, because the
  lists are compared as lists (`Impact.ReorderedIsUpdated`); the levels and orders
  of a plan do not depend on that order (`PlanFacts.ListOrderIrrelevant`).

## Model

| member | source | states |
|---|---|---|
| Versions.ParseVersion | registry/model.go:48-92 | the component-by-component parser computes the specification `Parse`, for every string |
| Versions.CheckPre | registry/model.go:60-74 | the scan of the prerelease identifiers accepts exactly non-empty dot-separated identifiers without a superfluous leading zero on a 64-bit number |
| Versions.ParseExact | registry/model.go:48-99 | a string parses to v if and only if v is well formed and the trimmed string is v's printed form |
| Versions.RoundTrip | registry/model.go:48-99 | parsing a printed version gives the version back |
| Versions.StringInjective | registry/model.go:93-99 | different versions are printed differently |
| Versions.Compare | registry/model.go:100-153 | the comparison loop computes the specified order of cores, stability and identifier lists |
| Versions.OrderIsTotal | registry/model.go:100-153 | on parsed versions the order is antisymmetric and total, and 0 only for equal versions |
| Versions.OrderIsTransitive | registry/model.go:100-153 | the order is transitive |
| Versions.CompareIsSemVer | registry/model.go:100-153 | with numeric identifiers below 2^64, comparison is precedence in section 11 of Semantic Versioning 2.0.0 |
| Versions.SemVerExactly | registry/model.go:133-147 | a version is ordered as section 11 says against all ordinary versions if and only if its numeric identifiers are below 2^64 |
| Versions.Misplaced | registry/model.go:133-147 | for every other version, an ordinary version against which it is ordered the wrong way round |
| Versions.CaretExactly | registry/model.go:162-175 | `^b` accepts exactly the stable versions from b on that share its leading components, if and only if the bumped component does not overflow |
| Versions.TildeExactly | registry/model.go:176-179 | the same for `~b` and its minor component |
| Versions.PinExactly | registry/model.go:180-181 | a plain requirement accepts one version |
| Versions.AnyExactly | registry/model.go:158-160 | the empty requirement and the star accept exactly the stable versions |
| Versions.UnparsableAcceptsNothing | registry/model.go:162-182 | any other requirement whose base is not the spelling of a version accepts nothing |
| Versions.ValidRequirementExactly | registry/manifest.go:142-152 | a requirement may be given exactly if it is empty, a star, or a version behind at most a caret or a tilde |
| Text.TrimSpaceExactly | registry/model.go:157 | trimming takes exactly the white space off both ends |
| Lexicographic.LessExactly | registry/model.go:147 | strings are ordered by the first place where they differ, a proper prefix being smaller |
| Registry.DigestRoundTrip | registry/model.go:28-41 | parsing a printed digest gives the digest back |
| Registry.DigestShape | registry/model.go:27 | a digest is printed as its prefix and 64 lower-case hexadecimal digits |
| Registry.ModuleIDExactly | registry/model.go:13-22 | module identifiers are exactly the trimmed strings of up to 255 characters of the pattern, without two dots or slashes together |
| Solver.Solve | registry/resolve.go:102-156 | fails if and only if no assignment extends the chosen modules, meets every constraint and is closed under satisfied dependencies; an answer is such an assignment, is minimal, and at each decision takes the earliest listed version that can be completed |
| Solver.Extend | registry/resolve.go:137-145 | a candidate's dependencies are added to the constraints unless one rules out a chosen module |
| Solver.CheckAll | registry/resolve.go:123-129 | the early-exit loop decides whether a version meets all requirements |
| Solver.AnswerIsUnique | registry/resolve.go:102-156 | preference and minimality determine the answer, whatever the order of Go's map iteration |
| Cycles.CycleChecker.Visit | registry/resolve.go:175-192 | the visit either reports a walk that closes on itself or finishes the node with all it reaches, restoring the stack |
| Cycles.CheckCycles | registry/resolve.go:171-204 | nil if and only if the dependency graph has no cycle, self-loops included; otherwise the reported walk closes on itself |
| Resolver.CollectRoots | registry/resolve.go:56-65 | succeeds exactly on well-named roots with valid requirements, and collects their constraints; else names the first bad root |
| Resolver.FindArtifact | registry/resolve.go:83-89 | the first artifact for the target, if there is one, and none before it |
| Resolver.LockModules | registry/resolve.go:75-99 | the lock lists the chosen modules in identifier order with version, digests and dependency versions; fails exactly if one has no artifact for the target, and names the first |
| Resolver.Resolve | registry/resolve.go:52-101 | whenever the roots are solvable the choice is the one answer of the solver; success exactly if it is acyclic and every module has an artifact: then all roots and dependencies are met, the choice is exactly what the roots reach, the lock records it and Verify accepts it; each of the five errors exactly if its cause holds |
| Resolver.SelfRequirementsExactly | registry/resolve.go:139-145 | a solver answer meets every requirement if and only if it meets those of modules on themselves |
| Resolver.SelfRequirementIgnored | registry/resolve.go:139-145 | a store and roots for which the solver has an answer and every answer violates the requirement of a release on itself |
| Resolver.AcyclicSatisfies | registry/resolve.go:66-72 | a solver answer without cycles meets every requirement, also those of modules on themselves |
| Resolver.MinimalIsNeeded | registry/resolve.go:52-72 | a minimal answer is exactly the set reachable from the roots |
| Resolver.Verify | registry/resolve.go:205-290 | accepts exactly the locks that meet the declarative conditions on order, roots, versions, dependencies, digests and artifacts |
| Resolver.VerifyModule | registry/resolve.go:232-288 | the checks on one entry, in order, decide whether the entry holds |
| Resolver.ResolvedIsAcceptable | registry/resolve.go:73-100 | on an unchanged consistent store, every recorded choice that satisfies its roots passes Verify |
| Resolver.AcceptedIsSolution | registry/resolve.go:205-290 | conversely an accepted lock is a solution of its roots, so that the solver finds one too |
| Resolver.AcceptedIsCanonical | registry/resolve.go:205-218 | an accepted lock has the known schema, lists each module once, in order and under a valid identifier, and each entry names the dependencies of its manifest in their order and an artifact built for the target |
| Resolver.AcceptedNamesVersions | registry/resolve.go:247-252 | in an accepted lock every dependency of an entry is listed with the very version text that its own entry locks |
| Resolver.LockPinsContent | registry/resolve.go:232-288 | any two stores against which a lock is accepted serve the same canonical manifest and the same artifact for every entry, unless what they serve there is a collision of the digest |
| ModuleCache.ModuleCache.AcquireLookup | internal/host/modulecache.go:150-161 | keeps the map well formed and every entry as it was; a leader's entry is new, unleased and listed, a waiter's is the wanted one under its key; refused exactly on a closed cache |
| ModuleCache.ModuleCache.AcquirePublish | internal/host/modulecache.go:165-178 | keeps the map well formed and the other entries and counts as they were; a module is to be closed exactly if it is compiled, unleased and retired, and then nobody can get it |
| ModuleCache.ModuleCache.AcquireTake | internal/host/modulecache.go:189-203 | a lease exactly on a wanted entry of an open cache, counted there and nowhere else; the map is kept |
| ModuleCache.ModuleCache.EvictKey | internal/host/modulecache.go:320-338 | takes the key, and only it, off the map, keeps every count, and closes only a module that nobody holds and that nobody can get any more |
| ModuleCache.ModuleCache.ReleaseEntry | internal/host/modulecache.go:340-356 | one lease less on this entry alone; the module is to be closed exactly if nobody holds it and nobody can get it |
| ModuleCache.ModuleCache.CloseAll | internal/host/modulecache.go:374-392 | in any order of the map: every listed entry is retired, every count kept, and exactly the idle ones among them are to be closed |
| CacheProtocol.StepKeeps | internal/host/modulecache.go:150-401 | every step of every thread keeps the invariant of the protocol |
| CacheProtocol.Safety | internal/host/modulecache.go:150-204 | in every run the reference count is the number of outstanding leases, a lease refers to an open module, and no module is closed twice or while leased |
| CacheProtocol.InstancesHoldExactly | internal/host/modulecache.go:245-268 | in every run an instance has its lease if and only if no Close of that lease overlapped with its instantiation: found it unused before, and went on after it had begun |
| CacheProtocol.InstancesAreSafe | internal/host/modulecache.go:220-258 | in every run without such an overlap a module that is being instantiated or has an instance is compiled and leased, and no Close of it is decided or done |
| CacheProtocol.ClosedInUse | internal/host/modulecache.go:249-258 | the bad run: Close finds the lease unused, Instantiate begins, Close goes on, and the module is closed while its instance runs |
| CacheProtocol.LeaseIsGuarded | internal/host/modulecache.go:245-258 | without such an overlap, as long as there is an instance, closing its lease is refused, the lease cannot be released and no second instance can be made of it |
| CacheProtocol.SingleUse | internal/host/modulecache.go:220-240 | in no run is one lease instantiated twice, whether the first time succeeded or not |
| CacheProtocol.LeasesCanEnd | internal/host/modulecache.go:233-268 | in every run every lease that is out can be given back by at most three steps of its owner |
| CacheProtocol.NeverReleasedTwice | internal/host/modulecache.go:340-345 | the error for a second release never arises from the lease protocol |
| CacheProtocol.LeaksAreLost | internal/host/modulecache.go:374-401 | at rest after Close, a module was closed exactly once if it was compiled and not lost from the map, else never |
| CacheProtocol.NoLeakExactly | internal/host/modulecache.go:374-401 | nothing leaks if and only if, when Close ran, no compiled, unleased and unretired entry was missing from the map |
| CacheProtocol.LeaksExactly | internal/host/modulecache.go:169-174 | in every run that has come to rest, a compiled module was never closed if and only if the publication of another entry took its entry off the map and it was compiled and not in use when the cache was closed |
| CacheProtocol.PatientNoLeak | internal/host/modulecache.go:157-178 | nothing leaks in any run in which no key is acquired again while an evicted entry of it is compiling |
| CacheProtocol.ReacquireLeaks | internal/host/modulecache.go:169-174 | the bad run: the newer entry is dropped by key and its module stays open for ever |
| Plans.SortByOrdinal | internal/dependency/plan.go:74-77 | sorting distinct ids by ordinal restores the input order |
| PlanBuilder.CheckIds | internal/dependency/plan.go:42-56 | the first pass accepts exactly non-empty inputs with non-blank distinct ids |
| PlanBuilder.CollectDependents | internal/dependency/plan.go:57-77 | the second pass accepts exactly closed, duplicate-free dependency lists, and collects every node's dependents in input order |
| PlanBuilder.LevelIsLongest | internal/dependency/plan.go:90-106 | a node's level is the length of its longest dependency chain |
| PlanBuilder.LeftOver | internal/dependency/plan.go:107-115 | what Kahn's algorithm leaves over is exactly the set of nodes on or downstream of a cycle |
| PlanBuilder.Build | internal/dependency/plan.go:41-126 | succeeds exactly on well-formed acyclic inputs; the plan has longest-chain levels in input order, a topological start order and its reverse; a cycle error lists exactly the nodes on or downstream of a cycle |
| PlanFacts.BuiltIsSound | internal/dependency/plan.go:117-125 | every built plan has what its users rely on |
| PlanFacts.ListOrderIrrelevant | internal/dependency/plan.go:41-126 | levels and orders do not depend on the order inside each dependency list |
| PlanFacts.StopsDependentsFirst | internal/dependency/plan.go:121-124 | in the stop order a node is stopped before its dependencies |
| Collapse.Collapse | internal/dependency/collapse.go:9-49 | fails exactly on a missing or blank target or if merging creates a cycle; otherwise the plan is that of the quotient graph and respects every logical dependency between different physical nodes |
| Collapse.MergedInOrder | internal/dependency/collapse.go:8-24 | physical nodes are the items of the plan in the order of their first appearance in the logical start order |
| Collapse.IdentityCollapse | internal/dependency/collapse.go:9-49 | collapsing every node onto itself gives the same levels and orders back |
| Placements.PhysicalDependencyPlan | run/physical_dependency_plan.go:13-51 | succeeds exactly on known cells, unique non-blank addresses, placed targets and an acyclic physical graph; the items stand in the order of the placements; every placement starts after all placements of its dependencies |
| Placements.StartsAfterServers | run/physical_dependency_plan.go:20-47 | spelled out: what runs at an address, placed there or fused onto it, starts after the fused target of each of its dependencies if it has one, else after every placement of it |
| Placements.FusedOntoPlacements | run/physical_dependency_plan.go:26-29 | fused targets that are placement addresses are valid targets |
| Scheduler.Execute | internal/dependency/scheduler.go:14-98 | under any completions: of the nodes that can start the first by ordinal does; never more than maxParallel run if that is positive; a completion is awaited, before any failure, only when maxParallel nodes run or nothing can start; nobody is running on return; the ready list is the start order restricted to successes, with every node behind its dependencies; failures are those of the log; without failure every node ran |
| Scheduler.CountDown | internal/dependency/scheduler.go:71-77 | the counters stay the number of missing dependencies; exactly the nodes whose last missing dependency it was join the queue |
| Scheduler.StartsAfterDependencies | internal/dependency/scheduler.go:52-57 | in a legal log no node starts before all its dependencies succeeded |
| Scheduler.StartsOnce | internal/dependency/scheduler.go:48-57 | no node starts twice |
| Scheduler.NoFailureBeforeStart | internal/dependency/scheduler.go:52-66 | nothing starts after the first failure |
| Scheduler.BoundedParallelism | internal/dependency/scheduler.go:26-29 | at no point do more than the limit run |
| Scheduler.ReadyIsClosed | internal/dependency/scheduler.go:80-84 | what succeeded is closed under dependencies |
| Scheduler.BuiltHasRootsInOrder | internal/dependency/scheduler.go:35-43 | every built plan lists its roots by ordinal, as Execute expects |
| AppOrder.CanonicalApplicationOrder | run/multihost.go:348-387 | fails if and only if there is no topological order, that is, for closed graphs, if there is a cycle; otherwise returns the lexicographically least of all topological orders |
| AppOrder.GreedyIsLeast | run/multihost.go:369-382 | always taking the least available node gives an order that precedes every topological order |
| AppOrder.StuckHasNoOrder | run/multihost.go:383-385 | if every node left waits for another, no topological order exists |
| HostedApps.CanonicalHostedApplications | run/multihost.go:306-346 | every error comes with its cause in the list, invalid or duplicate entries before disagreeing ones before a cycle; otherwise the instances, grouped and by ID, follow the least order |
| HostedApps.ValidAppExactly | run/multihost.go:107-115 | an entry is valid exactly if its application, instance and manifest path hold more than white space |
| HostedApps.ResultIsPermutation | run/multihost.go:341-345 | the result holds every hosted application exactly as often as it was given |
| HostedApps.DependenciesComeFirst | run/multihost.go:341-345 | all instances of what the lead instance of an application depends on come before it |
| HostedApps.ServesInstancesExactly | run/multihost.go:320-339 | of accepted applications: what the order was made from holds the dependencies of every instance of an application if and only if the first instance by ID depends on the same as the first instance given |
| HostedApps.InstancesAgree | run/multihost.go:326-330 | in particular, without repeated entries, what any instance depends on is what the order was made from |
| HostedApps.SameStringSetExactly | run/multihost.go:389-403 | for any two lists: what the test accepts is the same set if and only if both repeat entries equally often, and of equal sets it accepts exactly those |
| HostedApps.RepetitionHidesDependency | run/multihost.go:326-339 | a list of applications that is accepted and has a cycle-free order which starts an application before one that an instance of it depends on, and that is refused with two entries exchanged |
| Impact.Diff | internal/reconcile/reconciler.go:204-255 | the four lists partition old and new nodes in start order, and the affected nodes are the one least set that holds all changes and is closed under dependents in the old and the new graph |
| Impact.Spread | internal/reconcile/reconciler.go:236-249 | the work-list computes that least set |
| Impact.ListedSets | internal/reconcile/reconciler.go:216-235 | added, updated and untouched split the new nodes, removed are the rest of the old, all without repetition |
| Impact.ImpactIsReachability | internal/reconcile/reconciler.go:236-254 | a node is affected if and only if a changed node is among its transitive dependencies in the two graphs together |
| Impact.OutsideIsUntouched | internal/reconcile/reconciler.go:236-254 | a node outside the impact, and everything below it in either graph, is in both with the same dependencies and revision |
| Impact.NothingChanged | internal/reconcile/reconciler.go:115-118 | the three change lists are empty if and only if nothing changed, and then nothing is affected |
| Impact.ReorderedIsUpdated | internal/reconcile/reconciler.go:221-226 | a node that has the same dependencies and the same revision as before is reported as updated exactly if the dependencies are listed in another order |
| Impact.UpdatedExactly | internal/reconcile/reconciler.go:221-226 | a node is reported as updated exactly if it was there before and its list of dependencies or its revision in the given maps is another one, an empty revision counting like none |
| Routing.AtomicRuntimeRouter.constructor | run/live_application_runtime.go:33-35 | a new router admits calls to its target |
| Routing.AtomicRuntimeRouter.Acquire | run/live_application_runtime.go:36-45 | a lease on the present target if admission is open, and the whole new state |
| Routing.AtomicRuntimeRouter.Release | run/live_application_runtime.go:46-54 | one lease less; the last one out signals the pending drain, which is closed exactly once |
| Routing.AtomicRuntimeRouter.Quiesce | run/live_application_runtime.go:55-73 | given who comes and goes meanwhile, the whole new state; succeeds exactly if nobody was out or all have returned and the wait was not given up; a drain that was pending is signalled exactly if all have returned |
| Routing.AtomicRuntimeRouter.Activate | run/live_application_runtime.go:74-79 | the target changes and admission opens, nothing else |
| Routing.StaysDrained | run/live_application_runtime.go:36-54 | whatever calls come and go, a closed and drained router stays so |
| Routing.StaysFree | run/live_application_runtime.go:36-45 | a runtime that is not the target gets no new call |
| Routing.QuiescedMeans | run/live_application_runtime.go:55-73 | while it waits nobody is admitted; the router is drained exactly if nobody is left, and a drain stays pending exactly while somebody is |
| Routing.MovedIsTraffic | run/live_application_runtime.go:36-54 | calls that come and go never touch target or admission, and are admitted only to the target of an open router |
| LiveReplacement.LiveController.MakeCandidate | run/live_application_runtime.go:104-117 | a fresh runtime, or none; one that fails to start is shut down |
| LiveReplacement.LiveController.QuiesceStage | internal/reconcile/reconciler.go:156-162 | Quiesce and its record go as far as the first of them that fails in this world |
| LiveReplacement.LiveController.CommitStage | internal/reconcile/reconciler.go:191-201 | the old runtime is retired; the deployment changes exactly if that succeeded, whatever the last record does |
| LiveReplacement.LiveController.Undo | internal/reconcile/reconciler.go:142-149 | one rollback and one record of it, given the stage, the old runtime and the snapshot; the router serves the old runtime, the candidate is shut down |
| LiveReplacement.LiveController.Transact | internal/reconcile/reconciler.go:136-201 | for any world: which calls are made on whom and what they find, up to the first that fails and then the rollback; the deployment changes exactly when Commit succeeded; the router admits calls to the current deployment; exactly which runtimes were shut down; nobody but the current runtime is left running |
| LiveReplacement.LiveController.Reconcile | internal/reconcile/reconciler.go:103-202 | an unplannable graph or an unchanged one causes no call at all; otherwise one transaction over the reported changes |
| LiveReplacement.ItemsExactly | internal/reconcile/reconciler.go:103-109 | each node is one item, in the given order |
| LiveReplacement.RevisionsExactly | internal/reconcile/reconciler.go:103-109 | the revisions are those of the nodes themselves, of nodes with one id that of the last |
| LiveReplacement.DrainedAtSnapshot | internal/reconcile/reconciler.go:163-169 | when the snapshot is taken admission is closed and no lease is out |
| LiveReplacement.DrainedAtRetire | internal/reconcile/reconciler.go:191-194 | when the old runtime is retired no lease on it is out and the candidate serves |
| LiveReplacement.EndsServing | internal/reconcile/reconciler.go:142-201 | when a transaction is over the router admits calls to the deployed runtime, and calls are out only on runtimes that exist |
| LiveReplacement.IdleBeforeSwap | internal/reconcile/reconciler.go:142-149 | before the swap a rollback finds no call on the candidate |
| LiveReplacement.StrandsExactly | internal/reconcile/reconciler.go:142-149 | a transaction that fails at a given call can leave calls on the candidate to its rollback if and only if that call comes after the swap, up to the commit itself |
| LiveReplacement.StrandedCall | run/live_application_runtime.go:170-191 | for each such call, a transaction that is rolled back with a call out on the candidate, which was told to shut down |
| LiveReplacement.ServesStoppedExactly | internal/reconcile/reconciler.go:191-194 | the runtime that is served in the end was told to shut down if and only if it is Commit that failed |
| LiveReplacement.LateFailures | internal/reconcile/reconciler.go:191-200 | worlds in which Commit fails, and in which only the last record fails and the replacement stands |
| LiveReplacement.RolledBackOnce | internal/reconcile/reconciler.go:142-149 | rollback happens exactly once, told the stage of the failed call, in every started transaction that does not commit, and in no other |
| LiveReplacement.RecordsExactly | internal/reconcile/reconciler.go:121-201 | a transaction begins by recording that it has started; it writes that it has committed exactly if the replacement stands and no failure is reported, records a rollback, as its last call, exactly if there was one, and no other record is final |
| LiveReplacement.LeftOpenExactly | internal/reconcile/reconciler.go:142-200 | a transaction is left on record as started and not ended exactly if the record of its rollback, or the one of its commit, could not be written |
| LiveReplacement.StagesInOrder | internal/reconcile/reconciler.go:151-194 | the seven stages are entered in the order of the design, each only after the success of the one before is on record |
| LiveReplacement.SameThings | internal/reconcile/reconciler.go:142-194 | all stages work on the old runtime, on the one that Prepare returned and with the snapshot that Snapshot returned; so do the rollback and the records |
| LiveReplacement.ShutDownExactly | run/live_application_runtime.go:170-200 | the old runtime is told to shut down exactly if Commit is entered, the candidate exactly if one was made and does not replace it |
| Journals.FileJournal.Load | internal/reconcile/file_journal.go:55-87 | succeeds exactly if every complete line is readable and continues the chain; keeps those entries and drops a torn last line |
| Journals.FileJournal.Record | internal/reconcile/file_journal.go:95-114 | on success file and memory grow by the next entry of the chain; on failure memory is unchanged and the file holds a part of the line |
| Journals.FileJournal.RecoveryState | internal/reconcile/file_journal.go:138-163 | the last entries of the transactions that never ended, latest first, and the last commit |
| Journals.AppendedIsLoaded | internal/reconcile/file_journal.go:95-114 | a record appended to a sound journal is read back after it |
| Journals.CrashRecovery | internal/reconcile/file_journal.go:55-87 | cut at any byte, a journal gives back exactly the entries whose lines end before the cut |
| Journals.RunIsLoaded | internal/reconcile/file_journal.go:95-114 | what any run of successful records writes is read back whole |
| Journals.CrashThenContinue | internal/reconcile/file_journal.go:55-114 | after any run and any cut, the repaired file is that of a shorter run, and whatever is recorded then reloads whole |
| Journals.LastHashPinsJournal | internal/reconcile/file_journal.go:74-79 | two chains that end in the same hash are the same, entry by entry, unless two different entries at one place from the end have one digest |
| Journals.SameHashSameEntries | internal/reconcile/file_journal.go:55-87 | so two files that load with the same last hash load the same entries |
| Journals.InterruptedExactly | internal/reconcile/file_journal.go:138-163 | a transaction is listed, and then once, if and only if it was recorded and has no committed or rolled-back record |
| Journals.TransactionRecovers | internal/reconcile/file_journal.go:138-163 | when the written records of a transaction close the journal, it is listed as interrupted exactly if its start was written and neither its commit nor its rollback was, it is the last commit exactly if its commit was written, and about every other transaction the answer is as before |
| Journals.LoadedIsNumbered | internal/reconcile/file_journal.go:74-79 | what can be opened is numbered from 1, and every entry holds the hash of the one before it and its own digest |
| Journals.FailedRecordReloads | internal/reconcile/file_journal.go:55-110 | whatever part of its line a failed record left, the journal opens again: with the record if the line is whole, else without |
| Journals.ReloadsExactly | internal/reconcile/file_journal.go:105-113 | if a record that succeeds follows one that failed and left nothing or all of its line, the journal opens again if and only if nothing was left |
| EventDelivery.StepConserves | run/run.go:1217-1227 | every step keeps the law that each hand-off is queued, held or finalized, once |
| EventDelivery.StepAccounts | run/run.go:1162-1211 | every step keeps the account of events that are handed off, in delivery or dropped |
| EventDelivery.StepPhases | run/run.go:1075-1100 | every step but the launch of a loop after the loops were joined keeps it that queues are only emptied for good once nobody can fill them |
| EventDelivery.NeverTwice | run/run.go:1152-1477 | in every run nothing is finalized twice, and nothing that was not handed off |
| EventDelivery.EveryEventFinalizedOnce | run/run.go:1075-1100 | when the host is done and no cell was reloaded after the loops were joined, every hand-off has been finalized exactly once and so has every event that reached no cell |
| EventDelivery.FinalizesExactly | run/ops.go:251-345 | for any number of cells, capacity and set of cells that may be reloaded after the loops were joined: everything is finalized in every run when the host is done if and only if the set names no cell, or the queues have no room |
| EventDelivery.OvertakenIsRun | run/ops.go:345 | for any number of cells, a run from the start to the end of the host in which a reload launches a loop late and the event this loop takes is not finalized |
| EventDelivery.BroadcastReachesLiveCells | run/run.go:1191-1210 | in every run, whatever happens between: a broadcast is offered to every target once, in order, and has been sent to exactly those that were live when it was offered to them |
| EventDelivery.PolledDirect | run/run.go:1177-1188 | an event for one cell is dropped at once if the cell is unknown or failed, and else is to be handed to that cell alone |
| EventDelivery.HandedOff | run/run.go:1217-1227 | a hand-off goes to the tail of the queue, or is finalized if there is no room; the queues of other cells stay as they are |
| EventDelivery.NobodyStopsUnasked | run/run.go:1152-1172 | in every run a step loop has ended only if its cell was cancelled or has failed, and a pollster is gone only if the host stops |
| EventDelivery.QueuesAreBounded | run/run.go:1217-1227 | in every run queues keep their bound, and what a cell holds was sent to it |
| EventDelivery.SteadyCellsKeepOrder | run/run.go:1330-1360 | in every run a cell that only reacts to events, or whose queue has room for one, handles events in the order of the hand-offs |
| EventDelivery.KeepsOrderExactly | run/run.go:1330-1475 | a cell handles its events in the order of the hand-offs in every run if and only if it does not idle or its queue has room for no more than one |
| EventDelivery.ReorderedIsRun | run/run.go:1453-1469 | a run from the start in which the idle branch puts an event back behind a later one, which is handled first |
| EventDelivery.CellRuntime.TakeTurn | run/run.go:1327-1476 | given what other threads do meanwhile: an event-only cell blocks exactly if it has nothing to do, and else stops or handles the first event; a cell that idles does so exactly if it has nothing to do, and then stops, puts the event that woke it at the tail (or finalizes it if the queue is full by then), or does nothing, on the timer alone |
| EventDelivery.CellRuntime.Select | run/run.go:1333-1410 | the first select: which way it went, and that an event it received is taken off the head, handled and finalized |
| EventDelivery.CellRuntime.IdleWait | run/run.go:1446-1474 | the second select: stopped, woken by an event that goes to the tail or is finalized, or timed out without any effect |
| EventDelivery.TurnIsSteps | run/run.go:1327-1476 | whatever a select and what follows it do to the cell, at most two steps of that cell do in the system |
| EventDelivery.CellRuntime.Drain | run/ops.go:118-134 | everything queued is finalized, in order |
| EventDelivery.DrainIsSteps | run/ops.go:118-134 | in the system a drain is one step for every queued event, with the same result |
| Scopes.Encode | ext/scope.go:215-225 | the builder loop writes the framed parts separated by bars |
| Scopes.EncodedInjective | ext/scope.go:121-129 | different lists of parts have different encodings, whatever the parts contain |
| Scopes.RoutingIDInjective | ext/scope.go:114-130 | distinct scopes have distinct routing identities |
| Scopes.RoutingIDSpelled | ext/scope.go:114-130 | the format of the routing identity, part by part |
| Scopes.ResourceKeyInjective | ext/scope.go:208-225 | distinct resource keys have distinct texts |
| Scopes.SharedTargetExactly | ext/scope.go:91-147 | two cells share a routing target exactly if both have a scope of their own and it is the same, or neither has and their names are equal, or the name of one spells the scope of the other; a cell has a scope of its own if no field is blank or holds a NUL, unless it is the default instance of "legacy" |

## Left out

- WASM execution, guest memory, HTTP, the gateway, the control socket, the command line and signals: input and output around the cores.
- TOML, JSON, MessagePack, archives and text edits of manifests: parsed records are taken as input.
- SHA-256 and Ed25519: digests are an arbitrary function, and nothing is assumed of it.
- Solver.Solve: does not model a search that is cut short because its context is cancelled.
- Scheduler.Execute: does not model a context that is already cancelled on entry or found cancelled at the end; cancellation in between is covered as failure of the workers.
- A nil lock, plan or runner, which are refused at once; a missing recorder behaves like one that never fails.
- Other fields of manifests, hosted applications and journal records: carried along without being looked at.
- The identity of cache entries: a reference to an entry is its position in the list of all entries ever made.
- A waiter in the cache that gives up because its context ends: it may leave at any time, so also when the entry is ready.
- EventDelivery.TurnIsSteps: the two selects of a turn one by one, with no other thread inside one of them; interleavings inside are in the steps of `EventDelivery.Next`.
- The stages of a handling step inside the guest, and the re-instantiation of a crashed cell by its loop: the event is finalized either way.
- Wall-clock time: timeouts, restart windows and idle pacing are arbitrary choices.
- The contents of live snapshots and the provider access that is switched with the router: a snapshot is a token that is passed on.
- Journal strings that are not valid UTF-8: the encoding is assumed to be read back unchanged.
- Journals.FileJournal.Record: does not model the 64-bit wrap-around of sequence numbers.
- Journals.ReloadsExactly: says nothing about a partial line that a failed write leaves behind and another record continues, because whether the joined line is readable depends on the encoding.
- A guest step that never returns: assumed not to happen.
- The list of stopped cells: the model lets any cell be reloaded, since a shutdown can begin after a reload has looked at the list.
- What happens to an event after the last drain: finalization is stated for the moment at which the host is done with it, not for the end of the process.
- The order of equal elements under an unstable sort: sorting is known only by its contract, a sorted permutation.
- The fusion builder, product assembly, provider selection, placement grants and endpoint registry: mostly validation branches.
