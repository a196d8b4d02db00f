/** Execute: bounded-parallel execution of a plan under any order of completion. */
module Scheduler {
  import opened Finite
  import opened Lexicographic
  import opened Graphs
  import opened Plans
  import opened PlanFacts

  /** What the workers do, in the order the scheduler launches and hears of it. */
  datatype Event = Started(id: string) | Finished(id: string, ok: bool)

  ghost function StartedIn(log: seq<Event>): set<string> { set e | e in log && e.Started? :: e.id }

  ghost function SucceededIn(log: seq<Event>): set<string> { set e | e in log && e.Finished? && e.ok :: e.id }

  ghost function FailedIn(log: seq<Event>): set<string> { set e | e in log && e.Finished? && !e.ok :: e.id }

  ghost function RunningIn(log: seq<Event>): set<string> { StartedIn(log) - SucceededIn(log) - FailedIn(log) }

  /** Not started, and every dependency succeeded. */
  ghost function Startable(plan: Plan, log: seq<Event>): set<string>
  {
    (set x | x in plan.nodes && PlanGraph(plan)[x] <= SucceededIn(log)) - StartedIn(log)
  }

  /** What may happen next: a start only of the first startable node, below the
      limit, before any failure; a completion of any running node, awaited only
      when nothing can be started. */
  ghost predicate MayFollow(plan: Plan, limit: nat, log: seq<Event>, e: Event)
  {
    match e
    case Started(x) =>
      && x in Startable(plan, log) && FailedIn(log) == {} && |RunningIn(log)| < limit
      && (forall y :: y in Startable(plan, log) ==> plan.nodes[x].ordinal <= plan.nodes[y].ordinal)
    case Finished(x, _) =>
      && x in RunningIn(log)
      && (FailedIn(log) != {} || |RunningIn(log)| == limit || Startable(plan, log) == {})
  }

  ghost predicate Legal(plan: Plan, limit: nat, log: seq<Event>)
  {
    forall i :: 0 <= i < |log| ==> MayFollow(plan, limit, log[..i], log[i])
  }

  function Limit(plan: Plan, maxParallel: int): nat
  {
    if maxParallel <= 0 || maxParallel > |plan.startOrder| then |plan.startOrder| else maxParallel
  }

  /** The roots are listed by ordinal, as Build lists them. */
  ghost predicate RootsInOrder(plan: Plan)
  {
    forall i, j :: 0 <= i < j < |plan.startOrder| &&
                   plan.startOrder[i] in plan.nodes && plan.startOrder[j] in plan.nodes &&
                   plan.nodes[plan.startOrder[i]].dependsOn == [] && plan.nodes[plan.startOrder[j]].dependsOn == [] ==>
      plan.nodes[plan.startOrder[i]].ordinal < plan.nodes[plan.startOrder[j]].ordinal
  }

  // ------------------------------------------------------------- the algorithm

  function OrdinalOf(plan: Plan, x: string): nat { if x in plan.nodes then plan.nodes[x].ordinal else 0 }

  predicate NotAfter(plan: Plan, x: string, y: string) { OrdinalOf(plan, x) <= OrdinalOf(plan, y) }

  lemma {:induction false} NotAfterIsTotal(plan: Plan)
    ensures TotalPreorder((x: string, y: string) => NotAfter(plan, x, y))
  {
  }

  /** The queue by ordinal. */
  method SortQueue(plan: Plan, queue: seq<string>) returns (sorted: seq<string>)
    requires Distinct(queue)
    ensures Distinct(sorted) && Elements(sorted) == Elements(queue) && ByOrdinal(plan, sorted)
  {
    var le := (x: string, y: string) => NotAfter(plan, x, y);
    NotAfterIsTotal(plan);
    sorted := Sort(le, queue);
    PermutationFacts(queue, sorted);
    forall i, j | 0 <= i < j < |sorted| ensures OrdinalOf(plan, sorted[i]) <= OrdinalOf(plan, sorted[j]) { assert le(sorted[i], sorted[j]); }
  }

  ghost predicate ByOrdinal(plan: Plan, a: seq<string>)
  {
    forall i, j :: 0 <= i < j < |a| ==> OrdinalOf(plan, a[i]) <= OrdinalOf(plan, a[j])
  }

  /** The bookkeeping matches the log. Once something failed, the queue and the
      counters are abandoned. */
  ghost predicate Tracks(plan: Plan, limit: nat, log: seq<Event>, running: set<string>, queue: seq<string>,
                         remaining: map<string, nat>, completed: set<string>, failures: set<string>)
  {
    && Legal(plan, limit, log)
    && Flow(plan, limit, log, running, completed, failures)
    && (failures == {} ==> Queued(plan, log, queue, remaining))
  }

  ghost predicate Flow(plan: Plan, limit: nat, log: seq<Event>, running: set<string>, completed: set<string>, failures: set<string>)
  {
    && running == RunningIn(log) && completed == SucceededIn(log) && failures == FailedIn(log)
    && StartedIn(log) <= plan.nodes.Keys && SucceededIn(log) <= StartedIn(log) && FailedIn(log) <= StartedIn(log)
    && SucceededIn(log) !! FailedIn(log) && |running| <= limit
  }

  lemma {:induction false} FlowStart(plan: Plan, limit: nat, log: seq<Event>, running: set<string>, completed: set<string>,
                                     failures: set<string>, x: string)
    requires Flow(plan, limit, log, running, completed, failures) && x in plan.nodes && x !in StartedIn(log) && |running| < limit
    ensures x !in running && Flow(plan, limit, log + [Started(x)], running + {x}, completed, failures)
  {
    hide StartedIn, SucceededIn, FailedIn;
    Appended(log, Started(x));
  }

  lemma {:induction false} FlowFinish(plan: Plan, limit: nat, log: seq<Event>, running: set<string>, completed: set<string>,
                                      failures: set<string>, x: string, ok: bool)
    requires Flow(plan, limit, log, running, completed, failures) && x in running
    ensures Flow(plan, limit, log + [Finished(x, ok)], running - {x},
                 if ok then completed + {x} else completed, if ok then failures else failures + {x})
  {
    hide StartedIn, SucceededIn, FailedIn;
    Appended(log, Finished(x, ok));
    SubsetSize(running - {x}, running);
  }

  ghost predicate Queued(plan: Plan, log: seq<Event>, queue: seq<string>, remaining: map<string, nat>)
  {
    && Distinct(queue) && Elements(queue) == Startable(plan, log) && ByOrdinal(plan, queue)
    && Counted(plan, SucceededIn(log), remaining)
  }

  ghost predicate Counted(plan: Plan, succeeded: set<string>, remaining: map<string, nat>)
  {
    forall x :: x in plan.nodes ==> x in remaining && remaining[x] == |PlanGraph(plan)[x] - succeeded|
  }

  lemma {:induction false} Appended(log: seq<Event>, e: Event)
    ensures StartedIn(log + [e]) == StartedIn(log) + if e.Started? then {e.id} else {}
    ensures SucceededIn(log + [e]) == SucceededIn(log) + if e.Finished? && e.ok then {e.id} else {}
    ensures FailedIn(log + [e]) == FailedIn(log) + if e.Finished? && !e.ok then {e.id} else {}
  {
    var more := log + [e];
    assert forall x :: x in more <==> x in log || x == e;
    assert e in more;
  }

  lemma {:induction false} LegalAppend(plan: Plan, limit: nat, log: seq<Event>, e: Event)
    requires Legal(plan, limit, log) && MayFollow(plan, limit, log, e)
    ensures Legal(plan, limit, log + [e])
  {
    hide MayFollow;
    var more := log + [e];
    forall i | 0 <= i < |more| ensures MayFollow(plan, limit, more[..i], more[i]) {
      if i < |log| { assert more[..i] == log[..i]; } else { assert more[..i] == log; }
    }
  }

  /** launch: the head of the queue starts. */
  lemma {:induction false} Launched(plan: Plan, limit: nat, log: seq<Event>, running: set<string>, queue: seq<string>,
                                    remaining: map<string, nat>, completed: set<string>, failures: set<string>)
    requires Tracks(plan, limit, log, running, queue, remaining, completed, failures)
    requires failures == {} && |running| < limit && queue != []
    ensures queue[0] in plan.nodes && queue[0] !in StartedIn(log) && queue[0] !in running
    ensures Tracks(plan, limit, log + [Started(queue[0])], running + {queue[0]}, queue[1..], remaining, completed, failures)
  {
    hide *;
    var x, e := queue[0], Started(queue[0]);
    Parts(plan, limit, log, running, queue, remaining, completed, failures);
    HeadMayStart(plan, limit, log, running, queue, remaining, completed, failures);
    LegalAppend(plan, limit, log, e);
    FlowStart(plan, limit, log, running, completed, failures, x);
    QueueLaunched(plan, log, queue, remaining);
    Whole(plan, limit, log + [e], running + {x}, queue[1..], remaining, completed, failures);
  }

  lemma {:induction false} Parts(plan: Plan, limit: nat, log: seq<Event>, running: set<string>, queue: seq<string>,
                                 remaining: map<string, nat>, completed: set<string>, failures: set<string>)
    requires Tracks(plan, limit, log, running, queue, remaining, completed, failures)
    ensures Legal(plan, limit, log) && Flow(plan, limit, log, running, completed, failures)
    ensures failures == {} ==> Queued(plan, log, queue, remaining)
  {
    hide Legal, Flow, Queued;
  }

  lemma {:induction false} Whole(plan: Plan, limit: nat, log: seq<Event>, running: set<string>, queue: seq<string>,
                                 remaining: map<string, nat>, completed: set<string>, failures: set<string>)
    requires Legal(plan, limit, log) && Flow(plan, limit, log, running, completed, failures)
    requires failures == {} ==> Queued(plan, log, queue, remaining)
    ensures Tracks(plan, limit, log, running, queue, remaining, completed, failures)
  {
    hide Legal, Flow, Queued;
  }

  lemma {:induction false} HeadMayStart(plan: Plan, limit: nat, log: seq<Event>, running: set<string>, queue: seq<string>,
                                        remaining: map<string, nat>, completed: set<string>, failures: set<string>)
    requires Flow(plan, limit, log, running, completed, failures) && Queued(plan, log, queue, remaining)
    requires failures == {} && |running| < limit && queue != []
    ensures MayFollow(plan, limit, log, Started(queue[0])) && queue[0] in plan.nodes && queue[0] !in StartedIn(log)
  {
    hide StartedIn, SucceededIn, FailedIn, Counted, PlanGraph;
    assert queue[0] in Elements(queue);
    forall y | y in Startable(plan, log) ensures plan.nodes[queue[0]].ordinal <= plan.nodes[y].ordinal {
      assert y in Elements(queue);
      var j :| 0 <= j < |queue| && queue[j] == y;
      assert j > 0 ==> OrdinalOf(plan, queue[0]) <= OrdinalOf(plan, queue[j]);
    }
  }

  lemma {:induction false} QueueLaunched(plan: Plan, log: seq<Event>, queue: seq<string>, remaining: map<string, nat>)
    requires Queued(plan, log, queue, remaining) && queue != []
    ensures Queued(plan, log + [Started(queue[0])], queue[1..], remaining)
  {
    hide StartedIn, SucceededIn, FailedIn, Counted, PlanGraph, Distinct, ByOrdinal, Elements;
    Appended(log, Started(queue[0]));
    QueueTail(plan, queue);
    assert SucceededIn(log + [Started(queue[0])]) == SucceededIn(log);
    assert Startable(plan, log + [Started(queue[0])]) == Startable(plan, log) - {queue[0]};
  }

  lemma {:induction false} QueueTail(plan: Plan, queue: seq<string>)
    requires queue != [] && Distinct(queue) && ByOrdinal(plan, queue)
    ensures Distinct(queue[1..]) && ByOrdinal(plan, queue[1..]) && Elements(queue[1..]) == Elements(queue) - {queue[0]}
  {
    assert queue == [queue[0]] + queue[1..];
    forall x | x in queue[1..] ensures x != queue[0] {
      var j :| 0 <= j < |queue[1..]| && queue[1..][j] == x;
      assert queue[j + 1] == x;
    }
  }

  /** A completion is awaited only when nothing can be launched. */
  ghost predicate Blocked(limit: nat, running: set<string>, queue: seq<string>, failures: set<string>)
  {
    failures != {} || |running| == limit || queue == []
  }

  lemma {:induction false} MayFinish(plan: Plan, limit: nat, log: seq<Event>, running: set<string>, queue: seq<string>,
                                     remaining: map<string, nat>, completed: set<string>, failures: set<string>, x: string, ok: bool)
    requires Tracks(plan, limit, log, running, queue, remaining, completed, failures)
    requires x in running && Blocked(limit, running, queue, failures)
    ensures MayFollow(plan, limit, log, Finished(x, ok))
  {
    hide Legal, Counted, Startable, StartedIn, SucceededIn, FailedIn;
    if queue == [] { assert Elements(queue) == {}; }
  }

  lemma {:induction false} FinishedBadly(plan: Plan, limit: nat, log: seq<Event>, running: set<string>, queue: seq<string>,
                                         remaining: map<string, nat>, completed: set<string>, failures: set<string>, x: string)
    requires Tracks(plan, limit, log, running, queue, remaining, completed, failures)
    requires x in running && Blocked(limit, running, queue, failures)
    ensures Tracks(plan, limit, log + [Finished(x, false)], running - {x}, queue, remaining, completed, failures + {x})
  {
    hide *;
    MayFinish(plan, limit, log, running, queue, remaining, completed, failures, x, false);
    Parts(plan, limit, log, running, queue, remaining, completed, failures);
    LegalAppend(plan, limit, log, Finished(x, false));
    FlowFinish(plan, limit, log, running, completed, failures, x, false);
    assert x in failures + {x};
    Whole(plan, limit, log + [Finished(x, false)], running - {x}, queue, remaining, completed, failures + {x});
  }

  /** A success: the counters go down, the nodes that reach zero join the queue. */
  lemma {:induction false} FinishedWell(plan: Plan, limit: nat, log: seq<Event>, running: set<string>, queue: seq<string>,
                                        remaining: map<string, nat>, completed: set<string>, failures: set<string>, x: string,
                                        queue': seq<string>, remaining': map<string, nat>)
    requires Tracks(plan, limit, log, running, queue, remaining, completed, failures)
    requires x in running && Blocked(limit, running, queue, failures)
    requires failures == {} ==>
      && Counted(plan, completed + {x}, remaining') && Distinct(queue') && ByOrdinal(plan, queue')
      && Elements(queue') == Elements(queue) + Freed(plan, completed, x)
    ensures Tracks(plan, limit, log + [Finished(x, true)], running - {x}, queue', remaining', completed + {x}, failures)
  {
    hide *;
    MayFinish(plan, limit, log, running, queue, remaining, completed, failures, x, true);
    Parts(plan, limit, log, running, queue, remaining, completed, failures);
    LegalAppend(plan, limit, log, Finished(x, true));
    FlowFinish(plan, limit, log, running, completed, failures, x, true);
    if failures == {} { QueueFreed(plan, limit, log, running, queue, remaining, completed, failures, x, queue', remaining'); }
    Whole(plan, limit, log + [Finished(x, true)], running - {x}, queue', remaining', completed + {x}, failures);
  }

  lemma {:induction false} QueueFreed(plan: Plan, limit: nat, log: seq<Event>, running: set<string>, queue: seq<string>,
                                      remaining: map<string, nat>, completed: set<string>, failures: set<string>, x: string,
                                      queue': seq<string>, remaining': map<string, nat>)
    requires Legal(plan, limit, log) && Flow(plan, limit, log, running, completed, failures) && Queued(plan, log, queue, remaining)
    requires x in running
    requires Counted(plan, completed + {x}, remaining') && Distinct(queue') && ByOrdinal(plan, queue')
    requires Elements(queue') == Elements(queue) + Freed(plan, completed, x)
    ensures Queued(plan, log + [Finished(x, true)], queue', remaining')
  {
    hide Legal, Counted, ByOrdinal, Distinct, Elements, Freed, Startable, StartedIn, SucceededIn, FailedIn;
    FreedJoin(plan, limit, log, running, completed, x);
    Appended(log, Finished(x, true));
  }

  /** The nodes whose last missing dependency is x. */
  ghost function Freed(plan: Plan, succeeded: set<string>, x: string): set<string>
  {
    set y | y in plan.nodes && x in PlanGraph(plan)[y] && PlanGraph(plan)[y] <= succeeded + {x}
  }

  /** A started node had all its dependencies done, so nothing freed was started. */
  lemma {:induction false} FreedJoin(plan: Plan, limit: nat, log: seq<Event>, running: set<string>, completed: set<string>, x: string)
    requires Legal(plan, limit, log) && completed == SucceededIn(log) && x !in completed
    ensures Startable(plan, log + [Finished(x, true)]) == Startable(plan, log) + Freed(plan, completed, x)
  {
    hide MayFollow, PlanGraph;
    Appended(log, Finished(x, true));
    forall y | y in Freed(plan, completed, x) ensures y !in StartedIn(log) {
      if y in StartedIn(log) {
        StartedHadDependencies(plan, limit, log, y);
      }
    }
  }

  lemma {:induction false} StartedHadDependencies(plan: Plan, limit: nat, log: seq<Event>, y: string)
    requires Legal(plan, limit, log) && y in StartedIn(log)
    ensures y in plan.nodes && PlanGraph(plan)[y] <= SucceededIn(log)
  {
    hide PlanGraph;
    var i :| 0 <= i < |log| && log[i] == Started(y);
    assert MayFollow(plan, limit, log[..i], log[i]);
    Earlier(log, i);
  }

  lemma {:induction false} Earlier(log: seq<Event>, i: nat)
    requires i <= |log|
    ensures StartedIn(log[..i]) <= StartedIn(log) && SucceededIn(log[..i]) <= SucceededIn(log) && FailedIn(log[..i]) <= FailedIn(log)
  {
    assert forall e :: e in log[..i] ==> e in log;
  }

  /** The loop over the dependents of a node that succeeded. */
  method CountDown(plan: Plan, x: string, queue0: seq<string>, remaining0: map<string, nat>, ghost succeeded: set<string>)
    returns (queue: seq<string>, remaining: map<string, nat>)
    requires Sound(plan) && x in plan.nodes && x !in succeeded && Counted(plan, succeeded, remaining0) && Distinct(queue0)
    requires Freed(plan, succeeded, x) !! Elements(queue0)
    ensures Counted(plan, succeeded + {x}, remaining)
    ensures Distinct(queue) && Elements(queue) == Elements(queue0) + Freed(plan, succeeded, x)
  {
    hide *;
    queue, remaining := queue0, remaining0;
    var dependents := plan.nodes[x].dependents;
    CountingNone(plan, x, queue0, remaining0, succeeded);
    for j := 0 to |dependents|
      invariant Counting(plan, x, j, queue0, queue, remaining, succeeded)
    {
      var y := dependents[j];
      CountingOneMore(plan, x, j, queue0, queue, remaining, succeeded);
      remaining := remaining[y := remaining[y] - 1];
      if remaining[y] == 0 { queue := queue + [y]; }
    }
    CountingAll(plan, x, queue0, queue, remaining, succeeded);
  }

  /** The first j dependents of x are counted down. */
  ghost predicate Counting(plan: Plan, x: string, j: nat, queue0: seq<string>, queue: seq<string>,
                           remaining: map<string, nat>, succeeded: set<string>)
    requires x in plan.nodes && j <= |plan.nodes[x].dependents|
  {
    var done := Elements(plan.nodes[x].dependents[..j]);
    && (forall y :: y in plan.nodes ==> y in remaining)
    && (forall y :: y in plan.nodes ==>
          remaining[y] == if y in done then |PlanGraph(plan)[y] - (succeeded + {x})| else |PlanGraph(plan)[y] - succeeded|)
    && Distinct(queue) && Elements(queue) == Elements(queue0) + Freed(plan, succeeded, x) * done
  }

  lemma {:induction false} CountingNone(plan: Plan, x: string, queue0: seq<string>, remaining0: map<string, nat>, succeeded: set<string>)
    requires x in plan.nodes && Counted(plan, succeeded, remaining0) && Distinct(queue0)
    ensures Counting(plan, x, 0, queue0, queue0, remaining0, succeeded)
  {
    hide PlanGraph, Freed;
    assert Elements(plan.nodes[x].dependents[..0]) == {};
  }

  lemma {:induction false} CountingOneMore(plan: Plan, x: string, j: nat, queue0: seq<string>, queue: seq<string>,
                                           remaining: map<string, nat>, succeeded: set<string>)
    requires Sound(plan) && x in plan.nodes && j < |plan.nodes[x].dependents| && x !in succeeded
    requires Freed(plan, succeeded, x) !! Elements(queue0)
    requires Counting(plan, x, j, queue0, queue, remaining, succeeded)
    ensures var y := plan.nodes[x].dependents[j];
            && y in remaining && remaining[y] > 0
            && Counting(plan, x, j + 1, queue0, if remaining[y] == 1 then queue + [y] else queue, remaining[y := remaining[y] - 1], succeeded)
  {
    hide Sound, PlanGraph, Distinct, Elements, Freed;
    var dependents := plan.nodes[x].dependents;
    var y, done := dependents[j], Elements(dependents[..j]);
    DependentFacts(plan, x, j);
    OneLess(PlanGraph(plan)[y], succeeded, x);
    assert dependents[..j + 1] == dependents[..j] + [y];
    ElementsAppend(dependents[..j], y);
    FreedNow(plan, succeeded, x, y);
    if remaining[y] == 1 {
      DistinctAppend(queue, y);
      ElementsAppend(queue, y);
    }
  }

  lemma {:induction false} FreedNow(plan: Plan, succeeded: set<string>, x: string, y: string)
    requires y in plan.nodes && x in PlanGraph(plan)[y]
    ensures y in Freed(plan, succeeded, x) <==> PlanGraph(plan)[y] <= succeeded + {x}
  {
    hide PlanGraph;
  }

  lemma {:induction false} DependentFacts(plan: Plan, x: string, j: nat)
    requires Sound(plan) && x in plan.nodes && j < |plan.nodes[x].dependents|
    ensures var y := plan.nodes[x].dependents[j];
            y in plan.nodes && y in PlanGraph(plan) && x in PlanGraph(plan)[y] && y !in Elements(plan.nodes[x].dependents[..j])
  {
    var dependents := plan.nodes[x].dependents;
    assert dependents[j] in Elements(dependents);
  }

  lemma {:induction false} CountingAll(plan: Plan, x: string, queue0: seq<string>, queue: seq<string>,
                                       remaining: map<string, nat>, succeeded: set<string>)
    requires Sound(plan) && x in plan.nodes
    requires Counting(plan, x, |plan.nodes[x].dependents|, queue0, queue, remaining, succeeded)
    ensures Counted(plan, succeeded + {x}, remaining)
    ensures Distinct(queue) && Elements(queue) == Elements(queue0) + Freed(plan, succeeded, x)
  {
    hide TopologicalOrder;
    var dependents := plan.nodes[x].dependents;
    assert dependents[..|dependents|] == dependents;
    assert Freed(plan, succeeded, x) <= Elements(dependents);
    forall y | y in plan.nodes && y !in Elements(dependents)
      ensures PlanGraph(plan)[y] - (succeeded + {x}) == PlanGraph(plan)[y] - succeeded
    {
      assert x !in PlanGraph(plan)[y];
    }
  }

  /** The initial counters and the roots. */
  method Prepare(plan: Plan) returns (remaining: map<string, nat>, queue: seq<string>)
    requires Sound(plan) && RootsInOrder(plan)
    ensures Queued(plan, [], queue, remaining)
  {
    hide *;
    remaining, queue := map[], [];
    PreparedNone(plan);
    for i := 0 to |plan.startOrder|
      invariant Prepared(plan, i, remaining, queue)
    {
      var id := plan.startOrder[i];
      PreparedOneMore(plan, i, remaining, queue);
      remaining := remaining[id := |plan.nodes[id].dependsOn|];
      if |plan.nodes[id].dependsOn| == 0 { queue := queue + [id]; }
    }
    PreparedAll(plan, remaining, queue);
  }

  /** The first n nodes of the start order have counters; the roots among them are queued. */
  ghost predicate Prepared(plan: Plan, n: nat, remaining: map<string, nat>, queue: seq<string>)
    requires n <= |plan.startOrder|
  {
    PreparedCounters(plan, n, remaining) && PreparedRoots(plan, n, queue)
  }

  ghost predicate PreparedCounters(plan: Plan, n: nat, remaining: map<string, nat>)
    requires n <= |plan.startOrder|
  {
    forall k :: 0 <= k < n ==>
      var x := plan.startOrder[k];
      x in plan.nodes && x in remaining && remaining[x] == |PlanGraph(plan)[x] - {}|
  }

  /** Every queued node is a root at a place before n, and every such root is queued. */
  ghost predicate PreparedRoots(plan: Plan, n: nat, queue: seq<string>)
    requires n <= |plan.startOrder|
  {
    && Distinct(queue) && ByOrdinal(plan, queue)
    && (forall i :: 0 <= i < |queue| ==> RootBefore(plan, n, queue[i]))
    && (forall k :: 0 <= k < n && IsRoot(plan, plan.startOrder[k]) ==> plan.startOrder[k] in queue)
  }

  ghost predicate IsRoot(plan: Plan, x: string) { x in plan.nodes && plan.nodes[x].dependsOn == [] }

  ghost predicate RootBefore(plan: Plan, n: nat, x: string)
    requires n <= |plan.startOrder|
  {
    IsRoot(plan, x) && exists k :: 0 <= k < n && plan.startOrder[k] == x
  }

  lemma {:induction false} PreparedNone(plan: Plan)
    ensures Prepared(plan, 0, map[], [])
  {
  }

  lemma {:induction false} PreparedOneMore(plan: Plan, n: nat, remaining: map<string, nat>, queue: seq<string>)
    requires Sound(plan) && RootsInOrder(plan) && n < |plan.startOrder| && Prepared(plan, n, remaining, queue)
    ensures var x := plan.startOrder[n];
            x in plan.nodes &&
            Prepared(plan, n + 1, remaining[x := |plan.nodes[x].dependsOn|], if |plan.nodes[x].dependsOn| == 0 then queue + [x] else queue)
  {
    hide Sound, RootsInOrder, PreparedCounters, PreparedRoots, PlanGraph;
    var x := plan.startOrder[n];
    StartFacts(plan, n);
    CountersOneMore(plan, n, remaining);
    if |plan.nodes[x].dependsOn| == 0 { RootsOneMore(plan, n, queue); } else { RootsNoMore(plan, n, queue); }
  }

  lemma {:induction false} StartFacts(plan: Plan, n: nat)
    requires Sound(plan) && n < |plan.startOrder|
    ensures var x := plan.startOrder[n];
            x in plan.nodes && Distinct(plan.nodes[x].dependsOn) && |PlanGraph(plan)[x]| == |plan.nodes[x].dependsOn|
    ensures forall k :: 0 <= k < n ==> plan.startOrder[k] != plan.startOrder[n]
  {
    hide DepsFirst, DependentsOf;
    var x := plan.startOrder[n];
    assert x in Elements(plan.startOrder);
    DistinctSize(plan.nodes[x].dependsOn);
  }

  lemma {:induction false} CountersOneMore(plan: Plan, n: nat, remaining: map<string, nat>)
    requires n < |plan.startOrder| && PreparedCounters(plan, n, remaining)
    requires var x := plan.startOrder[n]; x in plan.nodes && |PlanGraph(plan)[x]| == |plan.nodes[x].dependsOn|
    ensures var x := plan.startOrder[n]; PreparedCounters(plan, n + 1, remaining[x := |plan.nodes[x].dependsOn|])
  {
    hide PlanGraph;
    var x := plan.startOrder[n];
    assert PlanGraph(plan)[x] - {} == PlanGraph(plan)[x];
  }

  lemma {:induction false} RootsOneMore(plan: Plan, n: nat, queue: seq<string>)
    requires RootsInOrder(plan) && n < |plan.startOrder| && PreparedRoots(plan, n, queue) && IsRoot(plan, plan.startOrder[n])
    requires forall k :: 0 <= k < n ==> plan.startOrder[k] != plan.startOrder[n]
    ensures PreparedRoots(plan, n + 1, queue + [plan.startOrder[n]])
  {
    hide IsRoot, RootsInOrder, OrdinalOf, Distinct, ByOrdinal;
    var x := plan.startOrder[n];
    forall i | 0 <= i < |queue| ensures queue[i] != x && RootBefore(plan, n + 1, queue[i]) && OrdinalOf(plan, queue[i]) <= OrdinalOf(plan, x) {
      assert RootBefore(plan, n, queue[i]);
      var k :| 0 <= k < n && plan.startOrder[k] == queue[i];
      EarlierRoot(plan, k, n);
    }
    assert RootBefore(plan, n + 1, x);
    assert x in queue + [x];
    QueueRoot(plan, queue, x);
  }

  lemma {:induction false} EarlierRoot(plan: Plan, k: nat, n: nat)
    requires RootsInOrder(plan) && k < n < |plan.startOrder| && IsRoot(plan, plan.startOrder[k]) && IsRoot(plan, plan.startOrder[n])
    ensures OrdinalOf(plan, plan.startOrder[k]) <= OrdinalOf(plan, plan.startOrder[n])
  {
  }

  lemma {:induction false} QueueRoot(plan: Plan, queue: seq<string>, x: string)
    requires Distinct(queue) && ByOrdinal(plan, queue)
    requires forall i :: 0 <= i < |queue| ==> queue[i] != x && OrdinalOf(plan, queue[i]) <= OrdinalOf(plan, x)
    ensures Distinct(queue + [x]) && ByOrdinal(plan, queue + [x])
  {
    hide OrdinalOf;
  }

  lemma {:induction false} RootsNoMore(plan: Plan, n: nat, queue: seq<string>)
    requires n < |plan.startOrder| && PreparedRoots(plan, n, queue) && !IsRoot(plan, plan.startOrder[n])
    ensures PreparedRoots(plan, n + 1, queue)
  {
    hide IsRoot, Distinct, ByOrdinal;
    forall i | 0 <= i < |queue| ensures RootBefore(plan, n + 1, queue[i]) { assert RootBefore(plan, n, queue[i]); }
  }

  lemma {:induction false} PreparedAll(plan: Plan, remaining: map<string, nat>, queue: seq<string>)
    requires Sound(plan) && Prepared(plan, |plan.startOrder|, remaining, queue)
    ensures Queued(plan, [], queue, remaining)
  {
    hide Sound, Distinct, ByOrdinal, PlanGraph, IsRoot, RootBefore, StartedIn, SucceededIn;
    assert StartedIn([]) == {} && SucceededIn([]) == {} by { NothingIn(); }
    forall x | x in plan.nodes ensures x in plan.startOrder && (PlanGraph(plan)[x] <= {} <==> IsRoot(plan, x)) { RootFacts(plan, x); }
    forall x | x in queue ensures IsRoot(plan, x) && x in plan.nodes { assert RootBefore(plan, |plan.startOrder|, x); RootMeans(plan, x); }
    assert Elements(queue) == Startable(plan, []);
  }

  lemma {:induction false} NothingIn()
    ensures StartedIn([]) == {} && SucceededIn([]) == {} && FailedIn([]) == {}
  {
  }

  lemma {:induction false} RootMeans(plan: Plan, x: string)
    requires RootBefore(plan, |plan.startOrder|, x)
    ensures IsRoot(plan, x) && x in plan.nodes
  {
  }

  lemma {:induction false} RootFacts(plan: Plan, x: string)
    requires Sound(plan) && x in plan.nodes
    ensures x in plan.startOrder && (PlanGraph(plan)[x] <= {} <==> IsRoot(plan, x))
  {
    hide DepsFirst, Distinct, DependentsOf;
    assert x in Elements(plan.startOrder);
    if plan.nodes[x].dependsOn != [] { assert plan.nodes[x].dependsOn[0] in PlanGraph(plan)[x]; }
  }

  lemma {:induction false} NothingYet(plan: Plan, limit: nat, queue: seq<string>, remaining: map<string, nat>)
    requires Queued(plan, [], queue, remaining)
    ensures Tracks(plan, limit, [], {}, queue, remaining, {}, {})
  {
    hide Queued;
    NothingIn();
  }

  /** The set of nodes that have not finished. */
  ghost function Unfinished(plan: Plan, completed: set<string>, failures: set<string>): set<string>
  {
    plan.nodes.Keys - completed - failures
  }

  lemma {:induction false} OneFewer(plan: Plan, limit: nat, log: seq<Event>, running: set<string>, completed: set<string>, failures: set<string>, x: string)
    requires Flow(plan, limit, log, running, completed, failures) && x in running
    ensures x in plan.nodes && x !in completed
    ensures Unfinished(plan, completed + {x}, failures) < Unfinished(plan, completed, failures)
    ensures Unfinished(plan, completed, failures + {x}) < Unfinished(plan, completed, failures)
  {
    hide StartedIn, SucceededIn, FailedIn;
    assert x in Unfinished(plan, completed, failures);
  }

  lemma {:induction false} LimitPositive(plan: Plan, maxParallel: int)
    requires Sound(plan)
    ensures Limit(plan, maxParallel) > 0
  {
  }

  /** Of the nodes that can be started, the first by ordinal is. */
  lemma {:induction false} FirstStarts(plan: Plan, limit: nat, log: seq<Event>, i: nat, y: string)
    requires Legal(plan, limit, log) && i < |log| && log[i].Started? && y in Startable(plan, log[..i])
    ensures y in plan.nodes && log[i].id in plan.nodes && plan.nodes[log[i].id].ordinal <= plan.nodes[y].ordinal
  {
    hide FailedIn, RunningIn, StartedIn, SucceededIn, PlanGraph;
    assert MayFollow(plan, limit, log[..i], log[i]);
  }

  /** What the limit amounts to, in terms of maxParallel. */
  lemma {:induction false} KeepsBusy(plan: Plan, maxParallel: int, log: seq<Event>)
    requires Sound(plan) && Legal(plan, Limit(plan, maxParallel), log)
    ensures 0 < maxParallel ==> forall n :: 0 <= n <= |log| ==> |RunningIn(log[..n])| <= maxParallel
    ensures forall i :: 0 <= i < |log| && log[i].Finished? && FailedIn(log[..i]) == {} ==>
              (0 < maxParallel == |RunningIn(log[..i])|) || Startable(plan, log[..i]) == {}
    ensures maxParallel <= 0 || |plan.nodes| < maxParallel ==>
              forall i :: 0 <= i < |log| && log[i].Finished? && FailedIn(log[..i]) == {} ==> Startable(plan, log[..i]) == {}
  {
    hide *;
    var limit := Limit(plan, maxParallel);
    LimitIs(plan, maxParallel);
    forall n | 0 <= n <= |log| ensures |RunningIn(log[..n])| <= limit { BoundedParallelism(plan, limit, log, n); }
    forall i | 0 <= i < |log| && log[i].Finished? && FailedIn(log[..i]) == {}
      ensures |RunningIn(log[..i])| == limit || Startable(plan, log[..i]) == {}
      ensures |RunningIn(log[..i])| == |plan.nodes| ==> Startable(plan, log[..i]) == {}
    {
      AwaitedWhen(plan, limit, log, i);
      StartedAreNodes(plan, limit, log, i);
      AllRunning(plan, log[..i]);
    }
  }

  lemma {:induction false} LimitIs(plan: Plan, maxParallel: int)
    requires Sound(plan)
    ensures Limit(plan, maxParallel) == if maxParallel <= 0 || |plan.nodes| < maxParallel then |plan.nodes| else maxParallel
  {
    hide DepsFirst, DependentsOf, Distinct;
    DistinctSize(plan.startOrder);
    assert |plan.nodes| == |plan.nodes.Keys|;
  }

  lemma {:induction false} AwaitedWhen(plan: Plan, limit: nat, log: seq<Event>, i: nat)
    requires Legal(plan, limit, log) && i < |log| && log[i].Finished? && FailedIn(log[..i]) == {}
    ensures |RunningIn(log[..i])| == limit || Startable(plan, log[..i]) == {}
  {
    hide FailedIn, RunningIn, Startable;
    assert MayFollow(plan, limit, log[..i], log[i]);
  }

  lemma {:induction false} StartedAreNodes(plan: Plan, limit: nat, log: seq<Event>, i: nat)
    requires Legal(plan, limit, log) && i <= |log|
    ensures StartedIn(log[..i]) <= plan.nodes.Keys
  {
    hide MayFollow, PlanGraph;
    forall x | x in StartedIn(log[..i]) ensures x in plan.nodes {
      var k :| 0 <= k < i && log[..i][k] == Started(x);
      assert log[k] == Started(x);
      StartsAfterDependencies(plan, limit, log, k, x);
    }
  }

  /** If every node runs there is nothing left to start. */
  lemma {:induction false} AllRunning(plan: Plan, log: seq<Event>)
    requires StartedIn(log) <= plan.nodes.Keys
    ensures |RunningIn(log)| == |plan.nodes| ==> Startable(plan, log) == {}
  {
    hide SucceededIn, FailedIn, StartedIn, PlanGraph;
    assert |plan.nodes| == |plan.nodes.Keys| && RunningIn(log) <= plan.nodes.Keys;
    if |RunningIn(log)| == |plan.nodes| { SubsetSize(RunningIn(log), plan.nodes.Keys); }
  }

  /** The main loop ends with every worker back; it never waits for nobody. */
  method Execute(plan: Plan, maxParallel: int) returns (ready: seq<string>, failures: set<string>, ghost log: seq<Event>)
    requires Sound(plan) && RootsInOrder(plan)
    ensures Legal(plan, Limit(plan, maxParallel), log) && RunningIn(log) == {}
    ensures ready == Filtered(plan.startOrder, SucceededIn(log)) && failures == FailedIn(log)
    ensures DepsFirst(PlanGraph(plan), ready) && Distinct(ready) && Elements(ready) !! failures
    ensures failures == {} ==> ready == plan.startOrder
    ensures failures == {} ==> StartedIn(log) == plan.nodes.Keys
    // of the nodes that can be started the first by ordinal is; never more than maxParallel at once; and nobody is waited for while another node could run
    ensures forall i, y :: 0 <= i < |log| && log[i].Started? && y in Startable(plan, log[..i]) ==>
              y in plan.nodes && log[i].id in plan.nodes && plan.nodes[log[i].id].ordinal <= plan.nodes[y].ordinal
    ensures 0 < maxParallel ==> forall n :: 0 <= n <= |log| ==> |RunningIn(log[..n])| <= maxParallel
    ensures forall i :: 0 <= i < |log| && log[i].Finished? && FailedIn(log[..i]) == {} ==>
              (0 < maxParallel == |RunningIn(log[..i])|) || Startable(plan, log[..i]) == {}
    ensures maxParallel <= 0 || |plan.nodes| < maxParallel ==>
              forall i :: 0 <= i < |log| && log[i].Finished? && FailedIn(log[..i]) == {} ==> Startable(plan, log[..i]) == {}
  {
    hide *;
    var limit := Limit(plan, maxParallel);
    LimitPositive(plan, maxParallel);
    var remaining, queue := Prepare(plan);
    var running: set<string>, completed: set<string> := {}, {};
    failures, log := {}, [];
    NothingYet(plan, limit, queue, remaining);
    while running != {} || (failures == {} && |queue| > 0)
      invariant Tracks(plan, limit, log, running, queue, remaining, completed, failures)
      decreases Unfinished(plan, completed, failures)
    {
      while failures == {} && |running| < limit && |queue| > 0
        invariant Tracks(plan, limit, log, running, queue, remaining, completed, failures)
        invariant running != {} || (failures == {} && |queue| > 0)
        decreases |queue|
      {
        Launched(plan, limit, log, running, queue, remaining, completed, failures);
        log, running, queue := log + [Started(queue[0])], running + {queue[0]}, queue[1..];
      }
      Parts(plan, limit, log, running, queue, remaining, completed, failures);
      BlockedHere(plan, limit, log, running, queue, completed, failures);
      var x :| x in running;
      var ok: bool := *;
      OneFewer(plan, limit, log, running, completed, failures, x);
      if !ok {
        FinishedBadly(plan, limit, log, running, queue, remaining, completed, failures, x);
        log, running, failures := log + [Finished(x, false)], running - {x}, failures + {x};
      } else {
        ghost var queue0, remaining0 := queue, remaining;
        if failures == {} {
          QueueFacts(plan, limit, log, running, queue, remaining, completed, failures, x);
          queue, remaining := CountDown(plan, x, queue, remaining, completed);
          queue := SortQueue(plan, queue);
        }
        FinishedWell(plan, limit, log, running, queue0, remaining0, completed, failures, x, queue, remaining);
        log, running, completed := log + [Finished(x, true)], running - {x}, completed + {x};
      }
    }
    ready := Ready(plan, completed);
    Done(plan, limit, log, running, queue, remaining, completed, failures);
    Parts(plan, limit, log, running, queue, remaining, completed, failures);
    KeepsBusy(plan, maxParallel, log);
    forall i, y | 0 <= i < |log| && log[i].Started? && y in Startable(plan, log[..i])
      ensures y in plan.nodes && log[i].id in plan.nodes && plan.nodes[log[i].id].ordinal <= plan.nodes[y].ordinal
    {
      FirstStarts(plan, limit, log, i, y);
    }
    ReadyIsOrdered(plan, limit, log, running, completed, failures);
  }

  /** The ready list has every node behind its dependencies, and no failed node. */
  lemma {:induction false} ReadyIsOrdered(plan: Plan, limit: nat, log: seq<Event>, running: set<string>, completed: set<string>, failures: set<string>)
    requires Sound(plan) && Legal(plan, limit, log) && Flow(plan, limit, log, running, completed, failures)
    ensures var ready := Filtered(plan.startOrder, completed);
            DepsFirst(PlanGraph(plan), ready) && Distinct(ready) && Elements(ready) !! failures
  {
    hide Sound, Legal, Filtered, PlanGraph, StartedIn, SucceededIn, FailedIn, RunningIn, DepsFirst;
    OrderListsNodes(plan);
    OrderIsDepsFirst(plan);
    FilteredDistinct(plan.startOrder, completed);
    FilteredElements(plan.startOrder, completed);
    forall x | x in completed && x in PlanGraph(plan) ensures PlanGraph(plan)[x] <= completed { CompletedIsClosed(plan, limit, log, x); }
    FilteredDepsFirst(PlanGraph(plan), plan.startOrder, completed);
  }

  lemma {:induction false} OrderIsDepsFirst(plan: Plan)
    requires Sound(plan)
    ensures DepsFirst(PlanGraph(plan), plan.startOrder)
  {
    hide DepsFirst, PlanGraph, Distinct, DependentsOf;
  }

  lemma {:induction false} CompletedIsClosed(plan: Plan, limit: nat, log: seq<Event>, x: string)
    requires Legal(plan, limit, log) && x in SucceededIn(log) && x in plan.nodes
    ensures PlanGraph(plan)[x] <= SucceededIn(log)
  {
    hide Legal, SucceededIn;
    forall d | d in PlanGraph(plan)[x] ensures d in SucceededIn(log) { ReadyIsClosed(plan, limit, log, x, d); }
  }

  /** Filtering by a closed set keeps dependencies first. */
  lemma {:induction false} FilteredDepsFirst(g: Graph, order: seq<string>, s: set<string>)
    requires DepsFirst(g, order) && forall x :: x in s && x in g ==> g[x] <= s
    ensures DepsFirst(g, Filtered(order, s))
  {
    if order != [] {
      var n := |order| - 1;
      var front := order[..n];
      assert forall i :: 0 <= i < n ==> front[i] == order[i] && front[..i] == order[..i];
      FilteredDepsFirst(g, front, s);
      FilteredElements(front, s);
      var part := Filtered(front, s);
      assert order[n] in g && g[order[n]] <= Elements(front);
      if order[n] in s {
        var more := part + [order[n]];
        assert Filtered(order, s) == more;
        forall i | 0 <= i < |more| ensures more[i] in g && g[more[i]] <= Elements(more[..i]) {
          assert more[..i] == part[..i];
          if i == |part| { assert more[..i] == part; } else { assert more[i] == part[i]; }
        }
      } else {
        assert Filtered(order, s) == part + [] == part;
      }
    }
  }

  lemma {:induction false} BlockedHere(plan: Plan, limit: nat, log: seq<Event>, running: set<string>, queue: seq<string>,
                                       completed: set<string>, failures: set<string>)
    requires Flow(plan, limit, log, running, completed, failures)
    requires !(failures == {} && |running| < limit && |queue| > 0) && limit > 0
    requires running != {} || (failures == {} && |queue| > 0)
    ensures Blocked(limit, running, queue, failures) && running != {}
  {
    assert |running| > 0 ==> running != {};
  }

  /** Nothing freed by x is in the queue already. */
  lemma {:induction false} QueueFacts(plan: Plan, limit: nat, log: seq<Event>, running: set<string>, queue: seq<string>,
                                      remaining: map<string, nat>, completed: set<string>, failures: set<string>, x: string)
    requires Tracks(plan, limit, log, running, queue, remaining, completed, failures) && failures == {} && x in running
    ensures Counted(plan, completed, remaining) && Distinct(queue) && Freed(plan, completed, x) !! Elements(queue)
  {
    hide Legal, Counted, ByOrdinal, Distinct, Elements, StartedIn, SucceededIn, FailedIn;
  }

  method Ready(plan: Plan, completed: set<string>) returns (ready: seq<string>)
    ensures ready == Filtered(plan.startOrder, completed)
  {
    ready := [];
    for i := 0 to |plan.startOrder|
      invariant ready == Filtered(plan.startOrder[..i], completed)
    {
      assert plan.startOrder[..i + 1][..i] == plan.startOrder[..i];
      if plan.startOrder[i] in completed { ready := ready + [plan.startOrder[i]]; }
    }
    assert plan.startOrder[..|plan.startOrder|] == plan.startOrder;
  }

  lemma {:induction false} Done(plan: Plan, limit: nat, log: seq<Event>, running: set<string>, queue: seq<string>,
                                remaining: map<string, nat>, completed: set<string>, failures: set<string>)
    requires Sound(plan) && Tracks(plan, limit, log, running, queue, remaining, completed, failures)
    requires running == {} && !(failures == {} && |queue| > 0)
    ensures Legal(plan, limit, log) && RunningIn(log) == {} && completed == SucceededIn(log) && failures == FailedIn(log)
    ensures failures == {} ==> Filtered(plan.startOrder, completed) == plan.startOrder && StartedIn(log) == plan.nodes.Keys
  {
    hide Legal, Counted, ByOrdinal, Distinct, Filtered, StartedIn, SucceededIn, FailedIn, DependentsOf;
    if failures == {} {
      assert Elements(queue) == {};
      EverythingSucceeds(plan, completed, StartedIn(log));
      FilteredAll(plan.startOrder, completed);
    }
  }

  /** If nothing can be started and nobody runs, everything has succeeded. */
  lemma {:induction false} EverythingSucceeds(plan: Plan, succeeded: set<string>, started: set<string>)
    requires Sound(plan) && started == succeeded
    requires (set x | x in plan.nodes && PlanGraph(plan)[x] <= succeeded) - started == {}
    ensures Elements(plan.startOrder) <= succeeded
  {
    hide Sound, PlanGraph;
    var order := plan.startOrder;
    for i := 0 to |order|
      invariant Elements(order[..i]) <= succeeded
    {
      assert order[..i + 1] == order[..i] + [order[i]];
      ElementsAppend(order[..i], order[i]);
      DependsEarlier(plan, i);
      NotStartable(plan, succeeded, started, order[i]);
    }
    assert order[..|order|] == order;
  }

  lemma {:induction false} NotStartable(plan: Plan, succeeded: set<string>, started: set<string>, x: string)
    requires (set y | y in plan.nodes && PlanGraph(plan)[y] <= succeeded) - started == {}
    requires x in plan.nodes && PlanGraph(plan)[x] <= succeeded
    ensures x in started
  {
    hide PlanGraph;
    var ready := set y | y in plan.nodes && PlanGraph(plan)[y] <= succeeded;
    assert x in ready;
    assert x in ready - started || x in started;
  }

  lemma {:induction false} DependsEarlier(plan: Plan, i: nat)
    requires Sound(plan) && i < |plan.startOrder|
    ensures plan.startOrder[i] in plan.nodes && PlanGraph(plan)[plan.startOrder[i]] <= Elements(plan.startOrder[..i])
  {
    hide Distinct, DependentsOf, Elements;
  }

  // ------------------------------------------- the plans that Build returns

  /** Execute takes every plan that Build returns. */
  lemma {:induction false} BuiltHasRootsInOrder(items: seq<Item>, plan: Plan)
    requires WellFormed(items) && Describes(items, plan)
    ensures RootsInOrder(plan)
  {
    hide WellFormed, Describes, IsRoot;
    RootsAre(plan);
    forall i, j | 0 <= i < j < |plan.startOrder| && IsRoot(plan, plan.startOrder[i]) && IsRoot(plan, plan.startOrder[j])
      ensures plan.nodes[plan.startOrder[i]].ordinal < plan.nodes[plan.startOrder[j]].ordinal
    {
      TwoRoots(items, plan, i, j);
    }
  }

  lemma {:induction false} RootsAre(plan: Plan)
    ensures forall x :: IsRoot(plan, x) <==> x in plan.nodes && plan.nodes[x].dependsOn == []
  {
  }

  lemma {:induction false} TwoRoots(items: seq<Item>, plan: Plan, i: nat, j: nat)
    requires WellFormed(items) && Describes(items, plan) && i < j < |plan.startOrder|
    requires IsRoot(plan, plan.startOrder[i]) && IsRoot(plan, plan.startOrder[j])
    ensures plan.startOrder[i] in plan.nodes && plan.startOrder[j] in plan.nodes
    ensures plan.nodes[plan.startOrder[i]].ordinal < plan.nodes[plan.startOrder[j]].ordinal
  {
    hide WellFormed, Describes, LevelSet, Flatten, InOrder, Increasing;
    var x, y := plan.startOrder[i], plan.startOrder[j];
    RootIsLevelZero(items, plan, x);
    RootIsLevelZero(items, plan, y);
    InFirstLevel(items, plan, i);
    InFirstLevel(items, plan, j);
    LevelIncreases(items, plan, 0, i, j);
    OrdinalOfNode(items, plan, x);
    OrdinalOfNode(items, plan, y);
  }

  lemma {:induction false} OrdinalOfNode(items: seq<Item>, plan: Plan, x: string)
    requires WellFormed(items) && Describes(items, plan) && x in plan.nodes
    ensures plan.nodes[x].ordinal == Ordinal(items, x)
  {
    hide LevelSet, Flatten, InOrder, LongestChain, TopologicalOrder, GraphOf;
    var k :| 0 <= k < |items| && items[k].id == x;
    assert NodeOf(items, k, plan.nodes[x]);
    OrdinalAt(items, k);
  }

  lemma {:induction false} RootIsLevelZero(items: seq<Item>, plan: Plan, x: string)
    requires WellFormed(items) && Describes(items, plan) && IsRoot(plan, x)
    ensures x in plan.nodes && plan.nodes[x].level == 0
  {
    hide LevelSet, Flatten, InOrder, TopologicalOrder, GraphOf;
    var k :| 0 <= k < |items| && items[k].id == x;
    assert NodeOf(items, k, plan.nodes[x]);
    GraphAt(items, k);
    var p :| Walk(GraphOf(items), p) && p[0] == x && |p| == plan.nodes[x].level + 1;
    assert |p| > 1 ==> Edge(GraphOf(items), p[0], p[1]);
  }

  lemma {:induction false} LevelIncreases(items: seq<Item>, plan: Plan, k: nat, i: nat, j: nat)
    requires WellFormed(items) && Describes(items, plan) && k < |plan.levels| && i < j < |plan.levels[k]|
    ensures Ordinal(items, plan.levels[k][i]) < Ordinal(items, plan.levels[k][j])
  {
    hide LevelSet, Flatten, InOrder, LongestChain, TopologicalOrder, GraphOf;
    assert plan.levels[k] == InOrder(items, LevelSet(plan, k));
    InOrderIncreasing(items, items, LevelSet(plan, k));
  }

  /** A node of level 0 in the start order sits in the first level. */
  lemma {:induction false} InFirstLevel(items: seq<Item>, plan: Plan, i: nat)
    requires WellFormed(items) && Describes(items, plan) && i < |plan.startOrder|
    requires plan.startOrder[i] in plan.nodes && plan.nodes[plan.startOrder[i]].level == 0
    ensures |plan.levels| > 0 && i < |plan.levels[0]| && plan.levels[0][i] == plan.startOrder[i]
  {
    hide InOrder, LongestChain, TopologicalOrder, GraphOf, Flatten;
    var m, n := FlattenAt(plan.levels, i);
    assert plan.levels[m] == InOrder(items, LevelSet(plan, m));
    InOrderElements(items, LevelSet(plan, m));
    assert plan.levels[m][n] in Elements(plan.levels[m]);
  }

  /** Position i of the flattened levels is position n of level m. */
  lemma {:induction false} FlattenAt(levels: seq<seq<string>>, i: nat) returns (m: nat, n: nat)
    requires i < |Flatten(levels)|
    ensures m < |levels| && n < |levels[m]| && levels[m][n] == Flatten(levels)[i]
    ensures m == 0 ==> n == i
  {
    var front := levels[..|levels| - 1];
    if i < |Flatten(front)| {
      m, n := FlattenAt(front, i);
    } else {
      m, n := |levels| - 1, i - |Flatten(front)|;
    }
  }

  // -------------------------------------------- what every legal log guarantees

  /** No node starts before all its dependencies succeeded. */
  lemma {:induction false} StartsAfterDependencies(plan: Plan, limit: nat, log: seq<Event>, i: nat, x: string)
    requires Legal(plan, limit, log) && i < |log| && log[i] == Started(x)
    ensures x in plan.nodes && forall d :: d in plan.nodes[x].dependsOn ==> Finished(d, true) in log[..i]
  {
    hide FailedIn, RunningIn, StartedIn;
    assert MayFollow(plan, limit, log[..i], log[i]);
    forall d | d in plan.nodes[x].dependsOn ensures Finished(d, true) in log[..i] {
      assert d in PlanGraph(plan)[x];
      assert d in SucceededIn(log[..i]);
    }
  }

  /** No node starts twice. */
  lemma {:induction false} StartsOnce(plan: Plan, limit: nat, log: seq<Event>, i: nat, j: nat)
    requires Legal(plan, limit, log) && i < |log| && j < |log| && i != j && log[i].Started?
    ensures log[j] != log[i]
  {
    hide MayFollow;
    if log[j].Started? {
      if i < j { StartsFresh(plan, limit, log, i, j); } else { StartsFresh(plan, limit, log, j, i); }
    }
  }

  lemma {:induction false} StartsFresh(plan: Plan, limit: nat, log: seq<Event>, i: nat, j: nat)
    requires Legal(plan, limit, log) && i < j < |log| && log[i].Started? && log[j].Started?
    ensures log[i].id != log[j].id
  {
    hide PlanGraph, SucceededIn, FailedIn, RunningIn;
    assert MayFollow(plan, limit, log[..j], log[j]);
    StartedBefore(log, i, j);
  }

  lemma {:induction false} StartedBefore(log: seq<Event>, i: nat, j: nat)
    requires i < j < |log| && log[i].Started?
    ensures log[i].id in StartedIn(log[..j])
  {
    assert log[..j][i] == log[i];
  }

  /** Nothing starts after a failure. */
  lemma {:induction false} NoFailureBeforeStart(plan: Plan, limit: nat, log: seq<Event>, j: nat, i: nat)
    requires Legal(plan, limit, log) && j < i < |log| && log[i].Started? && log[j].Finished?
    ensures log[j].ok
  {
    hide PlanGraph, Startable, RunningIn, FailedIn;
    assert MayFollow(plan, limit, log[..i], log[i]);
    NoFailureBefore(log, j, i);
  }

  /** At no point do more than `limit` nodes run. */
  lemma {:induction false} BoundedParallelism(plan: Plan, limit: nat, log: seq<Event>, n: nat)
    requires Legal(plan, limit, log) && n <= |log|
    ensures |RunningIn(log[..n])| <= limit
    decreases n
  {
    hide StartedIn, SucceededIn, FailedIn, Startable;
    if n == 0 {
      assert log[..0] == [];
      NothingIn();
    } else {
      BoundedParallelism(plan, limit, log, n - 1);
      assert MayFollow(plan, limit, log[..n - 1], log[n - 1]);
      assert log[..n] == log[..n - 1] + [log[n - 1]];
      Appended(log[..n - 1], log[n - 1]);
      RunningBound(RunningIn(log[..n]), RunningIn(log[..n - 1]), log[n - 1]);
    }
  }

  lemma {:induction false} RunningBound(after: set<string>, before: set<string>, e: Event)
    requires after <= before + if e.Started? then {e.id} else {}
    ensures |after| <= |before| + if e.Started? then 1 else 0
  {
    SubsetSize(after, before + if e.Started? then {e.id} else {});
  }

  lemma {:induction false} NoFailureBefore(log: seq<Event>, j: nat, i: nat)
    requires j < i <= |log| && log[j].Finished? && FailedIn(log[..i]) == {}
    ensures log[j].ok
  {
    assert log[..i][j] == log[j];
    assert log[j].id !in FailedIn(log[..i]);
  }

  /** The ready list is closed under dependencies. */
  lemma {:induction false} ReadyIsClosed(plan: Plan, limit: nat, log: seq<Event>, x: string, d: string)
    requires Legal(plan, limit, log) && x in SucceededIn(log) && x in plan.nodes && d in plan.nodes[x].dependsOn
    ensures d in SucceededIn(log)
  {
    var i :| 0 <= i < |log| && log[i] == Finished(x, true);
    assert MayFollow(plan, limit, log[..i], log[i]);
    Earlier(log, i);
    assert x in StartedIn(log[..i]);
    StartedHadDependencies(plan, limit, log, x);
    assert d in PlanGraph(plan)[x];
  }
}
